/** What the lines of a chunk mean, read from their layout alone: white space, a comment
    mark, a bracketed name, or a key, an equals sign and a value. */
module IniMeaning {
  import opened IniText
  import opened IniStream

  // ======== trimming ========

  predicate Blank(s: string) {
    forall c <- s :: IsSpace(c)
  }

  /** No white space at either end. */
  predicate Tight(s: string) {
    s == [] || (!IsSpace(s[0]) && !IsSpace(s[|s| - 1]))
  }

  lemma {:induction false} LeftDropped(l: string, s: string)
    requires Blank(l) && (s == [] || !IsSpace(s[0]))
    ensures TrimLeft(l + s) == s
  {
    if l == [] {
      assert l + s == s;
    } else {
      assert l[0] in l && (l + s)[1..] == l[1..] + s;
      LeftDropped(l[1..], s);
    }
  }

  lemma {:induction false} RightDropped(s: string, r: string)
    requires Blank(r) && (s == [] || !IsSpace(s[|s| - 1]))
    ensures TrimRight(s + r) == s
  {
    if r == [] {
      assert s + r == s;
    } else {
      var n := |r| - 1;
      assert r[n] in r && (s + r)[..|s + r| - 1] == s + r[..n];
      RightDropped(s, r[..n]);
    }
  }

  lemma {:induction false} AllDropped(l: string)
    requires Blank(l)
    ensures TrimLeft(l) == []
  {
    LeftDropped(l, []);
    assert l + [] == l;
  }

  /** Trimming takes off the white space at the two ends and nothing else. */
  lemma TrimmedIs(l: string, m: string, r: string)
    requires Blank(l) && Tight(m) && Blank(r)
    ensures Trimmed(l + m + r) == m
  {
    if m == [] {
      assert l + m + r == l + r;
      AllDropped(l + r);
    } else {
      assert l + m + r == l + (m + r);
      LeftDropped(l, m + r);
      RightDropped(m, r);
    }
  }

  lemma {:induction false} LeftSplits(s: string) returns (l: string)
    ensures Blank(l) && s == l + TrimLeft(s) && (TrimLeft(s) == [] || !IsSpace(TrimLeft(s)[0]))
  {
    l := [];
    if s != [] && IsSpace(s[0]) {
      var rest := LeftSplits(s[1..]);
      l := [s[0]] + rest;
    }
  }

  lemma {:induction false} RightSplits(s: string) returns (r: string)
    ensures Blank(r) && s == TrimRight(s) + r && (TrimRight(s) == [] || !IsSpace(TrimRight(s)[|TrimRight(s)| - 1]))
  {
    r := [];
    if s != [] && IsSpace(s[|s| - 1]) {
      var rest := RightSplits(s[..|s| - 1]);
      r := rest + [s[|s| - 1]];
    }
  }

  /** Every text is white space, its trimmed form, and white space. */
  lemma TrimSplits(s: string) returns (l: string, r: string)
    ensures Blank(l) && Blank(r) && s == l + Trimmed(s) + r && Tight(Trimmed(s))
  {
    l := LeftSplits(s);
    r := RightSplits(TrimLeft(s));
    var m := Trimmed(s);
    assert m != [] ==> m[0] == TrimLeft(s)[0];
    hide TrimLeft, TrimRight;
    assert s == l + m + r;
  }

  // ======== the parts of a line ========

  /** The first equals sign is found. */
  lemma {:induction false} FirstIsFound(k: string, c: char, v: string)
    requires c !in k
    ensures IndexOf(k + [c] + v, c) == |k|
  {
    var s := k + [c] + v;
    if k != [] {
      assert s[0] == k[0] && k[0] in k && s[1..] == k[1..] + [c] + v;
      FirstIsFound(k[1..], c, v);
    }
  }

  lemma {:induction false} NoneIsFound(s: string, c: char)
    requires c !in s
    ensures IndexOf(s, c) == -1
  {
    if s != [] {
      assert s[0] in s;
      NoneIsFound(s[1..], c);
    }
  }

  /** Lower case replaces the n-th capital by the n-th small letter. */
  lemma LowerCase(s: string, i: nat, n: nat)
    requires i < |s|
    ensures n < 26 && s[i] as int == 'A' as int + n ==> Normalize(s)[i] as int == 'a' as int + n
    ensures !('A' <= s[i] <= 'Z') ==> Normalize(s)[i] == s[i]
  {
  }

  function Quoted(w: string): string {
    ['"'] + w + ['"']
  }

  predicate HasQuotes(v: string) {
    |v| >= 2 && v[0] == '"' && v[|v| - 1] == '"'
  }

  // ======== what a line means ========

  lemma NothingMeant(line: string)
    requires Trimmed(line) == [] || Trimmed(line)[0] == ';' || Trimmed(line)[0] == '#'
    ensures Meaning(line) == Nothing
  {
  }

  lemma {:induction false} HeadKept(s: string)
    requires s != [] && !IsSpace(s[0])
    ensures TrimRight(s) != [] && TrimRight(s)[0] == s[0]
  {
    if IsSpace(s[|s| - 1]) {
      HeadKept(s[..|s| - 1]);
    }
  }

  lemma CommentMeans(l: string, mark: char, rest: string)
    requires Blank(l) && (mark == ';' || mark == '#')
    ensures Meaning(l + [mark] + rest) == Nothing
  {
    var s := [mark] + rest;
    assert l + [mark] + rest == l + s;
    LeftDropped(l, s);
    HeadKept(s);
    hide TrimLeft, TrimRight;
    NothingMeant(l + s);
  }

  lemma BlankMeans(line: string)
    requires Blank(line)
    ensures Meaning(line) == Nothing
  {
    TrimmedIs(line, [], []);
    assert line + [] + [] == line;
  }

  /** A bracketed name opens its section. */
  lemma HeaderMeans(l: string, b: string, name: string, c: string, r: string)
    requires Blank(l) && Blank(b) && Tight(name) && Blank(c) && Blank(r)
    ensures Meaning(l + (['['] + (b + name + c) + [']']) + r) == Section(Normalize(name))
  {
    var inner := b + name + c;
    var h := ['['] + inner + [']'];
    TrimmedIs(l, h, r);
    TrimmedIs(b, name, c);
    assert h[1..|h| - 1] == inner;
    hide Trimmed, Normalize;
  }

  lemma NoEqualsMeans(line: string)
    requires '=' !in line && !(Trimmed(line) != [] && Trimmed(line)[0] == '[')
    ensures Meaning(line) == Nothing
  {
    var l, r := TrimSplits(line);
    var s := Trimmed(line);
    assert forall c <- s :: c in l + s + r;
    NoneIsFound(s, '=');
    hide Trimmed;
  }

  /** A key line is not a comment and not a header. */
  predicate PlainKey(key: string, val: string) {
    && Tight(key) && Tight(val) && '=' !in key
    && (key != [] ==> key[0] != ';' && key[0] != '#')
    && !(key != [] && key[0] == '[' && val != [] && val[|val| - 1] == ']')
  }

  /** A key, an equals sign and a value, in any white space. */
  function KeyText(a: string, key: string, b: string, c: string, val: string, d: string): string {
    a + key + b + ['='] + c + val + d
  }

  /** What trimming leaves of a key line, up to and behind the equals sign. */
  lemma KeyTextTrimmed(a: string, key: string, b: string, c: string, val: string, d: string)
    returns (k: string, v: string)
    requires Blank(a) && Blank(b) && Blank(c) && Blank(d) && Tight(key) && Tight(val)
    ensures Trimmed(KeyText(a, key, b, c, val, d)) == k + ['='] + v
    ensures k == (if key == [] then [] else key + b) && v == (if val == [] then [] else c + val)
  {
    k := if key == [] then [] else key + b;
    v := if val == [] then [] else c + val;
    var l := if key == [] then a + b else a;
    var r := if val == [] then c + d else d;
    var m := k + ['='] + v;
    assert KeyText(a, key, b, c, val, d) == l + m + r;
    TrimmedIs(l, m, r);
  }

  lemma KeyOfLine(key: string, b: string)
    requires Tight(key) && Blank(b) && '=' !in key
    ensures var k := if key == [] then [] else key + b; Trimmed(k) == key && '=' !in k
  {
    if key == [] {
      TrimmedIs([], [], []);
    } else {
      TrimmedIs([], key, b);
      assert [] + key + b == key + b;
    }
  }

  lemma ValueOfLine(c: string, val: string)
    requires Tight(val) && Blank(c)
    ensures Trimmed(if val == [] then [] else c + val) == val
  {
    if val == [] {
      TrimmedIs([], [], []);
    } else {
      TrimmedIs(c, val, []);
      assert c + val + [] == c + val;
    }
  }

  /** What the trimmed parts of a line mean. */
  lemma PartsMean(line: string, k: string, v: string)
    requires Trimmed(line) == k + ['='] + v && '=' !in k
    requires k != [] ==> k[0] != ';' && k[0] != '#'
    requires !(k != [] && k[0] == '[' && v != [] && v[|v| - 1] == ']')
    ensures Meaning(line) == if Trimmed(v) == [] then Drop(Normalize(Trimmed(k)))
                             else Put(Normalize(Trimmed(k)), Unquoted(Trimmed(v)))
  {
    var s := k + ['='] + v;
    FirstIsFound(k, '=', v);
    assert s[..|k|] == k && s[|k| + 1..] == v;
    hide Trimmed, Normalize, Unquoted, IndexOf;
    assert s[0] == if k == [] then '=' else k[0];
    assert s[|s| - 1] == if v == [] then '=' else v[|v| - 1];
  }

  /** A key line without a value deletes the key; with one it sets the key to the value,
      whose surrounding quotes are taken off. */
  lemma KeyLineMeans(a: string, key: string, b: string, c: string, val: string, d: string)
    requires Blank(a) && Blank(b) && Blank(c) && Blank(d) && PlainKey(key, val)
    ensures var m := Meaning(KeyText(a, key, b, c, val, d));
            && (val == [] ==> m == Drop(Normalize(key)))
            && (forall w :: val == Quoted(w) ==> m == Put(Normalize(key), w))
            && (val != [] && !HasQuotes(val) ==> m == Put(Normalize(key), val))
  {
    var line := KeyText(a, key, b, c, val, d);
    var k, v := KeyTextTrimmed(a, key, b, c, val, d);
    KeyOfLine(key, b);
    ValueOfLine(c, val);
    assert val != [] ==> v[|v| - 1] == val[|val| - 1];
    PartsMean(line, k, v);
    forall w | val == Quoted(w)
      ensures Unquoted(val) == w
    {
      assert val[1..|val| - 1] == w;
    }
    hide Meaning, Trimmed, Normalize, KeyText;
  }

  /** A line as an editor may leave it: indented, spaced, quoted, with a carriage return. */
  lemma QuotedLineMeans()
    ensures Meaning("\t Key = \" 1\" \r") == Put("key", " 1")
  {
    var line := KeyText("\t ", "Key", " ", " ", "\" 1\"", " \r");
    assert line == "\t Key = \" 1\" \r";
    assert "\" 1\"" == Quoted(" 1");
    assert Normalize("Key") == "key";
    KeyLineMeans("\t ", "Key", " ", " ", "\" 1\"", " \r");
    hide Meaning, KeyText, Normalize;
  }

  // ======== whole chunks ========

  /** A section header and one line behind it. */
  lemma HeaderAndLine(d: Data, name: string, line: string)
    requires Tight(name) && '\n' !in name && line != [] && '\n' !in line
    ensures Parsed(d, (['['] + name + [']']) + ['\n'] + line)
         == Apply(State(d, Normalize(name)), Meaning(line)).data
  {
    var h := ['['] + name + [']'];
    TwoLines(h, line);
    assert [] + (['['] + ([] + name + []) + [']']) + [] == h;
    HeaderMeans([], [], name, [], []);
    RunOfTwo(d, Normalize(name), Meaning(line));
    hide Meaning, Normalize, Lines, Commands, Run, Apply;
  }

  lemma RunOfTwo(d: Data, name: string, c: Command)
    ensures Run(State(d, []), [Section(name), c]) == Apply(State(d, name), c)
  {
    var cs := [Section(name), c];
    assert cs[..1] == [Section(name)] && cs[..1][..0] == [];
    assert Run(State(d, []), cs[..1]) == State(d, name);
  }

  lemma KeyTextOneLine(key: string, c: string, val: string)
    requires '\n' !in key && '\n' !in c && '\n' !in val
    ensures var t := KeyText([], key, [], c, val, []); t != [] && '\n' !in t && t == key + ['='] + c + val
  {
    var t := KeyText([], key, [], c, val, []);
    assert t == key + ['='] + c + val;
    assert t[|key|] == '=';
  }

  /** A chunk that names a section and gives a key there no value, or white space only,
      removes that key from that section and leaves everything else as it was. */
  lemma EmptyValueDeletes(d: Data, name: string, key: string, pad: string)
    requires Tight(name) && name != [] && '\n' !in name
    requires PlainKey(key, []) && '\n' !in key && Blank(pad) && '\n' !in pad
    ensures var section, text := Normalize(name), (['['] + name + [']']) + ['\n'] + (key + ['='] + pad);
            Parsed(d, text) == d[section := SectionOf(d, section) - {Normalize(key)}]
  {
    KeyTextOneLine(key, pad, []);
    assert key + ['='] + pad + [] == key + ['='] + pad;
    KeyLineMeans([], key, [], pad, [], []);
    HeaderAndLine(d, name, key + ['='] + pad);
    hide Parsed, Normalize, KeyText, Meaning, PlainKey;
  }

  /** The same with a value stores it, without its surrounding quotes. */
  lemma ValueIsStored(d: Data, name: string, key: string, val: string, w: string)
    requires Tight(name) && name != [] && '\n' !in name
    requires PlainKey(key, val) && '\n' !in key && '\n' !in val && val != []
    requires val == Quoted(w) || (val == w && !HasQuotes(w))
    ensures var section, text := Normalize(name), (['['] + name + [']']) + ['\n'] + (key + ['='] + val);
            Parsed(d, text) == d[section := SectionOf(d, section)[Normalize(key) := w]]
  {
    KeyTextOneLine(key, [], val);
    assert key + ['='] + [] + val == key + ['='] + val;
    KeyLineMeans([], key, [], [], val, []);
    HeaderAndLine(d, name, key + ['='] + val);
    hide Parsed, Normalize, KeyText, Meaning, PlainKey;
  }

  /** What was stored is found and what was deleted is not; the section is there either way. */
  lemma StoredIsFound(c: IniStreamConfig, d: Data, name: string, key: string, val: string, w: string, def: string)
    requires Tight(name) && name != [] && '\n' !in name
    requires PlainKey(key, val) && '\n' !in key && '\n' !in val && val != []
    requires val == Quoted(w) || (val == w && !HasQuotes(w))
    requires c.data == Parsed(d, (['['] + name + [']']) + ['\n'] + (key + ['='] + val))
    ensures c.HasSection(name) && c.HasKey(name, Normalize(key)) && c.Get(name, Normalize(key), def) == w
  {
    ValueIsStored(d, name, key, val, w);
    hide Parsed, Normalize, PlainKey;
  }

  lemma DeletedIsNotFound(c: IniStreamConfig, d: Data, name: string, key: string, pad: string, def: string)
    requires Tight(name) && name != [] && '\n' !in name
    requires PlainKey(key, []) && '\n' !in key && Blank(pad) && '\n' !in pad
    requires c.data == Parsed(d, (['['] + name + [']']) + ['\n'] + (key + ['='] + pad))
    ensures c.HasSection(name) && !c.HasKey(name, Normalize(key)) && c.Get(name, Normalize(key), def) == def
  {
    EmptyValueDeletes(d, name, key, pad);
    hide Parsed, Normalize, PlainKey;
  }
}
