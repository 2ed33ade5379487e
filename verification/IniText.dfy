/** Lines of INI text and the commands they stand for. */
module IniText {

  /** White space that trimming removes; text is taken as already decoded. */
  predicate IsSpace(c: char) {
    || c == ' ' || '\t' <= c <= '\r' || c == '\U{85}' || c == '\U{A0}'
    || c == '\U{1680}' || '\U{2000}' <= c <= '\U{200A}' || c == '\U{2028}' || c == '\U{2029}'
    || c == '\U{202F}' || c == '\U{205F}' || c == '\U{3000}'
  }

  function TrimLeft(s: string): string {
    if s != [] && IsSpace(s[0]) then TrimLeft(s[1..]) else s
  }

  function TrimRight(s: string): string {
    if s != [] && IsSpace(s[|s| - 1]) then TrimRight(s[..|s| - 1]) else s
  }

  function Trimmed(s: string): string {
    TrimRight(TrimLeft(s))
  }

  function Lower(c: char): char {
    if 'A' <= c <= 'Z' then (c as int + 32) as char else c
  }

  /** normalize: lower case. */
  function Normalize(s: string): (r: string)
    ensures |r| == |s|
  {
    seq(|s|, i requires 0 <= i < |s| => Lower(s[i]))
  }

  lemma NormalizeTwice(s: string)
    ensures Normalize(Normalize(s)) == Normalize(s)
  {
  }

  /** What a line does: nothing, open a section, set a key, or delete one. */
  datatype Command = Nothing | Section(name: string) | Put(key: string, value: string) | Drop(key: string)

  function IndexOf(s: string, c: char): int {
    if s == [] then -1 else if s[0] == c then 0
    else
      var r := IndexOf(s[1..], c);
      if r < 0 then -1 else r + 1
  }

  lemma {:induction false} IndexOfRange(s: string, c: char)
    ensures -1 <= IndexOf(s, c) < |s|
  {
    if s != [] && s[0] != c {
      IndexOfRange(s[1..], c);
    }
  }

  function Unquoted(v: string): string {
    if |v| >= 2 && v[0] == '"' && v[|v| - 1] == '"' then v[1..|v| - 1] else v
  }

  function Meaning(line: string): Command {
    var s := Trimmed(line);
    if s == [] || s[0] == ';' || s[0] == '#' then Nothing
    else if s[0] == '[' && s[|s| - 1] == ']' then Section(Normalize(Trimmed(s[1..|s| - 1])))
    else
      IndexOfRange(s, '=');
      var eq := IndexOf(s, '=');
      if eq < 0 then Nothing
      else
        var key, val := Normalize(Trimmed(s[..eq])), Trimmed(s[eq + 1..]);
        if val == [] then Drop(key) else Put(key, Unquoted(val))
  }

  /** The text cut at line feeds, empty parts skipped; `part` is the line so far. */
  function LinesFrom(text: string, part: string): seq<string> {
    if text == [] then (if part == [] then [] else [part])
    else if text[0] == '\n' then (if part == [] then [] else [part]) + LinesFrom(text[1..], [])
    else LinesFrom(text[1..], part + [text[0]])
  }

  function Lines(text: string): seq<string> {
    LinesFrom(text, [])
  }

  function Commands(lines: seq<string>): seq<Command> {
    seq(|lines|, i requires 0 <= i < |lines| => Meaning(lines[i]))
  }

  lemma {:induction false} LinesFromJoin(a: string, b: string, part: string)
    ensures LinesFrom(a + ['\n'] + b, part) == LinesFrom(a, part) + LinesFrom(b, [])
    decreases |a|
  {
    var t := a + ['\n'] + b;
    if a == [] {
      assert t[0] == '\n' && t[1..] == b;
    } else {
      assert t[0] == a[0] && t[1..] == a[1..] + ['\n'] + b;
      if a[0] == '\n' {
        LinesFromJoin(a[1..], b, []);
      } else {
        LinesFromJoin(a[1..], b, part + [a[0]]);
      }
    }
  }

  /** Joining two texts by a line feed joins their commands. */
  lemma CommandsJoin(a: string, b: string)
    ensures Commands(Lines(a + ['\n'] + b)) == Commands(Lines(a)) + Commands(Lines(b))
  {
    LinesFromJoin(a, b, []);
  }

  // ======== sizes ========

  lemma {:induction false} TrimLeftShrinks(s: string)
    ensures |TrimLeft(s)| <= |s|
  {
    if s != [] && IsSpace(s[0]) {
      TrimLeftShrinks(s[1..]);
    }
  }

  lemma {:induction false} TrimRightShrinks(s: string)
    ensures |TrimRight(s)| <= |s|
  {
    if s != [] && IsSpace(s[|s| - 1]) {
      TrimRightShrinks(s[..|s| - 1]);
    }
  }

  lemma TrimmedShrinks(s: string)
    ensures |Trimmed(s)| <= |s|
  {
    TrimLeftShrinks(s);
    TrimRightShrinks(TrimLeft(s));
  }

  lemma {:induction false} LinesAreShort(text: string, part: string)
    ensures forall l :: l in LinesFrom(text, part) ==> |l| <= |part| + |text|
    decreases |text|
  {
    if text != [] {
      LinesAreShort(text[1..], if text[0] == '\n' then [] else part + [text[0]]);
    }
  }

  /** A section name is no longer than the text it stands in. */
  lemma SectionIsShort(line: string)
    ensures Meaning(line).Section? ==> |Meaning(line).name| <= |line|
  {
    TrimmedShrinks(line);
    var s := Trimmed(line);
    if |s| >= 2 {
      TrimmedShrinks(s[1..|s| - 1]);
    }
    IndexOfRange(s, '=');
    hide Trimmed, IndexOf, Normalize;
  }

  // ======== names that do not occur ========

  function Name(n: nat): (r: string)
    ensures |r| == n && forall i :: 0 <= i < n ==> r[i] == 'x'
  {
    seq(n, _ => 'x')
  }

  lemma TrimKeeps(s: string)
    requires s != [] && !IsSpace(s[0]) && !IsSpace(s[|s| - 1])
    ensures Trimmed(s) == s
  {
  }

  lemma NameIsPlain(n: nat)
    requires n > 0
    ensures Trimmed(Name(n)) == Name(n) && Normalize(Name(n)) == Name(n) && '\n' !in Name(n)
  {
    TrimKeeps(Name(n));
  }

  lemma MeaningOfHeader(h: string)
    requires |h| >= 2 && h[0] == '[' && h[|h| - 1] == ']'
    ensures Meaning(h) == Section(Normalize(Trimmed(h[1..|h| - 1])))
  {
    TrimKeeps(h);
    hide Trimmed, Normalize;
  }

  lemma HeaderOfName(n: nat)
    requires n > 0
    ensures Commands(Lines(['['] + Name(n) + [']'])) == [Section(Name(n))]
  {
    var name := Name(n);
    NameIsPlain(n);
    hide Name, Normalize, Meaning, Trimmed;
    var h := ['['] + name + [']'];
    OneLine(h, []);
    assert h[1..|h| - 1] == name;
    MeaningOfHeader(h);
    assert [] + h == h;
    assert Lines(h) == [h];
  }

  lemma {:induction false} OneLine(t: string, part: string)
    requires '\n' !in t && (part != [] || t != [])
    ensures LinesFrom(t, part) == [part + t]
    decreases |t|
  {
    if t == [] {
      assert part + t == part;
    } else {
      assert t[0] in t;
      OneLine(t[1..], part + [t[0]]);
      assert part + [t[0]] + t[1..] == part + t;
    }
  }
}
