/** The streaming INI configuration: chunks of text applied as updates to a two-level map. */
module IniStream {
  import opened IniText

  type Data = map<string, map<string, string>>

  /** The map and the section the parser is in ("" before the first header). */
  datatype State = State(data: Data, section: string)

  function SectionOf(d: Data, name: string): map<string, string> {
    if name in d then d[name] else map[]
  }

  function Apply(s: State, c: Command): State {
    match c
    case Nothing => s
    case Section(name) => s.(section := name)
    case Put(key, value) =>
      if s.section == [] then s
      else s.(data := s.data[s.section := SectionOf(s.data, s.section)[key := value]])
    case Drop(key) =>
      if s.section == [] then s
      else s.(data := s.data[s.section := SectionOf(s.data, s.section) - {key}])
  }

  function Run(s: State, cs: seq<Command>): State {
    if cs == [] then s else Apply(Run(s, cs[..|cs| - 1]), cs[|cs| - 1])
  }

  lemma SectionChanges(s: State, c: Command)
    requires c.Section?
    ensures Apply(s, c) == s.(section := c.name)
  {
  }

  /** One chunk; every chunk starts outside any section. */
  function Parsed(d: Data, text: string): Data {
    Run(State(d, []), Commands(Lines(text))).data
  }

  class IniStreamConfig {
    var data: Data

    constructor ()
      ensures data == map[]
    {
      data := map[];
    }

    method Parse(text: string)
      modifies this
      ensures data == Parsed(old(data), text)
    {
      var currentSection := [];
      var lines := Lines(text);
      ghost var cs := Commands(lines);
      for n := 0 to |lines|
        invariant State(data, currentSection) == Run(State(old(data), []), cs[..n])
      {
        assert cs[..n + 1][..n] == cs[..n];
        var c := Meaning(lines[n]);
        hide Apply, Meaning;
        if c.Section? {
          SectionChanges(State(data, currentSection), c);
          currentSection := c.name;
        } else {
          Execute(c, currentSection);
        }
      }
      assert cs[..|lines|] == cs;
    }

    /** A line that is not a header, in the given section. */
    method Execute(c: Command, currentSection: string)
      requires !c.Section?
      modifies this
      ensures State(data, currentSection) == Apply(State(old(data), currentSection), c)
    {
      if c.Nothing? || currentSection == [] {
        return;
      }
      var section := SectionOf(data, currentSection);
      data := data[currentSection := section];
      if c.Drop? {
        if c.key in section {
          data := data[currentSection := section - {c.key}];
        } else {
          assert section - {c.key} == section;
        }
      } else if c.key !in section {
        data := data[currentSection := section[c.key := c.value]];
      } else if section[c.key] != c.value {
        data := data[currentSection := section[c.key := c.value]];
      } else {
        assert section[c.key := c.value] == section;
      }
    }

    /** The section name is normalised, the key is used as given. */
    function Get(section: string, key: string, def: string): string
      reads this
    {
      var s := SectionOf(data, Normalize(section));
      if key in s then s[key] else def
    }

    predicate HasKey(section: string, key: string)
      reads this
    {
      key in SectionOf(data, Normalize(section))
    }

    predicate HasSection(section: string)
      reads this
    {
      Normalize(section) in data
    }
  }

  // ======== the last effective line decides ========

  datatype Effect = Untouched | Value(value: string) | Deleted

  /** The section in force after cs, having begun in `from`. */
  function SectionAfter(cs: seq<Command>, from: string): string {
    if cs == [] then from
    else if cs[|cs| - 1].Section? then cs[|cs| - 1].name else SectionAfter(cs[..|cs| - 1], from)
  }

  predicate KeyLine(c: Command) {
    c.Put? || c.Drop?
  }

  /** The effect of the last line for a key of a section. */
  function LastEffect(cs: seq<Command>, from: string, section: string, key: string): Effect {
    if cs == [] then Untouched
    else
      var c, before := cs[|cs| - 1], cs[..|cs| - 1];
      if KeyLine(c) && c.key == key && SectionAfter(before, from) == section && section != [] then
        match c case Put(_, v) => Value(v) case _ => Deleted
      else LastEffect(before, from, section, key)
  }

  /** Some key line stands in the section. */
  predicate Touched(cs: seq<Command>, from: string, section: string) {
    cs != [] && (Touched(cs[..|cs| - 1], from, section) ||
                 (KeyLine(cs[|cs| - 1]) && section != [] && SectionAfter(cs[..|cs| - 1], from) == section))
  }

  /** What the map says about a key. */
  function Lookup(d: Data, section: string, key: string): Effect {
    var s := SectionOf(d, section);
    if key in s then Value(s[key]) else Deleted
  }

  /** For each section and key the last effective line of the chunk decides its value or
      deletion; without one it keeps what it had.  Sections appear with their first key
      line and never vanish. */
  lemma {:induction false} LastLineDecides(d: Data, from: string, cs: seq<Command>, section: string, key: string)
    ensures var e := Run(State(d, from), cs);
            && e.section == SectionAfter(cs, from)
            && (section in e.data <==> section in d || Touched(cs, from, section))
            && Lookup(e.data, section, key) ==
                 (if LastEffect(cs, from, section, key).Untouched? then Lookup(d, section, key)
                  else LastEffect(cs, from, section, key))
  {
    if cs != [] {
      LastLineDecides(d, from, cs[..|cs| - 1], section, key);
      ApplyLooksUp(Run(State(d, from), cs[..|cs| - 1]), cs[|cs| - 1], section, key);
      hide Apply, Lookup;
    }
  }

  lemma ApplyLooksUp(s: State, c: Command, section: string, key: string)
    ensures var e := Apply(s, c);
            && e.section == (if c.Section? then c.name else s.section)
            && (section in e.data <==> section in s.data || (KeyLine(c) && section != [] && s.section == section))
            && Lookup(e.data, section, key) ==
                 if KeyLine(c) && c.key == key && s.section == section && section != []
                 then (match c case Put(_, v) => Value(v) case _ => Deleted)
                 else Lookup(s.data, section, key)
  {
  }

  /** A map is known by its sections and its lookups. */
  lemma SameData(a: Data, b: Data)
    requires forall s: string :: s in a <==> s in b
    requires forall s: string, k: string :: s in a ==> Lookup(a, s, k) == Lookup(b, s, k)
    ensures a == b
  {
    forall s: string | s in a
      ensures a[s] == b[s]
    {
      forall k: string
        ensures (k in a[s] <==> k in b[s]) && (k in a[s] ==> a[s][k] == b[s][k])
      {
        assert Lookup(a, s, k) == Lookup(b, s, k);
      }
    }
  }

  /** Parsing the same chunk again changes nothing. */
  lemma ParseIsIdempotent(d: Data, text: string)
    ensures Parsed(Parsed(d, text), text) == Parsed(d, text)
  {
    var cs := Commands(Lines(text));
    var e, f := Parsed(d, text), Parsed(Parsed(d, text), text);
    forall s: string, k: string
      ensures (s in e <==> s in f) && Lookup(e, s, k) == Lookup(f, s, k)
    {
      LastLineDecides(d, [], cs, s, k);
      LastLineDecides(e, [], cs, s, k);
    }
    forall s: string
      ensures s in e <==> s in f
    {
      assert Lookup(e, s, []) == Lookup(f, s, []);
    }
    SameData(e, f);
  }

  // ======== chunks against one text ========

  lemma {:induction false} RunJoin(s: State, a: seq<Command>, b: seq<Command>)
    ensures Run(s, a + b) == Run(Run(s, a), b)
  {
    if b == [] {
      assert a + b == a;
    } else {
      RunJoin(s, a, b[..|b| - 1]);
      assert (a + b)[..|a + b| - 1] == a + b[..|b| - 1];
    }
  }

  /** No key line stands before the first section header. */
  predicate HeaderFirst(cs: seq<Command>) {
    cs == [] || cs[0].Section? || (!KeyLine(cs[0]) && HeaderFirst(cs[1..]))
  }

  /** Up to the first header the section in force does not matter. */
  lemma {:induction false} SectionForgotten(d: Data, from: string, cs: seq<Command>)
    requires HeaderFirst(cs)
    ensures Run(State(d, from), cs).data == Run(State(d, []), cs).data
  {
    if cs != [] {
      assert cs == [cs[0]] + cs[1..];
      RunJoin(State(d, from), [cs[0]], cs[1..]);
      RunJoin(State(d, []), [cs[0]], cs[1..]);
      assert [cs[0]][..0] == [];
      assert Run(State(d, from), [cs[0]]) == Apply(State(d, from), cs[0]);
      assert Run(State(d, []), [cs[0]]) == Apply(State(d, []), cs[0]);
      if !cs[0].Section? {
        SectionForgotten(d, from, cs[1..]);
      }
    }
  }

  /** Every header name in cs is shorter than n. */
  predicate ShortNames(cs: seq<Command>, n: nat) {
    forall i :: 0 <= i < |cs| ==> cs[i].Section? ==> |cs[i].name| < n
  }

  lemma {:induction false} SectionAfterShort(cs: seq<Command>, n: nat)
    requires ShortNames(cs, n) && n > 0
    ensures |SectionAfter(cs, [])| < n
  {
    if cs != [] && !cs[|cs| - 1].Section? {
      SectionAfterShort(cs[..|cs| - 1], n);
    }
  }

  lemma {:induction false} LongNameUntouched(cs: seq<Command>, name: string)
    requires ShortNames(cs, |name|)
    ensures !Touched(cs, [], name)
  {
    if cs != [] && name != [] {
      LongNameUntouched(cs[..|cs| - 1], name);
      SectionAfterShort(cs[..|cs| - 1], |name|);
    } else if cs != [] {
      LongNameUntouched(cs[..|cs| - 1], name);
    }
  }

  lemma {:induction false} LeadingKeyTouches(cs: seq<Command>, name: string)
    requires !HeaderFirst(cs) && name != []
    ensures Touched(cs, name, name)
  {
    var i := FirstKey(cs);
    TouchedPrefix(cs, i, name);
  }

  /** The position of the key line that comes before any header. */
  lemma {:induction false} FirstKey(cs: seq<Command>) returns (i: nat)
    requires !HeaderFirst(cs)
    ensures i < |cs| && KeyLine(cs[i]) && forall j :: 0 <= j < i ==> !cs[j].Section?
  {
    if KeyLine(cs[0]) {
      i := 0;
    } else {
      var j := FirstKey(cs[1..]);
      i := j + 1;
    }
  }

  lemma {:induction false} SectionStays(cs: seq<Command>, name: string)
    requires forall j :: 0 <= j < |cs| ==> !cs[j].Section?
    ensures SectionAfter(cs, name) == name
  {
    if cs != [] {
      SectionStays(cs[..|cs| - 1], name);
    }
  }

  lemma {:induction false} TouchedPrefix(cs: seq<Command>, i: nat, name: string)
    requires i < |cs| && KeyLine(cs[i]) && name != [] && forall j :: 0 <= j < i ==> !cs[j].Section?
    ensures Touched(cs, name, name)
  {
    var n := |cs| - 1;
    if i == n {
      SectionStays(cs[..n], name);
    } else {
      TouchedPrefix(cs[..n], i, name);
    }
  }

  lemma TextNamesShort(text: string)
    ensures ShortNames(Commands(Lines(text)), |text| + 1)
  {
    LinesAreShort(text, []);
    var ls := Lines(text);
    forall i | 0 <= i < |ls| && Meaning(ls[i]).Section?
      ensures |Meaning(ls[i]).name| < |text| + 1
    {
      assert ls[i] in ls;
      SectionIsShort(ls[i]);
    }
  }

  /** The chunk b composes: after any text, in any state, parsing it as its own chunk is
      the same as having it behind a line feed in one chunk. */
  ghost predicate Composes(b: string) {
    forall d: Data, a: string :: Parsed(Parsed(d, a), b) == Parsed(d, a + ['\n'] + b)
  }

  lemma JoinedIsRun(d: Data, a: string, b: string)
    ensures Parsed(d, a + ['\n'] + b) ==
            Run(State(Parsed(d, a), SectionAfter(Commands(Lines(a)), [])), Commands(Lines(b))).data
  {
    CommandsJoin(a, b);
    RunJoin(State(d, []), Commands(Lines(a)), Commands(Lines(b)));
    LastLineDecides(d, [], Commands(Lines(a)), [], []);
  }

  /** Updates compose exactly when the second chunk has no key line before its first
      section header. */
  lemma ComposesIffHeaderFirst(b: string)
    ensures Composes(b) <==> HeaderFirst(Commands(Lines(b)))
  {
    var cs := Commands(Lines(b));
    if HeaderFirst(cs) {
      forall d: Data, a: string
        ensures Parsed(Parsed(d, a), b) == Parsed(d, a + ['\n'] + b)
      {
        JoinedIsRun(d, a, b);
        SectionForgotten(Parsed(d, a), SectionAfter(Commands(Lines(a)), []), cs);
      }
    } else {
      var name := Name(|b| + 1);
      var a := ['['] + name + [']'];
      HeaderOfName(|b| + 1);
      assert Commands(Lines(a))[..0] == [];
      assert SectionAfter([Section(name)], []) == name;
      assert Parsed(map[], a) == map[] by {
        LastLineDecides(map[], [], [], [], []);
        assert Run(State(map[], []), [Section(name)]) == Apply(Run(State(map[], []), []), Section(name));
      }
      JoinedIsRun(map[], a, b);
      LeadingKeyTouches(cs, name);
      LastLineDecides(map[], name, cs, name, []);
      TextNamesShort(b);
      LongNameUntouched(cs, name);
      LastLineDecides(map[], [], cs, name, []);
      assert Parsed(Parsed(map[], a), b) != Parsed(map[], a + ['\n'] + b);
    }
  }

  // ======== keys are stored in lower case ========

  predicate Normal(d: Data) {
    forall s :: s in d ==> Normalize(s) == s && forall k :: k in d[s] ==> Normalize(k) == k
  }

  lemma MeaningNormal(line: string)
    ensures var c := Meaning(line);
            && (c.Section? ==> Normalize(c.name) == c.name) && (KeyLine(c) ==> Normalize(c.key) == c.key)
  {
    var s := Trimmed(line);
    IndexOfRange(s, '=');
    if |s| >= 2 {
      NormalizeTwice(Trimmed(s[1..|s| - 1]));
    }
    if IndexOf(s, '=') >= 0 {
      NormalizeTwice(Trimmed(s[..IndexOf(s, '=')]));
    }
    hide Trimmed, Normalize, IndexOf, Unquoted;
  }

  lemma {:induction false} RunNormal(d: Data, lines: seq<string>)
    requires Normal(d)
    ensures var e := Run(State(d, []), Commands(lines)); Normal(e.data) && Normalize(e.section) == e.section
  {
    if lines != [] {
      var n := |lines| - 1;
      RunNormal(d, lines[..n]);
      assert Commands(lines)[..n] == Commands(lines[..n]);
      MeaningNormal(lines[n]);
      hide Normalize, Meaning;
    }
  }

  /** Sections and keys are always stored normalised, so a lookup by a key that is not in
      lower case never finds anything. */
  lemma MixedCaseKeyNeverFound(d: Data, text: string, section: string, key: string)
    requires Normal(d) && Normalize(key) != key
    ensures Normal(Parsed(d, text)) && key !in SectionOf(Parsed(d, text), section)
  {
    RunNormal(d, Lines(text));
  }

  /** A lookup by key as given agrees with the lookup by the key in lower case if and only
      if the key is in lower case already or is not stored at all. */
  lemma KeysAreLookedUpAsGiven(c: IniStreamConfig, section: string, key: string)
    requires Normal(c.data)
    ensures (c.HasKey(section, key) <==> c.HasKey(section, Normalize(key))) <==>
              Normalize(key) == key || !c.HasKey(section, Normalize(key))
    ensures (forall def :: c.Get(section, key, def) == c.Get(section, Normalize(key), def)) <==>
              Normalize(key) == key || !c.HasKey(section, Normalize(key))
  {
    var s := SectionOf(c.data, Normalize(section));
    if Normalize(key) != key && Normalize(key) in s {
      var other := s[Normalize(key)] + "x";
      assert c.Get(section, key, other) == other;
      assert c.Get(section, Normalize(key), other) != other;
    }
  }

  /** Section names, in contrast, may be given in any case. */
  lemma SectionsAreLookedUpInAnyCase(c: IniStreamConfig, section: string, key: string, def: string)
    ensures c.Get(section, key, def) == c.Get(Normalize(section), key, def)
    ensures c.HasKey(section, key) == c.HasKey(Normalize(section), key)
    ensures c.HasSection(section) == c.HasSection(Normalize(section))
  {
    NormalizeTwice(section);
    hide Normalize;
  }

  /** The key of "Key=1" is stored as "key" alone, so it is not found as "Key". */
  lemma MixedCaseKeyIsLost()
    ensures Parsed(map[], "[a]\nKey=1") == map["a" := map["key" := "1"]]
    ensures var s := SectionOf(Parsed(map[], "[a]\nKey=1"), "a"); "key" in s && "Key" !in s
  {
    TwoCommands();
    hide Commands, Lines;
    var cs := [Section("a"), Put("key", "1")];
    assert cs[..1] == [Section("a")] && cs[..1][..0] == [];
    assert Run(State(map[], []), cs[..1]) == State(map[], "a");
  }

  lemma TwoCommands()
    ensures Commands(Lines("[a]\nKey=1")) == [Section("a"), Put("key", "1")]
  {
    hide Meaning, Lines, Commands;
    HeaderA();
    KeyLineOne();
    TwoLines("[a]", "Key=1");
    assert "[a]" + ['\n'] + "Key=1" == "[a]\nKey=1";
  }

  lemma TwoLines(a: string, b: string)
    requires a != [] && b != [] && '\n' !in a && '\n' !in b
    ensures Commands(Lines(a + ['\n'] + b)) == [Meaning(a), Meaning(b)]
  {
    CommandsJoin(a, b);
    OneLine(a, []);
    OneLine(b, []);
    assert [] + a == a && [] + b == b;
    hide Meaning;
  }

  lemma HeaderA()
    ensures Meaning("[a]") == Section("a")
  {
    MeaningOfHeader("[a]");
    assert "[a]"[1..2] == "a";
    TrimKeeps("a");
    assert Normalize("a") == "a";
  }

  lemma KeyLineOne()
    ensures Meaning("Key=1") == Put("key", "1")
  {
    var s := "Key=1";
    TrimKeeps(s);
    assert s[1..] == "ey=1" && "ey=1"[1..] == "y=1" && "y=1"[1..] == "=1";
    assert IndexOf("=1", '=') == 0 && IndexOf("y=1", '=') == 1 && IndexOf("ey=1", '=') == 2;
    assert IndexOf(s, '=') == 3;
    assert s[..3] == "Key" && s[4..] == "1";
    TrimKeeps("Key");
    TrimKeeps("1");
    assert Normalize("Key") == "key";
    hide Trimmed, IndexOf, Normalize;
  }
}
