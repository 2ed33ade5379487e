/** The increment validator: errors between adjacent values, and reports that together
    are a lossless account of what was read. */
module IncValidator {
  import opened Basics

  /** A printed run of incrementing values, or of zeros. */
  datatype Report = Run(start: int, count: nat, end: int) | Zeros(start: int, count: nat)

  function Value(lo: octet, hi: octet): uint16 {
    lo + 256 * hi
  }

  /** The complete little-endian values of a file. */
  function Values(data: seq<octet>, n: nat): (vs: seq<uint16>)
    requires 2 * n <= |data|
    ensures |vs| == n && forall i :: 0 <= i < n ==> vs[i] == Value(data[2 * i], data[2 * i + 1])
  {
    seq(n, i requires 0 <= i < n => Value(data[2 * i], data[2 * i + 1]))
  }

  /** A list of values as a little-endian file: of each value the low byte first. */
  function Bytes(vs: seq<uint16>): (r: seq<octet>)
    ensures |r| == 2 * |vs|
  {
    if vs == [] then [] else [vs[0] % 256, vs[0] / 256] + Bytes(vs[1..])
  }

  lemma {:induction false} ByteAt(vs: seq<uint16>, i: nat)
    requires i < |vs|
    ensures Bytes(vs)[2 * i] == vs[i] % 256 && Bytes(vs)[2 * i + 1] == vs[i] / 256
  {
    if i > 0 {
      ByteAt(vs[1..], i - 1);
      assert Bytes(vs)[2 * i] == Bytes(vs[1..])[2 * (i - 1)];
      assert Bytes(vs)[2 * i + 1] == Bytes(vs[1..])[2 * (i - 1) + 1];
    }
  }

  lemma LowHigh(v: uint16, lo: octet, hi: octet)
    requires lo == v % 256 && hi == v / 256
    ensures Value(lo, hi) == v
  {
  }

  lemma ReadsBackAt(vs: seq<uint16>, rest: seq<octet>, i: nat)
    requires i < |vs|
    ensures Values(Bytes(vs) + rest, |vs|)[i] == vs[i]
  {
    ByteAt(vs, i);
    hide Bytes, Value;
    var b := Bytes(vs);
    var data := b + rest;
    var lo, hi := data[2 * i], data[2 * i + 1];
    assert lo == b[2 * i] && hi == b[2 * i + 1];
    LowHigh(vs[i], lo, hi);
    assert Values(data, |vs|)[i] == Value(lo, hi);
  }

  /** Reading inverts the layout, whatever stands behind it. */
  lemma ReadsBack(vs: seq<uint16>, rest: seq<octet>)
    ensures Values(Bytes(vs) + rest, |vs|) == vs
  {
    forall i | 0 <= i < |vs|
      ensures Values(Bytes(vs) + rest, |vs|)[i] == vs[i]
    {
      ReadsBackAt(vs, rest, i);
    }
    hide Bytes;
  }

  /** Two neighbours, neither zero, of which the second does not follow the first. */
  predicate BadPair(a: uint16, b: uint16) {
    a != 0 && b != 0 && b != (a + 1) % 65536
  }

  function BadPairs(vs: seq<uint16>, n: nat): nat
    requires n <= |vs|
  {
    if n <= 1 then 0 else BadPairs(vs, n - 1) + if BadPair(vs[n - 2], vs[n - 1]) then 1 else 0
  }

  predicate Breaks(vs: seq<uint16>, i: nat) {
    0 < i < |vs| && BadPair(vs[i - 1], vs[i])
  }

  /** The values that do not follow the one before. */
  function Breaking(vs: seq<uint16>, n: nat): set<nat> {
    set i: nat | i < n && Breaks(vs, i)
  }

  lemma {:induction false} BadPairsCounts(vs: seq<uint16>, n: nat)
    requires n <= |vs|
    ensures BadPairs(vs, n) == |Breaking(vs, n)|
  {
    if n <= 1 {
      assert Breaking(vs, n) == {};
    } else {
      BadPairsCounts(vs, n - 1);
      assert Breaking(vs, n) == Breaking(vs, n - 1) + if Breaks(vs, n - 1) then {n - 1} else {};
    }
  }

  // ======== what the reports say ========

  function Count(first: int, n: nat): (s: seq<int>)
    ensures |s| == n && forall i :: 0 <= i < n ==> s[i] == first + i
  {
    seq(n, i requires 0 <= i < n => first + i)
  }

  function Expansion(r: Report): seq<int> {
    match r
    case Run(start, count, _) => Count(start, count)
    case Zeros(_, count) => seq(count, _ => 0)
  }

  /** The values a list of reports stands for. */
  function Told(rs: seq<Report>): seq<int> {
    if rs == [] then [] else Told(rs[..|rs| - 1]) + Expansion(rs[|rs| - 1])
  }

  lemma ToldNext(rs: seq<Report>, r: Report)
    ensures Told(rs + [r]) == Told(rs) + Expansion(r)
  {
    assert (rs + [r])[..|rs|] == rs;
  }

  /** Runs are as long as possible: neighbouring runs do not continue one another, and
      neighbouring reports are not both zeros.  Zeros are labelled with the value expected
      in their place. */
  predicate Separate(a: Report, b: Report) {
    && !(a.Zeros? && b.Zeros?) && !(a.Run? && b.Run? && b.start == (a.end + 1) % 65536)
    && (a.Run? && b.Zeros? ==> b.start == (a.end + 1) % 65536)
  }

  predicate Proper(r: Report) {
    r.count > 0 && (r.Run? ==> r.start > 0 && r.end == r.start + r.count - 1)
  }

  predicate Maximal(rs: seq<Report>) {
    && (forall i :: 0 <= i < |rs| ==> Proper(rs[i]))
    && (forall i :: 0 < i < |rs| ==> Separate(rs[i - 1], rs[i]))
    && (rs != [] ==> Follows([], rs[0]))
  }

  /** r may stand behind the reports rs; zeros at the very beginning are labelled 0. */
  predicate Follows(rs: seq<Report>, r: Report) {
    if rs == [] then r.Zeros? ==> r.start == 0 else Separate(rs[|rs| - 1], r)
  }

  /** The loop's state between two values; -1 stands for None. */
  datatype State = State(errors: nat, expected: int, zeroStart: int, zeroCount: nat,
                         chunkStart: int, chunkCount: nat, chunkEnd: int, reports: seq<Report>)

  /** What is still unreported. */
  function Pending(s: State): seq<Report> {
    (if s.zeroCount > 0 then [Zeros(s.zeroStart, s.zeroCount)] else []) +
    (if s.chunkCount > 0 then [Run(s.chunkStart, s.chunkCount, s.chunkEnd)] else [])
  }

  /** The loop invariant after the values vs. */
  predicate Consistent(s: State, vs: seq<uint16>) {
    Reported(s, vs) && Tracked(s, vs)
  }

  predicate Reported(s: State, vs: seq<uint16>) {
    Told(s.reports + Pending(s)) == vs && Maximal(s.reports + Pending(s))
  }

  predicate Tracked(s: State, vs: seq<uint16>) {
    && s.errors == BadPairs(vs, |vs|)
    && (s.zeroCount == 0 <==> s.zeroStart == -1) && -1 <= s.zeroStart < 65536
    && (s.chunkCount == 0 <==> s.chunkStart == -1) && -1 <= s.chunkStart < 65536
    && (s.chunkCount == 0 || s.zeroCount == 0)
    && (s.chunkCount > 0 ==> vs != [] && s.chunkEnd == vs[|vs| - 1] != 0 && s.expected == (s.chunkEnd + 1) % 65536)
    && (s.chunkCount == 0 ==> s.expected == -1)
    && (s.zeroCount > 0 <==> vs != [] && vs[|vs| - 1] == 0)
    && (s.chunkCount > 0 <==> vs != [] && vs[|vs| - 1] != 0)
  }

  function FlushChunk(s: State): State {
    s.(reports := s.reports + (if s.chunkCount > 0 then [Run(s.chunkStart, s.chunkCount, s.chunkEnd)] else []),
       chunkStart := -1, chunkCount := 0, chunkEnd := -1)
  }

  function FlushZeros(s: State): State {
    s.(reports := s.reports + (if s.zeroCount > 0 then [Zeros(s.zeroStart, s.zeroCount)] else []),
       zeroStart := -1, zeroCount := 0)
  }

  /** One value through the loop body. */
  function Step(s: State, value: uint16): State {
    if value == 0 then
      var s1 := FlushChunk(s);
      s1.(zeroStart := if s1.zeroStart == -1 then (if s1.expected == -1 then 0 else s1.expected) else s1.zeroStart,
          zeroCount := s1.zeroCount + 1, expected := -1)
    else
      var s1 := if s.zeroCount > 0 then FlushZeros(s).(expected := -1) else s;
      var s2 := if s1.expected != -1 && value != s1.expected then FlushChunk(s1.(errors := s1.errors + 1)) else s1;
      s2.(chunkStart := if s2.chunkStart == -1 then value else s2.chunkStart,
          chunkCount := s2.chunkCount + 1, chunkEnd := value, expected := (value + 1) % 65536)
  }

  const START := State(0, -1, -1, 0, -1, 0, -1, [])

  lemma BadPairsNext(vs: seq<uint16>, v: uint16)
    ensures BadPairs(vs + [v], |vs| + 1) == BadPairs(vs, |vs|) + if vs != [] && BadPair(vs[|vs| - 1], v) then 1 else 0
  {
    BadPairsPrefix(vs, [v], |vs|);
  }

  lemma {:induction false} BadPairsPrefix(vs: seq<uint16>, ws: seq<uint16>, n: nat)
    requires n <= |vs|
    ensures BadPairs(vs + ws, n) == BadPairs(vs, n)
  {
    if n > 0 {
      BadPairsPrefix(vs, ws, n - 1);
    }
  }

  lemma MaximalNext(rs: seq<Report>, r: Report)
    requires Maximal(rs) && Proper(r) && Follows(rs, r)
    ensures Maximal(rs + [r])
  {
  }

  lemma ZeroStep(s: State, vs: seq<uint16>)
    requires Consistent(s, vs)
    ensures Consistent(Step(s, 0), vs + [0])
  {
    ZeroTracked(s, vs);
    if s.zeroCount > 0 {
      ZerosGrow(s, vs);
    } else {
      ZerosBegin(s, vs);
    }
    hide Told, Maximal, Pending, Step, Tracked;
  }

  lemma ZeroTracked(s: State, vs: seq<uint16>)
    requires Tracked(s, vs)
    ensures Tracked(Step(s, 0), vs + [0])
  {
    BadPairsNext(vs, 0);
    hide BadPairs;
  }

  lemma ZerosGrow(s: State, vs: seq<uint16>)
    requires Consistent(s, vs) && s.zeroCount > 0
    ensures var rs := Step(s, 0).reports + Pending(Step(s, 0)); Told(rs) == vs + [0] && Maximal(rs)
  {
    var a, b := Zeros(s.zeroStart, s.zeroCount), Zeros(s.zeroStart, s.zeroCount + 1);
    assert s.reports + Pending(s) == s.reports + [a];
    assert Step(s, 0).reports + Pending(Step(s, 0)) == s.reports + [b];
    hide Told, Maximal, Pending, Tracked, Step;
    MoreZeros(s.reports, a, b, vs);
  }

  lemma MoreZeros(rs: seq<Report>, a: Report, b: Report, vs: seq<int>)
    requires Told(rs + [a]) == vs && Maximal(rs + [a]) && a.Zeros? && b == Zeros(a.start, a.count + 1)
    ensures Told(rs + [b]) == vs + [0] && Maximal(rs + [b])
  {
    assert (rs + [a])[|rs|] == a;
    ToldNext(rs, a);
    ToldNext(rs, b);
    assert Expansion(b) == Expansion(a) + [0];
    LastReplaced(rs, a, b);
    hide Told, Maximal, Expansion;
    assert (Told(rs) + Expansion(a)) + [0] == Told(rs) + (Expansion(a) + [0]);
  }

  lemma ZerosBegin(s: State, vs: seq<uint16>)
    requires Consistent(s, vs) && s.zeroCount == 0
    ensures var rs := Step(s, 0).reports + Pending(Step(s, 0)); Told(rs) == vs + [0] && Maximal(rs)
  {
    var z := Zeros(Step(s, 0).zeroStart, 1);
    FreshZeros(s, vs);
    ZerosFollow(s);
    hide Told, Maximal, Pending, Tracked, Step, Follows;
    ReportAdded(s.reports + Pending(s), z, vs, 0);
  }

  lemma ZerosFollow(s: State)
    requires s.zeroCount == 0
    ensures var z := Zeros(Step(s, 0).zeroStart, 1);
            && Step(s, 0).reports + Pending(Step(s, 0)) == (s.reports + Pending(s)) + [z]
            && Expansion(z) == [0] && Proper(z)
  {
    assert Step(s, 0).reports == s.reports + Pending(s);
    assert Pending(Step(s, 0)) == [Zeros(Step(s, 0).zeroStart, 1)];
  }

  lemma LastReplaced(rs: seq<Report>, a: Report, b: Report)
    requires Maximal(rs + [a]) && Proper(b)
    requires Follows(rs, a) ==> Follows(rs, b)
    ensures Maximal(rs + [b])
  {
    var p, q := rs + [a], rs + [b];
    forall i | 0 <= i < |q|
      ensures Proper(q[i])
    {
      assert i < |rs| ==> q[i] == p[i];
    }
    forall i | 0 < i < |q|
      ensures Separate(q[i - 1], q[i])
    {
      assert Separate(p[i - 1], p[i]);
    }
  }

  /** What was reported before a zero does not end in zeros, and its end labels them. */
  lemma FreshZeros(s: State, vs: seq<uint16>)
    requires Consistent(s, vs) && s.zeroCount == 0
    ensures Follows(s.reports + Pending(s), Zeros(Step(s, 0).zeroStart, 1))
  {
    if s.chunkCount == 0 {
      NothingTold(s.reports + Pending(s));
    }
    hide Told, BadPairs, Maximal;
    assert s.chunkCount > 0 ==> Pending(s) == [Run(s.chunkStart, s.chunkCount, s.chunkEnd)];
  }

  /** Reports without values are no reports. */
  lemma NothingTold(rs: seq<Report>)
    requires Maximal(rs) && Told(rs) == []
    ensures rs == []
  {
    if rs != [] {
      LastTold(rs);
    }
  }

  lemma LastTold(rs: seq<Report>)
    requires Maximal(rs) && rs != []
    ensures |Told(rs)| > 0
  {
    assert Proper(rs[|rs| - 1]);
  }

  lemma NonZeroStep(s: State, vs: seq<uint16>, v: uint16)
    requires Consistent(s, vs) && v != 0
    ensures Consistent(Step(s, v), vs + [v])
  {
    NonZeroTracked(s, vs, v);
    if s.chunkCount > 0 && v == s.expected {
      RunGrows(s, vs, v);
    } else {
      RunBegins(s, vs, v);
    }
    hide Told, Maximal, Pending, Step, Tracked;
  }

  lemma NonZeroTracked(s: State, vs: seq<uint16>, v: uint16)
    requires Tracked(s, vs) && v != 0
    ensures Tracked(Step(s, v), vs + [v])
  {
    BadPairsNext(vs, v);
    hide BadPairs;
  }

  lemma RunGrows(s: State, vs: seq<uint16>, v: uint16)
    requires Consistent(s, vs) && v != 0 && s.chunkCount > 0 && v == s.expected
    ensures var rs := Step(s, v).reports + Pending(Step(s, v)); Told(rs) == vs + [v] && Maximal(rs)
  {
    var a, b := Run(s.chunkStart, s.chunkCount, s.chunkEnd), Run(s.chunkStart, s.chunkCount + 1, v);
    assert s.reports + Pending(s) == s.reports + [a];
    assert Step(s, v).reports + Pending(Step(s, v)) == s.reports + [b];
    LongerRun(s.reports, a, b, vs, v);
  }

  lemma LongerRun(rs: seq<Report>, a: Report, b: Report, vs: seq<int>, v: uint16)
    requires Told(rs + [a]) == vs && Maximal(rs + [a])
    requires a.Run? && b == Run(a.start, a.count + 1, v) && v != 0 && 0 <= a.end < 65536 && v == (a.end + 1) % 65536
    ensures Told(rs + [b]) == vs + [v] && Maximal(rs + [b])
  {
    assert (rs + [a])[|rs|] == a && Proper(a);
    ToldNext(rs, a);
    ToldNext(rs, b);
    assert Count(a.start, a.count + 1) == Count(a.start, a.count) + [v];
    LastReplaced(rs, a, b);
    hide Told, Maximal, Count;
    assert (Told(rs) + Expansion(a)) + [v] == Told(rs) + (Expansion(a) + [v]);
  }

  lemma RunBegins(s: State, vs: seq<uint16>, v: uint16)
    requires Consistent(s, vs) && v != 0 && !(s.chunkCount > 0 && v == s.expected)
    ensures var rs := Step(s, v).reports + Pending(Step(s, v)); Told(rs) == vs + [v] && Maximal(rs)
  {
    FreshRun(s, vs, v);
    FlushedByRun(s, v);
    assert Expansion(Run(v, 1, v)) == [v];
    hide Told, Maximal, Pending, Tracked, Step, Expansion;
    ReportAdded(s.reports + Pending(s), Run(v, 1, v), vs, v);
  }

  lemma FlushedByRun(s: State, v: uint16)
    requires v != 0 && !(s.chunkCount > 0 && v == s.expected) && (s.chunkCount == 0 || s.zeroCount == 0)
    requires (s.chunkCount == 0 <==> s.chunkStart == -1) && (s.chunkCount == 0 ==> s.expected == -1)
    requires s.chunkCount > 0 ==> s.expected != -1
    ensures Step(s, v).reports + Pending(Step(s, v)) == (s.reports + Pending(s)) + [Run(v, 1, v)]
  {
    assert Step(s, v).reports == s.reports + Pending(s);
    assert Pending(Step(s, v)) == [Run(v, 1, v)];
  }

  /** A report behind the others adds its values. */
  lemma ReportAdded(rs: seq<Report>, r: Report, vs: seq<int>, v: int)
    requires Told(rs) == vs && Maximal(rs) && Proper(r) && Expansion(r) == [v]
    requires Follows(rs, r)
    ensures Told(rs + [r]) == vs + [v] && Maximal(rs + [r])
  {
    ToldNext(rs, r);
    MaximalNext(rs, r);
    hide Told, Maximal, Expansion;
  }

  /** A run that begins anew does not continue the report before it. */
  lemma FreshRun(s: State, vs: seq<uint16>, v: uint16)
    requires Consistent(s, vs) && v != 0 && !(s.chunkCount > 0 && v == s.expected)
    ensures Follows(s.reports + Pending(s), Run(v, 1, v))
  {
    if s.chunkCount == 0 && s.zeroCount == 0 {
      NothingTold(s.reports + Pending(s));
    }
    hide Told, BadPairs, Maximal;
    assert s.zeroCount > 0 ==> Pending(s) == [Zeros(s.zeroStart, s.zeroCount)];
    assert s.chunkCount > 0 ==> Pending(s) == [Run(s.chunkStart, s.chunkCount, s.chunkEnd)];
  }

  lemma StepKeeps(s: State, vs: seq<uint16>, value: uint16)
    requires Consistent(s, vs)
    ensures Consistent(Step(s, value), vs + [value])
  {
    if value == 0 {
      ZeroStep(s, vs);
    } else {
      NonZeroStep(s, vs, value);
    }
  }

  /** The locals of validate that its two nested report functions share. */
  class Validator {
    var errors: nat
    var expected: int
    var zeroStart: int
    var zeroCount: nat
    var chunkStart: int
    var chunkCount: nat
    var chunkEnd: int
    var reports: seq<Report>

    ghost function View(): State
      reads this
    {
      State(errors, expected, zeroStart, zeroCount, chunkStart, chunkCount, chunkEnd, reports)
    }

    constructor ()
      ensures View() == START
    {
      errors, expected, zeroStart, zeroCount := 0, -1, -1, 0;
      chunkStart, chunkCount, chunkEnd, reports := -1, 0, -1, [];
    }

    method ReportChunk()
      modifies this
      ensures View() == FlushChunk(old(View()))
    {
      if chunkCount > 0 {
        reports := reports + [Run(chunkStart, chunkCount, chunkEnd)];
      }
      chunkStart, chunkCount, chunkEnd := -1, 0, -1;
    }

    method ReportZeros()
      modifies this
      ensures View() == FlushZeros(old(View()))
    {
      if zeroCount > 0 {
        reports := reports + [Zeros(zeroStart, zeroCount)];
      }
      zeroStart, zeroCount := -1, 0;
    }

    /** The body of the read loop. */
    method Accept(value: uint16)
      modifies this
      ensures View() == Step(old(View()), value)
    {
      if value == 0 {
        ReportChunk();
        if zeroStart == -1 {
          zeroStart := if expected != -1 then expected else 0;
        }
        zeroCount := zeroCount + 1;
        expected := -1;
        return;
      }
      if zeroCount > 0 {
        ReportZeros();
        expected := -1;
      }
      if expected != -1 && value != expected {
        errors := errors + 1;
        ReportChunk();
      }
      if chunkStart == -1 {
        chunkStart := value;
      }
      chunkCount := chunkCount + 1;
      chunkEnd := value;
      expected := (value + 1) % 65536;
    }

    /** The two calls behind the loop. */
    method Close()
      modifies this
      ensures reports == old(View()).reports + Pending(old(View())) && errors == old(View()).errors
    {
      ReportZeros();
      ReportChunk();
    }
  }

  /** validate: every error is counted and every value reported.  A file of the values vs,
      and perhaps half a value more, gives one error for each of vs that does not follow
      the one before and one for the half, and reports that say vs. */
  method Validate(data: seq<octet>) returns (errors: nat, values: nat, reports: seq<Report>)
    ensures forall vs: seq<uint16>, half: seq<octet> | data == Bytes(vs) + half && |half| <= 1 ::
              values == |vs| && errors == |Breaking(vs, |vs|)| + |half| && Told(reports) == vs
    ensures values == |data| / 2
    ensures errors == BadPairs(Values(data, values), values) + |data| % 2
    ensures Told(reports) == Values(data, values) && Maximal(reports)
  {
    hide *;
    var v := new Validator();
    values := ReadValues(v, data);
    EndOfConsistent(v.View(), Values(data, values));
    v.Close();
    errors := v.errors + if 2 * values < |data| then 1 else 0;
    reports := v.reports;
    forall vs: seq<uint16>, half: seq<octet> | data == Bytes(vs) + half && |half| <= 1
      ensures values == |vs| && |data| % 2 == |half|
              && Values(data, values) == vs && BadPairs(vs, |vs|) == |Breaking(vs, |vs|)|
    {
      FileHolds(vs, half, data);
    }
  }

  lemma FileHolds(vs: seq<uint16>, half: seq<octet>, data: seq<octet>)
    requires data == Bytes(vs) + half && |half| <= 1
    ensures |data| / 2 == |vs| && |data| % 2 == |half|
    ensures Values(data, |vs|) == vs && BadPairs(vs, |vs|) == |Breaking(vs, |vs|)|
  {
    hide *;
    assert |data| == 2 * |vs| + |half|;
    ReadsBack(vs, half);
    BadPairsCounts(vs, |vs|);
  }

  /** The read loop: complete values only. */
  method ReadValues(v: Validator, data: seq<octet>) returns (values: nat)
    requires v.View() == START
    modifies v
    ensures values == |data| / 2 && Consistent(v.View(), Values(data, values))
  {
    hide *;
    values := 0;
    var pos := 0;
    StartIsConsistent(data);
    while pos + 2 <= |data|
      invariant pos == 2 * values <= |data|
      invariant Consistent(v.View(), Values(data, values))
    {
      var value := Value(data[pos], data[pos + 1]);
      StepKeeps(v.View(), Values(data, values), value);
      NextValue(data, values);
      v.Accept(value);
      values := values + 1;
      pos := pos + 2;
    }
  }

  lemma StartIsConsistent(data: seq<octet>)
    ensures Consistent(START, Values(data, 0))
  {
    assert START.reports + Pending(START) == [];
    assert Values(data, 0) == [];
  }

  lemma NextValue(data: seq<octet>, n: nat)
    requires 2 * n + 2 <= |data|
    ensures Values(data, n + 1) == Values(data, n) + [Value(data[2 * n], data[2 * n + 1])]
  {
  }

  lemma EndOfConsistent(s: State, vs: seq<uint16>)
    requires Consistent(s, vs)
    ensures Told(s.reports + Pending(s)) == vs && Maximal(s.reports + Pending(s)) && s.errors == BadPairs(vs, |vs|)
  {
  }

  /** The lengths of the reports add up to the number of values. */
  function TotalCount(rs: seq<Report>): nat {
    if rs == [] then 0 else TotalCount(rs[..|rs| - 1]) + rs[|rs| - 1].count
  }

  lemma {:induction false} ReportsCoverAll(rs: seq<Report>)
    ensures |Told(rs)| == TotalCount(rs)
  {
    if rs != [] {
      ReportsCoverAll(rs[..|rs| - 1]);
    }
  }
}
