/** The UDP proxy's client table as a list of entries and a history of socket calls:
    what one lookup and one cleanup pass do, and what every run of them keeps. */
module UdpClientTable {

  const CLIENT_TIMEOUT: int := 60   // seconds

  /** A socket address; `pad` is the unused tail that comparison ignores. */
  datatype Addr = Addr(family: int, port: int, ip: int, pad: int)

  datatype Key = Key(family: int, port: int, ip: int)

  function KeyOf(a: Addr): Key {
    Key(a.family, a.port, a.ip)
  }

  function AddrEqual(a: Addr, b: Addr): (r: bool)
    ensures r <==> KeyOf(a) == KeyOf(b)
    ensures r <==> a == b.(pad := a.pad)
  {
    a.family == b.family && a.port == b.port && a.ip == b.ip
  }

  datatype Entry = Entry(addr: Addr, fd: int, seen: int)

  /** Calls made to the system's socket interface. */
  datatype Call = Opened(fd: int) | Closed(fd: int)

  datatype Table = Table(entries: seq<Entry>, history: seq<Call>)

  /** Position of the first entry for an address, or the length of the list. */
  function Find(es: seq<Entry>, a: Addr): (i: nat)
    ensures i <= |es| && (forall j :: 0 <= j < i ==> !AddrEqual(es[j].addr, a))
    ensures i < |es| ==> AddrEqual(es[i].addr, a)
  {
    if es == [] || AddrEqual(es[0].addr, a) then 0 else Find(es[1..], a) + 1
  }

  /** get_client: refresh the entry found, or put a new one in front if there is memory
      and a socket for it (fd >= 0). */
  function Get(t: Table, a: Addr, now: int, memory: bool, fd: int): Table {
    var i := Find(t.entries, a);
    if i < |t.entries| then t.(entries := t.entries[i := t.entries[i].(seen := now)])
    else if memory && fd >= 0 then Table([Entry(a, fd, now)] + t.entries, t.history + [Opened(fd)])
    else t
  }

  predicate Stale(e: Entry, now: int) {
    now - e.seen > CLIENT_TIMEOUT
  }

  function Keep(es: seq<Entry>, now: int): seq<Entry> {
    if es == [] then [] else
      Keep(es[..|es| - 1], now) + if Stale(es[|es| - 1], now) then [] else [es[|es| - 1]]
  }

  function Closes(es: seq<Entry>, now: int): seq<Call> {
    if es == [] then [] else
      Closes(es[..|es| - 1], now) + if Stale(es[|es| - 1], now) then [Closed(es[|es| - 1].fd)] else []
  }

  /** One pass of the cleanup thread. */
  function Cleanup(t: Table, now: int): Table {
    Table(Keep(t.entries, now), t.history + Closes(t.entries, now))
  }

  /** `socket` either fails or yields a descriptor that is not open. */
  datatype Op = GetOp(a: Addr, now: int, memory: bool, fd: int) | CleanupOp(now: int)

  function Step(t: Table, o: Op): Table {
    match o
    case GetOp(a, now, memory, fd) => Get(t, a, now, memory, fd)
    case CleanupOp(now) => Cleanup(t, now)
  }

  // ======== sockets ========

  /** The descriptors open after a history, provided no call was wrong: none opened
      twice, none closed that was not open. */
  datatype OpenSet = Wrong | Open(fds: set<int>)

  function After(h: seq<Call>): OpenSet {
    if h == [] then Open({}) else
      var o := After(h[..|h| - 1]);
      if o.Wrong? then Wrong
      else match h[|h| - 1]
        case Opened(fd) => if fd in o.fds then Wrong else Open(o.fds + {fd})
        case Closed(fd) => if fd in o.fds then Open(o.fds - {fd}) else Wrong
  }

  function Fds(es: seq<Entry>): set<int> {
    set e | e in es :: e.fd
  }

  predicate Allowed(t: Table, o: Op) {
    o.GetOp? && o.fd >= 0 ==> After(t.history).Open? && o.fd !in After(t.history).fds
  }

  /** Addresses and sockets are unique, and exactly the listed sockets are open. */
  predicate Good(t: Table) {
    && (forall i, j :: 0 <= i < j < |t.entries| ==> !AddrEqual(t.entries[i].addr, t.entries[j].addr))
    && (forall i, j :: 0 <= i < j < |t.entries| ==> t.entries[i].fd != t.entries[j].fd)
    && After(t.history) == Open(Fds(t.entries))
  }

  lemma AfterNext(h: seq<Call>, c: Call)
    ensures After(h + [c]) ==
            var o := After(h);
            if o.Wrong? then Wrong
            else match c
              case Opened(fd) => if fd in o.fds then Wrong else Open(o.fds + {fd})
              case Closed(fd) => if fd in o.fds then Open(o.fds - {fd}) else Wrong
  {
    assert (h + [c])[..|h|] == h;
  }

  lemma GetKeepsGood(t: Table, a: Addr, now: int, memory: bool, fd: int)
    requires Good(t) && Allowed(t, GetOp(a, now, memory, fd))
    ensures Good(Get(t, a, now, memory, fd))
  {
    var i := Find(t.entries, a);
    var e := Get(t, a, now, memory, fd);
    if i < |t.entries| {
      forall x
        ensures x in Fds(e.entries) <==> x in Fds(t.entries)
      {
        if x in Fds(t.entries) {
          var j :| 0 <= j < |t.entries| && t.entries[j].fd == x;
          assert e.entries[j].fd == x && e.entries[j] in e.entries;
        }
        if x in Fds(e.entries) {
          var j :| 0 <= j < |e.entries| && e.entries[j].fd == x;
          assert t.entries[j].fd == x && t.entries[j] in t.entries;
        }
      }
      assert Fds(e.entries) == Fds(t.entries);
    } else if memory && fd >= 0 {
      AfterNext(t.history, Opened(fd));
      forall j | 0 <= j < |t.entries|
        ensures t.entries[j].fd != fd
      {
        assert t.entries[j] in t.entries;
      }
      assert Fds(e.entries) == Fds(t.entries) + {fd};
    }
  }

  lemma {:induction false} KeepHolds(es: seq<Entry>, now: int)
    ensures forall e :: e in Keep(es, now) <==> e in es && !Stale(e, now)
  {
    if es != [] {
      KeepHolds(es[..|es| - 1], now);
      assert es == es[..|es| - 1] + [es[|es| - 1]];
    }
  }

  lemma KeepNext(es: seq<Entry>, e: Entry, now: int)
    ensures Keep(es + [e], now) == Keep(es, now) + if Stale(e, now) then [] else [e]
    ensures Closes(es + [e], now) == Closes(es, now) + if Stale(e, now) then [Closed(e.fd)] else []
    ensures Stale(e, now) ==> Keep(es + [e], now) == Keep(es, now)
    ensures !Stale(e, now) ==> Closes(es + [e], now) == Closes(es, now)
  {
    assert (es + [e])[..|es|] == es;
  }

  /** While a cleanup pass has handled `done`, the sockets of the entries kept and of
      those still to come are open. */
  lemma {:induction false} CleanupSoFar(h: seq<Call>, done: seq<Entry>, rest: seq<Entry>, now: int)
    requires After(h) == Open(Fds(done + rest))
    requires forall i, j :: 0 <= i < j < |done + rest| ==> (done + rest)[i].fd != (done + rest)[j].fd
    ensures After(h + Closes(done, now)) == Open(Fds(Keep(done, now)) + Fds(rest))
    decreases |done|
  {
    if done == [] {
      assert h + [] == h;
    } else {
      var before, e := done[..|done| - 1], done[|done| - 1];
      hide After, Fds, Keep, Closes;
      assert done == before + [e];
      assert done + rest == before + ([e] + rest);
      CleanupSoFar(h, before, [e] + rest, now);
      OneMoreHandled(h, before, e, rest, now);
    }
  }

  lemma OneMoreHandled(h: seq<Call>, before: seq<Entry>, e: Entry, rest: seq<Entry>, now: int)
    requires var es := before + ([e] + rest); forall i, j :: 0 <= i < j < |es| ==> es[i].fd != es[j].fd
    requires After(h + Closes(before, now)) == Open(Fds(Keep(before, now)) + Fds([e] + rest))
    ensures After(h + Closes(before + [e], now)) == Open(Fds(Keep(before + [e], now)) + Fds(rest))
  {
    hide After, Fds, Keep, Closes;
    KeepNext(before, e, now);
    FdsOne(e);
    FdsJoin([e], rest);
    var k, r, c := Fds(Keep(before, now)), Fds(rest), Closes(before, now);
    if Stale(e, now) {
      NotAmongOthers(before, e, rest, now);
      AfterClose(h + c, k + ({e.fd} + r), e.fd);
      TakeOut(k, e.fd, r);
      assert h + (c + [Closed(e.fd)]) == (h + c) + [Closed(e.fd)];
    } else {
      FdsJoin(Keep(before, now), [e]);
      assert k + ({e.fd} + r) == (k + {e.fd}) + r;
    }
  }

  lemma AfterClose(h: seq<Call>, fds: set<int>, fd: int)
    requires After(h) == Open(fds) && fd in fds
    ensures After(h + [Closed(fd)]) == Open(fds - {fd})
  {
    AfterNext(h, Closed(fd));
    hide After;
  }

  lemma FdsJoin(a: seq<Entry>, b: seq<Entry>)
    ensures Fds(a + b) == Fds(a) + Fds(b)
  {
  }

  lemma FdsOne(e: Entry)
    ensures Fds([e]) == {e.fd}
  {
  }

  lemma TakeOut(k: set<int>, fd: int, r: set<int>)
    requires fd !in k && fd !in r
    ensures fd in k + ({fd} + r) && (k + ({fd} + r)) - {fd} == k + r
  {
  }

  lemma NotAmongOthers(before: seq<Entry>, e: Entry, rest: seq<Entry>, now: int)
    requires var es := before + ([e] + rest); forall i, j :: 0 <= i < j < |es| ==> es[i].fd != es[j].fd
    ensures e.fd !in Fds(Keep(before, now)) && e.fd !in Fds(rest)
  {
    KeepHolds(before, now);
    var es := before + ([e] + rest);
    assert es[|before|] == e;
    forall x | x in before
      ensures x.fd != e.fd
    {
      var i :| 0 <= i < |before| && before[i] == x;
      assert es[i] == x;
    }
    forall x | x in rest
      ensures x.fd != e.fd
    {
      var i :| 0 <= i < |rest| && rest[i] == x;
      assert es[|before| + 1 + i] == x;
    }
  }

  /** The kept entries stand in their old order: Keep picks increasing positions. */
  function KeptAt(es: seq<Entry>, now: int): seq<nat> {
    if es == [] then [] else
      KeptAt(es[..|es| - 1], now) + if Stale(es[|es| - 1], now) then [] else [|es| - 1]
  }

  lemma {:induction false} KeepIsInOrder(es: seq<Entry>, now: int)
    ensures var js := KeptAt(es, now); var ks := Keep(es, now);
            && |js| == |ks|
            && (forall i :: 0 <= i < |js| ==> js[i] < |es| && ks[i] == es[js[i]] && !Stale(ks[i], now))
            && (forall i, j :: 0 <= i < j < |js| ==> js[i] < js[j])
    ensures forall i :: 0 <= i < |es| && !Stale(es[i], now) ==> i in KeptAt(es, now)
  {
    if es != [] {
      KeepIsInOrder(es[..|es| - 1], now);
    }
  }

  lemma CleanupKeepsGood(t: Table, now: int)
    requires Good(t)
    ensures Good(Cleanup(t, now))
  {
    var es := t.entries;
    assert es + [] == es;
    CleanupSoFar(t.history, es, [], now);
    KeepIsInOrder(es, now);
    hide After, Keep, KeptAt, Closes;
    assert Fds(Keep(es, now)) + Fds([]) == Fds(Keep(es, now));
    var js, ks := KeptAt(es, now), Keep(es, now);
    forall i, j | 0 <= i < j < |ks|
      ensures !AddrEqual(ks[i].addr, ks[j].addr) && ks[i].fd != ks[j].fd
    {
      assert js[i] < js[j];
    }
  }

  predicate AllowedRun(t: Table, ops: seq<Op>)
    decreases |ops|
  {
    ops == [] || (Allowed(t, ops[0]) && AllowedRun(Step(t, ops[0]), ops[1..]))
  }

  function Run(t: Table, ops: seq<Op>): Table
    decreases |ops|
  {
    if ops == [] then t else Run(Step(t, ops[0]), ops[1..])
  }

  /** On every run the addresses stay unique, no socket is opened twice or closed twice,
      and the open sockets are exactly those in the list. */
  lemma {:induction false} GoodForever(t: Table, ops: seq<Op>)
    requires Good(t) && AllowedRun(t, ops)
    ensures Good(Run(t, ops))
    decreases |ops|
  {
    if ops != [] {
      match ops[0] {
        case GetOp(a, now, memory, fd) => GetKeepsGood(t, a, now, memory, fd);
        case CleanupOp(now) => CleanupKeepsGood(t, now);
      }
      GoodForever(Step(t, ops[0]), ops[1..]);
    }
  }

  function Count(h: seq<Call>, c: Call): nat {
    if h == [] then 0 else Count(h[..|h| - 1], c) + if h[|h| - 1] == c then 1 else 0
  }

  /** In a history without a wrong call every descriptor was closed as often as it was
      opened, save the open ones, closed once less. */
  lemma {:induction false} ClosedOnce(h: seq<Call>, fd: int)
    requires After(h).Open?
    ensures Count(h, Opened(fd)) == Count(h, Closed(fd)) + if fd in After(h).fds then 1 else 0
  {
    if h != [] {
      ClosedOnce(h[..|h| - 1], fd);
      var o := After(h[..|h| - 1]);
      match h[|h| - 1] {
        case Opened(g) => assert After(h).fds == o.fds + {g};
        case Closed(g) => assert After(h).fds == o.fds - {g};
      }
    }
  }

  // ======== the table is a map ========

  datatype Client = Client(fd: int, seen: int)

  /** What the list says about an address. */
  function AsMap(es: seq<Entry>): map<Key, Client> {
    if es == [] then map[] else AsMap(es[1..])[KeyOf(es[0].addr) := Client(es[0].fd, es[0].seen)]
  }

  predicate UniqueKeys(es: seq<Entry>) {
    forall i, j :: 0 <= i < j < |es| ==> KeyOf(es[i].addr) != KeyOf(es[j].addr)
  }

  lemma {:induction false} AsMapHolds(es: seq<Entry>, k: Key)
    requires UniqueKeys(es)
    ensures k in AsMap(es) <==> exists i :: 0 <= i < |es| && KeyOf(es[i].addr) == k
    ensures forall i :: 0 <= i < |es| && KeyOf(es[i].addr) == k ==> AsMap(es)[k] == Client(es[i].fd, es[i].seen)
  {
    if es != [] {
      AsMapHolds(es[1..], k);
      if k in AsMap(es) && KeyOf(es[0].addr) != k {
        var i :| 0 <= i < |es[1..]| && KeyOf(es[1..][i].addr) == k;
        assert KeyOf(es[i + 1].addr) == k;
      }
      forall i | 0 <= i < |es| && KeyOf(es[i].addr) == k
        ensures k in AsMap(es) && AsMap(es)[k] == Client(es[i].fd, es[i].seen)
      {
        if i > 0 {
          assert es[1..][i - 1] == es[i];
        }
      }
    }
  }

  /** get_client as a map update: refresh an existing key, add a missing one. */
  lemma GetIsUpdate(t: Table, a: Addr, now: int, memory: bool, fd: int)
    requires Good(t)
    ensures var m := AsMap(t.entries); var k := KeyOf(a);
            AsMap(Get(t, a, now, memory, fd).entries) ==
              if k in m then m[k := Client(m[k].fd, now)]
              else if memory && fd >= 0 then m[k := Client(fd, now)] else m
  {
    var es, k := t.entries, KeyOf(a);
    var i := Find(es, a);
    assert UniqueKeys(es);
    AsMapHolds(es, k);
    if i < |es| {
      var es' := es[i := es[i].(seen := now)];
      assert UniqueKeys(es');
      var m, m' := AsMap(es), AsMap(es');
      forall q
        ensures (q in m' <==> q in m) && (q in m ==> m'[q] == if q == k then Client(m[k].fd, now) else m[q])
      {
        AsMapHolds(es, q);
        AsMapHolds(es', q);
        if j :| 0 <= j < |es| && KeyOf(es[j].addr) == q {
          assert KeyOf(es'[j].addr) == q;
        }
        if j :| 0 <= j < |es'| && KeyOf(es'[j].addr) == q {
          assert KeyOf(es[j].addr) == q;
        }
      }
      assert m' == m[k := Client(m[k].fd, now)];
    } else if memory && fd >= 0 {
      assert ([Entry(a, fd, now)] + es)[1..] == es;
    }
  }

  /** A cleanup pass as a map filter: exactly the clients seen within 60 seconds stay. */
  lemma CleanupIsFilter(t: Table, now: int)
    requires Good(t)
    ensures var m := AsMap(t.entries);
            AsMap(Cleanup(t, now).entries) == map k | k in m && now - m[k].seen <= 60 :: m[k]
  {
    var es, ks := t.entries, Keep(t.entries, now);
    CleanupKeepsGood(t, now);
    hide Keep, Closes, After, AsMap;
    var m, m' := AsMap(es), AsMap(ks);
    assert UniqueKeys(es) && UniqueKeys(ks);
    forall k
      ensures k in m' <==> k in m && now - m[k].seen <= CLIENT_TIMEOUT
      ensures k in m' ==> m'[k] == m[k]
    {
      KeyAfterCleanup(es, now, k);
    }
  }

  lemma KeyAfterCleanup(es: seq<Entry>, now: int, k: Key)
    requires UniqueKeys(es) && UniqueKeys(Keep(es, now))
    ensures var m, m' := AsMap(es), AsMap(Keep(es, now));
            (k in m' <==> k in m && now - m[k].seen <= CLIENT_TIMEOUT) && (k in m' ==> m'[k] == m[k])
  {
    var ks := Keep(es, now);
    KeepHolds(es, now);
    AsMapHolds(es, k);
    AsMapHolds(ks, k);
    hide Keep, AsMap;
    if i :| 0 <= i < |ks| && KeyOf(ks[i].addr) == k {
      assert ks[i] in ks;
      var j :| 0 <= j < |es| && es[j] == ks[i];
    }
    if i :| 0 <= i < |es| && KeyOf(es[i].addr) == k && !Stale(es[i], now) {
      assert es[i] in es;
      var j :| 0 <= j < |ks| && ks[j] == es[i];
    }
  }
}
