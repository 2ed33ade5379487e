/** The UDP proxy's linked client list in place: lookup with insertion at the head, the
    pointer-to-pointer cleanup pass, and the payload transform. */
module UdpProxy {
  import T = UdpClientTable
  import opened Basics
  import opened UdpClientTable

  class Node {
    var addr: Addr
    var remoteFd: int
    var lastSeen: int
    var next: Node?

    constructor (addr: Addr, remoteFd: int, lastSeen: int, next: Node?)
      ensures this.addr == addr && this.remoteFd == remoteFd && this.lastSeen == lastSeen && this.next == next
    {
      this.addr := addr;
      this.remoteFd := remoteFd;
      this.lastSeen := lastSeen;
      this.next := next;
    }
  }

  /** The system's socket table. */
  class Sockets {
    var fds: set<int>
    ghost var history: seq<Call>

    ghost predicate Valid()
      reads this
    {
      After(history) == Open(fds)
    }

    /** Only an open descriptor may be closed. */
    method Close(fd: int)
      requires Valid() && fd in fds
      modifies this
      ensures Valid() && fds == old(fds) - {fd} && history == old(history) + [Closed(fd)]
    {
      AfterNext(history, Closed(fd));
      fds := fds - {fd};
      history := history + [Closed(fd)];
    }

    /** Takes over a descriptor the system has just handed out. */
    method Adopt(fd: int)
      requires Valid() && fd !in fds
      modifies this
      ensures Valid() && fds == old(fds) + {fd} && history == old(history) + [Opened(fd)]
    {
      AfterNext(history, Opened(fd));
      fds := fds + {fd};
      history := history + [Opened(fd)];
    }
  }

  ghost predicate Chain(head: Node?, ns: seq<Node>)
    reads ns`next
  {
    && head == (if ns == [] then null else ns[0])
    && (forall i :: 0 <= i < |ns| ==> ns[i].next == if i + 1 < |ns| then ns[i + 1] else null)
    && (forall i, j :: 0 <= i < j < |ns| ==> ns[i] != ns[j])
  }

  lemma ChainNext(head: Node?, ns: seq<Node>, i: nat)
    requires Chain(head, ns) && i < |ns|
    ensures ns[i].next == if i + 1 < |ns| then ns[i + 1] else null
  {
  }

  ghost function Successors(ns: seq<Node>): (s: seq<Node?>)
    ensures |s| == |ns| && forall i :: 0 <= i < |ns| ==> s[i] == if i + 1 < |ns| then ns[i + 1] else null
  {
    seq(|ns|, i requires 0 <= i < |ns| => if i + 1 < |ns| then ns[i + 1] else null)
  }

  lemma LinkedBySuccessors(head: Node?, ns: seq<Node>)
    requires head == if ns == [] then null else ns[0]
    requires forall i :: 0 <= i < |ns| ==> ns[i].next == Successors(ns)[i]
    requires forall i, j :: 0 <= i < j < |ns| ==> ns[i] != ns[j]
    ensures Chain(head, ns)
  {
    forall i | 0 <= i < |ns|
      ensures ns[i].next == if i + 1 < |ns| then ns[i + 1] else null
    {
      assert ns[i].next == Successors(ns)[i];
    }
  }

  /** What the links of kept + [c] + rest say about kept + rest. */
  lemma ShortLinks(head: Node?, kept: seq<Node>, c: Node, rest: seq<Node>)
    requires Chain(head, kept + ([c] + rest))
    ensures var short, k := kept + rest, |kept|;
            && (forall i :: 0 <= i < |short| && i != k - 1 ==> short[i].next == Successors(short)[i])
            && (forall i, j :: 0 <= i < j < |short| ==> short[i] != short[j])
            && (k > 0 ==> forall i :: 0 <= i < |short| && i != k - 1 ==> short[i] != kept[k - 1])
            && c.next == (if rest == [] then null else rest[0])
            && head == (if kept == [] then c else kept[0])
  {
    var list, short, k := kept + ([c] + rest), kept + rest, |kept|;
    Unlinked(list, k, short);
    ChainNext(head, list, k);
    hide Chain;
    forall i | 0 <= i < |short| && i != k - 1
      ensures short[i].next == Successors(short)[i]
    {
      LinkKept(head, list, short, k, i);
    }
    assert k > 0 ==> kept[k - 1] == short[k - 1];
  }

  lemma LinkKept(head: Node?, list: seq<Node>, short: seq<Node>, k: nat, i: nat)
    requires Chain(head, list) && k < |list| && short == list[..k] + list[k + 1..] && i < |short| && i != k - 1
    ensures short[i].next == Successors(short)[i]
  {
    ChainNext(head, list, if i < k then i else i + 1);
    hide Chain;
  }

  lemma ChainCons(c: Node, ns: seq<Node>)
    requires Chain(c.next, ns) && c !in ns
    ensures Chain(c, [c] + ns)
  {
    forall i | 0 <= i < |ns| + 1
      ensures ([c] + ns)[i].next == Successors([c] + ns)[i]
    {
      if i > 0 {
        ChainNext(c.next, ns, i - 1);
      }
    }
    LinkedBySuccessors(c, [c] + ns);
  }

  lemma MirrorsEnd(ns: seq<Node>, es: seq<Entry>, n: Node)
    requires Mirrors(ns, es)
    ensures Mirrors(ns + [n], es + [Entry(n.addr, n.remoteFd, n.lastSeen)])
  {
  }

  lemma MirrorsFront(ns: seq<Node>, es: seq<Entry>, n: Node)
    requires Mirrors(ns, es)
    ensures Mirrors([n] + ns, [Entry(n.addr, n.remoteFd, n.lastSeen)] + es)
  {
  }

  /** The entries are what the nodes hold. */
  ghost predicate Mirrors(ns: seq<Node>, es: seq<Entry>)
    reads ns`addr, ns`remoteFd, ns`lastSeen
  {
    && |es| == |ns|
    && forall i :: 0 <= i < |ns| ==> es[i] == Entry(ns[i].addr, ns[i].remoteFd, ns[i].lastSeen)
  }

  class Proxy {
    var clients: Node?
    const sockets: Sockets
    ghost var nodes: seq<Node>
    ghost var entries: seq<Entry>

    ghost predicate Valid()
      reads this, nodes, sockets
    {
      Chain(clients, nodes) && Mirrors(nodes, entries) && sockets.Valid()
    }

    ghost function View(): Table
      reads this, sockets
    {
      Table(entries, sockets.history)
    }

    constructor ()
      ensures Valid() && View() == Table([], []) && fresh(sockets)
    {
      clients, nodes, entries := null, [], [];
      sockets := new Sockets;
      new;
      sockets.fds := {};
      sockets.history := [];
    }

    /** The search loop of get_client: the first node for an address. */
    method Lookup(a: Addr) returns (c: Node?, ghost i: nat)
      requires Valid()
      ensures i == T.Find(entries, a)
      ensures c == if T.Find(entries, a) < |nodes| then nodes[T.Find(entries, a)] else null
    {
      i := 0;
      c := clients;
      while c != null
        invariant 0 <= i <= |nodes| && c == (if i < |nodes| then nodes[i] else null)
        invariant forall j :: 0 <= j < i ==> !AddrEqual(entries[j].addr, a)
        decreases |nodes| - i
      {
        if AddrEqual(c.addr, a) {
          break;
        }
        c := c.next;
        i := i + 1;
      }
      FindIs(entries, a, i);
    }

    /** A new node in front of the list. */
    method Insert(a: Addr, now: int, fd: int) returns (c: Node)
      requires Valid() && fd !in sockets.fds
      modifies this, sockets
      ensures Valid() && nodes == [c] + old(nodes) && fresh(c) && c.addr == a && c.lastSeen == now
      ensures View() == Table([Entry(a, fd, now)] + old(entries), old(sockets.history) + [Opened(fd)])
    {
      hide Chain, Mirrors, After;
      c := new Node(a, fd, now, clients);
      sockets.Adopt(fd);
      ChainCons(c, nodes);
      MirrorsFront(nodes, entries, c);
      clients := c;
      nodes := [c] + nodes;
      entries := [Entry(a, fd, now)] + entries;
    }

    /** `memory` and `fd` are what calloc and socket would give a new client. */
    method GetClient(a: Addr, now: int, memory: bool, fd: int) returns (c: Node?)
      requires Valid() && (fd >= 0 ==> fd !in sockets.fds)
      modifies this, nodes, sockets
      ensures Valid() && View() == Get(old(View()), a, now, memory, fd)
      ensures c == null <==> T.Find(old(entries), a) == |old(entries)| && (!memory || fd < 0)
      ensures c != null ==> c in nodes && AddrEqual(c.addr, a) && c.lastSeen == now
      ensures forall n :: n in old(nodes) ==> n in nodes && (n != c ==> n.lastSeen == old(n.lastSeen))
    {
      ghost var i;
      c, i := Lookup(a);
      if c != null {
        Refreshed(clients, nodes, i);
        c.lastSeen := now;
        entries := entries[i := entries[i].(seen := now)];
      } else if memory && fd >= 0 {
        c := Insert(a, now, fd);
      }
    }

    /** Closes the socket of c and takes c out of the list, behind prev. */
    method Drop(prev: Node?, c: Node, ghost kept: seq<Node>, ghost rest: seq<Node>) returns (next: Node?)
      requires Chain(clients, kept + ([c] + rest)) && prev == (if kept == [] then null else kept[|kept| - 1])
      requires sockets.Valid() && c.remoteFd in sockets.fds
      modifies this`clients, kept`next, sockets
      ensures Chain(clients, kept + rest) && next == (if rest == [] then null else rest[0])
      ensures sockets.Valid() && sockets.history == old(sockets.history) + [Closed(c.remoteFd)]
    {
      hide Chain, After;
      ChainNext(clients, kept + ([c] + rest), |kept|);
      next := c.next;
      assert next == (if rest == [] then null else rest[0]);
      sockets.Close(c.remoteFd);
      Unlink(prev, c, next, kept, rest);
    }

    /** Lets what pointed at c point at next. */
    method Unlink(prev: Node?, c: Node, next: Node?, ghost kept: seq<Node>, ghost rest: seq<Node>)
      requires Chain(clients, kept + ([c] + rest)) && prev == (if kept == [] then null else kept[|kept| - 1])
      requires next == if rest == [] then null else rest[0]
      modifies this`clients, kept`next
      ensures Chain(clients, kept + rest)
    {
      ghost var short, k := kept + rest, |kept|;
      ghost var succ := Successors(short);
      ShortLinks(clients, kept, c, rest);
      hide Chain;
      if prev == null {
        clients := next;
      } else {
        prev.next := next;
      }
      forall i | 0 <= i < |short|
        ensures short[i].next == succ[i]
      {
        if i != k - 1 {
          assert prev == null || short[i] != kept[k - 1];
          assert short[i].next == old(short[i].next);
        } else {
          assert short[i] == kept[k - 1];
        }
      }
      LinkedBySuccessors(clients, short);
    }

    /** The body of the cleanup loop: drop the node or step over it. */
    method Visit(now: int, prev: Node?, c: Node, ghost kept: seq<Node>, ghost rest: seq<Node>)
      returns (prev': Node?, c': Node?, ghost kept': seq<Node>)
      requires Chain(clients, kept + ([c] + rest)) && prev == (if kept == [] then null else kept[|kept| - 1])
      requires sockets.Valid() && c.remoteFd in sockets.fds
      modifies this`clients, kept`next, sockets
      ensures Chain(clients, kept' + rest) && prev' == (if kept' == [] then null else kept'[|kept'| - 1])
      ensures c' == if rest == [] then null else rest[0]
      ensures kept' == if now - c.lastSeen > CLIENT_TIMEOUT then kept else kept + [c]
      ensures sockets.Valid() && sockets.history ==
                old(sockets.history) + if now - c.lastSeen > CLIENT_TIMEOUT then [Closed(c.remoteFd)] else []
    {
      kept' := kept;
      prev' := prev;
      if now - c.lastSeen > CLIENT_TIMEOUT {
        c' := Drop(prev, c, kept, rest);
      } else {
        ChainNext(clients, kept + ([c] + rest), |kept|);
        prev' := c;
        c' := c.next;
        kept' := kept + [c];
        hide Chain;
        assert kept + ([c] + rest) == kept' + rest;
      }
    }

    /** In the middle of a cleanup pass: prev is the last node kept, c the next to visit. */
    ghost predicate Passing(p: Pass, prev: Node?, c: Node?, now: int)
      reads this`clients, p.kept, p.rest, sockets
    {
      && c == (if p.rest == [] then null else p.rest[0])
      && prev == (if p.kept == [] then null else p.kept[|p.kept| - 1])
      && Chain(clients, p.kept + p.rest) && Mirrors(p.rest, p.todo) && Mirrors(p.kept, Keep(p.done, now))
      && Good(Table(p.done + p.todo, p.before))
      && sockets.Valid() && sockets.history == p.before + Closes(p.done, now)
      && (forall x :: x in p.kept ==> x in p.pool) && (forall x :: x in p.rest ==> x in p.pool)
    }

    method Advance(now: int, prev: Node?, c: Node, ghost p: Pass)
      returns (prev': Node?, c': Node?, ghost p': Pass)
      requires Passing(p, prev, c, now) && p.rest != []
      modifies this`clients, p.pool`next, sockets
      ensures Passing(p', prev', c', now) && (c' == null <==> p'.rest == [])
      ensures |p'.rest| < |p.rest| && p'.before == p.before && p'.pool == p.pool && p'.done + p'.todo == p.done + p.todo
    {
      hide Keep, Closes, After, Chain, Mirrors, Good, AddrEqual, KeyOf, Fds;
      MirrorsFirst(p.rest, p.todo);
      ghost var e, rest := p.todo[0], p.rest[1..];
      StillOpen(p.done + p.todo, p.before, p.done, p.todo, now);
      SocketsOpen(sockets);
      OneHandled(p.before, p.done, e, p.todo[1..], now);
      MirrorsEnd(p.kept, Keep(p.done, now), c);
      assert p.todo == [e] + p.todo[1..] && p.rest == [c] + rest;
      ghost var kept;
      prev', c', kept := Visit(now, prev, c, p.kept, rest);
      p' := Pass(p.pool, kept, rest, p.done + [e], p.todo[1..], p.before);
    }

    /** The loop of a cleanup pass; `prev` is the node whose next field the pointer of the
        source points at, null for the list head. */
    method VisitAll(now: int, ghost p: Pass) returns (ghost last: Pass, ghost end: Node?)
      requires Passing(p, null, clients, now) && (clients == null <==> p.rest == [])
      modifies this`clients, p.pool`next, sockets
      ensures Passing(last, end, null, now) && last.rest == []
      ensures last.before == p.before && last.pool == p.pool && last.done + last.todo == p.done + p.todo
    {
      hide *;
      last := p;
      var prev: Node? := null;
      var c := clients;
      while c != null
        invariant Passing(last, prev, c, now) && (c == null <==> last.rest == [])
        invariant last.done + last.todo == p.done + p.todo && last.before == p.before && last.pool == p.pool
        decreases |last.rest|
      {
        prev, c, last := Advance(now, prev, c, last);
      }
      end := prev;
    }

    /** One pass of the cleanup thread.  The nodes themselves stay: those seen in the last 60
        seconds are still in the list, untouched but for their links. */
    method CleanupPass(now: int)
      requires Valid() && Good(View())
      modifies this, nodes, sockets
      ensures Valid() && View() == Cleanup(old(View()), now)
      ensures forall n :: n in nodes <==> n in old(nodes) && now - old(n.lastSeen) <= CLIENT_TIMEOUT
      ensures forall n :: n in old(nodes) ==> n.lastSeen == old(n.lastSeen) && n.remoteFd == old(n.remoteFd)
    {
      hide Keep, Closes, After, Chain, Good, Mirrors, Passing, Fds;
      ghost var p := StartPass(now);
      ghost var end: Node?;
      FdsApart(View());
      p, end := VisitAll(now, p);
      EndPass(p, end, now);
      KeptAreFresh(nodes, entries, p.kept, now);
      nodes, entries := p.kept, Keep(p.done, now);
    }

    lemma EndPass(p: Pass, prev: Node?, now: int)
      requires Passing(p, prev, null, now) && p.rest == []
      ensures p.done + p.todo == p.done && Chain(clients, p.kept) && Mirrors(p.kept, Keep(p.done, now))
      ensures sockets.Valid() && sockets.history == p.before + Closes(p.done, now)
      ensures forall x :: x in p.kept ==> x in p.pool
    {
      hide Keep, Closes, After, Chain, Good;
      assert p.todo == [];
      assert p.kept + p.rest == p.kept;
    }

    lemma StartPass(now: int) returns (p: Pass)
      requires Valid() && Good(View())
      ensures Passing(p, null, clients, now) && (clients == null <==> p.rest == [])
      ensures p.done + p.todo == entries && p.before == sockets.history
      ensures forall i :: 0 <= i < |nodes| ==> nodes[i] in p.pool
      ensures forall x :: x in p.pool ==> x in nodes
    {
      p := Pass(set n | n in nodes, [], nodes, [], entries, sockets.history);
      KeepNothing(now);
      AddNothing(nodes);
      AddNothing(entries);
      AddNothing(sockets.history);
      hide Keep, Closes, After, Chain, Good;
    }
  }

  /** Ghost progress of a cleanup pass: all nodes, those kept and still to visit, the entries handled
      and still to come, and the socket calls made before it began. */
  datatype Pass = Pass(pool: set<Node>, kept: seq<Node>, rest: seq<Node>,
                       done: seq<Entry>, todo: seq<Entry>, before: seq<Call>)

  lemma OneHandled(h: seq<Call>, done: seq<Entry>, e: Entry, todo: seq<Entry>, now: int)
    ensures (done + [e]) + todo == done + ([e] + todo)
    ensures Keep(done + [e], now) == if Stale(e, now) then Keep(done, now) else Keep(done, now) + [e]
    ensures h + Closes(done + [e], now) == (h + Closes(done, now)) + if Stale(e, now) then [Closed(e.fd)] else []
  {
    KeepNext(done, e, now);
  }

  lemma MirrorsFirst(ns: seq<Node>, es: seq<Entry>)
    requires Mirrors(ns, es) && ns != []
    ensures |es| == |ns| && es[0] == Entry(ns[0].addr, ns[0].remoteFd, ns[0].lastSeen) && Mirrors(ns[1..], es[1..])
  {
  }

  lemma AddNothing<T>(s: seq<T>)
    ensures [] + s == s && s + [] == s
  {
  }

  lemma KeepNothing(now: int)
    ensures Keep([], now) == [] && Closes([], now) == []
  {
  }

  lemma Refreshed(head: Node?, ns: seq<Node>, i: nat)
    requires Chain(head, ns) && i < |ns|
    ensures forall j :: 0 <= j < |ns| && j != i ==> ns[j] != ns[i]
  {
  }

  lemma FindIs(es: seq<Entry>, a: Addr, i: nat)
    requires i <= |es| && (forall j :: 0 <= j < i ==> !AddrEqual(es[j].addr, a))
    requires i < |es| ==> AddrEqual(es[i].addr, a)
    ensures T.Find(es, a) == i
  {
  }

  lemma FdsApart(t: Table)
    requires Good(t)
    ensures forall i, j :: 0 <= i < j < |t.entries| ==> t.entries[i].fd != t.entries[j].fd
  {
  }

  lemma MirrorsIn(ns: seq<Node>, es: seq<Entry>)
    requires Mirrors(ns, es)
    ensures |es| == |ns| && forall i :: 0 <= i < |ns| ==> es[i].fd == ns[i].remoteFd && es[i].seen == ns[i].lastSeen
  {
  }

  /** Sockets tell nodes apart, so the nodes that hold the entries kept are the nodes seen in
      the last 60 seconds. */
  lemma KeptAreFresh(ns: seq<Node>, es: seq<Entry>, kept: seq<Node>, now: int)
    requires Mirrors(ns, es) && Mirrors(kept, Keep(es, now)) && forall x :: x in kept ==> x in ns
    requires forall i, j :: 0 <= i < j < |es| ==> es[i].fd != es[j].fd
    ensures forall n :: n in kept <==> n in ns && now - n.lastSeen <= CLIENT_TIMEOUT
  {
    MirrorsIn(ns, es);
    MirrorsIn(kept, Keep(es, now));
    KeepHolds(es, now);
    hide Mirrors, Keep;
    var ks := Keep(es, now);
    forall n | n in kept
      ensures now - n.lastSeen <= CLIENT_TIMEOUT
    {
      var i :| 0 <= i < |kept| && kept[i] == n;
      assert ks[i] in ks;
    }
    forall n | n in ns && now - n.lastSeen <= CLIENT_TIMEOUT
      ensures n in kept
    {
      var i :| 0 <= i < |ns| && ns[i] == n;
      assert es[i] in ks;
      var j :| 0 <= j < |ks| && ks[j] == es[i];
      assert kept[j] in kept;
      var k :| 0 <= k < |ns| && ns[k] == kept[j];
      assert es[k].fd == es[i].fd;
    }
  }

  lemma SocketsOpen(s: Sockets)
    requires s.Valid()
    ensures After(s.history).Open? && s.fds == After(s.history).fds
  {
  }

  /** The socket of the entry the pass comes to next is open. */
  lemma StillOpen(es: seq<Entry>, h: seq<Call>, done: seq<Entry>, todo: seq<Entry>, now: int)
    requires Good(Table(es, h)) && es == done + todo && todo != []
    ensures var o := After(h + Closes(done, now)); o.Open? && todo[0].fd in o.fds
  {
    CleanupSoFar(h, done, todo, now);
    assert todo[0] in todo;
  }

  lemma Unlinked(list: seq<Node>, k: nat, rest: seq<Node>)
    requires k < |list| && rest == list[..k] + list[k + 1..]
    requires forall i, j :: 0 <= i < j < |list| ==> list[i] != list[j]
    ensures |rest| == |list| - 1 && forall i :: 0 <= i < |rest| ==> rest[i] == list[if i < k then i else i + 1]
    ensures forall i, j :: 0 <= i < j < |rest| ==> rest[i] != rest[j]
  {
  }

  // ======== payload transform ========

  function Xored(s: seq<bv8>, key: seq<bv8>): seq<bv8>
    requires key != []
  {
    seq(|s|, i requires 0 <= i < |s| => s[i] ^ key[i % |key|])
  }

  method XorBuffer(buf: array<bv8>, len: nat, key: seq<bv8>)
    requires len <= buf.Length && 1 <= |key| <= 255
    modifies buf
    ensures buf[..] == Xored(old(buf[..len]), key) + old(buf[len..])
  {
    for i := 0 to len
      invariant forall j :: 0 <= j < i ==> buf[j] == old(buf[j]) ^ key[j % |key|]
      invariant forall j :: i <= j < buf.Length ==> buf[j] == old(buf[j])
    {
      buf[i] := buf[i] ^ key[i % |key|];
    }
  }

  /** Before and after differ by the key, which is laid over the payload round by round. */
  lemma XorDiffers(s: seq<bv8>, key: seq<bv8>, round: nat, k: nat)
    requires k < |key| && round * |key| + k < |s|
    ensures |Xored(s, key)| == |s|
    ensures var i := round * |key| + k; Xored(s, key)[i] ^ s[i] == key[k]
  {
    var i := round * |key| + k;
    RoundOf(round, k, |key|);
    assert Xored(s, key)[i] == s[i] ^ key[k];
    XorBack(s[i], key[k]);
    hide Xored;
  }

  lemma XorBack(a: bv8, b: bv8)
    ensures (a ^ b) ^ a == b
  {
  }

  lemma RoundOf(round: nat, k: nat, n: nat)
    requires k < n
    ensures (round * n + k) % n == k
  {
    var i := round * n + k;
    var q := i / n;
    assert i == n * q + i % n;
    assert n * (round - 1) == n * round - n && n * (round + 1) == n * round + n;
    if q < round {
      TimesOrdered(n, q, round - 1);
      assert false;
    } else if q > round {
      TimesOrdered(n, round + 1, q);
      assert false;
    }
  }

  /** The same transform restores the payload at the other end. */
  lemma XorTwice(s: seq<bv8>, key: seq<bv8>)
    requires key != []
    ensures Xored(Xored(s, key), key) == s
  {
    forall i | 0 <= i < |s|
      ensures (s[i] ^ key[i % |key|]) ^ key[i % |key|] == s[i]
    {
    }
  }

}
