/** Which 188 bytes the extractor takes for packets, against those the analyzer takes. */
module TsFind {
  import opened Basics
  import opened TsPacket
  import opened TsExtract
  import P = TsPes

  /** A sync byte here and one 188 bytes on. */
  predicate Framed(data: seq<octet>, pos: nat) {
    pos + 188 < |data| && data[pos] == 0x47 && data[pos + 188] == 0x47
  }

  /** find_packet: the first framed position or, failing that, the last 188 bytes. */
  method FindPacket(data: seq<octet>, start: nat) returns (pos: int)
    ensures pos == -1 <==> start + TS_SIZE > |data|
    ensures pos != -1 ==> start <= pos <= |data| - TS_SIZE && (pos == |data| - TS_SIZE || Framed(data, pos))
    ensures forall q: nat :: start <= q < pos ==> !Framed(data, q)
  {
    pos := start;
    var end := |data| - TS_SIZE;
    while pos < end
      invariant start <= pos && (start <= end ==> pos <= end) && (start > end ==> pos == start)
      invariant forall q: nat :: start <= q < pos ==> !Framed(data, q)
    {
      if data[pos] as int == SYNC && data[pos + TS_SIZE] as int == SYNC {
        break;
      }
      pos := pos + 1;
    }
    if pos > end {
      pos := -1;
    }
  }

  /** The positions of the packets found from pos on. */
  function Found(data: seq<octet>, pos: nat): (ps: seq<nat>)
    ensures forall i :: 0 <= i < |ps| ==> ps[i] + TS_SIZE <= |data|
    decreases |data| - pos
  {
    if pos + TS_SIZE > |data| then []
    else if pos + TS_SIZE == |data| || Framed(data, pos) then [pos] + Found(data, pos + TS_SIZE)
    else Found(data, pos + 1)
  }

  lemma {:induction false} FoundNext(data: seq<octet>, start: nat, pos: nat)
    requires start <= pos <= |data| - TS_SIZE && (pos == |data| - TS_SIZE || Framed(data, pos))
    requires forall q: nat :: start <= q < pos ==> !Framed(data, q)
    ensures Found(data, start) == [pos] + Found(data, pos + TS_SIZE)
    decreases pos - start
  {
    if start < pos {
      FoundNext(data, start + 1, pos);
    }
  }

  function CutAt(data: seq<octet>, ps: seq<nat>): (r: seq<seq<octet>>)
    requires forall i :: 0 <= i < |ps| ==> ps[i] + TS_SIZE <= |data|
    ensures |r| == |ps| && Packets(r)
  {
    seq(|ps|, i requires 0 <= i < |ps| => data[ps[i]..ps[i] + TS_SIZE])
  }

  /** The loop of the parser: the packets handed over, in order. */
  method Process(data: seq<octet>) returns (pkts: seq<seq<octet>>)
    ensures pkts == CutAt(data, Found(data, 0))
  {
    pkts := [];
    ghost var ps: seq<nat> := [];
    var nextPos := 0;
    while true
      invariant ps + Found(data, nextPos) == Found(data, 0)
      invariant forall i :: 0 <= i < |ps| ==> ps[i] + TS_SIZE <= |data|
      invariant pkts == CutAt(data, ps)
      decreases |data| + TS_SIZE - nextPos
    {
      var position := FindPacket(data, nextPos);
      if position < 0 {
        break;
      }
      FoundNext(data, nextPos, position);
      assert (ps + [position]) + Found(data, position + TS_SIZE) == ps + Found(data, nextPos);
      hide Found;
      pkts := pkts + [data[position..position + TS_SIZE]];
      ps := ps + [position];
      nextPos := position + TS_SIZE;
    }
    assert ps + [] == ps;
  }

  /** A whole run: the output is the payload of the PID's packets among those found. */
  method ExtractFile(data: seq<octet>, pid: int) returns (e: ExtractPid)
    ensures e.Valid() && e.out == Payloads(CutAt(data, Found(data, 0)), pid)
  {
    var pkts := Process(data);
    e := ExtractAll(pid, pkts);
  }

  // ======== the last 188 bytes ========

  /** They are taken without their sync byte. */
  predicate TakenUnchecked(data: seq<octet>, pos: nat) {
    |data| >= TS_SIZE && |data| - TS_SIZE in Found(data, pos) && data[|data| - TS_SIZE] as int != SYNC
  }

  /** The extractor finds the packets of the analyzer, and where these leave the last 188
      bytes of the file to themselves it takes them as well, whatever they are. */
  lemma {:induction false} FoundAgainstPositions(data: seq<octet>, pos: nat)
    ensures Found(data, pos) == P.Positions(data, pos) + if TakenUnchecked(data, pos) then [|data| - TS_SIZE] else []
    decreases |data| - pos
  {
    var end := |data| - TS_SIZE;
    if pos < end {
      assert Framed(data, pos) <==> P.Accepts(data, pos);
      if Framed(data, pos) {
        FoundAgainstPositions(data, pos + TS_SIZE);
        assert TakenUnchecked(data, pos) <==> TakenUnchecked(data, pos + TS_SIZE);
      } else {
        FoundAgainstPositions(data, pos + 1);
      }
    } else if pos == end {
      assert Found(data, pos + TS_SIZE) == [] && P.Positions(data, pos + TS_SIZE) == [];
      assert P.Positions(data, pos + 1) == [];
      assert [pos] + [] == [pos];
    }
  }

  /** The two programs take the same packets exactly if none is taken unchecked. */
  lemma SamePacketsIff(data: seq<octet>)
    ensures Found(data, 0) == P.Positions(data, 0) <==> !TakenUnchecked(data, 0)
  {
    FoundAgainstPositions(data, 0);
    var ps := P.Positions(data, 0);
    hide Found, TakenUnchecked;
    assert TakenUnchecked(data, 0) ==> |Found(data, 0)| == |ps| + 1;
    assert ps + [] == ps;
  }

  /** A file without any sync byte: the analyzer finds nothing in it, the extractor writes
      184 bytes. */
  lemma GarbageIsExtracted()
    ensures var data: seq<octet> := seq(188, _ => 0x10);
            && P.Positions(data, 0) == [] && TakenUnchecked(data, 0)
            && Payloads(CutAt(data, Found(data, 0)), 0x1010) == data[4..]
  {
    var data: seq<octet> := seq(188, _ => 0x10);
    assert !P.Accepts(data, 0) && P.Positions(data, 1) == [];
    assert Found(data, 188) == [] && Found(data, 0) == [0];
    var pkts := CutAt(data, [0]);
    assert data[0..188] == data;
    assert pkts == [data] && pkts[..0] == [];
    assert Payloads(pkts[..0], 0x1010) == [];
    GarbageHeader(data);
    hide Payload, HeadOf;
    assert [] + data[4..] == data[4..];
  }

  lemma GarbageHeader(data: seq<octet>)
    requires |data| == TS_SIZE && data[1] == data[2] == data[3] == 0x10
    ensures HeadOf(data).pid == 0x1010 && Payload(data) == data[4..]
  {
  }
}
