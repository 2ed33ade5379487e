/** The bytes a reader gets: each word's bytes in the order in which they came in. */
module SpiBytes {
  import opened SpiPacketizer
  import opened SpiSystem

  const PACKET_SIZE: nat := 188

  /** Byte i of a word, the lowest first. */
  function Byte(w: word, i: nat): word
    requires i < 4
  {
    match i
    case 0 => w & 0xFF
    case 1 => (w >> 8) & 0xFF
    case 2 => (w >> 16) & 0xFF
    case 3 => (w >> 24) & 0xFF
  }

  /** Swapping turns the four bytes of a word round. */
  lemma SwapTurnsRound(w: word, i: nat)
    requires i < 4
    ensures Byte(Swab32(w), i) == Byte(w, 3 - i)
  {
    if i == 0 {
    } else if i == 1 {
    } else if i == 2 {
    } else {
      assert i == 3;
    }
  }

  /** A buffer of words as a little-endian reader sees it, byte by byte. */
  function LowFirst(ws: seq<word>): (bs: seq<word>)
    ensures |bs| == 4 * |ws| && forall k :: 0 <= k < |bs| ==> bs[k] == Byte(ws[k / 4], k % 4)
  {
    seq(4 * |ws|, k requires 0 <= k < 4 * |ws| => Byte(ws[k / 4], k % 4))
  }

  /** The bytes in the order of the line: each word came in with its highest byte first. */
  function HighFirst(ws: seq<word>): (bs: seq<word>)
    ensures |bs| == 4 * |ws| && forall k :: 0 <= k < |bs| ==> bs[k] == Byte(ws[k / 4], 3 - k % 4)
  {
    seq(4 * |ws|, k requires 0 <= k < 4 * |ws| => Byte(ws[k / 4], 3 - k % 4))
  }

  lemma SwappedReadsInOrder(ws: seq<word>)
    ensures LowFirst(SwapPacket(ws)) == HighFirst(ws)
  {
    hide Byte, Swab32;
    forall k | 0 <= k < 4 * |ws|
      ensures LowFirst(SwapPacket(ws))[k] == HighFirst(ws)[k]
    {
      SwapTurnsRound(ws[k / 4], k % 4);
    }
  }

  /** Packet i handed to a reader, read byte by byte, is a packet that was queued, byte by
      byte as it came in. */
  lemma DeliveredBytes(acts: seq<Action>, i: nat)
    requires i < |Run(Probed(), acts).delivered|
    ensures var s := Run(Probed(), acts); var js := Positions(s.fates);
            i < |js| && js[i] < |s.inserted| && LowFirst(s.delivered[i]) == HighFirst(s.inserted[js[i]])
  {
    DeliveryIsFifo(acts);
    hide Run, Positions, SwapPacket, LowFirst, HighFirst;
    var s := Run(Probed(), acts);
    SwappedReadsInOrder(s.inserted[Positions(s.fates)[i]]);
  }

  /** Without a stop request a reader gets 188 bytes that begin with the sync byte. */
  lemma ReadersGetSyncFirst(acts: seq<Action>, i: nat)
    requires Stop !in acts && i < |Run(Probed(), acts).delivered|
    ensures var bs := LowFirst(Run(Probed(), acts).delivered[i]); |bs| == PACKET_SIZE && bs[0] == 0x47
  {
    ReadersGetWholePackets(acts, i);
    hide Run;
    var p := Run(Probed(), acts).delivered[i];
    SyncIsFirst(p);
  }

  lemma SyncIsFirst(p: seq<word>)
    requires IsPacket(SwapPacket(p))
    ensures |p| == PACKET_WORDS && Byte(p[0], 0) == 0x47
  {
    hide Swab32;
    assert SwapPacket(p)[0] == Swab32(p[0]);
    SwapTurnsRound(p[0], 3);
  }
}
