/** The header fields of a transport stream packet. */
module TsPacket {
  import opened Basics

  const TS_SIZE: nat := 188
  const SYNC: int := 0x47

  function PidOf(pkt: seq<octet>): (pid: int)
    requires |pkt| == TS_SIZE
    ensures 0 <= pid < 8192
  {
    var b1: int, b2: int := pkt[1], pkt[2];
    b1 % 32 * 256 + b2
  }

  /** Whether a payload unit starts here. */
  function PusiOf(pkt: seq<octet>): bool
    requires |pkt| == TS_SIZE
  {
    pkt[1] / 64 % 2 == 1
  }

  function AdaptationOf(pkt: seq<octet>): (afc: int)
    requires |pkt| == TS_SIZE
    ensures 0 <= afc < 4
  {
    pkt[3] / 16 % 4
  }

  function CounterOf(pkt: seq<octet>): (cc: int)
    requires |pkt| == TS_SIZE
    ensures 0 <= cc < 16
  {
    pkt[3] % 16
  }
}
