/** Inner L3 packets: parse5Tuple of internal/dptunnel/router.go and of internal/pop/ztnaterm/parse.go. */
module Packet {
  import opened Bytes

  datatype Tuple5 = Tuple5(src: seq<byte>, dst: seq<byte>, proto: u8, srcPort: u16, dstPort: u16)

  function Port(pkt: seq<byte>, off: nat): u16
    requires off + 2 <= |pkt|
  {
    var hi: byte, lo: byte := pkt[off], pkt[off + 1];
    assert hi * 256 + lo <= 255 * 256 + 255;
    hi * 256 + lo
  }

  /** TCP and UDP carry ports at the L4 offset when the packet is long enough. */
  function WithPorts(pkt: seq<byte>, src: seq<byte>, dst: seq<byte>, proto: u8, off: nat): Tuple5 {
    if (proto == 6 || proto == 17) && |pkt| >= off + 4
    then Tuple5(src, dst, proto, Port(pkt, off), Port(pkt, off + 2))
    else Tuple5(src, dst, proto, 0, 0)
  }

  function ParseTuple(pkt: seq<byte>): Option<Tuple5> {
    if |pkt| < 1 then None
    else if pkt[0] / 16 == 4 then
      (if |pkt| < 20 then None else Some(WithPorts(pkt, pkt[12..16], pkt[16..20], pkt[9], pkt[0] % 16 * 4)))
    else if pkt[0] / 16 == 6 then
      (if |pkt| < 40 then None else Some(WithPorts(pkt, pkt[8..24], pkt[24..40], pkt[6], 40)))
    else None
  }

  /** The terminator's own version also refuses an IPv4 header length below 20 bytes. */
  function ParseStrict(pkt: seq<byte>): Option<Tuple5> {
    if |pkt| >= 20 && pkt[0] / 16 == 4 && pkt[0] % 16 < 5 then None else ParseTuple(pkt)
  }

  // ---- The fields by their place in the header (section 3.1 of RFC 791, section 3 of RFC 8200) ----

  predicate IsIPv4(pkt: seq<byte>) {
    |pkt| >= 20 && 0x40 <= pkt[0] < 0x50
  }

  predicate IsIPv6(pkt: seq<byte>) {
    |pkt| >= 40 && 0x60 <= pkt[0] < 0x70
  }

  /** Only these two are taken, with their addresses and protocol. */
  lemma AddressFields(pkt: seq<byte>)
    ensures ParseTuple(pkt).Some? <==> IsIPv4(pkt) || IsIPv6(pkt)
    ensures IsIPv4(pkt) ==>
              var t := ParseTuple(pkt).value; t.src == pkt[12..16] && t.dst == pkt[16..20] && t.proto == pkt[9]
    ensures IsIPv6(pkt) ==>
              var t := ParseTuple(pkt).value; t.src == pkt[8..24] && t.dst == pkt[24..40] && t.proto == pkt[6]
    ensures ParseStrict(pkt).Some? <==> IsIPv6(pkt) || (IsIPv4(pkt) && 0x45 <= pkt[0])
    ensures ParseStrict(pkt).Some? ==> ParseStrict(pkt) == ParseTuple(pkt)
  {
  }

  /** Where the header that carries the ports begins: after the IPv4 header length in words of four bytes. */
  function PortsAt(pkt: seq<byte>): nat
    requires IsIPv4(pkt) || IsIPv6(pkt)
  {
    if IsIPv4(pkt) then 4 * (pkt[0] - 0x40) else 40
  }

  /** TCP (6) and UDP (17) carry their ports there, when the packet reaches that far; anything else has none. */
  lemma PortFields(pkt: seq<byte>)
    requires ParseTuple(pkt).Some?
    ensures IsIPv4(pkt) || IsIPv6(pkt)
    ensures var t, off := ParseTuple(pkt).value, PortsAt(pkt);
      if t.proto in {6, 17} && off + 4 <= |pkt|
      then t.srcPort == GetBE(pkt[off..off + 2]) && t.dstPort == GetBE(pkt[off + 2..off + 4])
      else t.srcPort == 0 == t.dstPort
  {
    AddressFields(pkt);
    var off := PortsAt(pkt);
    if off + 4 <= |pkt| {
      TwoBytes(pkt, off);
      TwoBytes(pkt, off + 2);
    }
  }

  lemma TwoBytes(b: seq<byte>, off: nat)
    requires off + 2 <= |b|
    ensures GetBE(b[off..off + 2]) == Port(b, off)
  {
    var two := b[off..off + 2];
    assert two[..1] == [b[off]] && two[..1][..0] == [];
    assert GetBE(two[..1]) == b[off];
  }
}
