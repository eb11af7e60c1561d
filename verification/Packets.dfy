/** The part of an IPv4 TCP packet that the redirector reads or rewrites, and the
    two rewrites it applies.  Addresses and ports are held as host-order numbers. */
module Packets {
  type Port = p: int | 0 <= p < 0x1_0000
  type Address = a: int | 0 <= a < 0x1_0000_0000

  datatype Segment = Segment(
    src: Address, dst: Address, srcPort: Port, dstPort: Port,
    fin: bool, rst: bool, outbound: bool,
    rest: seq<bv8>)  // every byte the redirector never looks at
  {
    predicate Closing() {
      fin || rst
    }
  }

  predicate IsLocalhost(ip: Address) {
    ip / 0x100_0000 == 127
  }

  predicate IsLocalhostPair(seg: Segment) {
    IsLocalhost(seg.src) && IsLocalhost(seg.dst)
  }

  function SwapIpAndDirection(seg: Segment): Segment {
    seg.(src := seg.dst, dst := seg.src, outbound := false)
  }

  function ToRelay(seg: Segment, relayPort: Port): Segment {
    var seg := seg.(dstPort := relayPort);
    if IsLocalhostPair(seg) then seg else SwapIpAndDirection(seg)
  }

  function FromRelay(seg: Segment, originalPort: Port): Segment {
    var seg := seg.(srcPort := originalPort);
    if IsLocalhostPair(seg) then seg else SwapIpAndDirection(seg)
  }

  /** `b` travels from the endpoint that receives `a` to the endpoint that sends `a`. */
  predicate Mirrors(a: Segment, b: Segment) {
    b.src == a.dst && b.srcPort == a.dstPort && b.dst == a.src && b.dstPort == a.srcPort
  }

  /** The two segments agree on everything the redirector never rewrites. */
  predicate SameFrame(a: Segment, b: Segment) {
    a.fin == b.fin && a.rst == b.rst && a.rest == b.rest
  }

  /** The reply rewrite undoes the forward rewrite exactly when the port it puts back is
      the port the client addressed. */
  lemma ReplyUndoesForward(client: Segment, relayPort: Port, reply: Segment, recorded: Port)
    requires Mirrors(ToRelay(client, relayPort), reply)
    ensures reply.srcPort == relayPort && reply.dstPort == client.srcPort
    ensures Mirrors(client, FromRelay(reply, recorded)) <==> recorded == client.dstPort
    ensures SameFrame(reply, FromRelay(reply, recorded))
    ensures FromRelay(reply, recorded).outbound == (IsLocalhostPair(client) && reply.outbound)
  {
    assert IsLocalhostPair(reply) == IsLocalhostPair(client);
  }

  /** What the forward rewrite does to every field: two loopback addresses (127.0.0.0/8) stay in
      place, any others are exchanged and the packet becomes inbound. */
  lemma ToRelayFields(seg: Segment, relayPort: Port)
    ensures var out := ToRelay(seg, relayPort);
            && out.dstPort == relayPort && out.srcPort == seg.srcPort
            && out.fin == seg.fin && out.rst == seg.rst && out.rest == seg.rest
            && if 0x7F00_0000 <= seg.src <= 0x7FFF_FFFF && 0x7F00_0000 <= seg.dst <= 0x7FFF_FFFF
               then out.src == seg.src && out.dst == seg.dst && out.outbound == seg.outbound
               else out.src == seg.dst && out.dst == seg.src && !out.outbound
  {}

  /** The reply rewrite does the same to the addresses, and puts a source port back. */
  lemma FromRelayFields(seg: Segment, originalPort: Port)
    ensures var out := FromRelay(seg, originalPort);
            && out.srcPort == originalPort && out.dstPort == seg.dstPort
            && out.fin == seg.fin && out.rst == seg.rst && out.rest == seg.rest
            && if 0x7F00_0000 <= seg.src <= 0x7FFF_FFFF && 0x7F00_0000 <= seg.dst <= 0x7FFF_FFFF
               then out.src == seg.src && out.dst == seg.dst && out.outbound == seg.outbound
               else out.src == seg.dst && out.dst == seg.src && !out.outbound
  {}
}
