/**
 * The lab3 proxy ARP (`ProxyArpProcessor`): every parsed frame updates
 * the receiving device's MAC-to-port table, last write winning; an IP ARP
 * then updates the ARP cache, last write winning, and is answered from the
 * cache when its target is known (request or reply alike), flooded out of
 * the device otherwise.
 */
module Lab3ProxyArp {
  import opened Net

  datatype ArpState = ArpState(
    arpTable: map<Ip4, Mac>,
    bridge: map<DeviceId, map<Mac, PortNumber>>)

  datatype Step = Step(state: ArpState, emitted: seq<Emission>, blocked: bool)

  function TableOf(bridge: map<DeviceId, map<Mac, PortNumber>>, d: DeviceId): map<Mac, PortNumber>
  {
    if d in bridge then bridge[d] else map[]
  }

  /** `ProxyArpProcessor.process`. */
  function Process(st: ArpState, pkt: PacketIn): (r: Step)
    ensures pkt.isHandled || pkt.parsed.None? ==> r == Step(st, [], false)
    ensures !pkt.isHandled && pkt.parsed.Some? ==>
      var f := pkt.parsed.value;
      var device := pkt.receivedFrom.device;
      // last-write-wins bridge learning on every parsed frame
      && device in r.state.bridge
      && r.state.bridge[device] == TableOf(st.bridge, device)[f.src := pkt.receivedFrom.port]
      && (forall d | d != device :: TableOf(r.state.bridge, d) == TableOf(st.bridge, d))
      // frames other than IP ARPs cause bridge learning only
      && (!(f.payload.Arp? && f.payload.arp.protocolType == ARP_PROTO_TYPE_IP) ==>
            r.state.arpTable == st.arpTable && r.emitted == [] && !r.blocked)
      && (f.payload.Arp? && f.payload.arp.protocolType == ARP_PROTO_TYPE_IP ==>
            var arp := f.payload.arp;
            // last-write-wins ARP learning
            && r.state.arpTable == st.arpTable[arp.senderIp := f.src]
            && (arp.targetIp in r.state.arpTable ==>
                  && r.blocked
                  && r.emitted == [PacketOut(pkt.receivedFrom, ArpReply(arp.targetIp, r.state.arpTable[arp.targetIp], f))])
            && (arp.targetIp !in r.state.arpTable ==> !r.blocked && r.emitted == [FloodOut(device, f)]))
  {
    if pkt.isHandled || pkt.parsed.None? then Step(st, [], false)
    else
      var f := pkt.parsed.value;
      var device := pkt.receivedFrom.device;
      var bridge := st.bridge[device := TableOf(st.bridge, device)[f.src := pkt.receivedFrom.port]];
      var bridged := st.(bridge := bridge);
      if !f.payload.Arp? || f.payload.arp.protocolType != ARP_PROTO_TYPE_IP then Step(bridged, [], false)
      else
        var arp := f.payload.arp;
        var arpTable := st.arpTable[arp.senderIp := f.src];
        var learned := bridged.(arpTable := arpTable);
        if arp.targetIp in arpTable then
          // the reply goes out of the ingress port whatever the opcode
          Step(learned, [PacketOut(pkt.receivedFrom, ArpReply(arp.targetIp, arpTable[arp.targetIp], f))], true)
        else
          Step(learned, [FloodOut(device, f)], false)
  }

  // ----- Properties -----

  predicate IpArp(pkt: PacketIn)
  {
    !pkt.isHandled && pkt.parsed.Some? && pkt.parsed.value.payload.Arp?
    && pkt.parsed.value.payload.arp.protocolType == ARP_PROTO_TYPE_IP
  }

  /** The bridge table is last-write-wins: a host seen later on another port is moved there. */
  lemma BridgeEntryMoves(st: ArpState, p1: PacketIn, p2: PacketIn)
    requires !p1.isHandled && p1.parsed.Some? && !p2.isHandled && p2.parsed.Some?
    requires p1.receivedFrom.device == p2.receivedFrom.device && p1.parsed.value.src == p2.parsed.value.src
    ensures Process(Process(st, p1).state, p2).state.bridge[p2.receivedFrom.device][p2.parsed.value.src]
            == p2.receivedFrom.port
  {
  }

  /** The ARP cache is last-write-wins: a later sender claiming the same address replaces its MAC. */
  lemma ArpEntryOverwritten(st: ArpState, p1: PacketIn, p2: PacketIn)
    requires IpArp(p1) && IpArp(p2)
    requires p1.parsed.value.payload.arp.senderIp == p2.parsed.value.payload.arp.senderIp
    ensures Process(Process(st, p1).state, p2).state.arpTable[p1.parsed.value.payload.arp.senderIp]
            == p2.parsed.value.src
  {
  }

  /** An ARP whose target is its own sender always hits the cache it has just filled: a reply announcing the sender's own MAC. */
  lemma SelfTargetAlwaysHits(st: ArpState, pkt: PacketIn)
    requires IpArp(pkt) && pkt.parsed.value.payload.arp.targetIp == pkt.parsed.value.payload.arp.senderIp
    ensures var f := pkt.parsed.value;
            var r := Process(st, pkt);
            r.blocked && r.emitted == [PacketOut(pkt.receivedFrom, ArpReply(f.payload.arp.targetIp, f.src, f))]
  {
  }

  /**
   * An ARP reply is treated exactly like a request, since the opcode is
   * never consulted: the same state and blocking, the very same answer at
   * the ingress on a hit, and on a miss each variant flooded, unchanged,
   * out of the receiving device.
   */
  lemma ReplyAnsweredLikeRequest(st: ArpState, pkt: PacketIn)
    requires IpArp(pkt)
    ensures var f := pkt.parsed.value;
            var request := f.(payload := Arp(f.payload.arp.(opCode := ARP_OP_REQUEST)));
            var reply := f.(payload := Arp(f.payload.arp.(opCode := ARP_OP_REPLY)));
            var p := Process(st, pkt.(parsed := Some(request)));
            var q := Process(st, pkt.(parsed := Some(reply)));
            && p.state == q.state && p.blocked == q.blocked
            && |p.emitted| == |q.emitted| == 1
            && (q.blocked ==> q.emitted == p.emitted && q.emitted[0].PacketOut? && q.emitted[0].point == pkt.receivedFrom)
            && (!q.blocked ==>
                  p.emitted == [FloodOut(pkt.receivedFrom.device, request)]
                  && q.emitted == [FloodOut(pkt.receivedFrom.device, reply)])
  {
  }
}
