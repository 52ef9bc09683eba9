/**
 * The final project's proxy for address resolution (`ProxyArpProcessor`):
 * ARP for IPv4 and Neighbor Discovery for IPv6 share one algorithm.  The
 * sender's address-to-MAC binding and the MAC's attachment point are
 * learned first-write-wins; a request for a cached target is answered on
 * the spot, an uncached one is flooded to the edge, and a reply is relayed
 * to where the original requester was seen.  ARP requests for addresses
 * inside the trusted-access domain other than its two anchors are dropped.
 */
module FinalProxyArp {
  import opened Net

  /** The trusted-access domain 192.168.70.0/24. */
  const TA_DOMAIN := IpPrefix(V4(0xC0A8_4600), 24)
  /** 192.168.70.80 and 192.168.70.253, the two domain addresses that are still resolved. */
  const TA_ANCHOR_1: Ip4 := 0xC0A8_4650
  const TA_ANCHOR_2: Ip4 := 0xC0A8_46FD

  datatype ProxyState = ProxyState(
    arpTable: map<Ip4, Mac>,
    ndpTable: map<Ip6, Mac>,
    cpTable: map<Mac, ConnectPoint>)

  /**
   * The effects of one packet.  `aborted` marks the paths where the Java code
   * throws: relaying a reply whose requester has no known attachment point
   * (packet-out to a null point), and an IPv6 packet that is not ICMPv6.
   */
  datatype Step = Step(state: ProxyState, emitted: seq<Emission>, blocked: bool, aborted: bool)

  /** The perimeter filter: a target inside the domain that is not an anchor. */
  predicate Guarded(target: Ip4)
  {
    Contains(TA_DOMAIN, V4(target)) && target != TA_ANCHOR_1 && target != TA_ANCHOR_2
  }

  /** `learnArpMapping`: first writer wins for IPv4 -> MAC and for MAC -> attachment point. */
  function LearnArp(st: ProxyState, ip: Ip4, mac: Mac, cp: ConnectPoint): (r: ProxyState)
    ensures ip in r.arpTable && mac in r.cpTable && r.ndpTable == st.ndpTable
    ensures r.arpTable[ip] == (if ip in st.arpTable then st.arpTable[ip] else mac)
    ensures r.cpTable[mac] == (if mac in st.cpTable then st.cpTable[mac] else cp)
    ensures forall x | x in st.arpTable :: x in r.arpTable && r.arpTable[x] == st.arpTable[x]
    ensures forall m | m in st.cpTable :: m in r.cpTable && r.cpTable[m] == st.cpTable[m]
    ensures r.arpTable.Keys == st.arpTable.Keys + {ip} && r.cpTable.Keys == st.cpTable.Keys + {mac}
  {
    ProxyState(PutIfAbsent(st.arpTable, ip, mac), st.ndpTable, PutIfAbsent(st.cpTable, mac, cp))
  }

  /** `learnNdpMapping`: as `learnArpMapping`, for IPv6, sharing the attachment-point table. */
  function LearnNdp(st: ProxyState, ip: Ip6, mac: Mac, cp: ConnectPoint): (r: ProxyState)
    ensures ip in r.ndpTable && mac in r.cpTable && r.arpTable == st.arpTable
    ensures r.ndpTable[ip] == (if ip in st.ndpTable then st.ndpTable[ip] else mac)
    ensures r.cpTable[mac] == (if mac in st.cpTable then st.cpTable[mac] else cp)
    ensures forall x | x in st.ndpTable :: x in r.ndpTable && r.ndpTable[x] == st.ndpTable[x]
    ensures forall m | m in st.cpTable :: m in r.cpTable && r.cpTable[m] == st.cpTable[m]
    ensures r.ndpTable.Keys == st.ndpTable.Keys + {ip} && r.cpTable.Keys == st.cpTable.Keys + {mac}
  {
    ProxyState(st.arpTable, PutIfAbsent(st.ndpTable, ip, mac), PutIfAbsent(st.cpTable, mac, cp))
  }

  /** `cpTable.get(targetMac)` for a target MAC that may itself be missing. */
  function OutPort(st: ProxyState, targetMac: Option<Mac>): (cp: Option<ConnectPoint>)
    ensures cp.Some? <==> targetMac.Some? && targetMac.value in st.cpTable
    ensures cp.Some? ==> cp.value == st.cpTable[targetMac.value]
  {
    if targetMac.Some? && targetMac.value in st.cpTable then Some(st.cpTable[targetMac.value]) else None
  }

  /** The reply relay shared by ARP and NDP: forward unchanged, or throw when the requester's point is unknown. */
  function Relay(st: ProxyState, outport: Option<ConnectPoint>, f: Frame): (r: Step)
    ensures r.state == st && !r.blocked
    ensures r.aborted <==> outport.None?
    ensures outport.Some? ==> r.emitted == [PacketOut(outport.value, f)]
    ensures outport.None? ==> r.emitted == []
  {
    match outport
    case Some(cp) => Step(st, [PacketOut(cp, f)], false, false)
    case None => Step(st, [], false, true)
  }

  /**
   * The ARP branch: a guarded target is blocked before anything is
   * learned; otherwise the sender is learned, and a request is answered or
   * flooded, a reply relayed, and any other opcode ignored.  Only a reply
   * whose requester has no known attachment point throws.
   */
  function ProcessArp(edges: seq<ConnectPoint>, st: ProxyState, ingress: ConnectPoint, f: Frame): (r: Step)
    requires f.payload.Arp?
    ensures forall x | x in st.arpTable :: x in r.state.arpTable && r.state.arpTable[x] == st.arpTable[x]
    ensures forall x | x in st.ndpTable :: x in r.state.ndpTable && r.state.ndpTable[x] == st.ndpTable[x]
    ensures forall m | m in st.cpTable :: m in r.state.cpTable && r.state.cpTable[m] == st.cpTable[m]
    ensures |r.emitted| <= |edges| || |r.emitted| == 1
    ensures var arp := f.payload.arp;
      && (r.blocked <==> Guarded(arp.targetIp))
      && (Guarded(arp.targetIp) ==> r == Step(st, [], true, false))
      && (!Guarded(arp.targetIp) ==>
            var learned := LearnArp(st, arp.senderIp, f.src, ingress);
            && r.state == learned
            && (r.aborted <==>
                  arp.opCode == ARP_OP_REPLY
                  && (arp.targetIp !in learned.arpTable || learned.arpTable[arp.targetIp] !in learned.cpTable))
            && (arp.opCode != ARP_OP_REQUEST && arp.opCode != ARP_OP_REPLY ==> r.emitted == []))
  {
    var arp := f.payload.arp;
    var target := arp.targetIp;
    if Guarded(target) then Step(st, [], true, false)
    else
      var learned := LearnArp(st, arp.senderIp, f.src, ingress);
      var targetMac := Lookup(learned.arpTable, target);
      if arp.opCode == ARP_OP_REQUEST then
        match targetMac
        case Some(mac) => Step(learned, [PacketOut(ingress, ArpReply(target, mac, f))], false, false)
        case None => Step(learned, Flood(edges, ingress, f), false, false)
      else if arp.opCode == ARP_OP_REPLY then
        Relay(learned, OutPort(learned, targetMac), f)
      else Step(learned, [], false, false)
  }

  /**
   * The IPv6 branch: a payload that is not ICMPv6 throws before anything
   * is learned; otherwise the header's source is learned, and a
   * solicitation is answered or flooded, an advertisement relayed, and any
   * other ICMPv6 type ignored.  No perimeter filter applies and nothing is
   * blocked.
   */
  function ProcessNdp(edges: seq<ConnectPoint>, st: ProxyState, ingress: ConnectPoint, f: Frame): (r: Step)
    requires f.payload.Ipv6?
    ensures forall x | x in st.arpTable :: x in r.state.arpTable && r.state.arpTable[x] == st.arpTable[x]
    ensures forall x | x in st.ndpTable :: x in r.state.ndpTable && r.state.ndpTable[x] == st.ndpTable[x]
    ensures forall m | m in st.cpTable :: m in r.state.cpTable && r.state.cpTable[m] == st.cpTable[m]
    ensures |r.emitted| <= |edges| || |r.emitted| == 1
    ensures !r.blocked
    ensures f.payload.next.NonIcmp6? ==> r == Step(st, [], false, true)
    ensures f.payload.next.Icmp6? ==>
      var h := f.payload;
      var learned := LearnNdp(st, h.src6, f.src, ingress);
      && r.state == learned
      && (r.aborted <==>
            h.next.icmpType == ICMP6_NEIGHBOR_ADVERTISEMENT
            && (h.dst6 !in learned.ndpTable || learned.ndpTable[h.dst6] !in learned.cpTable))
      && (h.next.icmpType != ICMP6_NEIGHBOR_SOLICITATION && h.next.icmpType != ICMP6_NEIGHBOR_ADVERTISEMENT ==>
            r.emitted == [])
  {
    var ip6 := f.payload;
    match ip6.next
    case NonIcmp6 => Step(st, [], false, true)
    case Icmp6(icmpType, _) =>
      var learned := LearnNdp(st, ip6.src6, f.src, ingress);
      var targetMac := Lookup(learned.ndpTable, ip6.dst6);
      if icmpType == ICMP6_NEIGHBOR_SOLICITATION then
        match targetMac
        case Some(mac) =>
          var adv := NdpAdvertisement(ip6.dst6, mac, f);
          Step(learned, [PacketOut(ingress, adv.(payload := adv.payload.(hopLimit := ND_HOP_LIMIT)))], false, false)
        case None => Step(learned, Flood(edges, ingress, f), false, false)
      else if icmpType == ICMP6_NEIGHBOR_ADVERTISEMENT then
        Relay(learned, OutPort(learned, targetMac), f)
      else Step(learned, [], false, false)
  }

  /**
   * `ProxyArpProcessor.process`.  ARP: perimeter filter, learn, then
   * answer / flood / relay.  IPv6: learn by the IPv6 header's source and
   * look up by its destination, then answer a solicitation with an
   * advertisement of hop limit 255 / flood / relay an advertisement.
   */
  function Process(edges: seq<ConnectPoint>, st: ProxyState, pkt: PacketIn): (r: Step)
    ensures pkt.isHandled || pkt.parsed.None? ==> r == Step(st, [], false, false)
    ensures pkt.parsed.Some? && !pkt.parsed.value.payload.Arp? && !pkt.parsed.value.payload.Ipv6? ==>
      r == Step(st, [], false, false)
    // learning is first-write-wins: no binding ever changes
    ensures forall x | x in st.arpTable :: x in r.state.arpTable && r.state.arpTable[x] == st.arpTable[x]
    ensures forall x | x in st.ndpTable :: x in r.state.ndpTable && r.state.ndpTable[x] == st.ndpTable[x]
    ensures forall m | m in st.cpTable :: m in r.state.cpTable && r.state.cpTable[m] == st.cpTable[m]
    ensures |r.emitted| <= |edges| || |r.emitted| == 1
  {
    if pkt.isHandled || pkt.parsed.None? then Step(st, [], false, false)
    else
      var f := pkt.parsed.value;
      match f.payload
      case Arp(_) => ProcessArp(edges, st, pkt.receivedFrom, f)
      case Ipv6(_, _, _, _) => ProcessNdp(edges, st, pkt.receivedFrom, f)
      case _ => Step(st, [], false, false)
  }

  // ----- Properties -----

  predicate ArpFrame(pkt: PacketIn)
  {
    !pkt.isHandled && pkt.parsed.Some? && pkt.parsed.value.payload.Arp?
  }

  /** An ARP frame is blocked exactly when its target is guarded, and then nothing else happens: no emission, no learning. */
  lemma PerimeterBlocks(edges: seq<ConnectPoint>, st: ProxyState, pkt: PacketIn)
    requires ArpFrame(pkt)
    ensures Process(edges, st, pkt).blocked <==> Guarded(pkt.parsed.value.payload.arp.targetIp)
    ensures Guarded(pkt.parsed.value.payload.arp.targetIp) ==> Process(edges, st, pkt) == Step(st, [], true, false)
  {
  }

  lemma Pow2Of8()
    ensures Pow2(8) == 256
  {
    assert Pow2(2) == 4;
    assert Pow2(4) == 16;
  }

  /**
   * The perimeter filter numerically: a target is guarded exactly when it
   * lies in 192.168.70.0 .. 192.168.70.255 and is neither anchor.
   */
  lemma GuardedRange(target: Ip4)
    ensures Guarded(target) <==>
      0xC0A8_4600 <= target <= 0xC0A8_46FF && target != TA_ANCHOR_1 && target != TA_ANCHOR_2
  {
    Pow2Of8();
    assert Pow2(32 - 24) == 256;
  }

  /** 192.168.70.99 is guarded; the anchor 192.168.70.80 and an outside address 192.168.71.5 are not. */
  lemma PerimeterExamples()
    ensures Guarded(0xC0A8_4663)
    ensures !Guarded(0xC0A8_4650) && !Guarded(0xC0A8_46FD)
    ensures !Guarded(0xC0A8_4705)
  {
    Pow2Of8();
  }

  /**
   * An ARP request whose target is cached (after learning) yields exactly
   * one synthesized reply carrying the cached MAC, sent only out the
   * ingress point.
   */
  lemma RequestHitAnswersAtIngress(edges: seq<ConnectPoint>, st: ProxyState, pkt: PacketIn)
    requires ArpFrame(pkt)
    requires var arp := pkt.parsed.value.payload.arp;
             !Guarded(arp.targetIp) && arp.opCode == ARP_OP_REQUEST
    requires var arp := pkt.parsed.value.payload.arp;
             arp.targetIp in LearnArp(st, arp.senderIp, pkt.parsed.value.src, pkt.receivedFrom).arpTable
    ensures var f := pkt.parsed.value;
            var r := Process(edges, st, pkt);
            var learned := LearnArp(st, f.payload.arp.senderIp, f.src, pkt.receivedFrom);
            && r.emitted == [PacketOut(pkt.receivedFrom, ArpReply(f.payload.arp.targetIp, learned.arpTable[f.payload.arp.targetIp], f))]
            && r.state == learned && !r.aborted
  {
  }

  /** An uncached request floods the original frame to every edge point except the ingress, and nowhere else. */
  lemma RequestMissFloods(edges: seq<ConnectPoint>, st: ProxyState, pkt: PacketIn)
    requires ArpFrame(pkt)
    requires var arp := pkt.parsed.value.payload.arp;
             !Guarded(arp.targetIp) && arp.opCode == ARP_OP_REQUEST
             && arp.targetIp !in st.arpTable && arp.targetIp != arp.senderIp
    ensures var r := Process(edges, st, pkt);
            && (forall e | e in r.emitted :: e == PacketOut(e.point, pkt.parsed.value) && e.point in edges && e.point != pkt.receivedFrom)
            && (forall cp | cp in edges && cp != pkt.receivedFrom :: PacketOut(cp, pkt.parsed.value) in r.emitted)
  {
  }

  /**
   * An ARP reply is relayed unchanged to cpTable[arpTable[target]] and
   * nowhere else, looked up after the sender is learned: a gratuitous reply
   * (target == sender) is relayed back to where its own sender was seen.
   */
  lemma ReplyRelayedToRequester(edges: seq<ConnectPoint>, st: ProxyState, pkt: PacketIn)
    requires ArpFrame(pkt)
    requires var arp := pkt.parsed.value.payload.arp;
             !Guarded(arp.targetIp) && arp.opCode == ARP_OP_REPLY
    requires var arp := pkt.parsed.value.payload.arp;
             var learned := LearnArp(st, arp.senderIp, pkt.parsed.value.src, pkt.receivedFrom);
             arp.targetIp in learned.arpTable && learned.arpTable[arp.targetIp] in learned.cpTable
    ensures var f := pkt.parsed.value;
            var learned := LearnArp(st, f.payload.arp.senderIp, f.src, pkt.receivedFrom);
            var r := Process(edges, st, pkt);
            && r.emitted == [PacketOut(learned.cpTable[learned.arpTable[f.payload.arp.targetIp]], f)]
            && r.state == learned && !r.aborted && !r.blocked
  {
  }

  /**
   * Round trip: after an ARP from (ip, mac) arriving at cp into empty
   * bindings, the lookup of ip gives mac and of mac gives cp, and still
   * does after any later ARP, even one that claims the same ip or mac.
   */
  lemma {:induction false} LearnedBindingSurvives(edges: seq<ConnectPoint>, st: ProxyState, first: PacketIn, later: PacketIn)
    requires ArpFrame(first)
    requires var f := first.parsed.value;
             && !Guarded(f.payload.arp.targetIp)
             && f.payload.arp.senderIp !in st.arpTable && f.src !in st.cpTable
    ensures var f := first.parsed.value;
            var s1 := Process(edges, st, first).state;
            var s2 := Process(edges, s1, later).state;
            && s2.arpTable[f.payload.arp.senderIp] == f.src
            && s2.cpTable[f.src] == first.receivedFrom
  {
    var f := first.parsed.value;
    var s1 := Process(edges, st, first).state;
    assert s1.arpTable == LearnArp(st, f.payload.arp.senderIp, f.src, first.receivedFrom).arpTable;
    assert s1.cpTable == LearnArp(st, f.payload.arp.senderIp, f.src, first.receivedFrom).cpTable;
  }

  /**
   * A Neighbor Solicitation whose IPv6 destination is cached once the
   * header's source is learned is answered with one Neighbor Advertisement
   * at the ingress point, with hop limit 255, advertising the cached MAC;
   * no perimeter filter applies.
   */
  lemma SolicitationHitAdvertises(edges: seq<ConnectPoint>, st: ProxyState, pkt: PacketIn)
    requires !pkt.isHandled && pkt.parsed.Some? && pkt.parsed.value.payload.Ipv6?
    requires pkt.parsed.value.payload.next.Icmp6? && pkt.parsed.value.payload.next.icmpType == ICMP6_NEIGHBOR_SOLICITATION
    requires var f := pkt.parsed.value;
             f.payload.dst6 in LearnNdp(st, f.payload.src6, f.src, pkt.receivedFrom).ndpTable
    ensures var f := pkt.parsed.value;
            var learned := LearnNdp(st, f.payload.src6, f.src, pkt.receivedFrom);
            var r := Process(edges, st, pkt);
            && |r.emitted| == 1 && r.emitted[0].PacketOut? && r.emitted[0].point == pkt.receivedFrom
            && r.emitted[0].frame.payload.Ipv6? && r.emitted[0].frame.payload.hopLimit == ND_HOP_LIMIT
            && r.emitted[0].frame.src == learned.ndpTable[f.payload.dst6]
            && r.emitted[0].frame.payload.next == Icmp6(ICMP6_NEIGHBOR_ADVERTISEMENT, f.payload.dst6)
            && r.state == learned && !r.aborted
  {
  }

  /**
   * A Neighbor Advertisement is relayed unchanged through the
   * attachment-point table it shares with ARP, looked up after the
   * header's source is learned.
   */
  lemma AdvertisementRelayedViaSharedTable(edges: seq<ConnectPoint>, st: ProxyState, pkt: PacketIn)
    requires !pkt.isHandled && pkt.parsed.Some? && pkt.parsed.value.payload.Ipv6?
    requires pkt.parsed.value.payload.next.Icmp6? && pkt.parsed.value.payload.next.icmpType == ICMP6_NEIGHBOR_ADVERTISEMENT
    requires var f := pkt.parsed.value;
             var learned := LearnNdp(st, f.payload.src6, f.src, pkt.receivedFrom);
             f.payload.dst6 in learned.ndpTable && learned.ndpTable[f.payload.dst6] in learned.cpTable
    ensures var f := pkt.parsed.value;
            var learned := LearnNdp(st, f.payload.src6, f.src, pkt.receivedFrom);
            var r := Process(edges, st, pkt);
            && r.emitted == [PacketOut(learned.cpTable[learned.ndpTable[f.payload.dst6]], f)]
            && r.state == learned && !r.aborted
  {
  }

  /**
   * The attachment point ARP learned for a MAC is where a later
   * advertisement for an IPv6 address bound to that MAC is relayed.
   */
  lemma ArpLearnedPointLocatesAdvertisement(edges: seq<ConnectPoint>, st: ProxyState, arpPkt: PacketIn, ndpPkt: PacketIn)
    requires ArpFrame(arpPkt) && !Guarded(arpPkt.parsed.value.payload.arp.targetIp)
    requires arpPkt.parsed.value.src !in st.cpTable
    requires !ndpPkt.isHandled && ndpPkt.parsed.Some? && ndpPkt.parsed.value.payload.Ipv6?
    requires ndpPkt.parsed.value.payload.next.Icmp6?
    requires ndpPkt.parsed.value.payload.next.icmpType == ICMP6_NEIGHBOR_ADVERTISEMENT
    requires var dst := ndpPkt.parsed.value.payload.dst6;
             dst in st.ndpTable && st.ndpTable[dst] == arpPkt.parsed.value.src
    ensures var s1 := Process(edges, st, arpPkt).state;
            Process(edges, s1, ndpPkt).emitted == [PacketOut(arpPkt.receivedFrom, ndpPkt.parsed.value)]
  {
    var f := arpPkt.parsed.value;
    var s1 := Process(edges, st, arpPkt).state;
    assert s1 == LearnArp(st, f.payload.arp.senderIp, f.src, arpPkt.receivedFrom);
    var g := ndpPkt.parsed.value;
    var learned := LearnNdp(s1, g.payload.src6, g.src, ndpPkt.receivedFrom);
    assert learned.ndpTable[g.payload.dst6] == f.src;
    assert learned.cpTable[f.src] == arpPkt.receivedFrom;
  }
}
