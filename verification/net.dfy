/**
 * Shared vocabulary of the ONOS packet processors: link-layer and IP
 * addresses, prefixes, parsed frames, emitted packets, flow-rule
 * selectors, and the two table idioms (first-write-wins and flooding to
 * edge points) that every processor builds on.
 */
module Net {

  datatype Option<+T> = None | Some(value: T)

  /** A 48-bit Ethernet address. */
  type Mac = m: int | 0 <= m < 0x1_0000_0000_0000

  /** A 32-bit IPv4 address. */
  type Ip4 = a: int | 0 <= a < 0x1_0000_0000

  /** A 128-bit IPv6 address. */
  type Ip6 = a: int | 0 <= a < 0x1_0000_0000_0000_0000_0000_0000_0000_0000

  type DeviceId = nat
  type PortNumber = nat

  /** A (device, port) attachment point. */
  datatype ConnectPoint = ConnectPoint(device: DeviceId, port: PortNumber)

  datatype IpAddress = V4(v4: Ip4) | V6(v6: Ip6)

  // EtherType values of IEEE 802.3 that the processors dispatch on.
  const TYPE_IPV4: nat := 0x0800
  const TYPE_ARP: nat := 0x0806
  const TYPE_IPV6: nat := 0x86DD

  // ARP constants of RFC 826.
  const ARP_PROTO_TYPE_IP: nat := 0x0800
  const ARP_OP_REQUEST: nat := 1
  const ARP_OP_REPLY: nat := 2

  // ICMPv6 Neighbor Discovery message types (section 4 of RFC 4861).
  const ICMP6_NEIGHBOR_SOLICITATION: nat := 135
  const ICMP6_NEIGHBOR_ADVERTISEMENT: nat := 136

  /** Hop limit every Neighbor Discovery message carries (section 7.1.2 of RFC 4861). */
  const ND_HOP_LIMIT: nat := 255

  function Width(ip: IpAddress): nat
  {
    if ip.V4? then 32 else 128
  }

  function Value(ip: IpAddress): nat
  {
    match ip
    case V4(a) => a
    case V6(a) => a
  }

  predicate SameFamily(a: IpAddress, b: IpAddress)
  {
    a.V4? == b.V4?
  }

  function Pow2(n: nat): (r: nat)
    ensures r >= 1
  {
    if n == 0 then 1 else 2 * Pow2(n - 1)
  }

  /** An address prefix: the `length` leading bits of `address`. */
  datatype IpPrefix = IpPrefix(address: IpAddress, length: nat)

  /**
   * Prefix containment: an address of the prefix's family whose leading
   * `length` bits agree with the prefix's.  An address of the other family
   * is never contained.
   */
  predicate Contains(p: IpPrefix, ip: IpAddress)
  {
    && SameFamily(p.address, ip)
    && p.length <= Width(ip)
    && Value(ip) / Pow2(Width(ip) - p.length) == Value(p.address) / Pow2(Width(ip) - p.length)
  }

  /** The full-length prefix of one address (a /32 or a /128). */
  function HostPrefix(ip: IpAddress): (p: IpPrefix)
    ensures Contains(p, ip)
    ensures p.length == Width(ip)
  {
    IpPrefix(ip, Width(ip))
  }

  /** A host prefix contains exactly its own address. */
  lemma HostPrefixContainsOnlyItself(a: IpAddress, b: IpAddress)
    ensures Contains(HostPrefix(a), b) <==> a == b
  {
    if Contains(HostPrefix(a), b) {
      assert Pow2(Width(b) - Width(a)) == 1;
      assert Value(a) == Value(b);
    }
  }

  // ----- Frames -----

  datatype ArpPacket = ArpPacket(
    protocolType: nat,
    opCode: nat,
    senderMac: Mac,
    senderIp: Ip4,
    targetMac: Mac,
    targetIp: Ip4)

  /** What follows an IPv6 header: an ICMPv6 message (with its ND target) or anything else. */
  datatype Ipv6Next = Icmp6(icmpType: nat, ndTarget: Ip6) | NonIcmp6

  /** EtherTypes other than IPv4, ARP and IPv6, for which no processor parses a payload. */
  type OtherEtherType = t: nat | t != TYPE_IPV4 && t != TYPE_ARP && t != TYPE_IPV6 witness 0x88CC

  datatype Payload =
    | Arp(arp: ArpPacket)
    | Ipv4(src4: Ip4, dst4: Ip4)
    | Ipv6(src6: Ip6, dst6: Ip6, hopLimit: nat, next: Ipv6Next)
    | Other(etherType: OtherEtherType)

  /** A parsed Ethernet frame. */
  datatype Frame = Frame(src: Mac, dst: Mac, payload: Payload)

  function EtherType(f: Frame): (t: nat)
    ensures t == TYPE_ARP <==> f.payload.Arp?
    ensures t == TYPE_IPV4 <==> f.payload.Ipv4?
    ensures t == TYPE_IPV6 <==> f.payload.Ipv6?
  {
    match f.payload
    case Arp(_) => TYPE_ARP
    case Ipv4(_, _) => TYPE_IPV4
    case Ipv6(_, _, _, _) => TYPE_IPV6
    case Other(t) => t
  }

  /**
   * The ARP reply the ONOS packet library builds for `request`, announcing
   * that `ip` is at `mac`: sender and target swapped as section "Packet
   * Reception" of RFC 826 prescribes, addressed back to the requester.
   */
  function ArpReply(ip: Ip4, mac: Mac, request: Frame): (reply: Frame)
    requires request.payload.Arp?
    ensures reply.payload.Arp? && reply.payload.arp.opCode == ARP_OP_REPLY
    ensures reply.src == mac && reply.dst == request.src
    ensures reply.payload.arp.senderIp == ip && reply.payload.arp.senderMac == mac
    ensures reply.payload.arp.targetIp == request.payload.arp.senderIp
    ensures reply.payload.arp.targetMac == request.payload.arp.senderMac
  {
    var a := request.payload.arp;
    Frame(mac, request.src, Arp(ArpPacket(ARP_PROTO_TYPE_IP, ARP_OP_REPLY, mac, ip, a.senderMac, a.senderIp)))
  }

  /**
   * The Neighbor Advertisement the ONOS packet library builds for
   * `request`, announcing that `ip` is at `mac` (section 4.4 of RFC 4861),
   * addressed back to the soliciting node.  The library's own choice of hop
   * limit is not part of this model: the advertisement keeps the request's.
   */
  function NdpAdvertisement(ip: Ip6, mac: Mac, request: Frame): (adv: Frame)
    requires request.payload.Ipv6?
    ensures adv.payload.Ipv6? && adv.payload.next == Icmp6(ICMP6_NEIGHBOR_ADVERTISEMENT, ip)
    ensures adv.src == mac && adv.dst == request.src
    ensures adv.payload.src6 == ip && adv.payload.dst6 == request.payload.src6
  {
    var h := request.payload;
    Frame(mac, request.src, Ipv6(ip, h.src6, h.hopLimit, Icmp6(ICMP6_NEIGHBOR_ADVERTISEMENT, ip)))
  }

  // ----- Packet contexts and emissions -----

  /** What a packet processor is handed: where the frame came from, the frame if it parsed, and whether an earlier processor already handled it. */
  datatype PacketIn = PacketIn(receivedFrom: ConnectPoint, parsed: Option<Frame>, isHandled: bool)

  /** A frame sent out of one attachment point, or out of every port of a device (OpenFlow FLOOD). */
  datatype Emission =
    | PacketOut(point: ConnectPoint, frame: Frame)
    | FloodOut(device: DeviceId, frame: Frame)

  /**
   * The frame sent to every edge point except the one it arrived on, in the
   * edge-port service's order.
   */
  function Flood(edges: seq<ConnectPoint>, ingress: ConnectPoint, f: Frame): (r: seq<Emission>)
    ensures |r| <= |edges|
    ensures forall e | e in r :: e.PacketOut? && e.frame == f && e.point in edges && e.point != ingress
    ensures forall cp | cp in edges && cp != ingress :: PacketOut(cp, f) in r
    // one copy per occurrence of a point in the edge list, none for the ingress
    ensures forall cp: ConnectPoint ::
      multiset(r)[PacketOut(cp, f)] == (if cp == ingress then 0 else multiset(edges)[cp])
  {
    if edges == [] then []
    else
      var rest := Flood(edges[1..], ingress, f);
      assert multiset(edges) == multiset{edges[0]} + multiset(edges[1..]) by {
        assert edges == [edges[0]] + edges[1..];
      }
      if edges[0] == ingress then rest else [PacketOut(edges[0], f)] + rest
  }

  // ----- Tables -----

  /**
   * Java's `putIfAbsent`: the first binding of a key wins and later ones are
   * ignored.
   */
  function PutIfAbsent<K, V>(m: map<K, V>, k: K, v: V): (r: map<K, V>)
    ensures r.Keys == m.Keys + {k}
    ensures k in m ==> r == m
    ensures k !in m ==> r[k] == v
    ensures forall x | x in m :: r[x] == m[x]
  {
    if k in m then m else m[k := v]
  }

  function Lookup<K, V>(m: map<K, V>, k: K): (r: Option<V>)
    ensures r.Some? <==> k in m
    ensures r.Some? ==> r.value == m[k]
  {
    if k in m then Some(m[k]) else None
  }

  // ----- Selectors and flow rules -----

  /** A traffic selector: the header fields a rule or intent matches on (None = wildcard). */
  datatype Selector = Selector(
    ethType: Option<nat>,
    ipDst: Option<IpPrefix>,
    ethDst: Option<Mac>,
    ethSrc: Option<Mac>,
    inPort: Option<PortNumber>)

  const AnyTraffic := Selector(None, None, None, None, None)

  /** An opaque handle for a group or meter the application created on a device. */
  datatype GroupToken = GroupOf(groupDevice: DeviceId)
  datatype MeterToken = MeterOf(meterDevice: DeviceId)

  datatype RuleAction =
    | OutputTo(port: PortNumber)
    | ToGroup(group: GroupToken)
    | OutputMetered(meteredPort: PortNumber, meter: MeterToken)

  datatype Timeout = Permanent | Temporary(seconds: nat)

  /** A flow rule applied directly to one device's flow table. */
  datatype FlowRule = FlowRule(
    device: DeviceId,
    selector: Selector,
    action: RuleAction,
    priority: nat,
    timeout: Timeout)
}
