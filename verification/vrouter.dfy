/**
 * The vrouter's packet processor (`IntraInterProcessor`): every parsed
 * frame is offered to the external-in classifier and then to the
 * external-out classifier; only when both decline is it bridged inside the
 * domain by a per-device, first-write-wins learning bridge.
 */
module VRouter {
  import opened Net
  import opened Intents
  import opened RouterEnv

  const EXTERNAL_IN_PRIORITY: nat := 24
  const EXTERNAL_OUT_PRIORITY: nat := 25
  const BRIDGE_PRIORITY: nat := 20

  /** What a classifier returned: true, false, or an exception that ended the processing. */
  datatype Verdict = Handled | Declined | Aborted

  /** The effects of one classifier or of the bridge, with the classifier's verdict. */
  datatype Outcome = Outcome(
    state: RouterState,
    emitted: seq<Emission>,
    submitted: seq<Intent>,
    blocked: bool,
    verdict: Verdict)

  /** The effects of processing one packet. */
  datatype Step = Step(
    state: RouterState,
    emitted: seq<Emission>,
    submitted: seq<Intent>,
    blocked: bool,
    aborted: bool)

  predicate IsIp(f: Frame)
  {
    f.payload.Ipv4? || f.payload.Ipv6?
  }

  function SrcIp(f: Frame): IpAddress
    requires IsIp(f)
  {
    if f.payload.Ipv4? then V4(f.payload.src4) else V6(f.payload.src6)
  }

  function DstIp(f: Frame): IpAddress
    requires IsIp(f)
  {
    if f.payload.Ipv4? then V4(f.payload.dst4) else V6(f.payload.dst6)
  }

  /** The selector matching IP traffic of `f`'s family to exactly `f`'s destination address. */
  function DstSelector(f: Frame): (s: Selector)
    requires IsIp(f)
    ensures s.ethType == Some(EtherType(f))
    ensures s.ipDst.Some? && Contains(s.ipDst.value, DstIp(f))
    ensures s.ethDst.None? && s.ethSrc.None? && s.inPort.None?
  {
    AnyTraffic.(ethType := Some(EtherType(f)), ipDst := Some(HostPrefix(DstIp(f))))
  }

  /** External-in's selector: the destination address, and for IPv4 also the FRR router's MAC as destination. */
  function ExternalInSelector(cfg: RouterConfig, f: Frame): Selector
    requires IsIp(f)
  {
    if f.payload.Ipv4? then DstSelector(f).(ethDst := Some(cfg.frrMac)) else DstSelector(f)
  }

  /** External-in's rewrite: to the host's MAC, from the gateway's (IPv4) or the FRR router's (IPv6). */
  function ExternalInRewrite(cfg: RouterConfig, host: Host, f: Frame): Rewrite
  {
    Rewrite(host.mac, if f.payload.Ipv4? then cfg.gatewayMac else cfg.frrMac)
  }

  /**
   * `processExternalIn`: traffic whose source is reachable by a route is
   * steered to the destination host, with the destination MAC rewritten to
   * the host's and the source MAC to the gateway's (IPv4) or the FRR
   * router's (IPv6).  Non-IP frames are claimed (true) without effect.
   */
  function ExternalIn(cfg: RouterConfig, svc: Services, st: RouterState, ingress: ConnectPoint, f: Frame): (o: Outcome)
    ensures o.state.bridge == st.bridge && st.intents <= o.state.intents
    ensures o.verdict != Aborted
    ensures !IsIp(f) ==> o == Outcome(st, [], [], false, Handled)
    ensures IsIp(f) && svc.longestPrefixLookup(SrcIp(f)).None? ==>
      o == Outcome(st, [], [], f.payload.Ipv6?, Declined)
    ensures IsIp(f) && svc.longestPrefixLookup(SrcIp(f)).Some? && GetHost(svc, DstIp(f)).None? ==>
      o == Outcome(st, Flood(svc.edgePoints, ingress, f), [], true, Declined)
    ensures IsIp(f) && svc.longestPrefixLookup(SrcIp(f)).Some? && GetHost(svc, DstIp(f)).Some? ==>
      var host := GetHost(svc, DstIp(f)).value;
      var key := PointKey(ingress, host.location, ExternalInSelector(cfg, f), Some(ExternalInRewrite(cfg, host, f)));
      && o.verdict == Handled && !o.blocked && o.emitted == []
      // the intent's key is known afterwards, and the intent is submitted exactly when it was new
      && o.state.intents == st.intents + {key}
      && (o.submitted == [] <==> key in st.intents)
      && |o.submitted| <= 1
      && (forall i | i in o.submitted :: i.key == Some(key))
      && forall i | i in o.submitted ::
           && i.PointToPoint? && i.priority == EXTERNAL_IN_PRIORITY
           && i.ingress == ingress && i.egress == host.location
           && i.selector.ethType == Some(EtherType(f))
           && i.selector.ipDst == Some(HostPrefix(DstIp(f)))
           && i.selector.ethDst == (if f.payload.Ipv4? then Some(cfg.frrMac) else None)
           && i.treatment == Some(Rewrite(host.mac, if f.payload.Ipv4? then cfg.gatewayMac else cfg.frrMac))
  {
    if !IsIp(f) then Outcome(st, [], [], false, Handled)
    else if svc.longestPrefixLookup(SrcIp(f)).None? then
      // only the IPv6 branch blocks the context before declining
      Outcome(st, [], [], f.payload.Ipv6?, Declined)
    else match GetHost(svc, DstIp(f))
      case None => Outcome(st, Flood(svc.edgePoints, ingress, f), [], true, Declined)
      case Some(host) =>
        var ins := InstallIntent(st.intents, ingress, host.location, ExternalInSelector(cfg, f),
                                 Some(ExternalInRewrite(cfg, host, f)), EXTERNAL_IN_PRIORITY);
        Outcome(st.(intents := ins.keys), [], ins.submitted, false, Handled)
  }

  /**
   * `processExternalOut`: traffic whose destination is reachable by a route
   * is steered to the interface facing the route's next hop, rewriting the
   * destination MAC to the next hop's and the source MAC to the gateway's.
   * A next hop with no known host or no matching interface ends the
   * processing (`processExternalOut` dereferences null there).
   */
  function ExternalOut(cfg: RouterConfig, svc: Services, st: RouterState, ingress: ConnectPoint, f: Frame): (o: Outcome)
    ensures o.state.bridge == st.bridge && st.intents <= o.state.intents
    ensures o.emitted == [] && !o.blocked
    ensures !IsIp(f) ==> o == Outcome(st, [], [], false, Handled)
    ensures IsIp(f) && svc.longestPrefixLookup(DstIp(f)).None? ==> o == Outcome(st, [], [], false, Declined)
    ensures IsIp(f) && svc.longestPrefixLookup(DstIp(f)).Some? ==>
      var nextHop := svc.longestPrefixLookup(DstIp(f)).value.nextHop;
      && (o.verdict == Aborted <==> GetHost(svc, nextHop).None? || svc.matchingInterface(nextHop).None?)
      && (o.verdict == Aborted ==> o.state == st && o.submitted == [])
      && (o.verdict != Aborted ==> o.verdict == Handled)
      && (o.verdict == Handled ==>
            var key := PointKey(ingress, svc.matchingInterface(nextHop).value.connectPoint, DstSelector(f),
                                Some(Rewrite(GetHost(svc, nextHop).value.mac, cfg.gatewayMac)));
            && o.state.intents == st.intents + {key}
            && (o.submitted == [] <==> key in st.intents)
            && (forall i | i in o.submitted :: i.key == Some(key)))
      && |o.submitted| <= 1
      && forall i | i in o.submitted ::
           && i.PointToPoint? && i.priority == EXTERNAL_OUT_PRIORITY
           && i.ingress == ingress && i.egress == svc.matchingInterface(nextHop).value.connectPoint
           && i.selector == DstSelector(f)
           && i.treatment == Some(Rewrite(GetHost(svc, nextHop).value.mac, cfg.gatewayMac))
  {
    if !IsIp(f) then Outcome(st, [], [], false, Handled)
    else match svc.longestPrefixLookup(DstIp(f))
      case None => Outcome(st, [], [], false, Declined)
      case Some(route) =>
        match (GetHost(svc, route.nextHop), svc.matchingInterface(route.nextHop))
        case (Some(nextHopHost), Some(intf)) =>
          var rewrite := Rewrite(nextHopHost.mac, cfg.gatewayMac);
          var ins := InstallIntent(st.intents, ingress, intf.connectPoint, DstSelector(f), Some(rewrite), EXTERNAL_OUT_PRIORITY);
          Outcome(st.(intents := ins.keys), [], ins.submitted, false, Handled)
        case _ => Outcome(st, [], [], false, Aborted)
  }

  /** The learned table of one device; a device never seen has an empty one. */
  function TableOf(bridge: map<DeviceId, map<Mac, PortNumber>>, d: DeviceId): map<Mac, PortNumber>
  {
    if d in bridge then bridge[d] else map[]
  }

  /**
   * `processIntraDomain`: learn the source MAC's port on first sighting
   * only, then flood to the edge if the destination is unknown on this
   * device, or request a priority-20 intent to its learned port.
   */
  function IntraDomain(svc: Services, st: RouterState, ingress: ConnectPoint, f: Frame): (o: Outcome)
    ensures ingress.device in o.state.bridge
    ensures var table := o.state.bridge[ingress.device];
      && f.src in table
      && table[f.src] == (if f.src in TableOf(st.bridge, ingress.device) then TableOf(st.bridge, ingress.device)[f.src] else ingress.port)
      && table.Keys == TableOf(st.bridge, ingress.device).Keys + {f.src}
      && forall m | m in TableOf(st.bridge, ingress.device) :: table[m] == TableOf(st.bridge, ingress.device)[m]
    ensures forall d | d != ingress.device :: TableOf(o.state.bridge, d) == TableOf(st.bridge, d)
    ensures o.state.bridge.Keys == st.bridge.Keys + {ingress.device}
    ensures st.intents <= o.state.intents && !o.blocked
    ensures f.dst !in o.state.bridge[ingress.device] ==>
      o.emitted == Flood(svc.edgePoints, ingress, f) && o.submitted == [] && o.state.intents == st.intents
    ensures f.dst in o.state.bridge[ingress.device] ==>
      var key := PointKey(ingress, ConnectPoint(ingress.device, o.state.bridge[ingress.device][f.dst]),
                          AnyTraffic.(ethDst := Some(f.dst), ethSrc := Some(f.src)), None);
      && o.emitted == []
      && o.state.intents == st.intents + {key}
      && (o.submitted == [] <==> key in st.intents)
      && (forall i | i in o.submitted :: i.key == Some(key))
      && |o.submitted| <= 1
      && forall i | i in o.submitted ::
           && i.PointToPoint? && i.priority == BRIDGE_PRIORITY
           && i.ingress == ingress
           && i.egress == ConnectPoint(ingress.device, o.state.bridge[ingress.device][f.dst])
           && i.selector == AnyTraffic.(ethDst := Some(f.dst), ethSrc := Some(f.src))
           && i.treatment == None
  {
    var device := ingress.device;
    var table := PutIfAbsent(TableOf(st.bridge, device), f.src, ingress.port);
    var bridge := st.bridge[device := table];
    if f.dst !in table then
      Outcome(st.(bridge := bridge), Flood(svc.edgePoints, ingress, f), [], false, Declined)
    else
      var egress := ConnectPoint(device, table[f.dst]);
      var selector := AnyTraffic.(ethDst := Some(f.dst), ethSrc := Some(f.src));
      var ins := InstallIntent(st.intents, ingress, egress, selector, None, BRIDGE_PRIORITY);
      Outcome(RouterState(bridge, ins.keys), [], ins.submitted, false, Declined)
  }

  /** External-in floods and blocks: the source is routed but no host is known for the destination. */
  predicate FloodsUnknownHost(svc: Services, f: Frame)
  {
    IsIp(f) && svc.longestPrefixLookup(SrcIp(f)).Some? && GetHost(svc, DstIp(f)).None?
  }

  /** Neither classifier claims the frame, so it is bridged. */
  predicate Bridges(svc: Services, f: Frame)
  {
    && IsIp(f) && svc.longestPrefixLookup(DstIp(f)).None?
    && (svc.longestPrefixLookup(SrcIp(f)).None? || GetHost(svc, DstIp(f)).None?)
  }

  /** External-out throws: the destination is routed but its next hop has no host or no interface. */
  predicate OutAborts(svc: Services, f: Frame)
  {
    && IsIp(f) && svc.longestPrefixLookup(DstIp(f)).Some?
    && var nextHop := svc.longestPrefixLookup(DstIp(f)).value.nextHop;
       GetHost(svc, nextHop).None? || svc.matchingInterface(nextHop).None?
  }

  /**
   * `IntraInterProcessor.process`: both classifiers always run, external-in
   * first; the frame is bridged only when both decline.  An exception in
   * external-out ends the processing after external-in's effects.
   */
  function Process(cfg: RouterConfig, svc: Services, st: RouterState, pkt: PacketIn): (r: Step)
    ensures pkt.isHandled || pkt.parsed.None? ==> r == Step(st, [], [], false, false)
    ensures st.intents <= r.state.intents
    ensures forall d | d != pkt.receivedFrom.device :: TableOf(r.state.bridge, d) == TableOf(st.bridge, d)
  {
    if pkt.isHandled || pkt.parsed.None? then Step(st, [], [], false, false)
    else
      var f := pkt.parsed.value;
      var ingress := pkt.receivedFrom;
      var extIn := ExternalIn(cfg, svc, st, ingress, f);
      var extOut := ExternalOut(cfg, svc, extIn.state, ingress, f);
      var emitted := extIn.emitted + extOut.emitted;
      var submitted := extIn.submitted + extOut.submitted;
      var blocked := extIn.blocked || extOut.blocked;
      if extOut.verdict == Aborted then
        Step(extOut.state, emitted, submitted, blocked, true)
      else if extIn.verdict == Handled || extOut.verdict == Handled then
        Step(extOut.state, emitted, submitted, blocked, false)
      else
        var bridged := IntraDomain(svc, extOut.state, ingress, f);
        Step(bridged.state, emitted + bridged.emitted, submitted + bridged.submitted, blocked, false)
  }

  // ----- Properties of the processor -----

  /** External-in's emissions: the flood for an unknown destination host, and nothing otherwise. */
  function InEmitted(svc: Services, ingress: ConnectPoint, f: Frame): seq<Emission>
  {
    if FloodsUnknownHost(svc, f) then Flood(svc.edgePoints, ingress, f) else []
  }

  /**
   * Only external-in blocks: for an unknown destination host (after
   * flooding) and for IPv6 from an unrouted source.  Neither external-out
   * nor the bridge ever blocks.
   */
  lemma ProcessBlocked(cfg: RouterConfig, svc: Services, st: RouterState, pkt: PacketIn)
    requires !pkt.isHandled && pkt.parsed.Some?
    ensures var f := pkt.parsed.value;
            (Process(cfg, svc, st, pkt).blocked <==>
               FloodsUnknownHost(svc, f) || (f.payload.Ipv6? && svc.longestPrefixLookup(SrcIp(f)).None?))
  {
    var f := pkt.parsed.value;
    var extIn := ExternalIn(cfg, svc, st, pkt.receivedFrom, f);
    assert extIn.blocked <==> FloodsUnknownHost(svc, f) || (f.payload.Ipv6? && svc.longestPrefixLookup(SrcIp(f)).None?);
  }

  /**
   * An exception in external-out ends the processing: it happens exactly
   * when the destination is routed via a next hop with no host or no
   * interface, and then external-in's effects stand and nothing is bridged.
   */
  lemma ProcessAborts(cfg: RouterConfig, svc: Services, st: RouterState, pkt: PacketIn)
    requires !pkt.isHandled && pkt.parsed.Some?
    ensures var f := pkt.parsed.value;
            var r := Process(cfg, svc, st, pkt);
            && (r.aborted <==> OutAborts(svc, f))
            && (r.aborted ==>
                  && r.state.bridge == st.bridge && r.emitted == InEmitted(svc, pkt.receivedFrom, f)
                  && r.submitted == ExternalIn(cfg, svc, st, pkt.receivedFrom, f).submitted)
  {
    var f := pkt.parsed.value;
    var extIn := ExternalIn(cfg, svc, st, pkt.receivedFrom, f);
    assert extIn.emitted == InEmitted(svc, pkt.receivedFrom, f);
    var extOut := ExternalOut(cfg, svc, extIn.state, pkt.receivedFrom, f);
    assert extOut.verdict == Aborted <==> OutAborts(svc, f);
  }

  /** A frame one classifier claims emits only what external-in emitted, and is not bridged. */
  lemma ClaimedFrameEmissions(cfg: RouterConfig, svc: Services, st: RouterState, pkt: PacketIn)
    requires !pkt.isHandled && pkt.parsed.Some? && !Bridges(svc, pkt.parsed.value)
    ensures var r := Process(cfg, svc, st, pkt);
            r.emitted == InEmitted(svc, pkt.receivedFrom, pkt.parsed.value) && r.state.bridge == st.bridge
  {
    var f := pkt.parsed.value;
    var extIn := ExternalIn(cfg, svc, st, pkt.receivedFrom, f);
    assert extIn.emitted == InEmitted(svc, pkt.receivedFrom, f);
  }

  /** A frame that is neither IPv4 nor IPv6 is claimed by both classifiers and so is never bridged: nothing happens. */
  lemma NonIpNeverBridged(cfg: RouterConfig, svc: Services, st: RouterState, pkt: PacketIn)
    requires pkt.parsed.Some? && !IsIp(pkt.parsed.value)
    ensures Process(cfg, svc, st, pkt) == Step(st, [], [], false, false)
  {
  }

  /** A destination reachable by a route is never bridged: the bridge tables are untouched. */
  lemma RoutedDestinationNeverBridged(cfg: RouterConfig, svc: Services, st: RouterState, pkt: PacketIn)
    requires pkt.parsed.Some? && IsIp(pkt.parsed.value)
    requires svc.longestPrefixLookup(DstIp(pkt.parsed.value)).Some?
    ensures Process(cfg, svc, st, pkt).state.bridge == st.bridge
  {
  }

  /**
   * Bridging happens exactly when neither classifier claims the frame:
   * an IP frame with no route to its destination, and either no route
   * from its source or no host for its destination.  Then the source MAC
   * is learned on the ingress device and the bridge's flood or priority-20
   * intent is what the packet causes; otherwise the tables are untouched
   * and no priority-20 intent is submitted.
   */
  lemma BridgedExactlyWhenBothDecline(cfg: RouterConfig, svc: Services, st: RouterState, pkt: PacketIn)
    requires !pkt.isHandled && pkt.parsed.Some?
    ensures var f := pkt.parsed.value;
            var r := Process(cfg, svc, st, pkt);
            var bridged := IntraDomain(svc, st, pkt.receivedFrom, f);
            && (Bridges(svc, f) ==>
                  && f.src in r.state.bridge[pkt.receivedFrom.device]
                  && r.state == bridged.state && r.submitted == bridged.submitted
                  && r.emitted == InEmitted(svc, pkt.receivedFrom, f) + bridged.emitted && !r.aborted)
            && (!Bridges(svc, f) ==>
                  && r.state.bridge == st.bridge
                  && forall i | i in r.submitted :: i.priority != BRIDGE_PRIORITY)
  {
  }

  /**
   * Both classifiers run on the same frame: a frame routed both ways,
   * whose hosts and interface are known and whose two intent keys are new,
   * yields the external-in intent (priority 24, to the destination host)
   * followed by the external-out intent (priority 25, to the next hop's
   * interface).  For IPv6 the two keys can only coincide when the FRR and
   * gateway MACs are equal, so that case is set aside.
   */
  lemma BothClassifiersRun(cfg: RouterConfig, svc: Services, st: RouterState, pkt: PacketIn)
    requires !pkt.isHandled && pkt.parsed.Some? && IsIp(pkt.parsed.value)
    requires var f := pkt.parsed.value;
             && svc.longestPrefixLookup(SrcIp(f)).Some? && GetHost(svc, DstIp(f)).Some?
             && svc.longestPrefixLookup(DstIp(f)).Some?
             && var nextHop := svc.longestPrefixLookup(DstIp(f)).value.nextHop;
                GetHost(svc, nextHop).Some? && svc.matchingInterface(nextHop).Some?
    requires var f := pkt.parsed.value;
             var host := GetHost(svc, DstIp(f)).value;
             PointKey(pkt.receivedFrom, host.location, ExternalInSelector(cfg, f), Some(ExternalInRewrite(cfg, host, f)))
               !in st.intents
    requires var f := pkt.parsed.value;
             var nextHop := svc.longestPrefixLookup(DstIp(f)).value.nextHop;
             PointKey(pkt.receivedFrom, svc.matchingInterface(nextHop).value.connectPoint, DstSelector(f),
                      Some(Rewrite(GetHost(svc, nextHop).value.mac, cfg.gatewayMac)))
               !in st.intents
    requires pkt.parsed.value.payload.Ipv4? || cfg.frrMac != cfg.gatewayMac
    ensures var f := pkt.parsed.value;
            var r := Process(cfg, svc, st, pkt);
            var nextHop := svc.longestPrefixLookup(DstIp(f)).value.nextHop;
            && |r.submitted| == 2 && !r.aborted
            && r.submitted[0].priority == EXTERNAL_IN_PRIORITY
            && r.submitted[0].egress == GetHost(svc, DstIp(f)).value.location
            && r.submitted[1].priority == EXTERNAL_OUT_PRIORITY
            && r.submitted[1].egress == svc.matchingInterface(nextHop).value.connectPoint
  {
    var f := pkt.parsed.value;
    var extIn := ExternalIn(cfg, svc, st, pkt.receivedFrom, f);
    assert |extIn.submitted| == 1;
    var nextHop := svc.longestPrefixLookup(DstIp(f)).value.nextHop;
    var egress := svc.matchingInterface(nextHop).value.connectPoint;
    var key := PointKey(pkt.receivedFrom, egress, DstSelector(f), Some(Rewrite(GetHost(svc, nextHop).value.mac, cfg.gatewayMac)));
    var inKey := extIn.submitted[0].key.value;
    assert extIn.state.intents == st.intents + {inKey};
    if f.payload.Ipv4? {
      assert inKey.selector.ethDst == Some(cfg.frrMac);
    } else {
      assert inKey.treatment.value.setEthSrc == cfg.frrMac;
    }
    assert inKey != key;
  }

  /**
   * A bridge entry for (device, MAC) is written on the first sighting
   * only: a later frame from the same MAC on another port does not move
   * it, and other devices' tables are untouched.
   */
  lemma BridgeEntryWrittenOnce(svc: Services, st: RouterState, device: DeviceId, port1: PortNumber, port2: PortNumber, f1: Frame, f2: Frame)
    requires f1.src == f2.src && f1.src !in TableOf(st.bridge, device)
    ensures var once := IntraDomain(svc, st, ConnectPoint(device, port1), f1);
            var twice := IntraDomain(svc, once.state, ConnectPoint(device, port2), f2);
            && twice.state.bridge[device][f1.src] == port1
            && forall d | d != device :: TableOf(twice.state.bridge, d) == TableOf(st.bridge, d)
  {
  }

  /** A classifier re-run once its intents are known changes nothing and submits nothing, with the same verdict. */
  lemma ExternalInAgain(cfg: RouterConfig, svc: Services, st: RouterState, later: RouterState, ingress: ConnectPoint, f: Frame)
    requires ExternalIn(cfg, svc, st, ingress, f).state.intents <= later.intents
    ensures var o := ExternalIn(cfg, svc, st, ingress, f);
            ExternalIn(cfg, svc, later, ingress, f) == Outcome(later, o.emitted, [], o.blocked, o.verdict)
  {
  }

  lemma ExternalOutAgain(cfg: RouterConfig, svc: Services, st: RouterState, later: RouterState, ingress: ConnectPoint, f: Frame)
    requires ExternalOut(cfg, svc, st, ingress, f).state.intents <= later.intents
    ensures var o := ExternalOut(cfg, svc, st, ingress, f);
            ExternalOut(cfg, svc, later, ingress, f) == Outcome(later, o.emitted, [], o.blocked, o.verdict)
  {
  }

  /** Bridging the same frame again, on the table it produced, changes nothing and submits nothing. */
  lemma IntraDomainAgain(svc: Services, st: RouterState, later: RouterState, ingress: ConnectPoint, f: Frame)
    requires var o := IntraDomain(svc, st, ingress, f);
             o.state.intents <= later.intents && ingress.device in later.bridge
             && later.bridge[ingress.device] == o.state.bridge[ingress.device]
    ensures IntraDomain(svc, later, ingress, f).state == later
    ensures IntraDomain(svc, later, ingress, f).submitted == []
  {
    var o := IntraDomain(svc, st, ingress, f);
    var table := later.bridge[ingress.device];
    assert PutIfAbsent(TableOf(later.bridge, ingress.device), f.src, ingress.port) == table;
    assert later.bridge[ingress.device := table] == later.bridge;
  }

  /**
   * Re-presenting the same packet submits nothing: every intent the first
   * presentation asked for is known by key, and the learned tables do not
   * change again.
   */
  lemma RepeatedPacketSubmitsNothing(cfg: RouterConfig, svc: Services, st: RouterState, pkt: PacketIn)
    ensures var first := Process(cfg, svc, st, pkt);
            var second := Process(cfg, svc, first.state, pkt);
            second.submitted == [] && second.state == first.state
  {
    var first := Process(cfg, svc, st, pkt);
    if pkt.isHandled || pkt.parsed.None? {
      return;
    }
    var f := pkt.parsed.value;
    var ingress := pkt.receivedFrom;
    var in1 := ExternalIn(cfg, svc, st, ingress, f);
    var out1 := ExternalOut(cfg, svc, in1.state, ingress, f);
    assert in1.state.intents <= out1.state.intents <= first.state.intents;
    ExternalInAgain(cfg, svc, st, first.state, ingress, f);
    var in2 := ExternalIn(cfg, svc, first.state, ingress, f);
    assert in2.state == first.state;
    ExternalOutAgain(cfg, svc, in1.state, first.state, ingress, f);
    if out1.verdict != Aborted && in1.verdict != Handled && out1.verdict != Handled {
      IntraDomainAgain(svc, out1.state, first.state, ingress, f);
    }
  }
}
