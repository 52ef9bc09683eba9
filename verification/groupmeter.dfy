/**
 * The lab4 group/meter application: a packet processor that answers ARP
 * requests for the two configured hosts and submits a point-to-point
 * intent towards the other host for every non-ARP packet from one of them,
 * and a configuration listener that, on each new host configuration,
 * removes what the application installed before and installs a failover
 * group and its rule on switch s1 and a meter and its rule on switch s4.
 */
module GroupMeter {
  import opened Net
  import opened Intents

  /** The two hosts' attachment points, MACs and IPv4 addresses, as the `NameConfig` strings parse. */
  datatype HostConfig = HostConfig(host1: ConnectPoint, host2: ConnectPoint, mac1: Mac, mac2: Mac, ip1: Ip4, ip2: Ip4)

  /** The intent builder's default priority, used because the application sets none. */
  const DEFAULT_INTENT_PRIORITY: nat := 100

  /** `of:0000000000000001` and `of:0000000000000004`. */
  const S1: DeviceId := 1
  const S4: DeviceId := 4

  /** Flow rules of the configuration listener are permanent at priority 10. */
  const CONFIG_RULE_PRIORITY: nat := 10

  /** The failover group's buckets output to (and watch) ports 2 and 3, in that order. */
  const FAILOVER_PORTS: seq<PortNumber> := [2, 3]

  // ----- Packet processing -----

  /** What one packet caused: packets emitted, intents submitted, and whether the context was blocked. */
  datatype PacketStep = PacketStep(emitted: seq<Emission>, submitted: seq<Intent>, blocked: bool)

  /** The intent the processor builds: no key, default priority, matching the destination host's MAC. */
  function HostIntent(ingress: ConnectPoint, egress: ConnectPoint, dstMac: Mac): (i: Intent)
    ensures i.PointToPoint? && i.key.None? && i.priority == DEFAULT_INTENT_PRIORITY && i.treatment.None?
    ensures i.ingress == ingress && i.egress == egress && i.selector == AnyTraffic.(ethDst := Some(dstMac))
  {
    PointToPoint(None, DEFAULT_INTENT_PRIORITY, ingress, egress, AnyTraffic.(ethDst := Some(dstMac)), None)
  }

  /**
   * `PacketIntentProcessor.process`.  Without a configuration nothing
   * happens.  An IP ARP request for host 1's or host 2's address (host 1
   * first) is answered out of the ingress port; other ARPs are ignored.
   * Any other frame from host 1's MAC (host 1 first) or host 2's submits an
   * intent from the ingress point to the other host.
   */
  function ProcessPacket(config: Option<HostConfig>, pkt: PacketIn): (r: PacketStep)
    ensures pkt.isHandled || config.None? || pkt.parsed.None? ==> r == PacketStep([], [], false)
    ensures |r.emitted| <= 1 && |r.submitted| <= 1
    ensures r.blocked <==> r.emitted != []
    ensures r.emitted != [] ==> r.submitted == [] && pkt.parsed.Some? && pkt.parsed.value.payload.Arp?
    ensures r.submitted != [] ==> pkt.parsed.Some? && !pkt.parsed.value.payload.Arp?
  {
    if pkt.isHandled || config.None? || pkt.parsed.None? then PacketStep([], [], false)
    else
      var cfg := config.value;
      var f := pkt.parsed.value;
      match f.payload
      case Arp(arp) =>
        if arp.protocolType != ARP_PROTO_TYPE_IP || arp.opCode != ARP_OP_REQUEST then PacketStep([], [], false)
        else if arp.targetIp == cfg.ip1 then
          PacketStep([PacketOut(pkt.receivedFrom, ArpReply(arp.targetIp, cfg.mac1, f))], [], true)
        else if arp.targetIp == cfg.ip2 then
          PacketStep([PacketOut(pkt.receivedFrom, ArpReply(arp.targetIp, cfg.mac2, f))], [], true)
        else PacketStep([], [], false)
      case _ =>
        if f.src == cfg.mac1 then PacketStep([], [HostIntent(pkt.receivedFrom, cfg.host2, cfg.mac2)], false)
        else if f.src == cfg.mac2 then PacketStep([], [HostIntent(pkt.receivedFrom, cfg.host1, cfg.mac1)], false)
        else PacketStep([], [], false)
  }

  /** The configured MAC of the configured host that owns `ip`, host 1 taking precedence. */
  function ConfiguredMac(cfg: HostConfig, ip: Ip4): Option<Mac>
  {
    if ip == cfg.ip1 then Some(cfg.mac1) else if ip == cfg.ip2 then Some(cfg.mac2) else None
  }

  /**
   * The processor is an ARP responder for exactly the two configured
   * addresses: it answers an IP ARP request if and only if its target is
   * one of them, and the answer binds that address to its configured MAC.
   */
  lemma ArpAnsweredExactlyForConfiguredHosts(cfg: HostConfig, pkt: PacketIn)
    requires !pkt.isHandled && pkt.parsed.Some? && pkt.parsed.value.payload.Arp?
    ensures var f := pkt.parsed.value;
            var arp := f.payload.arp;
            var r := ProcessPacket(Some(cfg), pkt);
            && (r.blocked <==>
                  arp.protocolType == ARP_PROTO_TYPE_IP && arp.opCode == ARP_OP_REQUEST
                  && ConfiguredMac(cfg, arp.targetIp).Some?)
            && (r.blocked ==>
                  r.emitted == [PacketOut(pkt.receivedFrom, ArpReply(arp.targetIp, ConfiguredMac(cfg, arp.targetIp).value, f))])
            && r.submitted == []
  {
  }

  /**
   * Every intent the processor submits carries traffic to one configured
   * host's attachment point, matching that host's MAC, and starts where
   * the triggering packet entered; one is submitted exactly for non-ARP
   * frames from a configured MAC.
   */
  lemma IntentsTargetTheOtherHost(cfg: HostConfig, pkt: PacketIn)
    requires !pkt.isHandled && pkt.parsed.Some? && !pkt.parsed.value.payload.Arp?
    ensures var r := ProcessPacket(Some(cfg), pkt);
            && (|r.submitted| == 1 <==> pkt.parsed.value.src in {cfg.mac1, cfg.mac2})
            && forall i | i in r.submitted ::
                 && i.ingress == pkt.receivedFrom
                 && ((i.egress == cfg.host2 && i.selector.ethDst == Some(cfg.mac2) && pkt.parsed.value.src == cfg.mac1)
                     || (i.egress == cfg.host1 && i.selector.ethDst == Some(cfg.mac1) && pkt.parsed.value.src == cfg.mac2))
  {
  }

  /**
   * With distinct MACs, a frame from each host yields the two intents of
   * a bidirectional path, mirror images of each other.  No key is set, so
   * every such packet submits again.
   */
  lemma BothDirectionsRequested(cfg: HostConfig, p1: PacketIn, p2: PacketIn)
    requires cfg.mac1 != cfg.mac2
    requires !p1.isHandled && p1.parsed.Some? && !p1.parsed.value.payload.Arp? && p1.parsed.value.src == cfg.mac1
    requires !p2.isHandled && p2.parsed.Some? && !p2.parsed.value.payload.Arp? && p2.parsed.value.src == cfg.mac2
    ensures ProcessPacket(Some(cfg), p1).submitted == [HostIntent(p1.receivedFrom, cfg.host2, cfg.mac2)]
    ensures ProcessPacket(Some(cfg), p2).submitted == [HostIntent(p2.receivedFrom, cfg.host1, cfg.mac1)]
  {
  }

  // ----- Configuration listener -----

  datatype ConfigEventType = ConfigAdded | ConfigUpdated | ConfigRemoved | OtherConfigEvent

  /** The calls the listener makes on the flow-rule, group and meter services, in order. */
  datatype DeviceAction =
    | RemoveAppFlows
    | RemoveAppGroups(groupsOn: DeviceId)
    | RemoveAppMeters
    | AddFailoverGroup(groupOn: DeviceId, bucketPorts: seq<PortNumber>)
    | SubmitMeter(meterOn: DeviceId)
    | ApplyRule(rule: FlowRule)

  /** What the application has installed in the network. */
  datatype Installed = Installed(rules: set<FlowRule>, groups: set<GroupToken>, meters: set<MeterToken>)

  /** The application's state: its current configuration and what it has installed. */
  datatype AppState = AppState(config: Option<HostConfig>, installed: Installed)

  datatype ConfigStep = ConfigStep(state: AppState, actions: seq<DeviceAction>)

  /** The s1 rule: IPv4 traffic entering port 1 goes to the failover group. */
  function S1Rule(): (rule: FlowRule)
    ensures rule.device == S1 && rule.action == ToGroup(GroupOf(S1))
    ensures rule.selector == AnyTraffic.(inPort := Some(1), ethType := Some(TYPE_IPV4))
    ensures rule.priority == CONFIG_RULE_PRIORITY && rule.timeout == Permanent
  {
    FlowRule(S1, AnyTraffic.(inPort := Some(1), ethType := Some(TYPE_IPV4)), ToGroup(GroupOf(S1)),
             CONFIG_RULE_PRIORITY, Permanent)
  }

  /** The s4 rule: traffic from host 1's MAC leaves port 2 through the meter. */
  function S4Rule(cfg: HostConfig): (rule: FlowRule)
    ensures rule.device == S4 && rule.action == OutputMetered(2, MeterOf(S4))
    ensures rule.selector == AnyTraffic.(ethSrc := Some(cfg.mac1))
    ensures rule.priority == CONFIG_RULE_PRIORITY && rule.timeout == Permanent
  {
    FlowRule(S4, AnyTraffic.(ethSrc := Some(cfg.mac1)), OutputMetered(2, MeterOf(S4)), CONFIG_RULE_PRIORITY, Permanent)
  }

  /** The effect of one service call on what the application has installed. */
  function ApplyAction(inst: Installed, a: DeviceAction): Installed
  {
    match a
    case RemoveAppFlows => inst.(rules := {})
    case RemoveAppGroups(d) => inst.(groups := set g | g in inst.groups && g.groupDevice != d)
    case RemoveAppMeters => inst.(meters := {})
    case AddFailoverGroup(d, _) => inst.(groups := inst.groups + {GroupOf(d)})
    case SubmitMeter(d) => inst.(meters := inst.meters + {MeterOf(d)})
    case ApplyRule(rule) => inst.(rules := inst.rules + {rule})
  }

  function ApplyAll(inst: Installed, actions: seq<DeviceAction>): Installed
    decreases |actions|
  {
    if actions == [] then inst else ApplyAll(ApplyAction(inst, actions[0]), actions[1..])
  }

  lemma {:induction false} ApplyAllAppend(inst: Installed, a: seq<DeviceAction>, b: seq<DeviceAction>)
    ensures ApplyAll(inst, a + b) == ApplyAll(ApplyAll(inst, a), b)
    decreases |a|
  {
    if a == [] {
      assert a + b == b;
    } else {
      assert (a + b)[0] == a[0] && (a + b)[1..] == a[1..] + b;
      ApplyAllAppend(ApplyAction(inst, a[0]), a[1..], b);
    }
  }

  /** The listener's installation calls for `cfg`: group, its rule, meter, its rule. */
  function InstallActions(cfg: HostConfig): seq<DeviceAction>
  {
    [AddFailoverGroup(S1, FAILOVER_PORTS), ApplyRule(S1Rule()), SubmitMeter(S4), ApplyRule(S4Rule(cfg))]
  }

  /** The removal calls made when a configuration was already in force. */
  const RemoveActions: seq<DeviceAction> := [RemoveAppFlows, RemoveAppGroups(S1), RemoveAppMeters]

  /** An event the listener acts on: added or updated `NameConfig`, with a configuration to read. */
  predicate TakesEffect(event: ConfigEventType, isNameConfig: bool, newConfig: Option<HostConfig>)
  {
    (event == ConfigAdded || event == ConfigUpdated) && isNameConfig && newConfig.Some?
  }

  /**
   * `HostConfigListener.event`.  `newConfig` is what the configuration
   * service returns for the application; `isNameConfig` whether the event
   * concerns the `NameConfig` class.
   */
  function ConfigEvent(st: AppState, event: ConfigEventType, isNameConfig: bool, newConfig: Option<HostConfig>): (r: ConfigStep)
    ensures !TakesEffect(event, isNameConfig, newConfig) ==> r == ConfigStep(st, [])
    ensures TakesEffect(event, isNameConfig, newConfig) ==>
      && r.state.config == newConfig
      && r.state.installed == ApplyAll(st.installed, r.actions)
      // removals happen exactly when a configuration was in force, and before any installation
      && (st.config.Some? ==> |r.actions| == 7 && r.actions[..3] == RemoveActions)
      && (st.config.None? ==> |r.actions| == 4)
      && (st.config.None? ==>
            forall a | a in r.actions :: !(a.RemoveAppFlows? || a.RemoveAppGroups? || a.RemoveAppMeters?))
      // the installation always ends the sequence: group, its s1 rule, meter, its s4 rule for host 1's MAC
      && r.actions[|r.actions| - 4..] == InstallActions(newConfig.value)
      && r.actions[|r.actions| - 4] == AddFailoverGroup(S1, FAILOVER_PORTS)
      && r.actions[|r.actions| - 1].ApplyRule? && r.actions[|r.actions| - 1].rule.selector.ethSrc == Some(newConfig.value.mac1)
      && (forall k | 0 <= k < |r.actions| && (r.actions[k].AddFailoverGroup? || r.actions[k].SubmitMeter? || r.actions[k].ApplyRule?) ::
            forall j | k < j < |r.actions| :: !(r.actions[j].RemoveAppFlows? || r.actions[j].RemoveAppGroups? || r.actions[j].RemoveAppMeters?))
  {
    if !TakesEffect(event, isNameConfig, newConfig) then ConfigStep(st, [])
    else
      var cfg := newConfig.value;
      var actions := (if st.config.Some? then RemoveActions else []) + InstallActions(cfg);
      ConfigStep(AppState(newConfig, ApplyAll(st.installed, actions)), actions)
  }

  /** What a configuration leaves installed: one failover group, one meter, and their two rules. */
  function Expected(cfg: HostConfig): Installed
  {
    Installed({S1Rule(), S4Rule(cfg)}, {GroupOf(S1)}, {MeterOf(S4)})
  }

  /** The application's installation matches its configuration; nothing is installed before one arrives. */
  predicate Consistent(st: AppState)
  {
    match st.config
    case None => st.installed == Installed({}, {}, {})
    case Some(cfg) => st.installed == Expected(cfg)
  }

  lemma InstallOnto(inst: Installed, cfg: HostConfig)
    ensures ApplyAll(inst, InstallActions(cfg)) ==
      Installed(inst.rules + {S1Rule(), S4Rule(cfg)}, inst.groups + {GroupOf(S1)}, inst.meters + {MeterOf(S4)})
  {
    var a := InstallActions(cfg);
    var i1 := ApplyAction(inst, a[0]);
    var i2 := ApplyAction(i1, a[1]);
    var i3 := ApplyAction(i2, a[2]);
    var i4 := ApplyAction(i3, a[3]);
    assert ApplyAll(i4, a[4..]) == i4;
    assert ApplyAll(i3, a[3..]) == i4;
    assert ApplyAll(i2, a[2..]) == i4;
    assert ApplyAll(i1, a[1..]) == i4;
  }

  lemma RemoveFromConsistent(cfg: HostConfig)
    ensures ApplyAll(Expected(cfg), RemoveActions) == Installed({}, {}, {})
  {
    var e := Expected(cfg);
    var i1 := ApplyAction(e, RemoveActions[0]);
    var i2 := ApplyAction(i1, RemoveActions[1]);
    var i3 := ApplyAction(i2, RemoveActions[2]);
    assert i2.groups == {};
    assert ApplyAll(i3, RemoveActions[3..]) == i3;
    assert ApplyAll(i2, RemoveActions[2..]) == i3;
    assert ApplyAll(i1, RemoveActions[1..]) == i3;
  }

  /**
   * Every configuration event keeps the installation consistent with the
   * configuration: a reconfiguration removes the old rules, group and meter
   * (so no rule for a previous host 1 MAC survives) and installs exactly
   * the new ones.
   */
  lemma ConfigEventKeepsConsistent(st: AppState, event: ConfigEventType, isNameConfig: bool, newConfig: Option<HostConfig>)
    requires Consistent(st)
    ensures Consistent(ConfigEvent(st, event, isNameConfig, newConfig).state)
  {
    if TakesEffect(event, isNameConfig, newConfig) {
      var cfg := newConfig.value;
      var pre := if st.config.Some? then RemoveActions else [];
      ApplyAllAppend(st.installed, pre, InstallActions(cfg));
      if st.config.Some? {
        RemoveFromConsistent(st.config.value);
      }
      InstallOnto(ApplyAll(st.installed, pre), cfg);
    }
  }

  /** After a reconfiguration that changes host 1's MAC, the metered rule for the old MAC is gone. */
  lemma StaleMeteredRuleRemoved(st: AppState, event: ConfigEventType, cfg: HostConfig)
    requires Consistent(st) && st.config.Some? && st.config.value.mac1 != cfg.mac1
    requires event == ConfigAdded || event == ConfigUpdated
    ensures var r := ConfigEvent(st, event, true, Some(cfg));
            S4Rule(st.config.value) !in r.state.installed.rules && S4Rule(cfg) in r.state.installed.rules
  {
    ConfigEventKeepsConsistent(st, event, true, Some(cfg));
  }
}
