/**
 * The lab3 learning bridge (`LearningBridgeProcessor`): per-device
 * first-write-wins MAC-to-port tables; an unknown destination floods the
 * packet out of the device, a known one gets a temporary flow rule on the
 * device and the packet is sent out of the learned port.
 */
module LearningBridge {
  import opened Net

  const BRIDGE_RULE_PRIORITY: nat := 30
  const BRIDGE_RULE_TIMEOUT: nat := 30

  type BridgeTable = map<DeviceId, map<Mac, PortNumber>>

  /** The table after one packet, the packets sent, and the flow rules applied. */
  datatype Step = Step(table: BridgeTable, sent: seq<Emission>, rules: seq<FlowRule>)

  function TableOf(table: BridgeTable, d: DeviceId): map<Mac, PortNumber>
  {
    if d in table then table[d] else map[]
  }

  /** `installRule`: match (destination, source) MAC, output to the learned port, priority 30, 30 s timeout. */
  function BridgeRule(device: DeviceId, f: Frame, port: PortNumber): (rule: FlowRule)
    ensures rule.device == device && rule.action == OutputTo(port)
    ensures rule.selector == AnyTraffic.(ethDst := Some(f.dst), ethSrc := Some(f.src))
    ensures rule.priority == BRIDGE_RULE_PRIORITY && rule.timeout == Temporary(BRIDGE_RULE_TIMEOUT)
  {
    FlowRule(device, AnyTraffic.(ethDst := Some(f.dst), ethSrc := Some(f.src)), OutputTo(port),
             BRIDGE_RULE_PRIORITY, Temporary(BRIDGE_RULE_TIMEOUT))
  }

  /** `LearningBridgeProcessor.process`: create the device's table, learn the source if new, then flood or install. */
  function Process(table: BridgeTable, pkt: PacketIn): (r: Step)
    ensures pkt.isHandled || pkt.parsed.None? ==> r == Step(table, [], [])
    ensures !pkt.isHandled && pkt.parsed.Some? ==>
      var f := pkt.parsed.value;
      var device := pkt.receivedFrom.device;
      var before := TableOf(table, device);
      && device in r.table
      && r.table.Keys == table.Keys + {device}
      // first-write-wins learning
      && r.table[device].Keys == before.Keys + {f.src}
      && r.table[device][f.src] == (if f.src in before then before[f.src] else pkt.receivedFrom.port)
      && (forall m | m in before :: r.table[device][m] == before[m])
      // devices never share entries
      && (forall d | d != device :: TableOf(r.table, d) == TableOf(table, d))
      // flood or rule
      && (f.dst !in r.table[device] ==> r.sent == [FloodOut(device, f)] && r.rules == [])
      && (f.dst in r.table[device] ==>
            && r.rules == [BridgeRule(device, f, r.table[device][f.dst])]
            && r.sent == [PacketOut(ConnectPoint(device, r.table[device][f.dst]), f)])
  {
    if pkt.isHandled || pkt.parsed.None? then Step(table, [], [])
    else
      var f := pkt.parsed.value;
      var device := pkt.receivedFrom.device;
      var learned := table[device := PutIfAbsent(TableOf(table, device), f.src, pkt.receivedFrom.port)];
      if f.dst !in learned[device] then Step(learned, [FloodOut(device, f)], [])
      else
        var port := learned[device][f.dst];
        Step(learned, [PacketOut(ConnectPoint(device, port), f)], [BridgeRule(device, f, port)])
  }

  // ----- Properties -----

  predicate Parsed(pkt: PacketIn)
  {
    !pkt.isHandled && pkt.parsed.Some?
  }

  /**
   * A (device, MAC) entry is written on first sighting only: a later frame
   * from the same MAC on another port of the device does not move it.
   */
  lemma EntryNotMoved(table: BridgeTable, p1: PacketIn, p2: PacketIn)
    requires Parsed(p1) && Parsed(p2)
    requires p1.receivedFrom.device == p2.receivedFrom.device
    requires p1.parsed.value.src == p2.parsed.value.src
    requires p1.parsed.value.src !in TableOf(table, p1.receivedFrom.device)
    ensures var t2 := Process(Process(table, p1).table, p2).table;
            t2[p1.receivedFrom.device][p1.parsed.value.src] == p1.receivedFrom.port
  {
  }

  /** Learning precedes lookup, so a frame addressed to its own sender is never flooded. */
  lemma SelfAddressedNeverFlooded(table: BridgeTable, pkt: PacketIn)
    requires Parsed(pkt) && pkt.parsed.value.src == pkt.parsed.value.dst
    ensures var r := Process(table, pkt);
            |r.rules| == 1 && forall e | e in r.sent :: !e.FloodOut?
  {
  }

  /**
   * Once a host has been seen on a device, every frame towards it on that
   * device installs a rule to the port where it was first seen.
   */
  lemma KnownDestinationInstalls(table: BridgeTable, first: PacketIn, later: PacketIn)
    requires Parsed(first) && Parsed(later)
    requires first.receivedFrom.device == later.receivedFrom.device
    requires later.parsed.value.dst == first.parsed.value.src
    requires first.parsed.value.src !in TableOf(table, first.receivedFrom.device)
    ensures var r := Process(Process(table, first).table, later);
            var f := later.parsed.value;
            && r.rules == [BridgeRule(first.receivedFrom.device, f, first.receivedFrom.port)]
            && r.sent == [PacketOut(first.receivedFrom, f)]
            // the rule sits on that device, matches this (destination, source) pair and expires
            && r.rules[0].device == first.receivedFrom.device
            && r.rules[0].selector.ethDst == Some(f.dst) && r.rules[0].selector.ethSrc == Some(f.src)
            && r.rules[0].action == OutputTo(first.receivedFrom.port)
            && r.rules[0].priority == BRIDGE_RULE_PRIORITY && r.rules[0].timeout == Temporary(BRIDGE_RULE_TIMEOUT)
  {
  }
}
