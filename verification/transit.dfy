/**
 * The vrouter's route listener (`TransitProcessor`): on every added or
 * updated route it walks all best routes of all route tables and, for
 * each, requests a multipoint-to-single-point intent carrying the route's
 * prefix from every interface that does not already reach the next hop to
 * the interface facing the next hop.
 */
module Transit {
  import opened Net
  import opened Intents
  import opened RouterEnv

  /** The route service's event types; every other type is ignored like a removal. */
  datatype RouteEventType = RouteAdded | RouteUpdated | RouteRemoved | OtherRouteEvent

  /** Intent keys known after the event, the intents submitted, and whether an exception cut the walk short. */
  datatype TransitOutcome = TransitOutcome(intents: set<IntentKey>, submitted: seq<Intent>, aborted: bool)

  /** An interface address excludes its interface when it is of the next hop's family and its subnet contains the next hop. */
  predicate Excludes(a: InterfaceAddress, nextHop: IpAddress)
  {
    SameFamily(a.address, nextHop) && Contains(a.subnet, nextHop)
  }

  /**
   * The `addSrcPoint` flag of one interface, computed over its address
   * list: it stays true unless some address excludes the interface.
   */
  function AddSrcPoint(addresses: seq<InterfaceAddress>, nextHop: IpAddress): (add: bool)
    ensures add <==> forall i | 0 <= i < |addresses| :: !Excludes(addresses[i], nextHop)
  {
    if addresses == [] then true
    else if Excludes(addresses[0], nextHop) then false
    else AddSrcPoint(addresses[1..], nextHop)
  }

  /** The ingress points of the transit intent: the interfaces whose `addSrcPoint` flag stays true. */
  function SourcePoints(interfaces: seq<Interface>, nextHop: IpAddress): (points: set<ConnectPoint>)
    ensures forall cp :: cp in points <==>
      exists i | 0 <= i < |interfaces| :: interfaces[i].connectPoint == cp && AddSrcPoint(interfaces[i].addresses, nextHop)
  {
    if interfaces == [] then {}
    else
      var rest := SourcePoints(interfaces[1..], nextHop);
      assert forall i | 1 <= i < |interfaces| :: interfaces[i] == interfaces[1..][i - 1];
      if AddSrcPoint(interfaces[0].addresses, nextHop) then {interfaces[0].connectPoint} + rest else rest
  }

  /** The transit selector: traffic of the next hop's family destined to the route's prefix. */
  function TransitSelector(route: ResolvedRoute): (s: Selector)
    ensures s.ethType == Some(if route.nextHop.V4? then TYPE_IPV4 else TYPE_IPV6)
    ensures s.ipDst == Some(route.prefix)
    ensures s.ethDst.None? && s.ethSrc.None? && s.inPort.None?
  {
    AnyTraffic.(ethType := Some(if route.nextHop.V4? then TYPE_IPV4 else TYPE_IPV6), ipDst := Some(route.prefix))
  }

  /**
   * The transit intent one best route asks for: from the eligible
   * interfaces to the interface facing the next hop, for traffic to the
   * route's prefix, keyed by egress and selector.  None when the next hop
   * has no interface or no interface is eligible.
   */
  function RouteWant(svc: Services, best: ResolvedRoute): (want: seq<Intent>)
    ensures |want| <= 1
    ensures forall i | i in want :: i.MultiPointToSinglePoint? && i.key.Some?
  {
    var sources := SourcePoints(svc.interfaces, best.nextHop);
    match svc.matchingInterface(best.nextHop)
    case None => []
    case Some(intf) =>
      if sources == {} then []
      else
        var key := MultiKey(intf.connectPoint, TransitSelector(best), None);
        [MultiPointToSinglePoint(Some(key), MULTI_INTENT_PRIORITY, sources, intf.connectPoint, TransitSelector(best), None)]
  }

  /** A route entry the walk passes without an exception: no best route, or one whose next hop has an interface. */
  predicate Walkable(svc: Services, route: RouteInfo)
  {
    route.bestRoute.Some? ==> svc.matchingInterface(route.bestRoute.value.nextHop).Some?
  }

  /** The walk reaches and completes entry `j`: it and every entry before it are walkable. */
  predicate WalkedTo(svc: Services, routes: seq<RouteInfo>, j: int)
  {
    0 <= j < |routes| && forall m | 0 <= m <= j :: Walkable(svc, routes[m])
  }

  /** The intent entry `j` asks for, none when it has no best route. */
  function EntryWant(svc: Services, route: RouteInfo): seq<Intent>
  {
    match route.bestRoute
    case None => []
    case Some(best) => RouteWant(svc, best)
  }

  /**
   * One best route: a next hop with no matching interface aborts (`installTransitIntent`
   * dereferences null there), even when no interface is eligible;
   * otherwise the multipoint intent from the eligible interfaces to the
   * interface facing the next hop, when some interface is eligible.
   */
  function RouteIntent(svc: Services, best: ResolvedRoute, keys: set<IntentKey>): (r: TransitOutcome)
    ensures keys <= r.intents && |r.submitted| <= 1
    ensures r.aborted <==> svc.matchingInterface(best.nextHop).None?
    ensures r.aborted ==> r.intents == keys && r.submitted == []
    ensures forall i | i in r.submitted ::
      && i.MultiPointToSinglePoint? && i.priority == MULTI_INTENT_PRIORITY
      && i.ingresses == SourcePoints(svc.interfaces, best.nextHop) && i.ingresses != {}
      && i.egress == svc.matchingInterface(best.nextHop).value.connectPoint
      && i.selector == TransitSelector(best) && i.treatment.None?
      && i.key.Some? && i.key.value !in keys && i.key.value in r.intents
    ensures forall k | k in r.intents && k !in keys :: exists i | i in r.submitted :: i.key == Some(k)
    // what is submitted is the route's wanted intent, and its key is known afterwards
    ensures forall i | i in r.submitted :: i in RouteWant(svc, best)
    ensures forall i | i in RouteWant(svc, best) :: i.key.value in r.intents
  {
    match svc.matchingInterface(best.nextHop)
    case None => TransitOutcome(keys, [], true)
    case Some(egressIntf) =>
      var sources := SourcePoints(svc.interfaces, best.nextHop);
      if sources == {} then TransitOutcome(keys, [], false)
      else
        var ins := InstallMultiIntent(keys, sources, egressIntf.connectPoint, TransitSelector(best), None);
        TransitOutcome(ins.keys, ins.submitted, false)
  }

  /** The walk over best routes; an abort ends it, and earlier submissions stand. */
  function TransitRoutes(svc: Services, routes: seq<RouteInfo>, keys: set<IntentKey>): (r: TransitOutcome)
    ensures keys <= r.intents
    ensures forall i | i in r.submitted ::
      && i.MultiPointToSinglePoint? && i.priority == MULTI_INTENT_PRIORITY
      && i.ingresses != {} && i.treatment.None?
      && i.key.Some? && i.key.value !in keys && i.key.value in r.intents
    ensures forall k | k in r.intents && k !in keys :: exists i | i in r.submitted :: i.key == Some(k)
    ensures r.aborted <==> exists j | 0 <= j < |routes| ::
      routes[j].bestRoute.Some? && svc.matchingInterface(routes[j].bestRoute.value.nextHop).None?
    decreases |routes|
  {
    if routes == [] then TransitOutcome(keys, [], false)
    else
      assert forall j | 1 <= j < |routes| :: routes[j] == routes[1..][j - 1];
      match routes[0].bestRoute
      case None => TransitRoutes(svc, routes[1..], keys)
      case Some(best) =>
        var step := RouteIntent(svc, best, keys);
        if step.aborted then step
        else
          var rest := TransitRoutes(svc, routes[1..], step.intents);
          TransitOutcome(rest.intents, step.submitted + rest.submitted, rest.aborted)
  }

  /** All routes of all route tables, table by table. */
  function AllRoutes(tables: seq<seq<RouteInfo>>): (routes: seq<RouteInfo>)
    ensures forall t, j | 0 <= t < |tables| && 0 <= j < |tables[t]| :: tables[t][j] in routes
    ensures forall r | r in routes :: exists t | 0 <= t < |tables| :: r in tables[t]
  {
    if tables == [] then [] else tables[0] + AllRoutes(tables[1..])
  }

  /** Dropping the first, walkable entry shifts the walked indices by one. */
  lemma WalkedShift(svc: Services, routes: seq<RouteInfo>, j: int)
    requires |routes| > 0 && Walkable(svc, routes[0]) && 1 <= j < |routes|
    ensures WalkedTo(svc, routes, j) <==> WalkedTo(svc, routes[1..], j - 1)
  {
    var tail := routes[1..];
    if WalkedTo(svc, tail, j - 1) {
      forall m | 0 <= m <= j ensures Walkable(svc, routes[m]) {
        if m > 0 {
          assert tail[m - 1] == routes[m];
        }
      }
    }
    if WalkedTo(svc, routes, j) {
      forall m | 0 <= m <= j - 1 ensures Walkable(svc, tail[m]) {
        assert tail[m] == routes[m + 1];
      }
    }
  }

  /** Every intent the walk submits is the wanted intent of a route it walked. */
  lemma {:induction false} TransitRoutesSubmissions(svc: Services, routes: seq<RouteInfo>, keys: set<IntentKey>)
    ensures forall i | i in TransitRoutes(svc, routes, keys).submitted ::
      exists j | WalkedTo(svc, routes, j) :: i in EntryWant(svc, routes[j])
    decreases |routes|
  {
    if routes != [] {
      var tail := routes[1..];
      var r := TransitRoutes(svc, routes, keys);
      match routes[0].bestRoute
      case None =>
        TransitRoutesSubmissions(svc, tail, keys);
        forall i | i in r.submitted ensures exists j | WalkedTo(svc, routes, j) :: i in EntryWant(svc, routes[j]) {
          var j :| WalkedTo(svc, tail, j) && i in EntryWant(svc, tail[j]);
          WalkedShift(svc, routes, j + 1);
          assert tail[j] == routes[j + 1];
        }
      case Some(best) =>
        var step := RouteIntent(svc, best, keys);
        if !step.aborted {
          var rest := TransitRoutes(svc, tail, step.intents);
          TransitRoutesSubmissions(svc, tail, step.intents);
          assert r.submitted == step.submitted + rest.submitted;
          forall i | i in r.submitted ensures exists j | WalkedTo(svc, routes, j) :: i in EntryWant(svc, routes[j]) {
            if i in step.submitted {
              assert WalkedTo(svc, routes, 0);
            } else {
              var j :| WalkedTo(svc, tail, j) && i in EntryWant(svc, tail[j]);
              WalkedShift(svc, routes, j + 1);
              assert tail[j] == routes[j + 1];
            }
          }
        }
    }
  }

  /** Every walked route's wanted intent has its key known after the walk, submitted now or earlier. */
  lemma {:induction false} TransitRoutesKeys(svc: Services, routes: seq<RouteInfo>, keys: set<IntentKey>)
    ensures forall j | WalkedTo(svc, routes, j) ::
      forall i | i in EntryWant(svc, routes[j]) :: i.key.value in TransitRoutes(svc, routes, keys).intents
    decreases |routes|
  {
    if routes != [] {
      var tail := routes[1..];
      var r := TransitRoutes(svc, routes, keys);
      match routes[0].bestRoute
      case None =>
        TransitRoutesKeys(svc, tail, keys);
        forall j | WalkedTo(svc, routes, j)
          ensures forall i | i in EntryWant(svc, routes[j]) :: i.key.value in r.intents
        {
          if j > 0 {
            WalkedShift(svc, routes, j);
            assert tail[j - 1] == routes[j];
          }
        }
      case Some(best) =>
        var step := RouteIntent(svc, best, keys);
        if !step.aborted {
          TransitRoutesKeys(svc, tail, step.intents);
          assert r.intents == TransitRoutes(svc, tail, step.intents).intents;
          forall j | WalkedTo(svc, routes, j)
            ensures forall i | i in EntryWant(svc, routes[j]) :: i.key.value in r.intents
          {
            if j > 0 {
              WalkedShift(svc, routes, j);
              assert tail[j - 1] == routes[j];
            }
          }
        }
    }
  }

  /** `installTransitIntent`: the walk over every route table the route service has. */
  function InstallTransitIntent(svc: Services, keys: set<IntentKey>): (r: TransitOutcome)
    ensures keys <= r.intents
  {
    TransitRoutes(svc, AllRoutes(svc.routeTables), keys)
  }

  /**
   * `installTransitIntent` table by table: it aborts exactly when some
   * table holds a best route whose next hop has no interface; every
   * submission is the wanted intent of a route in some table; and when
   * nothing aborts, every route's wanted intent is known afterwards.
   */
  lemma InstallTransitIntentContents(svc: Services, keys: set<IntentKey>)
    ensures var r := InstallTransitIntent(svc, keys);
            var tables := svc.routeTables;
            && (r.aborted <==> exists t, j | 0 <= t < |tables| && 0 <= j < |tables[t]| :: !Walkable(svc, tables[t][j]))
            && (forall i | i in r.submitted ::
                  exists t, j | 0 <= t < |tables| && 0 <= j < |tables[t]| :: i in EntryWant(svc, tables[t][j]))
            && (!r.aborted ==>
                  forall t, j | 0 <= t < |tables| && 0 <= j < |tables[t]| ::
                    forall i | i in EntryWant(svc, tables[t][j]) :: i.key.value in r.intents)
  {
    var tables := svc.routeTables;
    var routes := AllRoutes(tables);
    var r := InstallTransitIntent(svc, keys);
    TransitRoutesSubmissions(svc, routes, keys);
    TransitRoutesKeys(svc, routes, keys);
    forall i | i in r.submitted
      ensures exists t, j | 0 <= t < |tables| && 0 <= j < |tables[t]| :: i in EntryWant(svc, tables[t][j])
    {
      var k :| WalkedTo(svc, routes, k) && i in EntryWant(svc, routes[k]);
      assert routes[k] in routes;
      var t :| 0 <= t < |tables| && routes[k] in tables[t];
      var j :| 0 <= j < |tables[t]| && tables[t][j] == routes[k];
    }
    if r.aborted {
      var k :| 0 <= k < |routes| && !Walkable(svc, routes[k]);
      assert routes[k] in routes;
      var t :| 0 <= t < |tables| && routes[k] in tables[t];
      var j :| 0 <= j < |tables[t]| && tables[t][j] == routes[k];
    } else {
      forall t, j | 0 <= t < |tables| && 0 <= j < |tables[t]|
        ensures forall i | i in EntryWant(svc, tables[t][j]) :: i.key.value in r.intents
      {
        var route := tables[t][j];
        assert route in routes;
        var k :| 0 <= k < |routes| && routes[k] == route;
        assert WalkedTo(svc, routes, k);
      }
    }
  }

  /** `TransitProcessor.event`: added and updated routes recompute; removals and other events do nothing. */
  function TransitEvent(svc: Services, event: RouteEventType, keys: set<IntentKey>): (r: TransitOutcome)
    ensures event == RouteAdded || event == RouteUpdated ==> r == InstallTransitIntent(svc, keys)
    ensures event == RouteRemoved || event == OtherRouteEvent ==> r == TransitOutcome(keys, [], false)
  {
    match event
    case RouteAdded => InstallTransitIntent(svc, keys)
    case RouteUpdated => InstallTransitIntent(svc, keys)
    case _ => TransitOutcome(keys, [], false)
  }

  // ----- Properties -----

  /**
   * One route in isolation: the transit intent is submitted exactly when
   * the ingress set is non-empty, the next hop has a matching interface
   * and the intent's key is new; it then carries the route's prefix from
   * exactly the eligible interfaces to the next hop's interface.
   */
  lemma SingleRouteIntent(svc: Services, best: ResolvedRoute, keys: set<IntentKey>)
    ensures var r := TransitRoutes(svc, [RouteInfo(Some(best))], keys);
            var sources := SourcePoints(svc.interfaces, best.nextHop);
            var egress := svc.matchingInterface(best.nextHop);
            && (|r.submitted| == 1 <==>
                  sources != {} && egress.Some?
                  && MultiKey(egress.value.connectPoint, TransitSelector(best), None) !in keys)
            && (|r.submitted| == 1 ==>
                  r.submitted[0] == MultiPointToSinglePoint(
                    Some(MultiKey(egress.value.connectPoint, TransitSelector(best), None)),
                    MULTI_INTENT_PRIORITY, sources, egress.value.connectPoint, TransitSelector(best), None))
            && |r.submitted| <= 1
  {
    assert [RouteInfo(Some(best))][1..] == [];
  }

  /**
   * Re-running the walk once its intents are known submits nothing and
   * changes no key: re-triggering on unchanged best routes installs
   * nothing new.
   */
  lemma {:induction false} TransitRoutesIdempotent(svc: Services, routes: seq<RouteInfo>, keys: set<IntentKey>, later: set<IntentKey>)
    requires TransitRoutes(svc, routes, keys).intents <= later
    ensures TransitRoutes(svc, routes, later) == TransitOutcome(later, [], TransitRoutes(svc, routes, keys).aborted)
    decreases |routes|
  {
    if routes != [] {
      match routes[0].bestRoute
      case None =>
        TransitRoutesIdempotent(svc, routes[1..], keys, later);
      case Some(best) =>
        var step := RouteIntent(svc, best, keys);
        if !step.aborted {
          TransitRoutesIdempotent(svc, routes[1..], step.intents, later);
        }
    }
  }

  /** An added or updated route event, repeated, submits nothing the second time. */
  lemma RepeatedRouteEventSubmitsNothing(svc: Services, event: RouteEventType, keys: set<IntentKey>)
    ensures var first := TransitEvent(svc, event, keys);
            TransitEvent(svc, event, first.intents).submitted == []
  {
    var routes := AllRoutes(svc.routeTables);
    TransitRoutesIdempotent(svc, routes, keys, TransitRoutes(svc, routes, keys).intents);
  }

  /**
   * Worked scenario: prefix 10.0.0.0/24 via next hop 172.16.0.2, one
   * interface on 172.16.0.0/30 (which contains the next hop, so it is
   * excluded) and one on 192.168.1.0/24 (included).  Exactly one
   * multipoint intent results, from the second interface only to the
   * interface facing the next hop.
   */
  lemma TransitScenario()
    ensures var nextHop := V4(0xAC10_0002);
            var facing := Interface(ConnectPoint(1, 1), [InterfaceAddress(V4(0xAC10_0001), IpPrefix(V4(0xAC10_0000), 30))]);
            var inside := Interface(ConnectPoint(2, 1), [InterfaceAddress(V4(0xC0A8_0101), IpPrefix(V4(0xC0A8_0100), 24))]);
            var route := ResolvedRoute(IpPrefix(V4(0x0A00_0000), 24), nextHop);
            var svc := Services(
              ip => None,
              ip => [],
              ip => if ip == nextHop then Some(facing) else None,
              [facing, inside],
              [[RouteInfo(Some(route))]],
              []);
            var r := InstallTransitIntent(svc, {});
            && |r.submitted| == 1 && !r.aborted
            && r.submitted[0].ingresses == {ConnectPoint(2, 1)}
            && r.submitted[0].egress == ConnectPoint(1, 1)
            && r.submitted[0].selector.ipDst == Some(route.prefix)
  {
    var nextHop := V4(0xAC10_0002);
    var facing := Interface(ConnectPoint(1, 1), [InterfaceAddress(V4(0xAC10_0001), IpPrefix(V4(0xAC10_0000), 30))]);
    var inside := Interface(ConnectPoint(2, 1), [InterfaceAddress(V4(0xC0A8_0101), IpPrefix(V4(0xC0A8_0100), 24))]);
    var route := ResolvedRoute(IpPrefix(V4(0x0A00_0000), 24), nextHop);
    assert Pow2(2) == 4;
    assert Pow2(8) == 256;
    assert Excludes(facing.addresses[0], nextHop);
    assert !Excludes(inside.addresses[0], nextHop);
    assert !AddSrcPoint(facing.addresses, nextHop);
    assert AddSrcPoint(inside.addresses, nextHop);
    var svc := Services(
      ip => None,
      ip => [],
      ip => if ip == nextHop then Some(facing) else None,
      [facing, inside],
      [[RouteInfo(Some(route))]],
      []);
    assert SourcePoints(svc.interfaces, nextHop) == {ConnectPoint(2, 1)};
    assert AllRoutes(svc.routeTables) == [RouteInfo(Some(route))];
    SingleRouteIntent(svc, route, {});
  }
}
