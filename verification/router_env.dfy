/**
 * What the vrouter application's processors see of the world: its
 * configuration, its own mutable state, and the ONOS services it consults
 * (route, host, interface and edge-port services), given as oracles.
 */
module RouterEnv {
  import opened Net
  import opened Intents

  datatype Host = Host(mac: Mac, location: ConnectPoint)

  /** One configured address of an interface and the subnet it belongs to. */
  datatype InterfaceAddress = InterfaceAddress(address: IpAddress, subnet: IpPrefix)

  datatype Interface = Interface(connectPoint: ConnectPoint, addresses: seq<InterfaceAddress>)

  datatype ResolvedRoute = ResolvedRoute(prefix: IpPrefix, nextHop: IpAddress)

  /** One destination's entry in a route table, with its best route if it has one. */
  datatype RouteInfo = RouteInfo(bestRoute: Option<ResolvedRoute>)

  /** The ONOS services, as the vrouter queries them. */
  datatype Services = Services(
    longestPrefixLookup: IpAddress -> Option<ResolvedRoute>,
    hostsByIp: IpAddress -> seq<Host>,
    matchingInterface: IpAddress -> Option<Interface>,
    interfaces: seq<Interface>,
    routeTables: seq<seq<RouteInfo>>,
    edgePoints: seq<ConnectPoint>)

  /** The parsed "router" configuration fields the modelled processors read. */
  datatype RouterConfig = RouterConfig(
    frrCp: ConnectPoint,
    frrMac: Mac,
    gatewayMac: Mac,
    v4Peers: seq<string>,
    v6Peers: seq<string>)

  /**
   * The vrouter's state: one learned MAC-to-port table per device, and the
   * intent keys the intent service knows.
   */
  datatype RouterState = RouterState(
    bridge: map<DeviceId, map<Mac, PortNumber>>,
    intents: set<IntentKey>)

  /**
   * `getHost`: the last host the host service lists for an address, or
   * none when it lists none.
   */
  function GetHost(svc: Services, ip: IpAddress): (h: Option<Host>)
    ensures h.None? <==> svc.hostsByIp(ip) == []
    ensures h.Some? ==> h.value in svc.hostsByIp(ip)
    ensures h.Some? ==> h.value == svc.hostsByIp(ip)[|svc.hostsByIp(ip)| - 1]
  {
    var hosts := svc.hostsByIp(ip);
    if hosts == [] then None else Some(hosts[|hosts| - 1])
  }

  /**
   * `getHost` as written: start from no host and overwrite it with each
   * host the service lists, left to right.  What the loop leaves is the
   * host `GetHost` names.
   */
  method ScanHosts(svc: Services, ip: IpAddress) returns (h: Option<Host>)
    ensures h == GetHost(svc, ip)
    ensures h.Some? ==> h.value in svc.hostsByIp(ip)
  {
    var hosts := svc.hostsByIp(ip);
    h := None;
    var i := 0;
    while i < |hosts|
      invariant 0 <= i <= |hosts|
      invariant h == (if i == 0 then None else Some(hosts[i - 1]))
    {
      h := Some(hosts[i]);
      i := i + 1;
    }
  }
}
