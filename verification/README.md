# SDN lab applications: packet-decision core in Dafny

This project models the decision logic of the ONOS applications of the
SDNFV lab. For each packet-in, route event or configuration event, the
model states which tables change, which packets are emitted, which flow
rules, groups and meters are installed, and which intents are submitted.
It also proves properties of those decisions.

Each application keeps its own step function, and the variants are not
unified:

- **vrouter** (`VRouter`, `Transit`, `BgpPeers`, on top of `Intents` and
  `RouterEnv`). The packet processor classifies each IP packet twice,
  external-in first and then external-out. It bridges the packet within
  the domain only when both classifiers decline. The route listener
  computes multipoint-to-single-point transit intents. The configuration
  listener installs the BGP peering intents. Every intent the vrouter
  installs is deduplicated by a key.
- **final proxy ARP** (`FinalProxyArp`). A perimeter filter guards the
  transit-AS domain 192.168.70.0/24. Three first-write-wins tables hold
  IPv4 to MAC, IPv6 to MAC and MAC to attachment point. The application
  answers ARP requests per RFC 826 and Neighbor Solicitations per section
  4.4 of RFC 4861, floods misses to the edge, and relays replies.
- **lab3 learning bridge** (`LearningBridge`). Each device has a
  first-write-wins MAC table. An unknown destination is flooded. A known
  destination gets a temporary flow rule plus a packet-out to the learned
  port.
- **lab3 proxy ARP** (`Lab3ProxyArp`). The bridge table and the ARP cache
  are both last-write-wins. Any cache hit is answered at the ingress,
  whatever the opcode; a miss is flooded out of the device.
- **lab4 group/meter** (`GroupMeter`). The packet processor answers ARP
  for the two configured hosts and submits host-to-host intents. The
  configuration listener is a state machine: it removes the previous
  installation, then installs a failover group and its rule on s1 and a
  meter and its rule on s4.

`Net` holds what these share:

- addresses and prefixes;
- parsed frames and packet-in contexts;
- edge flooding;
- `putIfAbsent`;
- selectors and flow rules.

Modelling conventions:

- **External services as parameters.** Services the applications query
  are inputs to the model: longest-prefix route lookup, hosts by address,
  the matching interface, the interface list, route tables, edge points
  and address-text parsing. Each is a function-valued or list-valued
  field.
- **Intent store.** The intent service is modelled as the set of keys it
  knows. A submitted key is known from then on.
- **Exceptions.** Where the Java code would throw, the model sets an
  `aborted` flag. This covers a null host, interface or attachment point,
  a split without a second address, an unparsable address, and a
  non-ICMPv6 payload cast. Effects produced before the throw stand; none
  follow.

## Model

| member | source | states |
|---|---|---|
| Net.Flood | final/vrouter/src/main/java/nycu/winlab/vrouter/AppComponent.java:316-325 | The frame goes out of every edge point except the ingress, and out of nothing else. Each point gets exactly as many copies as it occurs in the edge list, and the ingress none. |
| Net.ArpReply | final/ProxyArp/src/main/java/nycu/winlab/ProxyArp/AppComponent.java:192-197 | The synthesized ARP reply announces ip-at-mac. It swaps sender and target (RFC 826) and is addressed to the requester's MAC. |
| Net.NdpAdvertisement | final/ProxyArp/src/main/java/nycu/winlab/ProxyArp/AppComponent.java:223-229 | The Neighbor Advertisement carries the solicited target as its ND target and source. It is addressed back to the soliciting node. |
| Net.PutIfAbsent | final/ProxyArp/src/main/java/nycu/winlab/ProxyArp/AppComponent.java:249-257 | First write wins: an existing binding is never replaced, and a new key gets exactly the given value. |
| Net.HostPrefixContainsOnlyItself | final/vrouter/src/main/java/nycu/winlab/vrouter/AppComponent.java:255-262 | A /32 or /128 selector prefix contains its own address and no other address. |
| Intents.InstallIntent | final/vrouter/src/main/java/nycu/winlab/vrouter/AppComponent.java:623-655 | Submits exactly when the (ingress, egress, selector, treatment) key is unknown. The intent then carries that key and the requested priority; the key is known afterwards. |
| Intents.InstallIntentIdempotent | final/vrouter/src/main/java/nycu/winlab/vrouter/AppComponent.java:623-655 | A second identical call submits nothing, even with a different priority, because the key leaves priority out. |
| Intents.InstallMultiIntent | final/vrouter/src/main/java/nycu/winlab/vrouter/AppComponent.java:665-701 | Submits a priority-15 multipoint intent exactly when the (egress, selector, treatment) key is unknown. A changed ingress set under a known key submits nothing. |
| Intents.KeyKindsDisjoint | final/vrouter/src/main/java/nycu/winlab/vrouter/AppComponent.java:623-701 | A multipoint installation never masks a point-to-point one with the same egress, selector and treatment. This holds by the model's choice of distinct key kinds; the Java hash-string keys could coincide (see "## Left out"). |
| RouterEnv.ScanHosts | final/vrouter/src/main/java/nycu/winlab/vrouter/AppComponent.java:711-718 | The overwrite loop over the host service's list ends with no host exactly when the list is empty, and otherwise with the last host listed, which is the host the processors use. |
| VRouter.ExternalIn | final/vrouter/src/main/java/nycu/winlab/vrouter/AppComponent.java:336-412 | Non-IP: claimed, no effect. No route from the source: declined, blocked only for IPv6. No destination host: flood and block, declined. Otherwise the key of the priority-24 intent to the host's location is known afterwards, and that intent is submitted exactly when its key was new. It rewrites to the host's MAC, and IPv4 also matches the FRR MAC. |
| VRouter.ExternalOut | final/vrouter/src/main/java/nycu/winlab/vrouter/AppComponent.java:414-471 | No route to the destination: declined. A route whose next hop has no host or no interface aborts with no effect. Otherwise the key of the priority-25 intent to the next hop's interface is known afterwards, and that intent is submitted exactly when its key was new. It rewrites to the next hop's MAC and the gateway MAC. |
| VRouter.IntraDomain | final/vrouter/src/main/java/nycu/winlab/vrouter/AppComponent.java:473-506 | The source MAC is learned first-write-wins on the ingress device only. An unknown destination floods with no intent. For a known one, the key of the priority-20 (dst, src) MAC intent to the learned port is known afterwards, and that intent is submitted exactly when its key was new. |
| VRouter.Process | final/vrouter/src/main/java/nycu/winlab/vrouter/AppComponent.java:295-314 | A handled or unparsed context is left alone. Intent keys only grow, and tables of devices other than the ingress device never change. |
| VRouter.NonIpNeverBridged | final/vrouter/src/main/java/nycu/winlab/vrouter/AppComponent.java:295-314 | A non-IP frame has no effect at all. |
| VRouter.RoutedDestinationNeverBridged | final/vrouter/src/main/java/nycu/winlab/vrouter/AppComponent.java:295-314 | A routed destination never touches the bridge tables. |
| VRouter.ProcessBlocked | final/vrouter/src/main/java/nycu/winlab/vrouter/AppComponent.java:295-412 | The context is blocked exactly when external-in floods for an unknown destination host, or the frame is IPv6 from an unrouted source. |
| VRouter.ProcessAborts | final/vrouter/src/main/java/nycu/winlab/vrouter/AppComponent.java:295-471 | Processing aborts exactly when the destination is routed via a next hop with no host or no interface. External-in's submissions and flood then stand, and nothing is bridged. |
| VRouter.ClaimedFrameEmissions | final/vrouter/src/main/java/nycu/winlab/vrouter/AppComponent.java:295-412 | A frame a classifier claims emits only external-in's flood for an unknown host, and leaves the bridge tables untouched. |
| VRouter.BridgedExactlyWhenBothDecline | final/vrouter/src/main/java/nycu/winlab/vrouter/AppComponent.java:295-314 | When the frame is IP, its destination is unrouted, and either its source is unrouted or its destination host is unknown, the source MAC is learned on the ingress device. The packet's state and submissions are then exactly the bridge's, and its emissions end with the bridge's. In every other case the bridge tables are untouched and no priority-20 intent is submitted. |
| VRouter.BothClassifiersRun | final/vrouter/src/main/java/nycu/winlab/vrouter/AppComponent.java:295-314 | When both intent keys are new, a frame routed both ways yields the priority-24 intent to the destination host, then the priority-25 intent to the next hop's interface. Neither classifier short-circuits the other. |
| VRouter.BridgeEntryWrittenOnce | final/vrouter/src/main/java/nycu/winlab/vrouter/AppComponent.java:473-506 | A later frame from the same MAC on another port does not move its bridge entry. |
| VRouter.ExternalInAgain | final/vrouter/src/main/java/nycu/winlab/vrouter/AppComponent.java:336-412 | Rerunning external-in once its key is known repeats the verdict and emissions but submits nothing. |
| VRouter.ExternalOutAgain | final/vrouter/src/main/java/nycu/winlab/vrouter/AppComponent.java:414-471 | Rerunning external-out once its key is known submits nothing. |
| VRouter.IntraDomainAgain | final/vrouter/src/main/java/nycu/winlab/vrouter/AppComponent.java:473-506 | Rerunning the bridge path once its key is known submits nothing and learns nothing new. |
| VRouter.RepeatedPacketSubmitsNothing | final/vrouter/src/main/java/nycu/winlab/vrouter/AppComponent.java:295-314 | A re-presented identical packet submits no intent and leaves the state unchanged. |
| Transit.AddSrcPoint | final/vrouter/src/main/java/nycu/winlab/vrouter/AppComponent.java:548-577 | An interface is a source exactly when none of its addresses is of the next hop's family with a subnet containing the next hop. |
| Transit.SourcePoints | final/vrouter/src/main/java/nycu/winlab/vrouter/AppComponent.java:545-584 | The ingress set is exactly the attachment points of the interfaces whose flag stays true. |
| Transit.RouteIntent | final/vrouter/src/main/java/nycu/winlab/vrouter/AppComponent.java:545-605 | One best route aborts exactly when its next hop has no interface. Otherwise it submits at most one new-keyed priority-15 intent, from exactly the eligible interfaces (none is submitted when there are none) to the facing interface, matching the route's prefix. |
| Transit.TransitRoutes | final/vrouter/src/main/java/nycu/winlab/vrouter/AppComponent.java:533-618 | Every submission is a priority-15 multipoint intent with a non-empty ingress set and a new key, and every new key comes from a submission. The walk aborts if and only if some best route's next hop has no interface. |
| Transit.TransitRoutesSubmissions | final/vrouter/src/main/java/nycu/winlab/vrouter/AppComponent.java:535-614 | Every submission is the intent of a route the walk reached before any abort: from the eligible interfaces to the next hop's interface, for the route's prefix. |
| Transit.TransitRoutesKeys | final/vrouter/src/main/java/nycu/winlab/vrouter/AppComponent.java:535-614 | Every route reached before any abort has its intent's key known afterwards, whether it was submitted now or earlier. |
| Transit.AllRoutes | final/vrouter/src/main/java/nycu/winlab/vrouter/AppComponent.java:533-536 | The walk visits every route of every table, and only those. |
| Transit.InstallTransitIntentContents | final/vrouter/src/main/java/nycu/winlab/vrouter/AppComponent.java:531-618 | Over all route tables: aborts exactly when some table holds a best route whose next hop has no interface. Every submission is the intent of a route in some table. Without an abort, every route's intent is known afterwards. |
| Transit.TransitEvent | final/vrouter/src/main/java/nycu/winlab/vrouter/AppComponent.java:512-529 | Added and updated routes recompute all transit intents. Removals and other events do nothing. |
| Transit.SingleRouteIntent | final/vrouter/src/main/java/nycu/winlab/vrouter/AppComponent.java:545-605 | For one route, an intent is submitted if and only if the ingress set is non-empty, the next hop has an interface and the key is new. It runs from exactly the eligible interfaces to the facing interface. |
| Transit.TransitRoutesIdempotent | final/vrouter/src/main/java/nycu/winlab/vrouter/AppComponent.java:533-618 | Once its keys are known, rerunning the walk submits nothing and changes no key. |
| Transit.RepeatedRouteEventSubmitsNothing | final/vrouter/src/main/java/nycu/winlab/vrouter/AppComponent.java:512-529 | A repeated route event submits nothing the second time. |
| Transit.TransitScenario | final/vrouter/src/main/java/nycu/winlab/vrouter/AppComponent.java:545-605 | Route 10.0.0.0/24 via 172.16.0.2: the interface on 172.16.0.0/30 is excluded and the one on 192.168.1.0/24 is the single ingress. |
| BgpPeers.Pieces | final/vrouter/src/main/java/nycu/winlab/vrouter/AppComponent.java:249 | Splitting yields at least one piece, and exactly one if and only if the text has no ", ". |
| BgpPeers.DropTrailingEmpty | final/vrouter/src/main/java/nycu/winlab/vrouter/AppComponent.java:249 | Java's split drops trailing empty strings only: the result is a prefix of the pieces, and what is dropped is empty. |
| BgpPeers.Split | final/vrouter/src/main/java/nycu/winlab/vrouter/AppComponent.java:249 | Text without the separator splits into itself. |
| BgpPeers.PiecesOfSepFree | final/vrouter/src/main/java/nycu/winlab/vrouter/AppComponent.java:249 | Separator-free text is a single piece equal to itself. |
| BgpPeers.PiecesOfJoin | final/vrouter/src/main/java/nycu/winlab/vrouter/AppComponent.java:249 | Splitting "a, t" with separator-free a gives a followed by the pieces of t. |
| BgpPeers.SplitJoin | final/vrouter/src/main/java/nycu/winlab/vrouter/AppComponent.java:249-251 | Round trip: a peer string written "a, b" splits back into exactly a and b. |
| BgpPeers.SplitWithoutSeparator | final/vrouter/src/main/java/nycu/winlab/vrouter/AppComponent.java:249-251 | A peer string without ", " has a single piece, so reading the second address throws: the peer aborts with no intent and no key change. |
| BgpPeers.PeerConnection | final/vrouter/src/main/java/nycu/winlab/vrouter/AppComponent.java:248-264 | A peer succeeds if and only if it splits into two parsable addresses and the local one has an interface. On success the keys of FRR-to-interface for the remote address and interface-to-FRR for the local address are known afterwards. Each of the two is submitted exactly when its key is new, in that order. An abort has no effect. |
| BgpPeers.PeerLoop | final/vrouter/src/main/java/nycu/winlab/vrouter/AppComponent.java:248-266 | Over a family's peers, keys only grow and at most two intents are submitted per peer. Each is a priority-100 point-to-point intent with no treatment under a new key, and every new key comes from a submission. |
| BgpPeers.PeerLoopAborts | final/vrouter/src/main/java/nycu/winlab/vrouter/AppComponent.java:248-266 | The loop aborts exactly when some peer of the list fails. |
| BgpPeers.PeerLoopSubmissions | final/vrouter/src/main/java/nycu/winlab/vrouter/AppComponent.java:248-266 | Every submission is one of the two intents of a peer the loop reached before the first failing peer; later peers contribute nothing. |
| BgpPeers.PeerLoopKeys | final/vrouter/src/main/java/nycu/winlab/vrouter/AppComponent.java:248-266 | Every peer reached before the first failing peer has both intent keys known after the loop. |
| BgpPeers.BgpConnection | final/vrouter/src/main/java/nycu/winlab/vrouter/AppComponent.java:246-288 | IPv4 then IPv6 peers: at most two priority-100 point-to-point intents per configured peer, each under a new key. |
| BgpPeers.BgpConnectionContents | final/vrouter/src/main/java/nycu/winlab/vrouter/AppComponent.java:246-288 | Aborts exactly when an IPv4 or IPv6 peer fails. Every submission belongs to an IPv4 peer reached before the first failure or, only when every IPv4 peer succeeded, to such an IPv6 peer. Every reached peer's keys are known afterwards. |
| BgpPeers.WellFormedPeerTwoIntents | final/vrouter/src/main/java/nycu/winlab/vrouter/AppComponent.java:248-264 | A well-formed IPv4 peer yields exactly FRR-to-interface for the remote /32, then interface-to-FRR for the local /32. |
| FinalProxyArp.LearnArp | final/ProxyArp/src/main/java/nycu/winlab/ProxyArp/AppComponent.java:249-252 | ARP learning binds ip to mac and mac to point, first-write-wins, and leaves the NDP table alone. |
| FinalProxyArp.LearnNdp | final/ProxyArp/src/main/java/nycu/winlab/ProxyArp/AppComponent.java:254-257 | NDP learning binds ip to mac and mac to point, first-write-wins, and leaves the ARP table alone. |
| FinalProxyArp.ProcessArp | final/ProxyArp/src/main/java/nycu/winlab/ProxyArp/AppComponent.java:166-207 | An ARP is blocked exactly when its target is guarded, and is then left entirely alone. Otherwise the sender is learned, and the packet aborts exactly when it is a reply whose target has no known MAC or attachment point. An unknown opcode emits nothing. |
| FinalProxyArp.ProcessNdp | final/ProxyArp/src/main/java/nycu/winlab/ProxyArp/AppComponent.java:208-240 | Nothing is ever blocked. A non-ICMPv6 payload aborts before learning. Otherwise the header source is learned, and the packet aborts exactly when it is an advertisement whose destination has no known MAC or attachment point. Other ICMPv6 types emit nothing. |
| FinalProxyArp.Process | final/ProxyArp/src/main/java/nycu/winlab/ProxyArp/AppComponent.java:153-242 | A handled, unparsed or non-ARP/IPv6 frame has no effect. Every binding already in the three tables survives the packet. |
| FinalProxyArp.PerimeterBlocks | final/ProxyArp/src/main/java/nycu/winlab/ProxyArp/AppComponent.java:177-182 | An ARP frame is blocked if and only if its target is guarded. A blocked frame causes no emission and no learning. |
| FinalProxyArp.GuardedRange | final/ProxyArp/src/main/java/nycu/winlab/ProxyArp/AppComponent.java:177-182 | A target is guarded exactly when it lies in 192.168.70.0 to 192.168.70.255 and is neither 192.168.70.80 nor 192.168.70.253. |
| FinalProxyArp.PerimeterExamples | final/ProxyArp/src/main/java/nycu/winlab/ProxyArp/AppComponent.java:177-182 | 192.168.70.99 is guarded. The anchors .80 and .253, and 192.168.71.5 outside the domain, are not. |
| FinalProxyArp.RequestHitAnswersAtIngress | final/ProxyArp/src/main/java/nycu/winlab/ProxyArp/AppComponent.java:185-197 | A cached request yields one reply with the cached MAC, out of the ingress point only. |
| FinalProxyArp.RequestMissFloods | final/ProxyArp/src/main/java/nycu/winlab/ProxyArp/AppComponent.java:198-202 | An uncached request goes unchanged to every edge point except the ingress, and to nothing else. |
| FinalProxyArp.ReplyRelayedToRequester | final/ProxyArp/src/main/java/nycu/winlab/ProxyArp/AppComponent.java:185-207 | The sender is learned first. A reply then goes unchanged to the attachment point of the target's cached MAC, looked up in the tables after learning, and nowhere else. So a gratuitous reply goes back to its own sender's point. |
| FinalProxyArp.LearnedBindingSurvives | final/ProxyArp/src/main/java/nycu/winlab/ProxyArp/AppComponent.java:185 | Round trip: after a first ARP from (ip, mac) at cp, ip maps to mac and mac to cp, and still does after any later packet. |
| FinalProxyArp.SolicitationHitAdvertises | final/ProxyArp/src/main/java/nycu/winlab/ProxyArp/AppComponent.java:215-229 | After the header's source is learned, a solicitation for a cached destination yields one advertisement at the ingress, with hop limit 255 and the cached MAC. |
| FinalProxyArp.AdvertisementRelayedViaSharedTable | final/ProxyArp/src/main/java/nycu/winlab/ProxyArp/AppComponent.java:215-237 | After the header's source is learned, an advertisement is relayed unchanged through the attachment-point table shared with ARP. |
| FinalProxyArp.ArpLearnedPointLocatesAdvertisement | final/ProxyArp/src/main/java/nycu/winlab/ProxyArp/AppComponent.java:185-237 | The attachment point an ARP packet taught for a MAC is where a later advertisement for an IPv6 address bound to that MAC is relayed. |
| LearningBridge.Process | lab3/bridge-app/src/main/java/nycu/winlab/bridge/AppComponent.java:121-167 | Learning is first-write-wins on the receiving device only. An unknown destination is flooded out of the device with no rule. A known one gets exactly one rule plus a packet-out to the learned port. |
| LearningBridge.EntryNotMoved | lab3/bridge-app/src/main/java/nycu/winlab/bridge/AppComponent.java:145-152 | A later frame from the same MAC on another port does not move its entry. |
| LearningBridge.SelfAddressedNeverFlooded | lab3/bridge-app/src/main/java/nycu/winlab/bridge/AppComponent.java:145-165 | Learning precedes lookup, so a frame addressed to its own sender gets a rule and is never flooded. |
| LearningBridge.KnownDestinationInstalls | lab3/bridge-app/src/main/java/nycu/winlab/bridge/AppComponent.java:145-199 | After a host is seen, a frame towards it on that device installs one rule on that device matching the (dst, src) pair, outputting to the host's first port, at priority 30 with a 30 s timeout, and is sent out of that port. |
| Lab3ProxyArp.Process | lab3/ProxyArp/src/main/java/nycu/winlab/ProxyArp/AppComponent.java:96-150 | Every parsed frame updates the device's MAC table last-write-wins. Frames other than IP ARPs do nothing more. An IP ARP overwrites the cache entry; a hit blocks and replies at the ingress, a miss floods out of the device. |
| Lab3ProxyArp.BridgeEntryMoves | lab3/ProxyArp/src/main/java/nycu/winlab/ProxyArp/AppComponent.java:113-114 | The bridge table is last-write-wins: a host seen later on another port is moved there. |
| Lab3ProxyArp.ArpEntryOverwritten | lab3/ProxyArp/src/main/java/nycu/winlab/ProxyArp/AppComponent.java:129 | The ARP cache is last-write-wins. |
| Lab3ProxyArp.SelfTargetAlwaysHits | lab3/ProxyArp/src/main/java/nycu/winlab/ProxyArp/AppComponent.java:129-138 | An ARP whose target is its sender always hits, answered with the sender's own MAC. |
| Lab3ProxyArp.ReplyAnsweredLikeRequest | lab3/ProxyArp/src/main/java/nycu/winlab/ProxyArp/AppComponent.java:132-147 | The opcode is never consulted. A request and a reply that differ only in opcode leave the same state and blocking. On a hit both are answered with the very same reply at the ingress; on a miss each is flooded, unchanged, out of the receiving device. |
| GroupMeter.ProcessPacket | lab4/groupmeter/src/main/java/nycu/winlab/groupmeter/AppComponent.java:170-256 | No configuration, a handled context or an unparsed frame: nothing. Otherwise at most one reply (blocked, ARP frames only) or one intent (non-ARP frames only). |
| GroupMeter.ArpAnsweredExactlyForConfiguredHosts | lab4/groupmeter/src/main/java/nycu/winlab/groupmeter/AppComponent.java:187-213 | An ARP is answered if and only if it is an IP request for a configured address. The reply binds that address to its configured MAC. |
| GroupMeter.IntentsTargetTheOtherHost | lab4/groupmeter/src/main/java/nycu/winlab/groupmeter/AppComponent.java:215-254 | A non-ARP frame submits an intent if and only if its source is a configured MAC. The intent runs from the ingress to the other host, matching that host's MAC. |
| GroupMeter.BothDirectionsRequested | lab4/groupmeter/src/main/java/nycu/winlab/groupmeter/AppComponent.java:217-253 | With distinct MACs, frames from each host request mirror-image intents. |
| GroupMeter.ConfigEvent | lab4/groupmeter/src/main/java/nycu/winlab/groupmeter/AppComponent.java:261-313 | Only added or updated NameConfig events with a readable configuration act. Removals occur exactly when a configuration was in force, and all precede the installation. The installation always ends the sequence: the failover group, its s1 rule, the meter, and the s4 rule for host 1's MAC. |
| GroupMeter.ConfigEventKeepsConsistent | lab4/groupmeter/src/main/java/nycu/winlab/groupmeter/AppComponent.java:261-313 | Every event keeps the installation equal to the configuration's one group, one meter and two rules. Nothing is installed before a configuration arrives. |
| GroupMeter.StaleMeteredRuleRemoved | lab4/groupmeter/src/main/java/nycu/winlab/groupmeter/AppComponent.java:270-309 | A reconfiguration that changes host 1's MAC leaves no metered rule for the old MAC. |

## Left out

- vrouter configuration listener: only `BGPConnection` is modelled. Reading the configuration, ARP/NDP flooding of the gateway and withdrawing earlier intents are not modelled.
- Address-text parsing: `Ip4Address.valueOf` and `Ip6Address.valueOf` are oracle parameters of `BgpPeers`. Configuration strings elsewhere (`NameConfig`, the vrouter MACs) are taken as already parsed.
- ONOS services: route lookup, host lookup, interface lookup, edge ports and route tables are parameters. Their internal behaviour is outside the applications.
- Intent store timing: submission is modelled as synchronous, so a key is known as soon as its intent is submitted. Withdrawal and failed compilation are not modelled.
- Intent builder validation: ONOS rejects intents whose ingress equals the egress, or multipoint intents with the egress among the ingresses. The model submits them as the application asks.
- Intent keys: ONOS builds keys from `hashCode()` strings. The model uses the tuple itself, so hash collisions are not modelled.
- Groupmeter intent defaults: the intent builder's generated key and default priority 100 belong to the ONOS library. The model takes them as given.
- Group and meter detail: bucket weights, the group id and cookie, meter bands (DROP, 512 KB/s, burst 1024) and the asynchronous lookup of the group on s1 by the listener are kept opaque. A group or meter is a token naming its device.
- Packet library: serialisation, checksums and the hop limit `buildNdpAdv` chooses are not modelled. ARP addresses are taken as 4-byte IPv4.
- Logging, the `hostService.requestMac` calls, OSGi activation and deactivation, packet-request registration, and concurrency between processors are not modelled.
- The skeleton bridge of lab3, the lab1/lab2 material and the Mininet scripts are not part of this model.
- VRouter.BothClassifiersRun: for IPv6 it assumes the FRR MAC and the gateway MAC differ. If they are equal, the two keys can coincide, and then only one intent is submitted.
- VRouter.Process: its own contract states only the handled/unparsed case, key growth and device isolation. Blocking, aborting and emissions are stated by `ProcessBlocked`, `ProcessAborts`, `ClaimedFrameEmissions` and `BridgedExactlyWhenBothDecline`; the intents of a claimed frame are stated per classifier by `ExternalIn` and `ExternalOut`.
- BgpPeers.BgpConnection and BgpPeers.PeerLoop: their own contracts bound and shape the submissions. Peer-by-peer content is stated by `PeerConnection`, `PeerLoopAborts`, `PeerLoopSubmissions`, `PeerLoopKeys` and `BgpConnectionContents`.
- FinalProxyArp: NDP bindings are learned and looked up by the IPv6 header addresses, not by the ND target. A solicitation sent to a solicited-node multicast address therefore misses the cache. This is modelled as written.
