/**
 * The vrouter configuration listener's `BGPConnection`: every configured
 * peer is a string "local, remote" naming the router's own address on the
 * peering link and the peer's; each peer gets two point-to-point intents
 * at priority 100 between the FRR router's attachment point and the
 * interface owning the local address, one per direction.
 */
module BgpPeers {
  import opened Net
  import opened Intents
  import opened RouterEnv

  const PEER_PRIORITY: nat := 100

  /** Separator of the two addresses of a peer string. */
  const SEP: string := ", "

  predicate SepAt(s: string, i: nat)
  {
    i + 1 < |s| && s[i] == ',' && s[i + 1] == ' '
  }

  /** No occurrence of the separator inside `s`. */
  predicate NoSep(s: string)
  {
    forall i: nat | i + 1 < |s| :: !SepAt(s, i)
  }

  /**
   * The pieces between successive non-overlapping occurrences of the
   * separator, found left to right, empty pieces included.
   */
  function Pieces(s: string): (r: seq<string>)
    ensures |r| >= 1
    ensures |r| == 1 <==> NoSep(s)
    decreases |s|
  {
    if |s| == 0 then [""]
    else if SepAt(s, 0) then [""] + Pieces(s[2..])
    else
      var rest := Pieces(s[1..]);
      assert NoSep(s) <==> NoSep(s[1..]) by {
        if !NoSep(s[1..]) {
          var i: nat :| i + 1 < |s[1..]| && SepAt(s[1..], i);
          assert SepAt(s, i + 1);
        }
        if !NoSep(s) {
          var i: nat :| i + 1 < |s| && SepAt(s, i);
          assert i > 0 && SepAt(s[1..], i - 1);
        }
      }
      [[s[0]] + rest[0]] + rest[1..]
  }

  /** Java's `List` trimming of `split` with limit 0: trailing empty strings are dropped. */
  function DropTrailingEmpty(parts: seq<string>): (r: seq<string>)
    ensures r <= parts
    ensures r == [] || r[|r| - 1] != ""
    ensures forall i | |r| <= i < |parts| :: parts[i] == ""
  {
    if parts == [] then []
    else if parts[|parts| - 1] == "" then DropTrailingEmpty(parts[..|parts| - 1])
    else parts
  }

  /**
   * Java's `peer.split(", ")`: with no occurrence of the separator the
   * whole string is the single result (even when empty); otherwise the
   * pieces, leading empty pieces kept and trailing empty ones dropped.
   */
  function Split(s: string): (r: seq<string>)
    ensures NoSep(s) ==> r == [s]
  {
    var pieces := Pieces(s);
    if |pieces| == 1 then [s] else DropTrailingEmpty(pieces)
  }

  lemma {:induction false} PiecesOfSepFree(s: string)
    requires NoSep(s)
    ensures Pieces(s) == [s]
  {
    // the postcondition of Pieces gives a single piece; it is the whole string
    if |s| > 0 {
      assert !SepAt(s, 0);
      assert NoSep(s[1..]) by {
        forall i: nat | i + 1 < |s[1..]| ensures !SepAt(s[1..], i) {
          assert !SepAt(s, i + 1);
        }
      }
      PiecesOfSepFree(s[1..]);
      assert [s[0]] + s[1..] == s;
    }
  }

  lemma {:induction false} PiecesOfJoin(a: string, t: string)
    requires NoSep(a)
    ensures Pieces(a + SEP + t) == [a] + Pieces(t)
    decreases |a|
  {
    var s := a + SEP + t;
    if |a| == 0 {
      assert s[2..] == t;
    } else {
      assert !SepAt(s, 0) by {
        if |a| > 1 {
          assert !SepAt(a, 0);
        }
      }
      assert NoSep(a[1..]) by {
        forall i: nat | i + 1 < |a[1..]| ensures !SepAt(a[1..], i) {
          assert !SepAt(a, i + 1);
        }
      }
      assert s[1..] == a[1..] + SEP + t;
      PiecesOfJoin(a[1..], t);
      assert [a[0]] + a[1..] == a;
    }
  }

  /** Round trip: a peer string written "a, b" splits back into exactly a and b. */
  lemma SplitJoin(a: string, b: string)
    requires NoSep(a) && NoSep(b) && b != ""
    ensures Split(a + SEP + b) == [a, b]
  {
    PiecesOfJoin(a, b);
    PiecesOfSepFree(b);
  }


  /** Address-text parsers (`Ip4Address.valueOf`, `Ip6Address.valueOf`); None where the Java code throws. */
  datatype Parsers = Parsers(ip4: string -> Option<Ip4>, ip6: string -> Option<Ip6>)

  function ParseIp(parsers: Parsers, v6: bool, text: string): Option<IpAddress>
  {
    if v6 then
      match parsers.ip6(text)
      case Some(a) => Some(V6(a))
      case None => None
    else
      match parsers.ip4(text)
      case Some(a) => Some(V4(a))
      case None => None
  }

  /** Intent keys known afterwards, the intents submitted, and whether an exception cut the loop short. */
  datatype BgpOutcome = BgpOutcome(intents: set<IntentKey>, submitted: seq<Intent>, aborted: bool)

  /** The selector for traffic of `ip`'s family destined to exactly `ip`. */
  function PeerSelector(ip: IpAddress): (s: Selector)
    ensures s.ethType == Some(if ip.V4? then TYPE_IPV4 else TYPE_IPV6)
    ensures s.ipDst == Some(HostPrefix(ip))
    ensures s.ethDst.None? && s.ethSrc.None? && s.inPort.None?
  {
    AnyTraffic.(ethType := Some(if ip.V4? then TYPE_IPV4 else TYPE_IPV6), ipDst := Some(HostPrefix(ip)))
  }

  /**
   * A peer string is processed without an exception: it splits into at
   * least two pieces, both parse as addresses of the loop's family, and
   * the first (local) address lies on an interface.  None of this depends
   * on the intents already known.
   */
  predicate PeerOk(svc: Services, parsers: Parsers, v6: bool, peer: string)
  {
    var ips := Split(peer);
    && |ips| >= 2
    && ParseIp(parsers, v6, ips[0]).Some? && ParseIp(parsers, v6, ips[1]).Some?
    && svc.matchingInterface(ParseIp(parsers, v6, ips[0]).value).Some?
  }

  /** A keyed priority-100 intent from `ingress` to `egress` for traffic destined to exactly `dst`. */
  function PeerIntent(ingress: ConnectPoint, egress: ConnectPoint, dst: IpAddress): Intent
  {
    PointToPoint(Some(PointKey(ingress, egress, PeerSelector(dst), None)), PEER_PRIORITY, ingress, egress, PeerSelector(dst), None)
  }

  /**
   * The two intents a well-formed peer asks for, in order: FRR -> the local
   * address's interface for traffic to the remote address, and back for
   * traffic to the local address.  A peer that aborts asks for none.
   */
  function PeerIntents(cfg: RouterConfig, svc: Services, parsers: Parsers, v6: bool, peer: string): (want: seq<Intent>)
    ensures |want| == if PeerOk(svc, parsers, v6, peer) then 2 else 0
    ensures forall i | i in want :: i.PointToPoint? && i.key.Some? && i.priority == PEER_PRIORITY && i.treatment.None?
  {
    if !PeerOk(svc, parsers, v6, peer) then []
    else
      var ips := Split(peer);
      var local := ParseIp(parsers, v6, ips[0]).value;
      var remote := ParseIp(parsers, v6, ips[1]).value;
      var cp := svc.matchingInterface(local).value.connectPoint;
      [PeerIntent(cfg.frrCp, cp, remote), PeerIntent(cp, cfg.frrCp, local)]
  }

  /**
   * One peer: a string with fewer than two pieces, an unparsable address
   * or a local address on no interface aborts; otherwise the intent
   * FRR -> interface for traffic to the remote address, then the intent
   * interface -> FRR for traffic to the local address, each submitted only
   * when its key is new.
   */
  function PeerConnection(cfg: RouterConfig, svc: Services, parsers: Parsers, v6: bool, peer: string, keys: set<IntentKey>): (r: BgpOutcome)
    ensures keys <= r.intents && |r.submitted| <= 2
    ensures r.aborted ==> r.intents == keys && r.submitted == []
    ensures forall i | i in r.submitted ::
      && i.PointToPoint? && i.priority == PEER_PRIORITY && i.treatment.None?
      && ((i.ingress == cfg.frrCp) || (i.egress == cfg.frrCp))
    ensures !r.aborted <==> PeerOk(svc, parsers, v6, peer)
    ensures PeerOk(svc, parsers, v6, peer) ==>
      var want := PeerIntents(cfg, svc, parsers, v6, peer);
      && r.intents == keys + {want[0].key.value, want[1].key.value}
      && (forall i | i in r.submitted :: i in want && i.key.value !in keys)
      && (forall i | i in want && i.key.value !in keys :: i in r.submitted)
      && (|r.submitted| == 2 ==> r.submitted == want)
  {
    var ips := Split(peer);
    if |ips| < 2 then BgpOutcome(keys, [], true)
    else match (ParseIp(parsers, v6, ips[0]), ParseIp(parsers, v6, ips[1]))
      case (Some(local), Some(remote)) =>
        (match svc.matchingInterface(local)
         case None => BgpOutcome(keys, [], true)
         case Some(intf) =>
           var toPeer := InstallIntent(keys, cfg.frrCp, intf.connectPoint, PeerSelector(remote), None, PEER_PRIORITY);
           var fromPeer := InstallIntent(toPeer.keys, intf.connectPoint, cfg.frrCp, PeerSelector(local), None, PEER_PRIORITY);
           BgpOutcome(fromPeer.keys, toPeer.submitted + fromPeer.submitted, false))
      case _ => BgpOutcome(keys, [], true)
  }

  /** Every peer up to and including index `j` is processed without an exception. */
  predicate OkUpTo(svc: Services, parsers: Parsers, v6: bool, peers: seq<string>, j: int)
  {
    forall m | 0 <= m <= j && m < |peers| :: PeerOk(svc, parsers, v6, peers[m])
  }

  /** The peers at the indices the loop reaches and completes. */
  predicate Reached(svc: Services, parsers: Parsers, v6: bool, peers: seq<string>, j: int)
  {
    0 <= j < |peers| && OkUpTo(svc, parsers, v6, peers, j)
  }

  /**
   * The loop over one family's peers: each peer, in order, contributes its
   * `PeerConnection`; the first peer that aborts ends the loop, so the
   * later peers' intents are never requested.
   */
  function PeerLoop(cfg: RouterConfig, svc: Services, parsers: Parsers, v6: bool, peers: seq<string>, keys: set<IntentKey>): (r: BgpOutcome)
    ensures keys <= r.intents
    ensures |r.submitted| <= 2 * |peers|
    ensures forall i | i in r.submitted :: i.PointToPoint? && i.priority == PEER_PRIORITY && i.treatment.None?
    ensures forall i | i in r.submitted :: i.key.Some? && i.key.value !in keys && i.key.value in r.intents
    ensures forall k | k in r.intents && k !in keys :: exists i | i in r.submitted :: i.key == Some(k)
    decreases |peers|
  {
    if peers == [] then BgpOutcome(keys, [], false)
    else
      var first := PeerConnection(cfg, svc, parsers, v6, peers[0], keys);
      if first.aborted then first
      else
        var rest := PeerLoop(cfg, svc, parsers, v6, peers[1..], first.intents);
        BgpOutcome(rest.intents, first.submitted + rest.submitted, rest.aborted)
  }

  /** Dropping the first, successful peer shifts the reached indices by one. */
  lemma ReachedShift(svc: Services, parsers: Parsers, v6: bool, peers: seq<string>, j: int)
    requires |peers| > 0 && PeerOk(svc, parsers, v6, peers[0]) && 1 <= j < |peers|
    ensures Reached(svc, parsers, v6, peers, j) <==> Reached(svc, parsers, v6, peers[1..], j - 1)
  {
    var tail := peers[1..];
    if Reached(svc, parsers, v6, tail, j - 1) {
      forall m | 0 <= m <= j ensures PeerOk(svc, parsers, v6, peers[m]) {
        if m > 0 {
          assert tail[m - 1] == peers[m];
        }
      }
    }
    if Reached(svc, parsers, v6, peers, j) {
      forall m | 0 <= m <= j - 1 ensures PeerOk(svc, parsers, v6, tail[m]) {
        assert tail[m] == peers[m + 1];
      }
    }
  }

  /** A list of peers all succeed exactly when the first one does and the rest all do. */
  lemma AllOkCons(svc: Services, parsers: Parsers, v6: bool, peers: seq<string>)
    requires peers != []
    ensures AllOk(svc, parsers, v6, peers) <==> PeerOk(svc, parsers, v6, peers[0]) && AllOk(svc, parsers, v6, peers[1..])
  {
    assert forall j | 1 <= j < |peers| :: peers[1..][j - 1] == peers[j];
  }

  /** The loop aborts exactly when some peer of the list does. */
  lemma {:induction false} PeerLoopAborts(
    cfg: RouterConfig, svc: Services, parsers: Parsers, v6: bool, peers: seq<string>, keys: set<IntentKey>)
    ensures PeerLoop(cfg, svc, parsers, v6, peers, keys).aborted <==> !AllOk(svc, parsers, v6, peers)
    decreases |peers|
  {
    if peers != [] {
      var first := PeerConnection(cfg, svc, parsers, v6, peers[0], keys);
      if !first.aborted {
        PeerLoopAborts(cfg, svc, parsers, v6, peers[1..], first.intents);
      }
      AllOkCons(svc, parsers, v6, peers);
    }
  }

  /** Every submission of the loop is one of the two intents of a peer reached before the first abort. */
  lemma {:induction false} PeerLoopSubmissions(
    cfg: RouterConfig, svc: Services, parsers: Parsers, v6: bool, peers: seq<string>, keys: set<IntentKey>)
    ensures forall i | i in PeerLoop(cfg, svc, parsers, v6, peers, keys).submitted ::
      exists j | Reached(svc, parsers, v6, peers, j) :: i in PeerIntents(cfg, svc, parsers, v6, peers[j])
    decreases |peers|
  {
    if peers != [] {
      var first := PeerConnection(cfg, svc, parsers, v6, peers[0], keys);
      if !first.aborted {
        var tail := peers[1..];
        var rest := PeerLoop(cfg, svc, parsers, v6, tail, first.intents);
        PeerLoopSubmissions(cfg, svc, parsers, v6, tail, first.intents);
        var r := PeerLoop(cfg, svc, parsers, v6, peers, keys);
        assert r.submitted == first.submitted + rest.submitted;
        forall i | i in r.submitted
          ensures exists j | Reached(svc, parsers, v6, peers, j) :: i in PeerIntents(cfg, svc, parsers, v6, peers[j])
        {
          if i in first.submitted {
            assert Reached(svc, parsers, v6, peers, 0);
          } else {
            var j :| Reached(svc, parsers, v6, tail, j) && i in PeerIntents(cfg, svc, parsers, v6, tail[j]);
            ReachedShift(svc, parsers, v6, peers, j + 1);
            assert tail[j] == peers[j + 1];
          }
        }
      }
    }
  }

  /** Every peer reached before the first abort has both its keys known after the loop. */
  lemma {:induction false} PeerLoopKeys(
    cfg: RouterConfig, svc: Services, parsers: Parsers, v6: bool, peers: seq<string>, keys: set<IntentKey>)
    ensures forall j | Reached(svc, parsers, v6, peers, j) ::
      forall i | i in PeerIntents(cfg, svc, parsers, v6, peers[j]) ::
        i.key.value in PeerLoop(cfg, svc, parsers, v6, peers, keys).intents
    decreases |peers|
  {
    if peers != [] {
      var first := PeerConnection(cfg, svc, parsers, v6, peers[0], keys);
      if !first.aborted {
        var tail := peers[1..];
        var rest := PeerLoop(cfg, svc, parsers, v6, tail, first.intents);
        PeerLoopKeys(cfg, svc, parsers, v6, tail, first.intents);
        var r := PeerLoop(cfg, svc, parsers, v6, peers, keys);
        assert r.intents == rest.intents;
        forall j | Reached(svc, parsers, v6, peers, j)
          ensures forall i | i in PeerIntents(cfg, svc, parsers, v6, peers[j]) :: i.key.value in r.intents
        {
          if j > 0 {
            ReachedShift(svc, parsers, v6, peers, j);
            assert tail[j - 1] == peers[j];
          }
        }
      }
    }
  }

  /** Every peer of the list is processed without an exception. */
  predicate AllOk(svc: Services, parsers: Parsers, v6: bool, peers: seq<string>)
  {
    forall j | 0 <= j < |peers| :: PeerOk(svc, parsers, v6, peers[j])
  }

  /** `BGPConnection`: the IPv4 peers, then (unless an IPv4 peer aborted) the IPv6 peers. */
  function BgpConnection(cfg: RouterConfig, svc: Services, parsers: Parsers, keys: set<IntentKey>): (r: BgpOutcome)
    ensures keys <= r.intents
    ensures |r.submitted| <= 2 * (|cfg.v4Peers| + |cfg.v6Peers|)
    ensures forall i | i in r.submitted :: i.PointToPoint? && i.priority == PEER_PRIORITY && i.treatment.None?
    ensures forall i | i in r.submitted :: i.key.Some? && i.key.value !in keys
  {
    var v4 := PeerLoop(cfg, svc, parsers, false, cfg.v4Peers, keys);
    if v4.aborted then v4
    else
      var v6 := PeerLoop(cfg, svc, parsers, true, cfg.v6Peers, v4.intents);
      BgpOutcome(v6.intents, v4.submitted + v6.submitted, v6.aborted)
  }

  /**
   * `BGPConnection` peer by peer: it aborts exactly when some IPv4 or IPv6
   * peer does; every submission is one of the two intents of an IPv4 peer
   * reached before the first abort or, only when every IPv4 peer
   * succeeded, of such an IPv6 peer; and every reached peer's keys are
   * known afterwards.
   */
  lemma BgpConnectionContents(cfg: RouterConfig, svc: Services, parsers: Parsers, keys: set<IntentKey>)
    ensures var r := BgpConnection(cfg, svc, parsers, keys);
            var v4 := cfg.v4Peers;
            var v6 := cfg.v6Peers;
            && (r.aborted <==> !AllOk(svc, parsers, false, v4) || !AllOk(svc, parsers, true, v6))
            && (forall i | i in r.submitted ::
                  || (exists j | Reached(svc, parsers, false, v4, j) :: i in PeerIntents(cfg, svc, parsers, false, v4[j]))
                  || (AllOk(svc, parsers, false, v4)
                      && exists j | Reached(svc, parsers, true, v6, j) :: i in PeerIntents(cfg, svc, parsers, true, v6[j])))
            && (forall j | Reached(svc, parsers, false, v4, j) ::
                  forall i | i in PeerIntents(cfg, svc, parsers, false, v4[j]) :: i.key.value in r.intents)
            && (AllOk(svc, parsers, false, v4) ==>
                  forall j | Reached(svc, parsers, true, v6, j) ::
                    forall i | i in PeerIntents(cfg, svc, parsers, true, v6[j]) :: i.key.value in r.intents)
  {
    var v4 := PeerLoop(cfg, svc, parsers, false, cfg.v4Peers, keys);
    PeerLoopAborts(cfg, svc, parsers, false, cfg.v4Peers, keys);
    PeerLoopSubmissions(cfg, svc, parsers, false, cfg.v4Peers, keys);
    PeerLoopKeys(cfg, svc, parsers, false, cfg.v4Peers, keys);
    if !v4.aborted {
      PeerLoopAborts(cfg, svc, parsers, true, cfg.v6Peers, v4.intents);
      PeerLoopSubmissions(cfg, svc, parsers, true, cfg.v6Peers, v4.intents);
      PeerLoopKeys(cfg, svc, parsers, true, cfg.v6Peers, v4.intents);
    }
  }

  /**
   * A well-formed IPv4 peer "local, remote" whose local address lies on a
   * known interface and whose intents are new yields exactly two intents:
   * FRR -> interface matching traffic to the remote /32, and interface ->
   * FRR matching traffic to the local /32.
   */
  lemma WellFormedPeerTwoIntents(
    cfg: RouterConfig, svc: Services, parsers: Parsers,
    localText: string, remoteText: string, local: Ip4, remote: Ip4, intf: Interface)
    requires NoSep(localText) && NoSep(remoteText) && remoteText != ""
    requires parsers.ip4(localText) == Some(local) && parsers.ip4(remoteText) == Some(remote)
    requires svc.matchingInterface(V4(local)) == Some(intf)
    requires intf.connectPoint != cfg.frrCp
    ensures var r := PeerConnection(cfg, svc, parsers, false, localText + SEP + remoteText, {});
            && !r.aborted && |r.submitted| == 2
            && r.submitted[0] == PointToPoint(
                 Some(PointKey(cfg.frrCp, intf.connectPoint, PeerSelector(V4(remote)), None)),
                 PEER_PRIORITY, cfg.frrCp, intf.connectPoint, PeerSelector(V4(remote)), None)
            && r.submitted[1] == PointToPoint(
                 Some(PointKey(intf.connectPoint, cfg.frrCp, PeerSelector(V4(local)), None)),
                 PEER_PRIORITY, intf.connectPoint, cfg.frrCp, PeerSelector(V4(local)), None)
  {
    SplitJoin(localText, remoteText);
  }

  /**
   * Without the separator there is only one piece, so reading the second
   * address (`ips[1]`) throws: the peer aborts with no effect.
   */
  lemma SplitWithoutSeparator(
    cfg: RouterConfig, svc: Services, parsers: Parsers, v6: bool, peer: string, keys: set<IntentKey>)
    requires NoSep(peer)
    ensures PeerConnection(cfg, svc, parsers, v6, peer, keys) == BgpOutcome(keys, [], true)
  {
  }
}
