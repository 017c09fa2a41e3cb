/** Mesh admission: handshake state, approved peers, cached capabilities and what pubsub was told. */
module Admission {
  import opened Bytes

  type Peer = nat

  datatype PeerState = HandshakeValid | HandshakeInvalid

  /** How a connection without a known state ends: an outbound handshake's result, or an awaited inbound one. */
  datatype Handshake = Outbound(result: Option<bool>) | Inbound(validInTime: bool)

  // ---------- handshake and disconnect as steps ----------

  class Node {
    // entries of `peers` expire, the other two do not
    var peers: map<Peer, PeerState>
    var approved: set<Peer>
    var capabilities: map<Peer, bool>
    // pubsub: the peers it admits and whether they may publish
    var admitted: map<Peer, bool>
    // what each peer's last verified handshake granted, since the last disconnect
    ghost var granted: map<Peer, bool>

    ghost predicate Valid()
      reads this
    {
      && approved == capabilities.Keys
      && (forall p :: p in peers && peers[p].HandshakeValid? ==> p in approved)
      && capabilities == granted
      && (forall p :: p in admitted && admitted[p] ==> p in granted && granted[p])
    }

    constructor ()
      ensures Valid() && peers == map[] && approved == {} && granted == map[] && admitted == map[]
    {
      peers, approved, capabilities, admitted, granted := map[], {}, map[], map[], map[];
    }

    method SetPeerState(p: Peer, state: PeerState, canPublish: bool)
      modifies `peers, `approved, `capabilities
      ensures state.HandshakeValid? ==>
                peers == old(peers)[p := state] && approved == old(approved) + {p} &&
                    capabilities == old(capabilities)[p := canPublish]
      ensures state.HandshakeInvalid? ==>
                peers == old(peers) - {p} && approved == old(approved) - {p} && capabilities == old(capabilities) - {p}
    {
      peers := peers[p := state];
      match state {
        case HandshakeValid =>
          approved := approved + {p};
          capabilities := capabilities[p := canPublish];
        case HandshakeInvalid =>
          peers := peers - {p};
          approved := approved - {p};
          capabilities := capabilities - {p};
      }
    }

    /** A verified handshake: recorded, and passed to pubsub with exactly what it granted. */
    method MarkHandshakeValid(p: Peer, canPublish: bool)
      requires Valid()
      modifies this
      ensures Valid() && granted == old(granted)[p := canPublish]
      ensures p in peers && p in approved && p in admitted && admitted[p] == canPublish
      ensures admitted == old(admitted)[p := canPublish]
    {
      granted := granted[p := canPublish];
      SetPeerState(p, HandshakeValid, canPublish);
      admitted := admitted[p := canPublish];
    }

    /** A disconnect clears all three maps and pubsub's admission. */
    method DisconnectPeer(p: Peer)
      requires Valid()
      modifies this
      ensures Valid() && granted == old(granted) - {p}
      ensures p !in peers && p !in approved && p !in capabilities && p !in admitted
      ensures peers == old(peers) - {p} && admitted == old(admitted) - {p}
    {
      granted := granted - {p};
      SetPeerState(p, HandshakeInvalid, false);
      admitted := admitted - {p};
    }

    method ReadmitCapability(p: Peer) returns (canPublish: bool)
      ensures canPublish == (p in capabilities && capabilities[p])
    {
      if p !in capabilities {
        return false;
      }
      return capabilities[p];
    }

    /**
     * A new connection.  A peer with a valid handshake is re-admitted with exactly what that handshake granted;
     * any other needs a handshake now, and fails into a disconnect.
     */
    method HandleNewConnection(p: Peer, h: Handshake)
      requires Valid()
      modifies this
      ensures Valid()
      ensures old(p in peers && peers[p].HandshakeValid?) ==>
              granted == old(granted) && admitted == old(admitted)[p := old(granted)[p]]
      ensures old(p in peers && peers[p].HandshakeInvalid?) ==>
              granted == old(granted) - {p} && admitted == old(admitted) - {p}
      ensures old(p !in peers) ==>
                match h {
                  case Outbound(Some(c)) => granted == old(granted)[p := c] && admitted == old(admitted)[p := c]
                  case Outbound(None) => granted == old(granted) - {p} && admitted == old(admitted) - {p}
                  case Inbound(true) => granted == old(granted) && admitted == old(admitted)
                  case Inbound(false) => granted == old(granted) - {p} && admitted == old(admitted) - {p}
                }
    {
      if p in peers && peers[p].HandshakeValid? {
        var canPublish := ReadmitCapability(p);
        admitted := admitted[p := canPublish];
        return;
      }
      if p in peers && peers[p].HandshakeInvalid? {
        DisconnectPeer(p);
        return;
      }
      match h {
        case Outbound(Some(c)) => MarkHandshakeValid(p, c);
        case Outbound(None) => DisconnectPeer(p);
        case Inbound(validInTime) =>
          if !validInTime {
            DisconnectPeer(p);
          }
      }
    }

    /** The state of a peer runs out; its approval and capability stay. */
    method Expire(p: Peer)
      requires Valid()
      modifies `peers
      ensures Valid() && peers == old(peers) - {p}
    {
      peers := peers - {p};
    }

    /** Pubsub drops a peer that went away by itself. */
    method PubsubRevokes(p: Peer)
      requires Valid()
      modifies `admitted
      ensures Valid() && admitted == old(admitted) - {p}
    {
      admitted := admitted - {p};
    }
  }

  /** What happens to a node, in whole steps. */
  datatype NodeEvent =
    | Connection(peer: Peer, handshake: Handshake)
    | Handshaken(peer: Peer, canPublish: bool)
    | Disconnected(peer: Peer)
    | Expired(peer: Peer)
    | Withdrawn(peer: Peer)

  /**
   * Some event granted the peer publishing, or it had that right `before`, and since then it was neither disconnected
   * nor verified as read-only.
   */
  predicate StillGranted(before: bool, events: seq<NodeEvent>, p: Peer) {
    if events == [] then before
    else
      var n := |events| - 1;
      match events[n]
      case Connection(q, Outbound(Some(true))) => q == p || StillGranted(before, events[..n], p)
      case Handshaken(q, c) => if q == p then c else StillGranted(before, events[..n], p)
      case Disconnected(q) => q != p && StillGranted(before, events[..n], p)
      case _ => StillGranted(before, events[..n], p)
  }

  /**
   * Over every sequence of whole steps the approved peers are those with a capability, and whom pubsub lets publish
   * was granted it by a verified handshake after which no disconnect and no read-only handshake followed.
   */
  method Run(n: Node, events: seq<NodeEvent>)
    requires n.Valid()
    modifies n
    ensures n.Valid() && n.approved == n.capabilities.Keys
    ensures forall p :: p in n.admitted && n.admitted[p] ==>
              StillGranted(old(p in n.capabilities && n.capabilities[p]), events, p)
  {
    for i := 0 to |events|
      invariant n.Valid()
      invariant forall p :: p in n.granted && n.granted[p] ==>
                  StillGranted(old(p in n.capabilities && n.capabilities[p]), events[..i], p)
    {
      assert events[..i + 1][..i] == events[..i];
      match events[i] {
        case Connection(p, h) => n.HandleNewConnection(p, h);
        case Handshaken(p, c) => n.MarkHandshakeValid(p, c);
        case Disconnected(p) => n.DisconnectPeer(p);
        case Expired(p) => n.Expire(p);
        case Withdrawn(p) => n.PubsubRevokes(p);
      }
    }
    assert events[..|events|] == events;
  }

  // ---------- any interleaving of the single map operations ----------

  /** Where a goroutine stands; each step is one operation on one map or one call to pubsub. */
  datatype Thread =
    | HsState(peer: Peer, canPublish: bool)
    | HsApprove(peer: Peer, canPublish: bool)
    | HsCapability(peer: Peer, canPublish: bool)
    | HsAllow(peer: Peer, canPublish: bool)
    | DisState(peer: Peer)
    | DisForget(peer: Peer)
    | DisApproved(peer: Peer)
    | DisCapability(peer: Peer)
    | DisDeny(peer: Peer)
    | ConnState(peer: Peer)
    | ConnCapability(peer: Peer)
    | ConnAllow(peer: Peer, canPublish: bool)
    | Finished

  /** `publishers` are the peers to which some verified handshake granted publishing. */
  datatype Fine = Fine(
    peers: map<Peer, PeerState>, approved: set<Peer>, capabilities: map<Peer, bool>, admitted: map<Peer, bool>,
    threads: seq<Thread>, publishers: set<Peer>)

  /**
   * A verified handshake, a disconnect or a connection starts a goroutine; any goroutine takes its next step; entries
   * expire.
   */
  datatype FineEvent =
    | Verified(peer: Peer, canPublish: bool)
    | Dropping(peer: Peer)
    | Connected(peer: Peer)
    | Advance(thread: nat)
    | Expires(peer: Peer)
    | Revoked(peer: Peer)

  function Spawn(s: Fine, t: Thread): Fine { s.(threads := s.threads + [t]) }

  function Become(s: Fine, i: nat, t: Thread): Fine
    requires i < |s.threads|
  {
    s.(threads := s.threads[i := t])
  }

  function Move(s: Fine, i: nat): Fine
    requires i < |s.threads|
  {
    match s.threads[i]
    case HsState(p, c) => Become(s, i, HsApprove(p, c)).(peers := s.peers[p := HandshakeValid])
    case HsApprove(p, c) => Become(s, i, HsCapability(p, c)).(approved := s.approved + {p})
    case HsCapability(p, c) => Become(s, i, HsAllow(p, c)).(capabilities := s.capabilities[p := c])
    case HsAllow(p, c) => Become(s, i, Finished).(admitted := s.admitted[p := c])
    case DisState(p) => Become(s, i, DisForget(p)).(peers := s.peers[p := HandshakeInvalid])
    case DisForget(p) => Become(s, i, DisApproved(p)).(peers := s.peers - {p})
    case DisApproved(p) => Become(s, i, DisCapability(p)).(approved := s.approved - {p})
    case DisCapability(p) => Become(s, i, DisDeny(p)).(capabilities := s.capabilities - {p})
    case DisDeny(p) => Become(s, i, Finished).(admitted := s.admitted - {p})
    case ConnState(p) =>
      if p !in s.peers then Become(s, i, Finished)
      else if s.peers[p].HandshakeValid? then Become(s, i, ConnCapability(p))
      else Become(s, i, DisState(p))
    case ConnCapability(p) => Become(s, i, ConnAllow(p, p in s.capabilities && s.capabilities[p]))
    case ConnAllow(p, c) => Become(s, i, Finished).(admitted := s.admitted[p := c])
    case Finished => s
  }

  function FineStep(s: Fine, e: FineEvent): Fine {
    match e
    case Verified(p, c) => Spawn(s.(publishers := if c then s.publishers + {p} else s.publishers), HsState(p, c))
    case Dropping(p) => Spawn(s, DisState(p))
    case Connected(p) => Spawn(s, ConnState(p))
    case Advance(i) => if i < |s.threads| then Move(s, i) else s
    case Expires(p) => s.(peers := s.peers - {p})
    case Revoked(p) => s.(admitted := s.admitted - {p})
  }

  function FineRun(s: Fine, es: seq<FineEvent>): Fine
    decreases |es|
  {
    if es == [] then s else FineRun(FineStep(s, es[0]), es[1..])
  }

  const NEW_NODE := Fine(map[], {}, map[], map[], [], {})

  predicate Carries(t: Thread, p: Peer) {
    match t
    case HsState(q, c) => c && q == p
    case HsApprove(q, c) => c && q == p
    case HsCapability(q, c) => c && q == p
    case HsAllow(q, c) => c && q == p
    case ConnAllow(q, c) => c && q == p
    case _ => false
  }

  /** Publish rights exist, in the cache, in pubsub or on their way, only for peers that were granted them. */
  ghost predicate RightsGranted(s: Fine) {
    && (forall p :: p in s.capabilities && s.capabilities[p] ==> p in s.publishers)
    && (forall p :: p in s.admitted && s.admitted[p] ==> p in s.publishers)
    && (forall i, p :: 0 <= i < |s.threads| && Carries(s.threads[i], p) ==> p in s.publishers)
  }

  /** Replacing a goroutine by one that carries no more rights keeps the threads' part of the invariant. */
  lemma BecomeKeepsRights(s: Fine, i: nat, t: Thread)
    requires RightsGranted(s) && i < |s.threads|
    requires forall p :: Carries(t, p) ==> p in s.publishers
    ensures RightsGranted(Become(s, i, t))
  {
    hide Carries;
  }

  lemma NextCarriesGranted(s: Fine, i: nat, p: Peer)
    requires RightsGranted(s) && i < |s.threads| && Carries(Move(s, i).threads[i], p)
    ensures p in s.publishers
  {
    var t := s.threads[i];
    if !t.ConnCapability? {
      CarriedAlong(s, i, p);
    }
  }

  lemma CarriedAlong(s: Fine, i: nat, p: Peer)
    requires i < |s.threads| && !s.threads[i].ConnCapability? && Carries(Move(s, i).threads[i], p)
    ensures Carries(s.threads[i], p)
  {
    hide Move;
    NextIs(s, i);
  }

  /** Where a goroutine stands after its next step. */
  function NextThread(s: Fine, t: Thread): Thread {
    match t
    case HsState(p, c) => HsApprove(p, c)
    case HsApprove(p, c) => HsCapability(p, c)
    case HsCapability(p, c) => HsAllow(p, c)
    case DisState(p) => DisForget(p)
    case DisForget(p) => DisApproved(p)
    case DisApproved(p) => DisCapability(p)
    case DisCapability(p) => DisDeny(p)
    case ConnState(p) =>
      if p !in s.peers then Finished else if s.peers[p].HandshakeValid? then ConnCapability(p) else DisState(p)
    case ConnCapability(p) => ConnAllow(p, p in s.capabilities && s.capabilities[p])
    case _ => Finished
  }

  lemma NextIs(s: Fine, i: nat)
    requires i < |s.threads|
    ensures Move(s, i).threads[i] == NextThread(s, s.threads[i])
  {
  }

  lemma MoveKeepsRights(s: Fine, i: nat)
    requires RightsGranted(s) && i < |s.threads|
    ensures RightsGranted(Move(s, i))
  {
    hide Carries;
    var t := s.threads[i];
    var next := Move(s, i).threads[i];
    forall p | Carries(next, p)
      ensures p in s.publishers
    {
      NextCarriesGranted(s, i, p);
    }
    BecomeKeepsRights(s, i, next);
    if (t.HsCapability? || t.HsAllow? || t.ConnAllow?) && t.canPublish {
      CarriesOwn(t);
    }
  }

  lemma CarriesOwn(t: Thread)
    requires (t.HsCapability? || t.HsAllow? || t.ConnAllow?) && t.canPublish
    ensures Carries(t, t.peer)
  {
  }

  lemma FineStepKeepsRights(s: Fine, e: FineEvent)
    requires RightsGranted(s)
    ensures RightsGranted(FineStep(s, e))
  {
    hide Move;
    if e.Advance? && e.thread < |s.threads| {
      MoveKeepsRights(s, e.thread);
    }
  }

  /**
   * Under every interleaving, publish rights reach pubsub only for a peer that some verified handshake granted them.
   */
  lemma {:induction false} PublishOnlyIfGranted(s: Fine, es: seq<FineEvent>)
    requires RightsGranted(s)
    ensures RightsGranted(FineRun(s, es))
    decreases |es|
  {
    hide RightsGranted, FineStep;
    if es != [] {
      FineStepKeepsRights(s, es[0]);
      PublishOnlyIfGranted(FineStep(s, es[0]), es[1..]);
    }
  }

  predicate NeverGrants(es: seq<FineEvent>, p: Peer) {
    forall i :: 0 <= i < |es| && es[i].Verified? && es[i].peer == p ==> !es[i].canPublish
  }

  lemma {:induction false} PublishersComeFromHandshakes(s: Fine, es: seq<FineEvent>, p: Peer)
    requires p !in s.publishers && NeverGrants(es, p)
    ensures p !in FineRun(s, es).publishers
    decreases |es|
  {
    if es != [] {
      assert forall i :: 0 <= i < |es[1..]| ==> es[1..][i] == es[i + 1];
      PublishersComeFromHandshakes(FineStep(s, es[0]), es[1..], p);
    }
  }

  /** However often it reconnects, a peer whose handshakes were all read-only is never admitted as a publisher. */
  lemma ReadOnlyNeverPromoted(es: seq<FineEvent>, p: Peer)
    requires NeverGrants(es, p)
    ensures var s := FineRun(NEW_NODE, es); !(p in s.admitted && s.admitted[p])
  {
    PublishOnlyIfGranted(NEW_NODE, es);
    PublishersComeFromHandshakes(NEW_NODE, es, p);
    hide FineRun;
  }

  // ---------- undisturbed goroutines do what the whole steps say ----------

  /** The goroutine `n` takes `k` steps in a row. */
  function Steps(n: nat, k: nat): seq<FineEvent> {
    if k == 0 then [] else [Advance(n)] + Steps(n, k - 1)
  }

  lemma Starting(s: Fine, e: FineEvent, n: nat, k: nat)
    ensures FineRun(s, [e] + Steps(n, k)) == FineRun(FineStep(s, e), Steps(n, k))
  {
    hide FineStep;
    assert ([e] + Steps(n, k))[1..] == Steps(n, k);
  }

  lemma Stepping(s: Fine, n: nat, k: nat)
    ensures FineRun(s, Steps(n, k)) == if k == 0 then s else FineRun(FineStep(s, Advance(n)), Steps(n, k - 1))
  {
    hide FineStep;
    if k > 0 {
      assert Steps(n, k)[1..] == Steps(n, k - 1);
    }
  }

  /** What the last goroutine's next step leaves, said without places. */
  function LastStep(s: Fine, ts: seq<Thread>, t: Thread): Fine {
    match t
    case HsState(p, c) => s.(threads := ts + [HsApprove(p, c)], peers := s.peers[p := HandshakeValid])
    case HsApprove(p, c) => s.(threads := ts + [HsCapability(p, c)], approved := s.approved + {p})
    case HsCapability(p, c) => s.(threads := ts + [HsAllow(p, c)], capabilities := s.capabilities[p := c])
    case HsAllow(p, c) => s.(threads := ts + [Finished], admitted := s.admitted[p := c])
    case DisState(p) => s.(threads := ts + [DisForget(p)], peers := s.peers[p := HandshakeInvalid])
    case DisForget(p) => s.(threads := ts + [DisApproved(p)], peers := s.peers - {p})
    case DisApproved(p) => s.(threads := ts + [DisCapability(p)], approved := s.approved - {p})
    case DisCapability(p) => s.(threads := ts + [DisDeny(p)], capabilities := s.capabilities - {p})
    case DisDeny(p) => s.(threads := ts + [Finished], admitted := s.admitted - {p})
    case ConnState(p) =>
      s.(threads := ts + [if p !in s.peers then Finished
                          else if s.peers[p].HandshakeValid? then ConnCapability(p) else DisState(p)])
    case ConnCapability(p) => s.(threads := ts + [ConnAllow(p, p in s.capabilities && s.capabilities[p])])
    case ConnAllow(p, c) => s.(threads := ts + [Finished], admitted := s.admitted[p := c])
    case Finished => s
  }

  lemma LastMoves(s: Fine, ts: seq<Thread>, t: Thread, k: nat)
    requires s.threads == ts + [t] && k > 0
    ensures FineRun(s, Steps(|ts|, k)) == FineRun(LastStep(s, ts, t), Steps(|ts|, k - 1))
  {
    hide FineRun, Steps;
    assert FineStep(s, Advance(|ts|)) == LastStep(s, ts, t) by { LastMove(s, ts, t); }
    Stepping(s, |ts|, k);
  }

  lemma LastMove(s: Fine, ts: seq<Thread>, t: Thread)
    requires s.threads == ts + [t]
    ensures FineStep(s, Advance(|ts|)) == LastStep(s, ts, t)
  {
    assert forall u :: (ts + [t])[|ts| := u] == ts + [u];
    assert s.threads[|ts|] == t;
  }

  lemma NoSteps(s: Fine, n: nat)
    ensures FineRun(s, Steps(n, 0)) == s
  {
  }

  lemma FromHsAllow(s: Fine, ts: seq<Thread>, p: Peer, c: bool)
    requires s.threads == ts + [HsAllow(p, c)]
    ensures FineRun(s, Steps(|ts|, 1))
         == s.(threads := ts + [Finished], admitted := s.admitted[p := c])
  {
    hide FineRun, Steps;
    LastMoves(s, ts, HsAllow(p, c), 1);
    NoSteps(LastStep(s, ts, HsAllow(p, c)), |ts|);
  }

  lemma FromHsCapability(s: Fine, ts: seq<Thread>, p: Peer, c: bool)
    requires s.threads == ts + [HsCapability(p, c)]
    ensures FineRun(s, Steps(|ts|, 2))
         == s.(threads := ts + [Finished], admitted := s.admitted[p := c], capabilities := s.capabilities[p := c])
  {
    hide FineRun, Steps;
    LastMoves(s, ts, HsCapability(p, c), 2);
    FromHsAllow(LastStep(s, ts, HsCapability(p, c)), ts, p, c);
  }

  lemma FromHsApprove(s: Fine, ts: seq<Thread>, p: Peer, c: bool)
    requires s.threads == ts + [HsApprove(p, c)]
    ensures FineRun(s, Steps(|ts|, 3))
         == s.(threads := ts + [Finished],
               admitted := s.admitted[p := c], capabilities := s.capabilities[p := c], approved := s.approved + {p})
  {
    hide FineRun, Steps;
    LastMoves(s, ts, HsApprove(p, c), 3);
    FromHsCapability(LastStep(s, ts, HsApprove(p, c)), ts, p, c);
  }

  lemma FromHsState(s: Fine, ts: seq<Thread>, p: Peer, c: bool)
    requires s.threads == ts + [HsState(p, c)]
    ensures FineRun(s, Steps(|ts|, 4))
         == s.(threads := ts + [Finished],
               admitted := s.admitted[p := c], capabilities := s.capabilities[p := c],
               approved := s.approved + {p}, peers := s.peers[p := HandshakeValid])
  {
    hide FineRun, Steps;
    LastMoves(s, ts, HsState(p, c), 4);
    FromHsApprove(LastStep(s, ts, HsState(p, c)), ts, p, c);
  }

  /** A handshake that nothing interrupts: valid, approved, its capability cached, and pubsub told just that. */
  lemma HandshakeAlone(s: Fine, p: Peer, c: bool)
    ensures FineRun(s, [Verified(p, c)] + Steps(|s.threads|, 4))
         == Fine(s.peers[p := HandshakeValid], s.approved + {p}, s.capabilities[p := c], s.admitted[p := c],
                 s.threads + [Finished], if c then s.publishers + {p} else s.publishers)
  {
    hide FineRun, Steps;
    Starting(s, Verified(p, c), |s.threads|, 4);
    FromHsState(FineStep(s, Verified(p, c)), s.threads, p, c);
  }

  lemma FromDisDeny(s: Fine, ts: seq<Thread>, p: Peer)
    requires s.threads == ts + [DisDeny(p)]
    ensures FineRun(s, Steps(|ts|, 1))
         == s.(threads := ts + [Finished], admitted := s.admitted - {p})
  {
    hide FineRun, Steps;
    LastMoves(s, ts, DisDeny(p), 1);
    NoSteps(LastStep(s, ts, DisDeny(p)), |ts|);
  }

  lemma FromDisCapability(s: Fine, ts: seq<Thread>, p: Peer)
    requires s.threads == ts + [DisCapability(p)]
    ensures FineRun(s, Steps(|ts|, 2))
         == s.(threads := ts + [Finished], admitted := s.admitted - {p}, capabilities := s.capabilities - {p})
  {
    hide FineRun, Steps;
    LastMoves(s, ts, DisCapability(p), 2);
    FromDisDeny(LastStep(s, ts, DisCapability(p)), ts, p);
  }

  lemma FromDisApproved(s: Fine, ts: seq<Thread>, p: Peer)
    requires s.threads == ts + [DisApproved(p)]
    ensures FineRun(s, Steps(|ts|, 3))
         == s.(threads := ts + [Finished],
               admitted := s.admitted - {p}, capabilities := s.capabilities - {p}, approved := s.approved - {p})
  {
    hide FineRun, Steps;
    LastMoves(s, ts, DisApproved(p), 3);
    FromDisCapability(LastStep(s, ts, DisApproved(p)), ts, p);
  }

  lemma FromDisForget(s: Fine, ts: seq<Thread>, p: Peer)
    requires s.threads == ts + [DisForget(p)]
    ensures FineRun(s, Steps(|ts|, 4))
         == s.(threads := ts + [Finished],
               admitted := s.admitted - {p}, capabilities := s.capabilities - {p},
               approved := s.approved - {p}, peers := s.peers - {p})
  {
    hide FineRun, Steps;
    LastMoves(s, ts, DisForget(p), 4);
    FromDisApproved(LastStep(s, ts, DisForget(p)), ts, p);
  }

  lemma FromDisState(s: Fine, ts: seq<Thread>, p: Peer)
    requires s.threads == ts + [DisState(p)]
    ensures FineRun(s, Steps(|ts|, 5))
         == s.(threads := ts + [Finished],
               admitted := s.admitted - {p}, capabilities := s.capabilities - {p},
               approved := s.approved - {p}, peers := s.peers - {p})
  {
    hide FineRun, Steps;
    LastMoves(s, ts, DisState(p), 5);
    FromDisForget(LastStep(s, ts, DisState(p)), ts, p);
    assert s.peers[p := HandshakeInvalid] - {p} == s.peers - {p};
  }

  /** A disconnect that nothing interrupts: the peer is in none of the maps, and pubsub does not admit it. */
  lemma DisconnectAlone(s: Fine, p: Peer)
    ensures FineRun(s, [Dropping(p)] + Steps(|s.threads|, 5))
         == s.(peers := s.peers - {p}, approved := s.approved - {p}, capabilities := s.capabilities - {p},
               admitted := s.admitted - {p}, threads := s.threads + [Finished])
  {
    hide FineRun, Steps;
    Starting(s, Dropping(p), |s.threads|, 5);
    FromDisState(FineStep(s, Dropping(p)), s.threads, p);
  }

  lemma FromConnAllow(s: Fine, ts: seq<Thread>, p: Peer, c: bool)
    requires s.threads == ts + [ConnAllow(p, c)]
    ensures FineRun(s, Steps(|ts|, 1)) == s.(threads := ts + [Finished], admitted := s.admitted[p := c])
  {
    hide FineRun, Steps;
    LastMoves(s, ts, ConnAllow(p, c), 1);
    NoSteps(LastStep(s, ts, ConnAllow(p, c)), |ts|);
  }

  lemma FromConnCapability(s: Fine, ts: seq<Thread>, p: Peer)
    requires s.threads == ts + [ConnCapability(p)]
    ensures FineRun(s, Steps(|ts|, 2))
         == s.(threads := ts + [Finished], admitted := s.admitted[p := p in s.capabilities && s.capabilities[p]])
  {
    hide FineRun, Steps;
    LastMoves(s, ts, ConnCapability(p), 2);
    FromConnAllow(LastStep(s, ts, ConnCapability(p)), ts, p, p in s.capabilities && s.capabilities[p]);
  }

  lemma FromConnState(s: Fine, ts: seq<Thread>, p: Peer)
    requires s.threads == ts + [ConnState(p)] && p in s.peers && s.peers[p].HandshakeValid?
    ensures FineRun(s, Steps(|ts|, 3))
         == s.(threads := ts + [Finished], admitted := s.admitted[p := p in s.capabilities && s.capabilities[p]])
  {
    hide FineRun, Steps;
    LastMoves(s, ts, ConnState(p), 3);
    FromConnCapability(LastStep(s, ts, ConnState(p)), ts, p);
  }

  /** A known peer that connects again, uninterrupted: pubsub gets exactly the cached capability. */
  lemma ReconnectAlone(s: Fine, p: Peer)
    requires p in s.peers && s.peers[p].HandshakeValid?
    ensures FineRun(s, [Connected(p)] + Steps(|s.threads|, 3))
         == s.(admitted := s.admitted[p := p in s.capabilities && s.capabilities[p]], threads := s.threads + [Finished])
  {
    hide FineRun, Steps;
    Starting(s, Connected(p), |s.threads|, 3);
    FromConnState(FineStep(s, Connected(p)), s.threads, p);
  }

  // ---------- when approvals and capabilities agree ----------

  predicate Handshaking(t: Thread, p: Peer) {
    match t
    case HsState(q, _) => q == p
    case HsApprove(q, _) => q == p
    case HsCapability(q, _) => q == p
    case HsAllow(q, _) => q == p
    case _ => false
  }

  predicate Disconnecting(t: Thread, p: Peer) {
    match t
    case DisState(q) => q == p
    case DisForget(q) => q == p
    case DisApproved(q) => q == p
    case DisCapability(q) => q == p
    case DisDeny(q) => q == p
    case _ => false
  }

  predicate SomeHandshake(s: Fine, p: Peer) { exists i :: 0 <= i < |s.threads| && Handshaking(s.threads[i], p) }

  predicate SomeDisconnect(s: Fine, p: Peer) { exists i :: 0 <= i < |s.threads| && Disconnecting(s.threads[i], p) }

  /** At no point of the run is a handshake of `p` under way together with a disconnect of `p`. */
  predicate Apart(s: Fine, es: seq<FineEvent>, p: Peer)
    decreases |es|
  {
    !(SomeHandshake(s, p) && SomeDisconnect(s, p)) && (es == [] || Apart(FineStep(s, es[0]), es[1..], p))
  }

  /**
   * The two maps differ on `p` only inside a handshake between its two stores or inside a disconnect between its two
   * removals.
   */
  ghost predicate NearlyAgrees(s: Fine, p: Peer) {
    && (forall i :: 0 <= i < |s.threads| && s.threads[i].HsCapability? && s.threads[i].peer == p ==> p in s.approved)
    && (forall i :: 0 <= i < |s.threads| && s.threads[i].DisCapability? && s.threads[i].peer == p ==> p !in s.approved)
    && (p in s.approved && p !in s.capabilities ==>
          exists i :: 0 <= i < |s.threads| && s.threads[i].HsCapability? && s.threads[i].peer == p)
    && (p in s.capabilities && p !in s.approved ==>
          exists i :: 0 <= i < |s.threads| && s.threads[i].DisCapability? && s.threads[i].peer == p)
  }

  lemma SpawnNearlyAgrees(s: Fine, t: Thread, p: Peer)
    requires NearlyAgrees(s, p) && !t.HsCapability? && !t.DisCapability?
    ensures NearlyAgrees(Spawn(s, t), p)
  {
    var r := Spawn(s, t);
    assert forall i :: 0 <= i < |s.threads| ==> r.threads[i] == s.threads[i];
  }

  /** A step that touches neither map and neither enters nor leaves the two places in between. */
  lemma QuietNearlyAgrees(s: Fine, i: nat, t: Thread, r: Fine, p: Peer)
    requires NearlyAgrees(s, p) && i < |s.threads| && r.threads == s.threads[i := t]
    requires (p in r.approved <==> p in s.approved) && (p in r.capabilities <==> p in s.capabilities)
    requires !s.threads[i].HsCapability? && !s.threads[i].DisCapability? && !t.HsCapability? && !t.DisCapability?
    ensures NearlyAgrees(r, p)
  {
    assert forall j :: 0 <= j < |s.threads| && j != i ==> r.threads[j] == s.threads[j];
  }

  lemma OtherPeer(s: Fine, i: nat, t: Thread, r: Fine, p: Peer)
    requires NearlyAgrees(s, p) && i < |s.threads| && r.threads == s.threads[i := t]
    requires (p in r.approved <==> p in s.approved) && (p in r.capabilities <==> p in s.capabilities)
    requires s.threads[i].HsCapability? || s.threads[i].DisCapability? ==> s.threads[i].peer != p
    requires t.HsCapability? || t.DisCapability? ==> t.peer != p
    ensures NearlyAgrees(r, p)
  {
    assert forall j :: 0 <= j < |s.threads| && j != i ==> r.threads[j] == s.threads[j];
  }

  /** The four steps of `p` that change one of the maps. */
  lemma MapStepNearlyAgrees(s: Fine, i: nat, p: Peer)
    requires NearlyAgrees(s, p) && i < |s.threads| && !(SomeHandshake(s, p) && SomeDisconnect(s, p))
    requires var t := s.threads[i];
            (t.HsApprove? || t.HsCapability? || t.DisApproved? || t.DisCapability?) && t.peer == p
    ensures NearlyAgrees(Move(s, i), p)
  {
    var r := Move(s, i);
    assert forall j :: 0 <= j < |s.threads| && j != i ==> r.threads[j] == s.threads[j];
    if s.threads[i].HsApprove? || s.threads[i].HsCapability? {
      assert Handshaking(s.threads[i], p);
      assert forall j :: 0 <= j < |s.threads| ==> !Disconnecting(s.threads[j], p);
      if s.threads[i].HsApprove? {
        assert r.threads[i].HsCapability? && r.threads[i].peer == p;
      }
    } else {
      assert Disconnecting(s.threads[i], p);
      assert forall j :: 0 <= j < |s.threads| ==> !Handshaking(s.threads[j], p);
      if s.threads[i].DisApproved? {
        assert r.threads[i].DisCapability? && r.threads[i].peer == p;
      }
    }
  }

  lemma MoveNearlyAgrees(s: Fine, i: nat, p: Peer)
    requires NearlyAgrees(s, p) && i < |s.threads| && !(SomeHandshake(s, p) && SomeDisconnect(s, p))
    ensures NearlyAgrees(Move(s, i), p)
  {
    hide NearlyAgrees, SomeHandshake, SomeDisconnect;
    var t, r := s.threads[i], Move(s, i);
    if t.Finished? {
    } else if t.HsApprove? || t.HsCapability? || t.DisApproved? || t.DisCapability? {
      if t.peer == p {
        MapStepNearlyAgrees(s, i, p);
      } else {
        OtherPeer(s, i, r.threads[i], r, p);
      }
    } else {
      QuietNearlyAgrees(s, i, r.threads[i], r, p);
    }
  }

  lemma FineStepNearlyAgrees(s: Fine, e: FineEvent, p: Peer)
    requires NearlyAgrees(s, p) && !(SomeHandshake(s, p) && SomeDisconnect(s, p))
    ensures NearlyAgrees(FineStep(s, e), p)
  {
    hide Move, SomeHandshake, SomeDisconnect;
    match e
    case Verified(q, c) =>
      SpawnNearlyAgrees(s.(publishers := if c then s.publishers + {q} else s.publishers), HsState(q, c), p);
    case Dropping(q) => SpawnNearlyAgrees(s, DisState(q), p);
    case Connected(q) => SpawnNearlyAgrees(s, ConnState(q), p);
    case Advance(i) =>
      if i < |s.threads| {
        MoveNearlyAgrees(s, i, p);
      }
    case Expires(q) =>
    case Revoked(q) =>
  }

  lemma {:induction false} RunNearlyAgrees(s: Fine, es: seq<FineEvent>, p: Peer)
    requires NearlyAgrees(s, p) && Apart(s, es, p)
    ensures NearlyAgrees(FineRun(s, es), p)
    decreases |es|
  {
    hide NearlyAgrees, FineStep, SomeHandshake, SomeDisconnect;
    if es != [] {
      FineStepNearlyAgrees(s, es[0], p);
      RunNearlyAgrees(FineStep(s, es[0]), es[1..], p);
    }
  }

  /**
   * Under every interleaving in which no handshake of `p` overlaps a disconnect of `p`, `p` is approved if and only if
   * it has a capability, whenever none of them is under way.
   */
  lemma AgreementWhenApart(es: seq<FineEvent>, p: Peer)
    requires Apart(NEW_NODE, es, p)
    requires var s := FineRun(NEW_NODE, es); !SomeHandshake(s, p) && !SomeDisconnect(s, p)
    ensures var s := FineRun(NEW_NODE, es); p in s.approved <==> p in s.capabilities
  {
    hide FineRun, Apart;
    RunNearlyAgrees(NEW_NODE, es, p);
    var s := FineRun(NEW_NODE, es);
    forall i | 0 <= i < |s.threads|
      ensures !Handshaking(s.threads[i], p) && !Disconnecting(s.threads[i], p)
    {
    }
  }

  /**
   * The agreement of approvals and capabilities, by contrast, needs whole steps: a disconnect inside a handshake
   * breaks it.
   */
  lemma AgreementNeedsWholeSteps(p: Peer)
    ensures var s := FineRun(NEW_NODE, Overlapping(p));
            s.threads == [Finished, Finished] && s.approved == {} && p in s.capabilities
  {
    hide FineRun;
    var es := Overlapping(p);
    FirstHalf(p);
    SecondHalf(p);
    LastPart(p);
    assert es[0..] == es;
  }

  /** A handshake stopped before it stores the capability, a whole disconnect, then the rest of the handshake. */
  function Overlapping(p: Peer): seq<FineEvent> {
    [Verified(p, true), Dropping(p), Advance(0), Advance(0),
     Advance(1), Advance(1), Advance(1), Advance(1), Advance(1), Advance(0), Advance(0)]
  }

  function HalfWay(p: Peer): Fine {
    Fine(map[p := HandshakeValid], {p}, map[], map[], [HsCapability(p, true), DisState(p)], {p})
  }

  lemma FineFrom(s: Fine, es: seq<FineEvent>, i: nat)
    requires i < |es|
    ensures FineRun(s, es[i..]) == FineRun(FineStep(s, es[i]), es[i + 1..])
    ensures FineRun(s, es[|es|..]) == s
  {
    assert es[i..][1..] == es[i + 1..];
  }

  lemma Two<T>(a: T, b: T, c: T)
    ensures [a] + [b] == [a, b] && [] + [a] == [a] && [a, b][0 := c] == [c, b] && [a, b][1 := c] == [a, c]
  {
  }

  lemma OnePeer<T>(p: Peer, a: T, b: T)
    ensures map[p := a][p := b] == map[p := b] && map[p := a] - {p} == map[] && map[][p := a] == map[p := a]
    ensures {p} - {p} == {} && {} + {p} == {p}
  {
  }

  lemma NonePeer<T>(p: Peer, m: map<Peer, T>)
    requires m == map[]
    ensures m - {p} == map[]
  {
  }

  lemma FirstHalf(p: Peer)
    ensures FineRun(NEW_NODE, Overlapping(p)[0..]) == FineRun(HalfWay(p), Overlapping(p)[4..])
  {
    hide FineRun;
    var es := Overlapping(p);
    var s1 := NEW_NODE.(threads := [HsState(p, true)], publishers := {p});
    var s2 := s1.(threads := [HsState(p, true), DisState(p)]);
    var s3 := s2.(peers := map[p := HandshakeValid], threads := [HsApprove(p, true), DisState(p)]);
    Two(HsState(p, true), DisState(p), HsApprove(p, true));
    Two(HsApprove(p, true), DisState(p), HsCapability(p, true));
    OnePeer(p, HandshakeValid, HandshakeValid);
    FineFrom(NEW_NODE, es, 0);
    FineFrom(s1, es, 1);
    FineFrom(s2, es, 2);
    FineFrom(s3, es, 3);
  }

  /** What the disconnect leaves. */
  function Emptied(p: Peer): Fine {
    Fine(map[], {}, map[], map[], [HsCapability(p, true), Finished], {p})
  }

  function Forgotten(p: Peer): Fine {
    HalfWay(p).(peers := map[], threads := [HsCapability(p, true), DisApproved(p)])
  }

  lemma ThirdQuarter(p: Peer)
    ensures FineRun(HalfWay(p), Overlapping(p)[4..]) == FineRun(Forgotten(p), Overlapping(p)[6..])
  {
    hide FineRun;
    var es, h := Overlapping(p), HsCapability(p, true);
    var s := HalfWay(p);
    var s5 := s.(peers := map[p := HandshakeInvalid], threads := [h, DisForget(p)]);
    Two(h, DisState(p), DisForget(p));
    Two(h, DisForget(p), DisApproved(p));
    OnePeer(p, HandshakeValid, HandshakeInvalid);
    OnePeer(p, HandshakeInvalid, HandshakeInvalid);
    FineFrom(s, es, 4);
    FineFrom(s5, es, 5);
  }

  lemma SecondHalf(p: Peer)
    ensures FineRun(HalfWay(p), Overlapping(p)[4..]) == FineRun(Emptied(p), Overlapping(p)[9..])
  {
    hide FineRun;
    ThirdQuarter(p);
    var es, h := Overlapping(p), HsCapability(p, true);
    var s6 := Forgotten(p);
    var s7 := s6.(approved := {}, threads := [h, DisCapability(p)]);
    var s8 := s7.(threads := [h, DisDeny(p)]);
    Two(h, DisApproved(p), DisCapability(p));
    Two(h, DisCapability(p), DisDeny(p));
    Two(h, DisDeny(p), Finished);
    OnePeer(p, HandshakeInvalid, HandshakeInvalid);
    NonePeer<bool>(p, map[]);
    FineFrom(s6, es, 6);
    FineFrom(s7, es, 7);
    FineFrom(s8, es, 8);
  }

  lemma LastPart(p: Peer)
    ensures FineRun(Emptied(p), Overlapping(p)[9..]) ==
            Fine(map[], {}, map[p := true], map[p := true], [Finished, Finished], {p})
  {
    hide FineRun;
    var es := Overlapping(p);
    var s := Emptied(p);
    var s10 := s.(capabilities := map[p := true], threads := [HsAllow(p, true), Finished]);
    var s11 := s10.(admitted := map[p := true], threads := [Finished, Finished]);
    Two(HsCapability(p, true), Finished, HsAllow(p, true));
    Two(HsAllow(p, true), Finished, Finished);
    OnePeer(p, true, true);
    FineFrom(s, es, 9);
    FineFrom(s10, es, 10);
    FineFrom(s11, es, 0);
  }
}
