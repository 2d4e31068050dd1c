/** Building blocks for concrete runs of a three-node cluster's node 1. */
module Scenarios {
  import opened Quorum
  import opened Supervisor
  import opened SupervisorRuns

  const EXAMPLE: Config := Config(1, [1, 2, 3], true, false, {1, 2, 3})

  /** A pass at one instant in which every call succeeds. */
  function QuietInput(at: Time, inbox: seq<Message>, current: Option<Decision>, leader: bool): Input {
    Input(at, inbox, at, current, false, at, 0, None, false, leader, at, map[1 := 9, 2 := 5], at, at, at,
          true, true, true, true, true, true, true, true)
  }

  function FromTwo(at: Time, seqNo: nat): seq<Message> {
    [Message(2, Some(Gossip(5, false, false, seqNo)), at)]
  }

  lemma DrainOne(p: Peers, m: Message)
    ensures Drain(p, [m]) == Receive(p, m)
  {
    assert [m][..0] == [];
  }

  lemma EmptyDrain(p: Peers)
    ensures Drain(p, []) == p
  {
  }

  /** The peer has been heard within the lease once this pass's messages are drained. */
  ghost predicate InTouch(c: Config, x: Node, i: Input, peer: NodeId) {
    var heard := Drain(x.peers, i.inbox).heard;
    peer != c.nodeId && peer in heard && Since(i.contactAt, heard[peer]) < QUORUM_LEASE
  }

  /** In a three-node cluster, one peer in touch and a decision naming the node make raw authority. */
  lemma NamedHasAuthority(c: Config, x: Node, i: Input, peer: NodeId)
    requires c.Quorum() <= 2 && i.current.Some? && i.current.value.primary == c.nodeId && InTouch(c, x, i, peer)
    requires !Stalled(x.auth, i.loopAt) && !x.auth.reconfirmPending
    ensures var y := Entering(c, x, i); RawAuth(c, y.peers, y.auth, i.contactAt)
    ensures Entering(c, x, i).peers.heard == Drain(x.peers, i.inbox).heard
  {
    hide Proposal, Adopt, Marker, Drain, Tick;
    var y := Prepare(c, x, i);
    PrepareFrame(c, x, i);
    assert y.peers.heard == Drain(x.peers, i.inbox).heard;
    assert peer in Reachable(c, y.peers, i.contactAt);
    SubsetSize({peer}, Reachable(c, y.peers, i.contactAt));
  }

  /** Serving with raw authority under a decision, not known to be open: closed until the window has passed. */
  lemma ServesInWindow(c: Config, y: Node, i: Input)
    requires RawAuth(c, y.peers, y.auth, i.contactAt)
    requires y.auth.decided.Some? && y.auth.appliedReadOnly != Some(false) && i.fenceOk && i.unfenceOk
    ensures var since := y.auth.authorizedSince.GetOr(i.authAt); var (x', authorized, effects) := Serve(c, y, i);
            && x'.auth.authorizedSince == Some(since)
            && (authorized <==> Since(i.checkAt, since) >= CONFIRM_WINDOW)
            && x'.auth.appliedReadOnly == Some(!authorized)
            && (authorized ==> Unfence(true) in effects)
  {
    hide RawAuth, SlotChores, RejoinChores, Rejoins;
    var (a, authorized) := Authorize(y.auth, true, i.authAt, i.checkAt);
    EnforceFrame(c, Local(a, y.server), authorized, i);
  }

  /** An unstalled pass of a node that is in touch, holding a decision that names it. */
  lemma ServingPass(c: Config, x: Node, i: Input, peer: NodeId) returns (x': Node)
    requires c.Quorum() <= 2 && i.current.Some? && i.current.value.primary == c.nodeId && InTouch(c, x, i, peer)
    requires !i.inRecovery && i.fenceOk && i.unfenceOk
    requires !Stalled(x.auth, i.loopAt) && x.auth.appliedReadOnly != Some(false) && !x.auth.reconfirmPending
    ensures x' == Tick(c, x, i).0
    ensures var since := x.auth.authorizedSince.GetOr(i.authAt); var o := Tick(c, x, i).1;
            && x'.auth.decided == i.current && !x'.auth.reconfirmPending
            && x'.auth.authorizedSince == Some(since) && x'.auth.lastLoop == i.loopAt
            && (o.authorized <==> Since(i.checkAt, since) >= CONFIRM_WINDOW)
            && x'.auth.appliedReadOnly == Some(!o.authorized)
            && (o.authorized ==> Unfences(o))
            && x'.peers.heard == Drain(x.peers, i.inbox).heard
  {
    hide Tick, Prepare, RawAuth, Serve, Drain, Recover, Proposal, Adopt, Marker;
    x' := Tick(c, x, i).0;
    PrepareFrame(c, x, i);
    TickSplits(c, x, i);
    TickFrame(c, x, i);
    NamedHasAuthority(c, x, i, peer);
    ServesInWindow(c, Entering(c, x, i), i);
  }

  /** The same of a node known to be open: it goes on at once. */
  lemma OpenPass(c: Config, x: Node, i: Input, peer: NodeId) returns (x': Node)
    requires c.Quorum() <= 2 && i.current.Some? && i.current.value.primary == c.nodeId && InTouch(c, x, i, peer)
    requires !i.inRecovery
    requires !Stalled(x.auth, i.loopAt) && x.auth.appliedReadOnly == Some(false) && !x.auth.reconfirmPending
    ensures x' == Tick(c, x, i).0
    ensures var o := Tick(c, x, i).1;
            && x'.auth.decided == i.current && !x'.auth.reconfirmPending && x'.auth.lastLoop == i.loopAt
            && o.authorized && x'.auth.appliedReadOnly == Some(false)
            && x'.peers.heard == Drain(x.peers, i.inbox).heard
  {
    hide Tick, Prepare, RawAuth, Serve, Drain, Recover, Proposal, Adopt, Marker;
    x' := Tick(c, x, i).0;
    PrepareFrame(c, x, i);
    TickSplits(c, x, i);
    TickFrame(c, x, i);
    NamedHasAuthority(c, x, i, peer);
    OpenServes(c, Entering(c, x, i), i);
  }

  lemma OpenServes(c: Config, y: Node, i: Input)
    requires RawAuth(c, y.peers, y.auth, i.contactAt) && y.auth.appliedReadOnly == Some(false)
    ensures var (x', authorized, _) := Serve(c, y, i); authorized && x'.auth.appliedReadOnly == Some(false)
  {
    hide RawAuth, SlotChores, RejoinChores, Rejoins, WantSync;
  }

  lemma FollowerProposesNothing(c: Config, x: Node, i: Input)
    requires !i.leader
    ensures Tick(c, x, i).1.proposal == None
  {
    hide Tick, Nominee, Prepare;
    TickSplits(c, x, i);
  }
}
