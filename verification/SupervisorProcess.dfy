/**
 The supervisor loop as the imperative program it is: named variables updated in place, one phase after
 the other, against a server object that other actors may change between passes. A whole pass is proved
 to compute Supervisor.Tick, and the object's life to be a run of it, so that what runs guarantee holds
 of the object after every pass.
 */
module SupervisorProcess {
  import opened Quorum
  import opened S = Supervisor
  import R = SupervisorRuns
  import Selection

  /** The local server's two settings. A successful call changes the setting; a failed one does not. */
  class PgServer {
    var readOnly: bool
    var sync: SyncNames

    constructor (settings: Server)
      ensures Settings() == settings
    {
      readOnly, sync := settings.readOnly, settings.sync;
    }

    function Settings(): Server
      reads this
    {
      Server(readOnly, sync)
    }

    method ApplyReadOnly(value: bool, ok: bool)
      modifies this
      ensures Settings() == if ok then old(Settings()).(readOnly := value) else old(Settings())
    {
      if ok {
        readOnly := value;
      }
    }

    method ApplySync(value: SyncNames, ok: bool)
      modifies this
      ensures Settings() == if ok then old(Settings()).(sync := value) else old(Settings())
    {
      if ok {
        sync := value;
      }
    }
  }

  class Process {
    const c: Config
    const server: PgServer

    var peersLsn: map<NodeId, Sighting>
    var lastHeard: map<NodeId, Time>
    var peersReconfirm: map<NodeId, bool>
    var peersSeq: map<NodeId, nat>
    var reconfirmPending: bool
    var decided: Option<Decision>
    var lastProposed: nat
    var lastProposedTick: nat
    var promoted: bool
    var promoteTick: nat
    var rejoining: bool
    var appliedPrimary: NodeId
    var slotsEnsured: bool
    var appliedReadOnly: Option<bool>
    var appliedSync: Option<SyncNames>
    var authorizedSince: Option<Time>
    var datadirKnown: bool
    var clusterMarker: bool
    var ticks: nat
    var lastLoop: Time

    /** The passes so far: memory before each and after the last, what each was given, what came of it. */
    ghost var nodes: seq<Node>
    ghost var inputs: seq<Input>
    ghost var outs: seq<Output>

    ghost function PeersView(): Peers
      reads this
    {
      Peers(peersLsn, lastHeard, peersReconfirm, peersSeq)
    }

    ghost function AuthView(): Auth
      reads this
    {
      Auth(decided, reconfirmPending, appliedReadOnly, appliedSync, authorizedSince, datadirKnown,
           clusterMarker, lastLoop)
    }

    ghost function ChoresView(): Chores
      reads this
    {
      Chores(ticks, lastProposed, lastProposedTick, promoted, promoteTick, rejoining, appliedPrimary, slotsEnsured)
    }

    ghost function View(): Node
      reads this, server
    {
      Node(PeersView(), AuthView(), ChoresView(), server.Settings())
    }

    /** The object's life is a run from a start; only the server may differ, as others write to it too. */
    ghost predicate Valid()
      reads this
    {
      && R.Run(c, nodes, inputs, outs)
      && nodes[0] == Start(nodes[0].auth.decided, nodes[0].auth.lastLoop, nodes[0].server)
      && nodes[|inputs|] == Node(PeersView(), AuthView(), ChoresView(), nodes[|inputs|].server)
    }

    /** The last pass ended a confirm window of passes that all had raw authority. */
    ghost predicate WindowHeld()
      requires R.Run(c, nodes, inputs, outs) && inputs != []
      reads this
    {
      var k := |inputs| - 1;
      exists j: nat :: R.AuthorityHeld(c, nodes, inputs, outs, j, k)
                       && inputs[k].checkAt >= inputs[j].authAt + CONFIRM_WINDOW
    }

    ghost predicate StalledAt(k: nat)
      requires R.Run(c, nodes, inputs, outs) && k < |inputs|
      reads this
    {
      Stalled(nodes[k].auth, inputs[k].loopAt) && nodes[k].auth.decided.Some?
    }

    /** A decision other than the one held before pass k has been adopted at or after it. */
    ghost predicate RatifiedSince(k: nat)
      requires R.Run(c, nodes, inputs, outs) && k < |inputs|
      reads this
    {
      exists m :: k <= m < |inputs| && nodes[m + 1].auth.decided == inputs[m].current != nodes[k].auth.decided
    }

    constructor (c: Config, server: PgServer, current: Option<Decision>, now: Time)
      ensures Valid() && inputs == []
      ensures View() == Start(current, now, server.Settings()) && this.c == c && this.server == server
    {
      this.c, this.server := c, server;
      peersLsn, lastHeard, peersReconfirm, peersSeq := map[], map[], map[], map[];
      reconfirmPending, decided, lastProposed, lastProposedTick := false, current, 0, 0;
      promoted, promoteTick, rejoining, appliedPrimary, slotsEnsured := false, 0, false, 0, false;
      appliedReadOnly, appliedSync, authorizedSince := None, None, None;
      datadirKnown, clusterMarker, ticks, lastLoop := false, false, 0, now;
      nodes, inputs, outs := [Start(current, now, server.Settings())], [], [];
    }

    method CheckStall(now: Time)
      modifies this`appliedReadOnly, this`authorizedSince, this`reconfirmPending, this`lastLoop
      ensures AuthView() == StallCheck(old(AuthView()), now)
    {
      if Since(now, lastLoop) > STALL_THRESHOLD {
        appliedReadOnly := None;
        authorizedSince := None;
        reconfirmPending := true;
      }
      lastLoop := now;
    }

    method DrainInbox(inbox: seq<Message>)
      modifies this`peersLsn, this`lastHeard, this`peersReconfirm, this`peersSeq
      ensures PeersView() == Drain(old(PeersView()), inbox)
    {
      for k := 0 to |inbox|
        invariant PeersView() == Drain(old(PeersView()), inbox[..k])
      {
        var m := inbox[k];
        assert inbox[..k + 1][..k] == inbox[..k];
        lastHeard := lastHeard[m.from := m.at];
        if m.payload.Some? {
          var g := m.payload.value;
          peersLsn := peersLsn[m.from := Sighting(g.lsn, g.inRecovery, m.at)];
          peersReconfirm := peersReconfirm[m.from := g.reconfirm];
          var known := if m.from in peersSeq then peersSeq[m.from] else 0;
          peersSeq := peersSeq[m.from := if g.seqNo > known then g.seqNo else known];
        }
      }
      assert inbox[..|inbox|] == inbox;
    }

    method AdoptDecision(current: Option<Decision>)
      modifies this`decided, this`reconfirmPending, this`promoted, this`rejoining, this`appliedPrimary,
               this`slotsEnsured, this`lastProposed
      ensures AuthView() == Adopt(old(AuthView()), current)
      ensures ChoresView() == if Adopts(old(AuthView()), current) then ResetChores(old(ChoresView()))
                              else old(ChoresView())
    {
      if current.Some? && (decided.None? || decided.value != current.value) {
        decided := current;
        promoted := false;
        rejoining := false;
        appliedPrimary := 0;
        slotsEnsured := false;
        reconfirmPending := false;
        lastProposed := 0;
      }
    }

    method CountAndBroadcast(i: Input) returns (gossip: Option<Gossip>)
      modifies this`ticks, this`peersLsn
      ensures ticks == old(ticks) + 1
      ensures peersLsn == if ticks % GOSSIP_EVERY == 0
                          then old(peersLsn)[c.nodeId := Sighting(i.localLsn, i.inRecovery, i.gossipAt)]
                          else old(peersLsn)
      ensures gossip == if ticks % GOSSIP_EVERY == 0
                        then Some(Gossip(i.localLsn, i.inRecovery, reconfirmPending, DecidedSeq(AuthView())))
                        else None
    {
      ticks := ticks + 1;
      gossip := None;
      if ticks % GOSSIP_EVERY == 0 {
        peersLsn := peersLsn[c.nodeId := Sighting(i.localLsn, i.inRecovery, i.gossipAt)];
        var seqNo := if decided.Some? then decided.value.seqNo else 0;
        gossip := Some(Gossip(i.localLsn, i.inRecovery, reconfirmPending, seqNo));
      }
    }

    method CheckMarker(i: Input)
      modifies this`datadirKnown, this`clusterMarker
      ensures AuthView() == Marker(old(AuthView()), ticks, i)
    {
      if !datadirKnown && ticks % 20 == 1 && i.markerFound.Some? {
        clusterMarker := i.markerFound.value;
        datadirKnown := true;
      }
      if !clusterMarker && decided.Some? && datadirKnown && i.markerWritten {
        clusterMarker := true;
      }
    }

    /** A first primary, a replacement chosen by fresh LSNs, or the same one again. */
    method PickNominee(i: Input, live: set<NodeId>) returns (candidate: Option<NodeId>)
      requires live == Live(c, PeersView(), i.leaderAt)
      ensures candidate == Nominee(c, View(), i)
    {
      candidate := None;
      var primary := if decided.Some? then decided.value.primary else 0;
      if decided.None? {
        var serving := set id | id in live && !peersLsn[id].inRecovery;
        if serving != {} {
          candidate := Some(Least(serving));
        }
      } else if !(primary != 0 && primary in live) {
        var candidates := FreshCandidates(c, Peers(peersLsn, lastHeard, peersReconfirm, peersSeq), i, Listed(live));
        candidate := Selection.ChoosePrimary(candidates);
      } else if reconfirmPending || exists id :: id in live && id in peersReconfirm && peersReconfirm[id] {
        assert (exists id :: id in live && Asks(PeersView(), id))
               <==> (exists id :: id in live && id in peersReconfirm && peersReconfirm[id]);
        candidate := Some(primary);
      }
    }

    method ProposeIfLeader(i: Input) returns (proposal: Option<Decision>)
      modifies this`lastProposed, this`lastProposedTick
      ensures proposal == Proposal(c, old(View()), i)
      ensures ChoresView() == NoteProposal(old(ChoresView()), proposal)
    {
      hide Nominee;
      proposal := None;
      if i.leader {
        var live := Live(c, Peers(peersLsn, lastHeard, peersReconfirm, peersSeq), i.leaderAt);
        var candidate := PickNominee(i, live);
        if |live| >= c.Quorum() && candidate.Some? {
          var seqNo := (if decided.Some? then decided.value.seqNo else 0) + 1;
          if !(lastProposed == seqNo && Elapsed(ticks, lastProposedTick) < 20) {
            proposal := Some(Decision(seqNo, candidate.value));
            lastProposed := seqNo;
            lastProposedTick := ticks;
          }
        }
      }
    }

    /** Refreshes or drops the date of authority and says whether writes are authorized. */
    method Authorizes(rawAuth: bool, i: Input) returns (authorized: bool)
      modifies this`authorizedSince
      ensures (AuthView(), authorized) == Authorize(old(AuthView()), rawAuth, i.authAt, i.checkAt)
    {
      if !rawAuth {
        authorizedSince := None;
        authorized := false;
      } else if decided.None? || appliedReadOnly == Some(false) {
        authorizedSince := Some(i.authAt);
        authorized := true;
      } else {
        if authorizedSince.None? {
          authorizedSince := Some(i.authAt);
        }
        authorized := Since(i.checkAt, authorizedSince.value) >= CONFIRM_WINDOW;
      }
    }

    ghost function LocalView(): Local
      reads this, server
    {
      Local(AuthView(), server.Settings())
    }

    method FenceIfUnauthorized(authorized: bool, ok: bool) returns (effects: seq<Effect>)
      modifies this`appliedReadOnly, server
      ensures (LocalView(), effects) == FenceStep(old(LocalView()), authorized, ok)
    {
      effects := [];
      if !authorized && appliedReadOnly != Some(true) {
        server.ApplyReadOnly(true, ok);
        effects := [Fence(ok)];
        if ok {
          appliedReadOnly := Some(true);
        }
      }
    }

    method SetSyncIfWanted(want: Option<SyncNames>, ok: bool) returns (effects: seq<Effect>)
      modifies this`appliedSync, server
      ensures (LocalView(), effects) == SyncStep(old(LocalView()), want, ok)
    {
      effects := [];
      if want.Some? && appliedSync != want {
        server.ApplySync(want.value, ok);
        effects := [SetSync(want.value, ok)];
        if ok {
          appliedSync := want;
        }
      }
    }

    method UnfenceIfAuthorized(authorized: bool, ok: bool) returns (effects: seq<Effect>)
      modifies this`appliedReadOnly, server
      ensures (LocalView(), effects) == UnfenceStep(old(LocalView()), authorized, ok)
    {
      effects := [];
      if authorized && appliedReadOnly != Some(false) {
        server.ApplyReadOnly(false, ok);
        effects := [Unfence(ok)];
        if ok {
          appliedReadOnly := Some(false);
        }
      }
    }

    method EnforceSettings(authorized: bool, i: Input) returns (effects: seq<Effect>)
      modifies this`appliedReadOnly, this`appliedSync, server
      ensures (LocalView(), effects) == Enforce(c, old(LocalView()), authorized, i)
    {
      hide FenceStep, SyncStep, UnfenceStep;
      var fenced := FenceIfUnauthorized(authorized, i.fenceOk);
      var wantSync := if !c.synchronous then Some(Off)
                      else if authorized && decided.Some? then Some(c.SyncTarget())
                      else None;
      var synced := SetSyncIfWanted(wantSync, i.syncOk);
      var unfenced := UnfenceIfAuthorized(authorized, i.unfenceOk);
      effects := fenced + synced + unfenced;
    }

    method RawAuthority(now: Time) returns (rawAuth: bool)
      ensures rawAuth == RawAuth(c, PeersView(), AuthView(), now)
    {
      var reachable := set id | id in lastHeard && id != c.nodeId && Since(now, lastHeard[id]) < QUORUM_LEASE;
      assert reachable == Reachable(c, PeersView(), now);
      var quorumOk := 1 + |reachable| >= c.Quorum();
      if decided.None? {
        rawAuth := quorumOk && (forall id :: id in peersSeq ==> peersSeq[id] == 0) && !clusterMarker;
      } else {
        rawAuth := decided.value.primary == c.nodeId && quorumOk && !reconfirmPending;
      }
    }

    /** Replication slots for the peers, once per decision, on the node it names. */
    method CreateSlots() returns (slots: bool)
      modifies this`slotsEnsured
      ensures slots == SlotsDue(c, AuthView(), old(ChoresView()))
      ensures ChoresView() == SlotChores(c, AuthView(), old(ChoresView()))
    {
      var primary := if decided.Some? then decided.value.primary else 0;
      slots := primary == c.nodeId && !slotsEnsured;
      if slots {
        slotsEnsured := true;
      }
    }

    /** A rewind, once per decision, on a node that is no longer primary. */
    method RejoinIfOusted(authorized: bool, i: Input, ghost a: Auth) returns (effects: seq<Effect>)
      requires a.decided == decided && a.datadirKnown == datadirKnown
      modifies this`rejoining
      ensures ChoresView() == RejoinChores(c, a, old(ChoresView()), authorized, i)
      ensures effects == if Rejoins(c, a, old(ChoresView()), authorized, i) then [Rejoin(DecidedPrimary(a))] else []
    {
      effects := [];
      var primary := if decided.Some? then decided.value.primary else 0;
      if !authorized && primary != 0 && primary != c.nodeId && !rejoining && c.rejoinScript
         && primary in c.pgMembers && (datadirKnown || i.rejoinDirFound) {
        effects := [Rejoin(primary)];
        rejoining := true;
      }
    }

    method SettleServer(authorized: bool, i: Input) returns (effects: seq<Effect>)
      modifies this`appliedReadOnly, this`appliedSync, this`rejoining, server
      ensures (View(), effects) == Settle(c, old(View()), authorized, i)
    {
      hide Enforce, RejoinChores, Rejoins;
      ghost var a := AuthView();
      effects := EnforceSettings(authorized, i);
      var rejoined := RejoinIfOusted(authorized, i, a);
      effects := effects + rejoined;
    }

    method ServeWrites(i: Input) returns (rawAuth: bool, authorized: bool, slots: bool, effects: seq<Effect>)
      modifies this`authorizedSince, this`appliedReadOnly, this`appliedSync, this`slotsEnsured, this`rejoining, server
      ensures (View(), authorized, effects) == Serve(c, old(View()), i)
      ensures rawAuth == RawAuth(c, old(PeersView()), old(AuthView()), i.contactAt)
      ensures slots == SlotsDue(c, old(AuthView()), old(ChoresView()))
    {
      hide Settle, RawAuth, Authorize, SlotChores, SlotsDue;
      ghost var x := View();
      slots := CreateSlots();
      assert AuthView() == x.auth && PeersView() == x.peers;
      rawAuth := RawAuthority(i.contactAt);
      ghost var h := ChoresView();
      authorized := Authorizes(rawAuth, i);
      assert ChoresView() == h && PeersView() == x.peers;
      effects := SettleServer(authorized, i);
    }

    method ClearSyncInRecovery(ok: bool) returns (effects: seq<Effect>)
      modifies this`appliedSync, server
      ensures (LocalView(), effects) == ClearSyncStep(old(LocalView()), ok)
    {
      effects := [];
      if appliedSync != Some(Off) {
        server.ApplySync(Off, ok);
        effects := [ClearSync(ok)];
        if ok {
          appliedSync := Some(Off);
        }
      }
    }

    method PromoteFenced(i: Input) returns (effects: seq<Effect>)
      modifies this`promoted, this`promoteTick, server
      ensures (ChoresView(), server.Settings(), effects)
              == PromoteStep(old(ChoresView()), old(server.Settings()), i)
    {
      effects := [];
      if promoted && Elapsed(ticks, promoteTick) >= 100 {
        promoted := false;
      }
      if !promoted {
        server.ApplyReadOnly(true, i.promoteFenceOk);
        effects := [PromoteFence(i.promoteFenceOk), Promote(i.promoteOk)];
        if i.promoteOk {
          promoted := true;
          promoteTick := ticks;
        }
      }
    }

    method RepointStandby(primary: NodeId, i: Input) returns (effects: seq<Effect>)
      modifies this`appliedPrimary
      ensures (ChoresView(), effects) == RepointStep(c, primary, old(ChoresView()), i)
    {
      effects := [];
      if primary != 0 && appliedPrimary != primary && primary in c.pgMembers {
        effects := [Repoint(primary, i.repointOk)];
        if i.repointOk {
          appliedPrimary := primary;
        }
      }
    }

    method RepositionStandby(i: Input) returns (effects: seq<Effect>)
      modifies this`promoted, this`promoteTick, this`appliedPrimary, server
      ensures (View(), effects) == Reposition(c, old(View()), i)
    {
      hide PromoteStep, RepointStep;
      var primary := if decided.Some? then decided.value.primary else 0;
      if primary == c.nodeId {
        effects := PromoteFenced(i);
      } else {
        effects := RepointStandby(primary, i);
      }
    }

    method FollowInRecovery(i: Input) returns (effects: seq<Effect>)
      modifies this`appliedReadOnly, this`authorizedSince, this`appliedSync, this`promoted, this`promoteTick,
               this`appliedPrimary, server
      ensures (View(), effects) == Recover(c, old(View()), i)
    {
      hide Reposition, ClearSyncStep;
      appliedReadOnly := None;
      authorizedSince := None;
      var cleared := ClearSyncInRecovery(i.clearSyncOk);
      var moved := RepositionStandby(i);
      effects := cleared + moved;
    }

    method ObservePass(i: Input)
      modifies this`appliedReadOnly, this`authorizedSince, this`reconfirmPending, this`lastLoop, this`peersLsn,
               this`lastHeard, this`peersReconfirm, this`peersSeq, this`decided, this`promoted, this`rejoining,
               this`appliedPrimary, this`slotsEnsured, this`lastProposed
      ensures View() == Observe(old(View()), i)
    {
      hide Drain, Adopt, StallCheck, Adopts, ResetChores;
      ghost var x := View();
      CheckStall(i.loopAt);
      ghost var a := AuthView();
      assert PeersView() == x.peers && ChoresView() == x.chores;
      DrainInbox(i.inbox);
      assert AuthView() == a && ChoresView() == x.chores;
      ghost var p := PeersView();
      AdoptDecision(i.current);
      assert PeersView() == p;
    }

    method AnnouncePass(i: Input) returns (gossip: Option<Gossip>)
      modifies this`ticks, this`peersLsn, this`datadirKnown, this`clusterMarker
      ensures View() == Announce(c, old(View()), i)
      ensures gossip == Broadcast(View(), i)
    {
      gossip := CountAndBroadcast(i);
      CheckMarker(i);
    }

    /** Everything before the choice between recovering and serving. */
    method PreparePass(i: Input) returns (gossip: Option<Gossip>, proposal: Option<Decision>)
      modifies this
      ensures View() == R.Entering(c, old(View()), i)
      ensures gossip == Broadcast(Prepare(c, old(View()), i), i)
      ensures proposal == Proposal(c, Prepare(c, old(View()), i), i)
      ensures nodes == old(nodes) && inputs == old(inputs) && outs == old(outs)
    {
      hide Observe, Announce, Broadcast, Proposal;
      ObservePass(i);
      gossip := AnnouncePass(i);
      proposal := ProposeIfLeader(i);
    }

    /** The phases of one pass. */
    method Phases(i: Input) returns (o: Output)
      modifies this, server
      ensures (View(), o) == Tick(c, old(View()), i)
      ensures nodes == old(nodes) && inputs == old(inputs) && outs == old(outs)
    {
      hide Prepare, Broadcast, Proposal, Recover, Serve, RawAuth, SlotsDue;
      var gossip, proposal := PreparePass(i);
      if i.inRecovery {
        var effects := FollowInRecovery(i);
        o := Output(gossip, proposal, false, false, false, effects);
      } else {
        var rawAuth, authorized, slots, effects := ServeWrites(i);
        o := Output(gossip, proposal, rawAuth, authorized, slots, effects);
      }
    }

    /**
     One pass of the loop, whatever others have done to the server since the last. It adds to the run; an
     unfence under a decision ends a held confirm window; an authorized pass has a decision ratified since
     every stall under one, and has one at all if the cluster was ever seen.
     */
    method Pass(i: Input) returns (o: Output)
      requires Valid() && i.Ordered() && lastLoop <= i.loopAt
      modifies this, server
      ensures (View(), o) == Tick(c, old(View()), i)
      ensures Valid() && inputs == old(inputs) + [i] && outs == old(outs) + [o] && old(nodes) <= nodes
      ensures R.Unfences(o) && decided.Some? ==> WindowHeld()
      ensures forall k :: 0 <= k < |inputs| && o.authorized && StalledAt(k) ==> RatifiedSince(k)
      ensures forall k :: 0 <= k < |inputs| && o.authorized && R.SeenCluster(nodes[k]) ==> decided.Some?
    {
      hide Tick;
      ghost var x, last := View(), nodes[|inputs|];
      o := Phases(i);
      R.ServerIsNotRead(c, x, i, last.server);
      Extend(nodes, inputs, outs, i);
      nodes, inputs, outs := nodes + [Tick(c, last, i).0], inputs + [i], outs + [o];
      Guarantees();
    }

    lemma Extend(nodes: seq<Node>, inputs: seq<Input>, outs: seq<Output>, i: Input)
      requires R.Run(c, nodes, inputs, outs) && i.Ordered() && nodes[|inputs|].auth.lastLoop <= i.loopAt
      ensures var (x', o) := Tick(c, nodes[|inputs|], i); R.Run(c, nodes + [x'], inputs + [i], outs + [o])
    {
      hide Tick;
      var (x', o) := Tick(c, nodes[|inputs|], i);
      forall k | 0 <= k < |inputs + [i]|
        ensures R.PassAt(c, nodes + [x'], inputs + [i], outs + [o], k)
      {
        assert k < |inputs| ==> R.PassAt(c, nodes, inputs, outs, k);
      }
    }

    /** What every run guarantees, said of this object after its last pass. */
    lemma Guarantees()
      requires Valid() && inputs != []
      ensures R.Unfences(outs[|inputs| - 1]) && decided.Some? ==> WindowHeld()
      ensures forall k :: 0 <= k < |inputs| && outs[|inputs| - 1].authorized && StalledAt(k) ==> RatifiedSince(k)
      ensures forall k :: 0 <= k < |inputs| && outs[|inputs| - 1].authorized && R.SeenCluster(nodes[k]) ==>
                decided.Some?
    {
      var last := |inputs| - 1;
      if R.Unfences(outs[last]) && decided.Some? {
        var j := R.ConfirmWindowHeld(c, nodes, inputs, outs, last);
      }
      forall k | 0 <= k < |inputs| && outs[last].authorized
        ensures StalledAt(k) ==> RatifiedSince(k)
        ensures R.SeenCluster(nodes[k]) ==> decided.Some?
      {
        if StalledAt(k) {
          var m := R.StallNeedsNewDecision(c, nodes, inputs, outs, k, last);
        }
        if R.SeenCluster(nodes[k]) {
          R.BootstrapLost(c, nodes, inputs, outs, k, last);
        }
      }
    }
  }
}
