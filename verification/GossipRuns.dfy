/** What peers are told, and what is remembered of what they said: always the last thing heard from each. */
module GossipRuns {
  import opened Quorum
  import opened Supervisor
  import opened SupervisorRuns

  // ------------------------------------------------------------------------ one queue

  /** Message k is the last of the queue from its sender, respectively the last that could be decoded. */
  ghost predicate LastFrom(inbox: seq<Message>, id: NodeId, k: nat) {
    k < |inbox| && inbox[k].from == id && forall j :: k < j < |inbox| ==> inbox[j].from != id
  }

  ghost predicate LastDecodedFrom(inbox: seq<Message>, id: NodeId, k: nat) {
    && k < |inbox| && inbox[k].from == id && inbox[k].payload.Some?
    && forall j :: k < j < |inbox| ==> !(inbox[j].from == id && inbox[j].payload.Some?)
  }

  ghost predicate NothingFrom(inbox: seq<Message>, id: NodeId) {
    forall j :: 0 <= j < |inbox| ==> inbox[j].from != id
  }

  ghost predicate NothingDecodedFrom(inbox: seq<Message>, id: NodeId) {
    forall j :: 0 <= j < |inbox| ==> !(inbox[j].from == id && inbox[j].payload.Some?)
  }

  /** A peer was last heard when its last message was drained, whether that could be decoded or not. */
  lemma {:induction false} HeardIsLast(p: Peers, inbox: seq<Message>, id: NodeId, k: nat)
    requires LastFrom(inbox, id, k)
    ensures id in Drain(p, inbox).heard && Drain(p, inbox).heard[id] == inbox[k].at
    decreases |inbox|
  {
    if k < |inbox| - 1 {
      HeardIsLast(p, inbox[..|inbox| - 1], id, k);
    }
  }

  /** A peer's position, recovery flag and doubt are those of its last decodable message. */
  lemma {:induction false} SightingIsLast(p: Peers, inbox: seq<Message>, id: NodeId, k: nat)
    requires LastDecodedFrom(inbox, id, k)
    ensures var q := Drain(p, inbox); var g := inbox[k].payload.value;
            && id in q.lsn && q.lsn[id] == Sighting(g.lsn, g.inRecovery, inbox[k].at)
            && id in q.reconfirm && q.reconfirm[id] == g.reconfirm
    decreases |inbox|
  {
    if k < |inbox| - 1 {
      SightingIsLast(p, inbox[..|inbox| - 1], id, k);
    }
  }

  /** Who sent nothing, or nothing that could be decoded, is remembered as before. */
  lemma {:induction false} SilenceKeeps(p: Peers, inbox: seq<Message>, id: NodeId)
    ensures var q := Drain(p, inbox);
            && (NothingFrom(inbox, id) ==>
                  (id in q.heard <==> id in p.heard) && (id in p.heard ==> q.heard[id] == p.heard[id]))
            && (NothingDecodedFrom(inbox, id) ==>
                  && (id in q.lsn <==> id in p.lsn) && (id in p.lsn ==> q.lsn[id] == p.lsn[id])
                  && (id in q.reconfirm <==> id in p.reconfirm)
                  && (id in p.reconfirm ==> q.reconfirm[id] == p.reconfirm[id])
                  && KnownSeq(q, id) == KnownSeq(p, id))
    decreases |inbox|
  {
    if inbox != [] {
      SilenceKeeps(p, inbox[..|inbox| - 1], id);
    }
  }

  /** The number known of a peer is the highest it ever said. */
  lemma {:induction false} KnownIsHighest(p: Peers, inbox: seq<Message>, id: NodeId)
    ensures KnownSeq(Drain(p, inbox), id) == KnownSeq(p, id)
            || exists k :: 0 <= k < |inbox| && inbox[k].from == id && inbox[k].payload.Some?
                           && inbox[k].payload.value.seqNo == KnownSeq(Drain(p, inbox), id)
    ensures KnownSeq(Drain(p, inbox), id) >= KnownSeq(p, id)
    ensures forall k :: 0 <= k < |inbox| && inbox[k].from == id && inbox[k].payload.Some? ==>
              KnownSeq(Drain(p, inbox), id) >= inbox[k].payload.value.seqNo
    decreases |inbox|
  {
    if inbox != [] {
      var n := |inbox| - 1;
      KnownIsHighest(p, inbox[..n], id);
      assert forall k :: 0 <= k < n ==> inbox[..n][k] == inbox[k];
    }
  }

  // ----------------------------------------------------------------------- over runs

  /** Message (k, j), drained by pass k, is the last decodable one from this peer up to pass n. */
  ghost predicate LastSaid(inputs: seq<Input>, id: NodeId, n: nat, k: nat, j: nat) {
    && k < n <= |inputs| && LastDecodedFrom(inputs[k].inbox, id, j)
    && forall m :: k < m < n ==> NothingDecodedFrom(inputs[m].inbox, id)
  }

  /** Whoever else is sighted is sighted as it last said of itself, dated when that was drained. */
  lemma {:induction false} SightedAsLastSaid(c: Config, nodes: seq<Node>, inputs: seq<Input>, outs: seq<Output>,
                                             id: NodeId, n: nat, k: nat, j: nat)
    requires Run(c, nodes, inputs, outs) && id != c.nodeId && n <= |inputs| && LastSaid(inputs, id, n, k, j)
    ensures var m := inputs[k].inbox[j]; var g := m.payload.value; var p := nodes[n].peers;
            && id in p.lsn && p.lsn[id] == Sighting(g.lsn, g.inRecovery, m.at)
            && id in p.reconfirm && p.reconfirm[id] == g.reconfirm
  {
    hide Tick, Drain;
    assert PassAt(c, nodes, inputs, outs, n - 1);
    RemembersDrained(c, nodes[n - 1], inputs[n - 1], id);
    if k == n - 1 {
      SightingIsLast(nodes[k].peers, inputs[k].inbox, id, j);
    } else {
      SightedAsLastSaid(c, nodes, inputs, outs, id, n - 1, k, j);
      SilenceKeeps(nodes[n - 1].peers, inputs[n - 1].inbox, id);
    }
  }

  /** A pass remembers of a peer what it drained. */
  lemma RemembersDrained(c: Config, x: Node, i: Input, id: NodeId)
    requires id != c.nodeId
    ensures var p := Tick(c, x, i).0.peers; var q := Drain(x.peers, i.inbox);
            && (id in p.lsn <==> id in q.lsn) && (id in q.lsn ==> p.lsn[id] == q.lsn[id])
            && p.reconfirm == q.reconfirm && p.heard == q.heard && p.seqNo == q.seqNo
  {
    hide Drain, Tick, Marker, Adopt, StallCheck;
    TickFrame(c, x, i);
  }

  /** So a peer is live exactly while what it last said was drained within the dead timeout. */
  lemma LiveIsRecentlySaid(c: Config, nodes: seq<Node>, inputs: seq<Input>, outs: seq<Output>, id: NodeId, n: nat,
                           k: nat, j: nat, now: Time)
    requires Run(c, nodes, inputs, outs) && id != c.nodeId && n <= |inputs| && LastSaid(inputs, id, n, k, j)
    ensures id in Live(c, nodes[n].peers, now) <==> Since(now, inputs[k].inbox[j].at) < DEAD_TIMEOUT
  {
    SightedAsLastSaid(c, nodes, inputs, outs, id, n, k, j);
  }

  /** A node counts itself live from its first broadcast on, however long ago it last looked at its position. */
  lemma SelfIsLive(c: Config, x: Node, i: Input, now: Time)
    requires c.nodeId in x.peers.lsn || Tick(c, x, i).1.gossip.Some?
    ensures c.nodeId in Tick(c, x, i).0.peers.lsn && c.nodeId in Live(c, Tick(c, x, i).0.peers, now)
  {
    DrainKeepsSighted(x.peers, i.inbox, c.nodeId);
    TickSplits(c, x, i);
    TickFrame(c, x, i);
    hide Tick, Drain, Marker, Adopt, StallCheck;
  }

  lemma {:induction false} DrainKeepsSighted(p: Peers, inbox: seq<Message>, id: NodeId)
    ensures id in p.lsn ==> id in Drain(p, inbox).lsn
    decreases |inbox|
  {
    if inbox != [] {
      DrainKeepsSighted(p, inbox[..|inbox| - 1], id);
    }
  }

  // ----------------------------------------------------------------- what a broadcast says

  /**
   A broadcast tells the node's position and recovery flag as this pass finds them, and the doubt and the
   decision the pass goes on with.
   */
  lemma BroadcastSays(c: Config, x: Node, i: Input)
    requires Tick(c, x, i).1.gossip.Some?
    ensures var (x', o) := Tick(c, x, i); var g := o.gossip.value;
            && g.lsn == i.localLsn && g.inRecovery == i.inRecovery && g.reconfirm == x'.auth.reconfirmPending
            && g.seqNo == if x'.auth.decided.Some? then x'.auth.decided.value.seqNo else 0
  {
    hide Tick, Prepare;
    TickSplits(c, x, i);
    TickFrame(c, x, i);
  }

  /** A receiver of what a decided node broadcasts knows of the cluster from then on. */
  lemma DecidedNumberIsSeen(c: Config, x: Node, i: Input, receiver: Config, y: Node, j: Input, k: nat)
    requires Tick(c, x, i).1.gossip.Some? && Tick(c, x, i).0.auth.decided.Some?
    requires Tick(c, x, i).0.auth.decided.value.seqNo >= 1
    requires k < |j.inbox| && j.inbox[k].payload == Tick(c, x, i).1.gossip
    ensures SeenCluster(Tick(receiver, y, j).0)
  {
    hide Tick;
    BroadcastSays(c, x, i);
    WaysToSeeCluster(receiver, y, j);
  }
}
