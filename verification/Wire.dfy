/**
 The peer protocol's bytes: big-endian integers, length-prefixed frames, the gossip payload with its
 shorter historical forms, and the connection handler that takes frames off a stream.
 */
module Wire {
  import opened Quorum
  import opened Supervisor

  type byte = b: nat | b < 256
  type Bytes = seq<byte>

  const MAX_FRAME: nat := 4 * 1024 * 1024
  const KIND_RAFT: byte := 0
  const KIND_GOSSIP: byte := 1

  // ---------------------------------------------------------------- big-endian integers

  function Pow256(k: nat): (r: nat)
    ensures r >= 1
  {
    if k == 0 then 1 else 256 * Pow256(k - 1)
  }

  /** The k low-order bytes of n, most significant first. */
  function ToBytes(n: nat, k: nat): (r: Bytes)
    ensures |r| == k
  {
    if k == 0 then [] else ToBytes(n / 256, k - 1) + [n % 256]
  }

  function FromBytes(bs: Bytes): nat {
    if bs == [] then 0 else 256 * FromBytes(bs[..|bs| - 1]) + bs[|bs| - 1]
  }

  /** A k-byte integer reads back as written. */
  lemma {:induction false} IntRoundTrip(n: nat, k: nat)
    requires n < Pow256(k)
    ensures FromBytes(ToBytes(n, k)) == n
    decreases k
  {
    if k > 0 {
      IntRoundTrip(n / 256, k - 1);
      assert ToBytes(n, k)[..k - 1] == ToBytes(n / 256, k - 1);
    }
  }

  const U32: nat := 0x1_0000_0000
  const U64: nat := 0x1_0000_0000_0000_0000

  lemma Widths()
    ensures Pow256(4) == U32 && Pow256(8) == U64
  {
    assert Pow256(2) == 65536;
    assert Pow256(4) == U32;
    assert Pow256(6) == 65536 * U32;
  }

  // ------------------------------------------------------------------------- frames

  /** The length prefix is cast to 32 bits. */
  function EncodeFrame(payload: Bytes): Bytes {
    ToBytes(|payload| % U32, 4) + payload
  }

  datatype ReadResult = Frame(payload: Bytes, rest: Bytes) | TooLarge | Eof

  function ReadFrame(stream: Bytes): (r: ReadResult)
    ensures r.Frame? ==> |r.rest| < |stream|
  {
    if |stream| < 4 then Eof
    else
      var n := FromBytes(stream[..4]);
      if n > MAX_FRAME then TooLarge
      else if |stream| < 4 + n then Eof
      else Frame(stream[4..4 + n], stream[4 + n..])
  }

  lemma ReadEncoded(payload: Bytes, rest: Bytes)
    ensures var s := EncodeFrame(payload) + rest;
            |s| >= 4 && FromBytes(s[..4]) == |payload| % U32 && s[4..] == payload + rest
  {
    hide Pow256, FromBytes, ToBytes;
    Widths();
    IntRoundTrip(|payload| % U32, 4);
    assert (EncodeFrame(payload) + rest)[..4] == ToBytes(|payload| % U32, 4);
  }

  /** A frame is read back, with the stream left right behind it, exactly when it is not too large. */
  lemma FrameRoundTripExactly(payload: Bytes, rest: Bytes)
    ensures ReadFrame(EncodeFrame(payload) + rest) == Frame(payload, rest) <==> |payload| <= MAX_FRAME
  {
    ReadEncoded(payload, rest);
    var s := EncodeFrame(payload) + rest;
    if |payload| <= MAX_FRAME {
      assert s[4..4 + |payload|] == payload && s[4 + |payload|..] == rest;
    } else if ReadFrame(s).Frame? {
      assert |ReadFrame(s).payload| == |payload| % U32 <= MAX_FRAME;
    }
  }

  function EncodeAll(frames: seq<Bytes>): Bytes {
    if frames == [] then [] else EncodeFrame(frames[0]) + EncodeAll(frames[1..])
  }

  lemma EncodeOneMore(f: Bytes, frames: seq<Bytes>)
    ensures EncodeAll([f] + frames) == EncodeFrame(f) + EncodeAll(frames)
  {
    hide EncodeFrame;
    assert ([f] + frames)[1..] == frames;
  }

  lemma EncodeNothing()
    ensures EncodeAll([]) == []
  {
  }

  lemma Regroup<T>(a: seq<T>, b: seq<T>, c: seq<T>)
    ensures a + (b + c) == (a + b) + c
  {
  }

  lemma {:induction false} EncodeConcat(a: seq<Bytes>, b: seq<Bytes>)
    ensures EncodeAll(a + b) == EncodeAll(a) + EncodeAll(b)
  {
    hide EncodeFrame, EncodeAll;
    if a == [] {
      EncodeNothing();
      assert a + b == b;
    } else {
      var f, rest := a[0], a[1..];
      EncodeOneMore(f, rest);
      EncodeOneMore(f, rest + b);
      EncodeConcat(rest, b);
      assert a == [f] + rest;
      Regroup([f], rest, b);
      Regroup(EncodeFrame(f), EncodeAll(rest), EncodeAll(b));
    }
  }

  // --------------------------------------------------------------------- gossip payload

  function Flag(b: bool): byte { if b then 1 else 0 }

  function EncodeGossip(g: Gossip): (r: Bytes)
    ensures |r| == 18
  {
    ToBytes(g.lsn, 8) + [Flag(g.inRecovery)] + [Flag(g.reconfirm)] + ToBytes(g.seqNo, 8)
  }

  /** Anything from nine bytes on is accepted; missing trailing fields read as false and 0. */
  function DecodeGossip(bytes: Bytes): Option<Gossip> {
    if |bytes| < 9 then None
    else
      Some(Gossip(FromBytes(bytes[..8]), bytes[8] != 0,
                  |bytes| > 9 && bytes[9] != 0,
                  if |bytes| >= 18 then FromBytes(bytes[10..18]) else 0))
  }

  ghost predicate Wide(g: Gossip) {
    g.lsn < U64 && g.seqNo < U64
  }

  /** What a peer understands of a payload cut to k bytes, or followed by fields it does not know. */
  lemma GossipCutOrExtended(g: Gossip, k: nat, extra: Bytes)
    requires Wide(g)
    ensures k < 9 ==> DecodeGossip(EncodeGossip(g)[..k]) == None
    ensures 9 <= k <= 18 ==>
              DecodeGossip(EncodeGossip(g)[..k])
              == Some(Gossip(g.lsn, g.inRecovery, k >= 10 && g.reconfirm, if k == 18 then g.seqNo else 0))
    ensures DecodeGossip(EncodeGossip(g) + extra) == Some(g)
  {
    Widths();
    IntRoundTrip(g.lsn, 8);
    IntRoundTrip(g.seqNo, 8);
    var e := EncodeGossip(g);
    assert e[..8] == ToBytes(g.lsn, 8) && e[10..18] == ToBytes(g.seqNo, 8);
    if 9 <= k <= 18 {
      assert e[..k][..8] == e[..8];
      assert k == 18 ==> e[..k] == e;
    }
    assert (e + extra)[..8] == e[..8] && (e + extra)[10..18] == e[10..18];
  }

  // -------------------------------------------------------------- taking frames off a stream

  /** What a connection yields: gossip handed on, and the answers written back. */
  datatype Served = Served(gossip: seq<(NodeId, Bytes)>, answers: seq<Bytes>)

  /** The answer to the k-th request of a connection, or None to close it. */
  type Dispatch = (nat, Bytes) -> Option<Bytes>

  function GossipOf(frame: Bytes, voters: set<NodeId>): seq<(NodeId, Bytes)> {
    if |frame| >= 9 && FromBytes(frame[1..9]) in voters then [(FromBytes(frame[1..9]), frame[9..])] else []
  }

  /** Serving a stream, frame after frame, until it ends or something closes it. */
  function Serve(stream: Bytes, voters: set<NodeId>, answer: Dispatch, k: nat): Served
    decreases |stream|
  {
    match ReadFrame(stream)
    case TooLarge => Served([], [])
    case Eof => Served([], [])
    case Frame(frame, rest) =>
      if frame == [] then Served([], [])
      else if frame[0] == KIND_GOSSIP then
        var s := Serve(rest, voters, answer, k);
        Served(GossipOf(frame, voters) + s.gossip, s.answers)
      else if frame[0] == KIND_RAFT then
        var reply := answer(k, frame[1..]);
        if reply.None? then Served([], [])
        else
          var s := Serve(rest, voters, answer, k + 1);
          Served(s.gossip, [reply.value] + s.answers)
      else Served([], [])
  }

  /** The handler's loop. */
  method HandleConnection(stream: Bytes, voters: set<NodeId>, answer: Dispatch) returns (served: Served)
    ensures served == Serve(stream, voters, answer, 0)
  {
    hide ReadFrame, GossipOf;
    var rest, gossip, answers, k := stream, [], [], 0;
    while true
      invariant var s := Serve(rest, voters, answer, k);
                Serve(stream, voters, answer, 0) == Served(gossip + s.gossip, answers + s.answers)
      decreases |rest|
    {
      var read := ReadFrame(rest);
      if !read.Frame? || read.payload == [] {
        break;
      }
      var frame := read.payload;
      ghost var later := Serve(read.rest, voters, answer, k);
      if frame[0] == KIND_GOSSIP {
        assert gossip + (GossipOf(frame, voters) + later.gossip) == (gossip + GossipOf(frame, voters)) + later.gossip;
        gossip := gossip + GossipOf(frame, voters);
      } else if frame[0] == KIND_RAFT {
        var reply := answer(k, frame[1..]);
        if reply.None? {
          break;
        }
        later := Serve(read.rest, voters, answer, k + 1);
        assert answers + ([reply.value] + later.answers) == (answers + [reply.value]) + later.answers;
        answers := answers + [reply.value];
        k := k + 1;
      } else {
        break;
      }
      rest := read.rest;
    }
    served := Served(gossip, answers);
  }

  function GossipFrame(from: NodeId, payload: Bytes): Bytes {
    [KIND_GOSSIP] + ToBytes(from, 8) + payload
  }

  datatype Sent = Sent(from: NodeId, gossip: Gossip)

  function GossipFrames(sent: seq<Sent>): seq<Bytes> {
    if sent == [] then [] else [GossipFrame(sent[0].from, EncodeGossip(sent[0].gossip))] + GossipFrames(sent[1..])
  }

  /** The voters' messages, in order. */
  function FromVoters(sent: seq<Sent>, voters: set<NodeId>): seq<(NodeId, Option<Gossip>)> {
    if sent == [] then []
    else (if sent[0].from in voters then [(sent[0].from, Some(sent[0].gossip))] else []) + FromVoters(sent[1..], voters)
  }

  function DecodeEach(received: seq<(NodeId, Bytes)>): seq<(NodeId, Option<Gossip>)> {
    if received == [] then [] else [(received[0].0, DecodeGossip(received[0].1))] + DecodeEach(received[1..])
  }

  lemma OneGossipFrame(m: Sent, voters: set<NodeId>)
    requires m.from < U64 && Wide(m.gossip)
    ensures var f := GossipFrame(m.from, EncodeGossip(m.gossip));
            && |f| == 27 && f[0] == KIND_GOSSIP
            && DecodeEach(GossipOf(f, voters)) == if m.from in voters then [(m.from, Some(m.gossip))] else []
  {
    Widths();
    IntRoundTrip(m.from, 8);
    var e := EncodeGossip(m.gossip);
    var f := GossipFrame(m.from, e);
    assert f[1..9] == ToBytes(m.from, 8) && f[9..] == e;
    GossipCutOrExtended(m.gossip, 18, []);
    assert e + [] == e;
  }

  lemma ServeGossip(frame: Bytes, rest: Bytes, voters: set<NodeId>, answer: Dispatch, k: nat)
    requires frame != [] && frame[0] == KIND_GOSSIP && |frame| <= MAX_FRAME
    ensures var s := Serve(rest, voters, answer, k);
            Serve(EncodeFrame(frame) + rest, voters, answer, k) == Served(GossipOf(frame, voters) + s.gossip, s.answers)
  {
    FrameRoundTripExactly(frame, rest);
  }

  lemma {:induction false} DecodeConcat(a: seq<(NodeId, Bytes)>, b: seq<(NodeId, Bytes)>)
    ensures DecodeEach(a + b) == DecodeEach(a) + DecodeEach(b)
  {
    hide DecodeGossip;
    if a == [] {
      assert a + b == b;
    } else {
      DecodeConcat(a[1..], b);
      assert (a + b)[1..] == a[1..] + b;
    }
  }

  /** Any gossip stream, broadcast after broadcast, arrives as the voters' original tuples and nothing else. */
  lemma {:induction false} GossipEndToEnd(sent: seq<Sent>, voters: set<NodeId>, answer: Dispatch, k: nat)
    requires forall i :: 0 <= i < |sent| ==> sent[i].from < U64 && Wide(sent[i].gossip)
    ensures DecodeEach(Serve(EncodeAll(GossipFrames(sent)), voters, answer, k).gossip) == FromVoters(sent, voters)
    ensures Serve(EncodeAll(GossipFrames(sent)), voters, answer, k).answers == []
  {
    if sent != [] {
      var frame := GossipFrame(sent[0].from, EncodeGossip(sent[0].gossip));
      var rest := EncodeAll(GossipFrames(sent[1..]));
      OneGossipFrame(sent[0], voters);
      assert GossipFrames(sent)[1..] == GossipFrames(sent[1..]);
      ServeGossip(frame, rest, voters, answer, k);
      GossipEndToEnd(sent[1..], voters, answer, k);
      DecodeConcat(GossipOf(frame, voters), Serve(rest, voters, answer, k).gossip);
      hide Serve, EncodeFrame, EncodeGossip, GossipOf, GossipFrame, DecodeEach;
    }
  }

  function RaftFrames(requests: seq<Bytes>): seq<Bytes> {
    if requests == [] then [] else [[KIND_RAFT] + requests[0]] + RaftFrames(requests[1..])
  }

  /** Every request fits and gets a reply. */
  predicate AllAnswered(requests: seq<Bytes>, answer: Dispatch, k: nat) {
    requests == [] || (|requests[0]| < MAX_FRAME && answer(k, requests[0]).Some?
                       && AllAnswered(requests[1..], answer, k + 1))
  }

  lemma {:induction false} EachAnswered(requests: seq<Bytes>, answer: Dispatch, k: nat)
    requires forall i :: 0 <= i < |requests| ==> |requests[i]| < MAX_FRAME && answer(k + i, requests[i]).Some?
    ensures AllAnswered(requests, answer, k)
  {
    if requests != [] {
      assert answer(k + 0, requests[0]).Some?;
      forall i | 0 <= i < |requests| - 1
        ensures |requests[1..][i]| < MAX_FRAME && answer(k + 1 + i, requests[1..][i]).Some?
      {
        assert answer(k + (i + 1), requests[i + 1]).Some?;
      }
      EachAnswered(requests[1..], answer, k + 1);
    }
  }

  lemma FirstAnswered(requests: seq<Bytes>, voters: set<NodeId>, answer: Dispatch, k: nat)
    requires requests != [] && |requests[0]| < MAX_FRAME && answer(k, requests[0]).Some?
    ensures var later := Serve(EncodeAll(RaftFrames(requests[1..])), voters, answer, k + 1).answers;
            Serve(EncodeAll(RaftFrames(requests)), voters, answer, k).answers
            == [answer(k, requests[0]).value] + later
  {
    hide EncodeFrame, ReadFrame;
    var frames := RaftFrames(requests);
    assert frames[1..] == RaftFrames(requests[1..]) && frames[0][1..] == requests[0];
    FrameRoundTripExactly(frames[0], EncodeAll(frames[1..]));
  }

  lemma {:induction false} AnsweredAt(requests: seq<Bytes>, voters: set<NodeId>, answer: Dispatch, k: nat, i: nat)
    requires AllAnswered(requests, answer, k)
    ensures var answers := Serve(EncodeAll(RaftFrames(requests)), voters, answer, k).answers;
            && |answers| == |requests|
            && (i < |requests| ==> answer(k + i, requests[i]) == Some(answers[i]))
  {
    hide Serve, EncodeAll, RaftFrames;
    if requests == [] {
      NothingServed(voters, answer, k);
    } else {
      FirstAnswered(requests, voters, answer, k);
      AnsweredAt(requests[1..], voters, answer, k + 1, if i > 0 then i - 1 else 0);
    }
  }

  lemma NothingServed(voters: set<NodeId>, answer: Dispatch, k: nat)
    ensures Serve(EncodeAll(RaftFrames([])), voters, answer, k) == Served([], [])
  {
  }

  /** Requests are answered one by one in the order they were written, each by its own dispatch. */
  lemma AnsweredInOrder(requests: seq<Bytes>, voters: set<NodeId>, answer: Dispatch, k: nat)
    requires forall i :: 0 <= i < |requests| ==> |requests[i]| < MAX_FRAME && answer(k + i, requests[i]).Some?
    ensures var answers := Serve(EncodeAll(RaftFrames(requests)), voters, answer, k).answers;
            && |answers| == |requests|
            && forall i :: 0 <= i < |requests| ==> answers[i] == answer(k + i, requests[i]).value
  {
    hide Serve, EncodeAll, RaftFrames, AllAnswered;
    EachAnswered(requests, answer, k);
    AnsweredAt(requests, voters, answer, k, 0);
    forall i | 0 <= i < |requests|
      ensures Serve(EncodeAll(RaftFrames(requests)), voters, answer, k).answers[i] == answer(k + i, requests[i]).value
    {
      AnsweredAt(requests, voters, answer, k, i);
    }
  }

  // ---------------------------------------------------------------------- any mix of frames

  /** What the gossip frames among these say, of those long enough to name a sender that votes. */
  function HeardFrom(frames: seq<Bytes>, voters: set<NodeId>): seq<(NodeId, Bytes)> {
    if frames == [] then []
    else
      var f := frames[0];
      (if |f| >= 9 && f[0] == KIND_GOSSIP && FromBytes(f[1..9]) in voters then [(FromBytes(f[1..9]), f[9..])] else [])
      + HeardFrom(frames[1..], voters)
  }

  predicate IsRequest(f: Bytes) {
    f != [] && f[0] == KIND_RAFT
  }

  /** The replies to the requests among these, each dispatched under its own number. */
  function RepliesTo(frames: seq<Bytes>, answer: Dispatch, k: nat): seq<Bytes> {
    if frames == [] then []
    else if IsRequest(frames[0]) then
      (match answer(k, frames[0][1..]) case Some(r) => [r] case None => []) + RepliesTo(frames[1..], answer, k + 1)
    else RepliesTo(frames[1..], answer, k)
  }

  function Requests(frames: seq<Bytes>): nat {
    if frames == [] then 0 else (if IsRequest(frames[0]) then 1 else 0) + Requests(frames[1..])
  }

  /** A frame that ends the connection: empty, of no known kind, or a request that gets no reply. */
  predicate Closes(f: Bytes, answer: Dispatch, k: nat) {
    f == [] || (f[0] != KIND_GOSSIP && f[0] != KIND_RAFT) || (f[0] == KIND_RAFT && answer(k, f[1..]).None?)
  }

  /** Frame n is the first to close the connection, or none does and the rest is no frame. */
  ghost predicate ClosesAt(frames: seq<Bytes>, tail: Bytes, answer: Dispatch, k: nat, n: nat) {
    && n <= |frames|
    && (forall i :: 0 <= i < n ==> !Closes(frames[i], answer, k + Requests(frames[..i])))
    && (if n < |frames| then Closes(frames[n], answer, k + Requests(frames[..n])) else !ReadFrame(tail).Frame?)
  }

  lemma ServeOneFrame(f: Bytes, rest: Bytes, voters: set<NodeId>, answer: Dispatch, k: nat)
    requires |f| <= MAX_FRAME
    ensures var s := Serve(rest, voters, answer, k + if IsRequest(f) then 1 else 0);
            Serve(EncodeFrame(f) + rest, voters, answer, k)
            == if Closes(f, answer, k) then Served([], [])
               else Served(HeardFrom([f], voters) + s.gossip, RepliesTo([f], answer, k) + s.answers)
  {
    hide EncodeFrame, ReadFrame;
    FrameRoundTripExactly(f, rest);
    assert [f][1..] == [];
  }

  lemma FirstOfThese(f: Bytes, others: seq<Bytes>, voters: set<NodeId>, answer: Dispatch, k: nat)
    ensures HeardFrom([f] + others, voters) == HeardFrom([f], voters) + HeardFrom(others, voters)
    ensures RepliesTo([f] + others, answer, k)
            == RepliesTo([f], answer, k) + RepliesTo(others, answer, k + if IsRequest(f) then 1 else 0)
  {
    assert ([f] + others)[1..] == others && [f][1..] == [];
  }

  /**
   Whatever mix of frames arrives, a connection hands on the voters' gossip and writes the replies of
   exactly the frames before the first that closes it, in order.
   */
  lemma {:induction false} ServesUntilClosed(frames: seq<Bytes>, tail: Bytes, voters: set<NodeId>, answer: Dispatch,
                                             k: nat, n: nat)
    requires forall i :: 0 <= i < |frames| ==> |frames[i]| <= MAX_FRAME
    requires ClosesAt(frames, tail, answer, k, n)
    ensures Serve(EncodeAll(frames) + tail, voters, answer, k)
            == Served(HeardFrom(frames[..n], voters), RepliesTo(frames[..n], answer, k))
  {
    hide Serve, EncodeFrame, EncodeAll, ReadFrame, Closes, IsRequest, HeardFrom, RepliesTo, Requests, ClosesAt;
    NoFrames(tail, voters, answer, k);
    if frames == [] {
      OnlyTail(tail, answer, k, n);
      assert frames[..n] == [];
    } else {
      FirstDecides(frames, tail, answer, k, n);
      var f, others := frames[0], frames[1..];
      ServeOneFrame(f, EncodeAll(others) + tail, voters, answer, k);
      StreamSplits(frames, tail);
      if n == 0 {
        assert frames[..n] == [];
      } else {
        ClosesLater(frames, tail, answer, k, n);
        ServesUntilClosed(others, tail, voters, answer, k + if IsRequest(f) then 1 else 0, n - 1);
        FirstOfThese(f, others[..n - 1], voters, answer, k);
        assert frames[..n] == [f] + others[..n - 1];
      }
    }
  }

  lemma OnlyTail(tail: Bytes, answer: Dispatch, k: nat, n: nat)
    requires ClosesAt([], tail, answer, k, n)
    ensures n == 0 && !ReadFrame(tail).Frame?
  {
  }

  lemma StreamSplits(frames: seq<Bytes>, tail: Bytes)
    requires frames != []
    ensures EncodeAll(frames) + tail == EncodeFrame(frames[0]) + (EncodeAll(frames[1..]) + tail)
  {
    hide EncodeFrame;
  }

  lemma NoFrames(tail: Bytes, voters: set<NodeId>, answer: Dispatch, k: nat)
    ensures HeardFrom([], voters) == [] && RepliesTo([], answer, k) == []
    ensures EncodeAll([]) + tail == tail
    ensures !ReadFrame(tail).Frame? ==> Serve(tail, voters, answer, k) == Served([], [])
  {
  }

  lemma FirstDecides(frames: seq<Bytes>, tail: Bytes, answer: Dispatch, k: nat, n: nat)
    requires frames != [] && ClosesAt(frames, tail, answer, k, n)
    ensures n <= |frames| && (Closes(frames[0], answer, k) <==> n == 0)
  {
    assert frames[..0] == [] && Requests(frames[..0]) == 0;
    assert n > 0 ==> !Closes(frames[0], answer, k + Requests(frames[..0]));
  }

  lemma ClosesLater(frames: seq<Bytes>, tail: Bytes, answer: Dispatch, k: nat, n: nat)
    requires frames != [] && n > 0 && ClosesAt(frames, tail, answer, k, n)
    ensures ClosesAt(frames[1..], tail, answer, k + if IsRequest(frames[0]) then 1 else 0, n - 1)
  {
    var k' := k + if IsRequest(frames[0]) then 1 else 0;
    forall i: nat | 0 < i <= |frames|
      ensures k' + Requests(frames[1..][..i - 1]) == k + Requests(frames[..i])
    {
      assert frames[..i][1..] == frames[1..][..i - 1] && frames[..i][0] == frames[0];
    }
    hide Closes, Requests;
    forall i: nat | i < n - 1
      ensures !Closes(frames[1..][i], answer, k' + Requests(frames[1..][..i]))
    {
      assert !Closes(frames[i + 1], answer, k + Requests(frames[..i + 1]));
    }
  }
}
