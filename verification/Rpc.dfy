/**
 The client side of a peer connection: one exchange at a time on a stream that is kept only after a
 complete answer. Requests and replies carry the number of the call they belong to, which the bytes on
 the wire do not; the question is whether the bytes handed to a call are the answer to that call.
 */
module Rpc {
  import opened Quorum
  import opened Wire

  datatype Request = Request(call: nat, payload: Bytes)
  datatype Reply = Reply(call: nat, payload: Bytes)

  /** Both ends of a stream: complete requests written, replies written back, bytes already consumed. */
  datatype Stream = Stream(requests: seq<Request>, replies: seq<Reply>, read: nat)

  const NEW_STREAM: Stream := Stream([], [], 0)

  function Payloads(replies: seq<Reply>): seq<Bytes> {
    if replies == [] then [] else [replies[0].payload] + Payloads(replies[1..])
  }

  /** Every byte the server has put on the stream. */
  function Incoming(s: Stream): Bytes {
    EncodeAll(Payloads(s.replies))
  }

  /** What happens by the deadline: the write completes or not, the server answers, some bytes arrive. */
  datatype Env = Env(connected: bool, writeOk: bool, answers: seq<Bytes>, arrived: nat)

  function Min(a: nat, b: nat): nat { if a <= b then a else b }

  /** The server answers outstanding requests, oldest first. */
  function Answer(s: Stream, answers: seq<Bytes>): Stream
    decreases |answers|
  {
    if answers == [] || |s.replies| >= |s.requests| then s
    else
      Answer(s.(replies := s.replies + [Reply(s.requests[|s.replies|].call, answers[0])]), answers[1..])
  }

  function Available(s: Stream, arrived: nat): Bytes {
    var incoming := Incoming(s);
    var end := Min(s.read + arrived, |incoming|);
    if s.read <= end then incoming[s.read..end] else []
  }

  /** Write the request, then read one frame; None on any error or when the deadline cuts it short. */
  function Exchange(s: Stream, r: Request, env: Env): (Stream, Option<Bytes>) {
    if !env.writeOk then (s, None)
    else
      var s := Answer(s.(requests := s.requests + [r]), env.answers);
      match ReadFrame(Available(s, env.arrived))
      case Frame(payload, _) => (s.(read := s.read + 4 + |payload|), Some(payload))
      case _ => (s, None)
  }

  datatype Outcome = Answered(bytes: Bytes) | Unreachable | NetworkError

  /** A kept stream is tried first and dropped on any failure; a new connection is the only retry. */
  function Call(kept: Option<Stream>, r: Request, first: Env, retry: Env): (Option<Stream>, Outcome) {
    var tried := if kept.Some? then Exchange(kept.value, r, first) else (NEW_STREAM, None);
    if tried.1.Some? then (Some(tried.0), Answered(tried.1.value))
    else if !retry.connected then (None, Unreachable)
    else
      var retried := Exchange(NEW_STREAM, r, retry);
      if retried.1.Some? then (Some(retried.0), Answered(retried.1.value)) else (None, NetworkError)
  }

  class Connection {
    var stream: Option<Stream>

    constructor ()
      ensures stream == None
    {
      stream := None;
    }

    /** Takes the kept stream out before using it, so that any early exit loses it. */
    method Perform(r: Request, first: Env, retry: Env) returns (o: Outcome)
      modifies this
      ensures (stream, o) == Call(old(stream), r, first, retry)
    {
      var taken := stream;
      stream := None;
      if taken.Some? {
        var (s, answer) := Exchange(taken.value, r, first);
        if answer.Some? {
          stream := Some(s);
          return Answered(answer.value);
        }
      }
      if !retry.connected {
        return Unreachable;
      }
      var (s, answer) := Exchange(NEW_STREAM, r, retry);
      if answer.None? {
        return NetworkError;
      }
      stream := Some(s);
      o := Answered(answer.value);
    }
  }

  // ----------------------------------------------------------------------- pairing

  /** The stream stands at a frame boundary with nothing outstanding, every reply matched to its request. */
  ghost predicate AtBoundary(s: Stream) {
    && |s.replies| == |s.requests| && s.read == |Incoming(s)|
    && forall i :: 0 <= i < |s.replies| ==> s.replies[i].call == s.requests[i].call
  }

  /** The last thing on the stream is this request and these bytes as its reply. */
  ghost predicate LastPairs(s: Stream, r: Request, bytes: Bytes) {
    && s.requests != [] && s.replies != []
    && s.requests[|s.requests| - 1] == r && s.replies[|s.replies| - 1] == Reply(r.call, bytes)
  }

  /** Replies that fit the 32-bit length prefix. */
  ghost predicate Prefixed(env: Env) {
    forall i :: 0 <= i < |env.answers| ==> |env.answers[i]| < U32
  }

  lemma {:induction false} PayloadsConcat(a: seq<Reply>, b: seq<Reply>)
    ensures Payloads(a + b) == Payloads(a) + Payloads(b)
  {
    if a == [] {
      assert a + b == b;
    } else {
      PayloadsConcat(a[1..], b);
      assert (a + b)[1..] == a[1..] + b;
    }
  }

  /** One more reply puts exactly its frame behind what was there. */
  lemma IncomingGrows(s: Stream, reply: Reply)
    ensures Incoming(s.(replies := s.replies + [reply])) == Incoming(s) + EncodeFrame(reply.payload)
  {
    PayloadsConcat(s.replies, [reply]);
    EncodeConcat(Payloads(s.replies), [reply.payload]);
    assert EncodeAll([reply.payload]) == EncodeFrame(reply.payload) + EncodeAll([]);
    assert Payloads([reply]) == [reply.payload];
  }

  /** Of a frame cut anywhere, only the whole of it reads as a frame. */
  lemma CutFrame(payload: Bytes, m: nat)
    requires |payload| < U32 && m <= |EncodeFrame(payload)|
    ensures var r := ReadFrame(EncodeFrame(payload)[..m]);
            r.Frame? ==> m == |EncodeFrame(payload)| && r.payload == payload
  {
    ReadEncoded(payload, []);
    var e := EncodeFrame(payload);
    assert e + [] == e;
    if m >= 4 {
      assert e[..m][..4] == e[..4];
      assert m == |e| ==> e[..m] == e;
    }
  }

  lemma ExchangePairs(s: Stream, r: Request, env: Env)
    requires AtBoundary(s) && Prefixed(env)
    ensures var (s', answer) := Exchange(s, r, env);
            answer.Some? ==> AtBoundary(s') && LastPairs(s', r, answer.value)
  {
    if env.writeOk {
      var asked := s.(requests := s.requests + [r]);
      if env.answers == [] {
        assert Available(asked, env.arrived) == [];
      } else {
        var a := env.answers[0];
        var done := asked.(replies := s.replies + [Reply(r.call, a)]);
        assert Answer(asked, env.answers) == Answer(done, env.answers[1..]) == done;
        IncomingGrows(s, Reply(r.call, a));
        var cut := Min(env.arrived, |EncodeFrame(a)|);
        assert Available(done, env.arrived) == EncodeFrame(a)[..cut];
        CutFrame(a, cut);
        hide ReadFrame, EncodeFrame;
      }
    }
  }

  /** Whatever a call returns as an answer is the answer to that call, and what it keeps is at a boundary. */
  lemma CallPairs(kept: Option<Stream>, r: Request, first: Env, retry: Env)
    requires kept.Some? ==> AtBoundary(kept.value)
    requires Prefixed(first) && Prefixed(retry)
    ensures var (kept', o) := Call(kept, r, first, retry);
            && (kept'.Some? ==> AtBoundary(kept'.value))
            && (o.Answered? <==> kept'.Some?)
            && (o.Answered? ==> LastPairs(kept'.value, r, o.bytes))
  {
    if kept.Some? {
      ExchangePairs(kept.value, r, first);
    }
    ExchangePairs(NEW_STREAM, r, retry);
    hide Exchange;
  }

  /** Calls made one after the other on one connection, each with its own luck. */
  datatype Attempt = Attempt(payload: Bytes, first: Env, retry: Env)

  function After(calls: seq<Attempt>): Option<Stream>
    decreases |calls|
  {
    if calls == [] then None
    else
      var k := |calls| - 1;
      Call(After(calls[..k]), Request(k, calls[k].payload), calls[k].first, calls[k].retry).0
  }

  function OutcomeOf(calls: seq<Attempt>, k: nat): Outcome
    requires k < |calls|
  {
    Call(After(calls[..k]), Request(k, calls[k].payload), calls[k].first, calls[k].retry).1
  }

  lemma {:induction false} BoundaryAlways(calls: seq<Attempt>)
    requires forall k :: 0 <= k < |calls| ==> Prefixed(calls[k].first) && Prefixed(calls[k].retry)
    ensures After(calls).Some? ==> AtBoundary(After(calls).value)
    decreases |calls|
  {
    if calls != [] {
      var k := |calls| - 1;
      BoundaryAlways(calls[..k]);
      CallPairs(After(calls[..k]), Request(k, calls[k].payload), calls[k].first, calls[k].retry);
      hide Call, AtBoundary;
    }
  }

  /**
   For every schedule of timeouts, broken streams and reconnects, the k-th call's answer is the server's
   reply to the k-th call.
   */
  lemma AnswersPairWithCalls(calls: seq<Attempt>, k: nat)
    requires forall j :: 0 <= j < |calls| ==> Prefixed(calls[j].first) && Prefixed(calls[j].retry)
    requires k < |calls| && OutcomeOf(calls, k).Answered?
    ensures After(calls[..k + 1]).Some?
    ensures LastPairs(After(calls[..k + 1]).value, Request(k, calls[k].payload), OutcomeOf(calls, k).bytes)
  {
    hide Call, AtBoundary, LastPairs, Prefixed;
    assert calls[..k + 1][..k] == calls[..k];
    BoundaryAlways(calls[..k]);
    CallPairs(After(calls[..k]), Request(k, calls[k].payload), calls[k].first, calls[k].retry);
  }

  // --------------------------------------------------------------- which calls are answered

  /** The request is written, and an answer of a readable size arrives whole. */
  predicate Completes(env: Env) {
    && env.writeOk && env.answers != [] && |env.answers[0]| <= MAX_FRAME
    && env.arrived >= 4 + |env.answers[0]|
  }

  lemma FrameSize(payload: Bytes)
    ensures |EncodeFrame(payload)| == 4 + |payload|
  {
  }

  /** From a boundary, an exchange has an answer exactly if it completes, and it is the server's next reply. */
  lemma ExchangeExactly(s: Stream, r: Request, env: Env)
    requires AtBoundary(s) && Prefixed(env)
    ensures Exchange(s, r, env).1.Some? <==> Completes(env)
    ensures Completes(env) ==> Exchange(s, r, env).1 == Some(env.answers[0])
  {
    if env.writeOk {
      var asked := s.(requests := s.requests + [r]);
      if env.answers == [] {
        assert Available(asked, env.arrived) == [];
      } else {
        var a := env.answers[0];
        var done := asked.(replies := s.replies + [Reply(r.call, a)]);
        assert Answer(asked, env.answers) == Answer(done, env.answers[1..]) == done;
        IncomingGrows(s, Reply(r.call, a));
        FrameSize(a);
        var cut := Min(env.arrived, |EncodeFrame(a)|);
        assert Available(done, env.arrived) == EncodeFrame(a)[..cut];
        CutFrame(a, cut);
        FrameRoundTripExactly(a, []);
        assert EncodeFrame(a) + [] == EncodeFrame(a) && EncodeFrame(a)[..|EncodeFrame(a)|] == EncodeFrame(a);
        hide ReadFrame, EncodeFrame;
      }
    }
  }

  lemma NewStreamAtBoundary()
    ensures AtBoundary(NEW_STREAM)
  {
  }

  /**
   What becomes of a call: the kept stream's answer if it gives one in full, otherwise the new
   connection's, and an error only when both fail, of the kind the new connection's failure is.
   */
  lemma CallExactly(kept: Option<Stream>, r: Request, first: Env, retry: Env)
    requires kept.Some? ==> AtBoundary(kept.value)
    requires Prefixed(first) && Prefixed(retry)
    ensures var (kept', o) := Call(kept, r, first, retry); var onKept := kept.Some? && Completes(first);
            && (onKept ==> o == Answered(first.answers[0]))
            && (!onKept && retry.connected && Completes(retry) ==> o == Answered(retry.answers[0]))
            && (o == Unreachable <==> !onKept && !retry.connected)
            && (o == NetworkError <==> !onKept && retry.connected && !Completes(retry))
            && (kept'.Some? <==> o.Answered?)
  {
    hide Exchange, Completes;
    if kept.Some? {
      ExchangeExactly(kept.value, r, first);
    }
    NewStreamAtBoundary();
    ExchangeExactly(NEW_STREAM, r, retry);
  }

  /** A stream is kept for a call exactly if the one before it was answered. */
  lemma KeptAfterAnswer(calls: seq<Attempt>, k: nat)
    requires forall j :: 0 <= j < |calls| ==> Prefixed(calls[j].first) && Prefixed(calls[j].retry)
    requires k <= |calls|
    ensures After(calls[..k]).Some? <==> k > 0 && OutcomeOf(calls, k - 1).Answered?
  {
    if k > 0 {
      var n := k - 1;
      assert calls[..k][..n] == calls[..n];
      BoundaryAlways(calls[..n]);
      CallExactly(After(calls[..n]), Request(n, calls[n].payload), calls[n].first, calls[n].retry);
      hide Call, AtBoundary;
    }
  }

  /**
   Over every sequence of calls, each call's outcome in terms of what happened: which attempt was whole,
   whether a stream was there to be tried, and whether a new connection was made.
   */
  lemma OutcomesExactly(calls: seq<Attempt>, k: nat)
    requires forall j :: 0 <= j < |calls| ==> Prefixed(calls[j].first) && Prefixed(calls[j].retry)
    requires k < |calls|
    ensures var a, o := calls[k], OutcomeOf(calls, k);
            var onKept := k > 0 && OutcomeOf(calls, k - 1).Answered? && Completes(a.first);
            && (onKept ==> o == Answered(a.first.answers[0]))
            && (!onKept && a.retry.connected && Completes(a.retry) ==> o == Answered(a.retry.answers[0]))
            && (o == Unreachable <==> !onKept && !a.retry.connected)
            && (o == NetworkError <==> !onKept && a.retry.connected && !Completes(a.retry))
  {
    BoundaryAlways(calls[..k]);
    KeptAfterAnswer(calls, k);
    CallExactly(After(calls[..k]), Request(k, calls[k].payload), calls[k].first, calls[k].retry);
    hide Call, AtBoundary, Completes;
  }
}
