/** Buffering a request body and replaying the request while the upstream cannot be reached. */
module Retry {
  import opened Basics
  import opened HeaderMaps
  import opened Forward

  // ----- bodies

  type Bytes = seq<bv8>

  datatype Frame = Data(bytes: Bytes) | Trailers | Broken

  /** The data of a frame sequence. */
  function DataOf(frames: seq<Frame>): Bytes {
    if frames == [] then []
    else DataOf(frames[..|frames| - 1]) + (if frames[|frames| - 1].Data? then frames[|frames| - 1].bytes else [])
  }

  lemma {:induction false} DataOfConcat(a: seq<Frame>, b: seq<Frame>)
    ensures DataOf(a + b) == DataOf(a) + DataOf(b)
  {
    if b == [] {
      assert a + b == a;
    } else {
      assert (a + b)[..|a + b| - 1] == a + b[..|b| - 1];
      DataOfConcat(a, b[..|b| - 1]);
    }
  }

  predicate ErrorFree(frames: seq<Frame>) { Broken !in frames }

  /** `into_data_stream`: trailers are skipped. */
  function DataFrames(frames: seq<Frame>): seq<Frame> {
    if frames == [] then []
    else (if frames[0].Trailers? then [] else [frames[0]]) + DataFrames(frames[1..])
  }

  lemma {:induction false} DataFramesData(frames: seq<Frame>)
    ensures DataOf(DataFrames(frames)) == DataOf(frames)
    ensures ErrorFree(DataFrames(frames)) <==> ErrorFree(frames)
  {
    if frames != [] {
      DataFramesData(frames[1..]);
      assert frames == [frames[0]] + frames[1..];
      DataOfConcat([frames[0]], frames[1..]);
      if !frames[0].Trailers? {
        DataOfConcat([frames[0]], DataFrames(frames[1..]));
      } else {
        assert DataOf([frames[0]]) == [];
        assert DataFrames(frames) == DataFrames(frames[1..]);
      }
    }
  }

  class FrameStream {
    var rest: seq<Frame>

    constructor (frames: seq<Frame>)
      ensures rest == frames
    {
      rest := frames;
    }

    method Next() returns (frame: Option<Frame>)
      modifies this
      ensures old(rest) == [] ==> frame == None && rest == []
      ensures old(rest) != [] ==> frame == Some(old(rest)[0]) && rest == old(rest)[1..]
    {
      if rest == [] {
        frame := None;
      } else {
        frame, rest := Some(rest[0]), rest[1..];
      }
    }
  }

  datatype Buffered = Complete(bytes: Bytes) | TooLarge(frames: seq<Frame>) | ReadError

  /** The body breaks at frame `i`, before more than `max` bytes were read. */
  ghost predicate BreaksEarly(frames: seq<Frame>, max: nat, i: nat) {
    i < |frames| && frames[i].Broken? && ErrorFree(frames[..i]) && |DataOf(frames[..i])| <= max
  }

  lemma {:induction false} DataOfPrefix(frames: seq<Frame>, i: nat)
    requires i <= |frames|
    ensures DataOf(frames[..i]) <= DataOf(frames)
  {
    assert frames == frames[..i] + frames[i..];
    DataOfConcat(frames[..i], frames[i..]);
  }

  lemma NoEarlyBreak(frames: seq<Frame>, max: nat, i: nat)
    requires i <= |frames| && ErrorFree(frames[..i])
    requires i == |frames| || (|DataOf(frames[..i + 1])| > max && !frames[i].Broken?)
    ensures !exists k :: BreaksEarly(frames, max, k)
  {
    forall k: nat ensures !BreaksEarly(frames, max, k) {
      assert k < i ==> frames[k] == frames[..i][k];
      if i < k <= |frames| {
        assert frames[..k][..i + 1] == frames[..i + 1];
        DataOfPrefix(frames[..k], i + 1);
      }
    }
  }

  /** The stream made from the buffer, the frame that does not fit and the frames after it. */
  lemma ChainedStream(frames: seq<Frame>, i: nat)
    requires i < |frames| && frames[i].Data? && ErrorFree(frames[..i])
    ensures var chained := [Data(DataOf(frames[..i])), frames[i]] + DataFrames(frames[i + 1..]);
            DataOf(chained) == DataOf(frames) && (ErrorFree(chained) <==> ErrorFree(frames))
    ensures DataOf(frames[..i + 1]) == DataOf(frames[..i]) + frames[i].bytes
  {
    var buf := DataOf(frames[..i]);
    var rest := frames[i + 1..];
    assert frames[..i + 1][..i] == frames[..i];
    assert frames == frames[..i + 1] + rest;
    DataOfConcat(frames[..i + 1], rest);
    var head := [Data(buf), frames[i]];
    assert head[..1] == [Data(buf)] && DataOf([Data(buf)]) == buf;
    DataOfConcat(head, DataFrames(rest));
    DataFramesData(rest);
    assert frames == frames[..i] + [frames[i]] + rest;
  }

  lemma OneMoreFrame(frames: seq<Frame>, i: nat)
    requires i < |frames| && ErrorFree(frames[..i])
    ensures DataOf(frames[..i + 1]) == DataOf(frames[..i]) + (if frames[i].Data? then frames[i].bytes else [])
    ensures ErrorFree(frames[..i + 1]) <==> !frames[i].Broken?
  {
    assert frames[..i + 1][..i] == frames[..i];
    assert frames[..i + 1] == frames[..i] + [frames[i]];
  }

  /**
   Buffering loses no data: a body that fits is returned whole, one that does
   not is returned as a stream with the same data and the same failures, and
   only a failure within the first `max` bytes is reported as one.
   */
  method BufferBody(body: FrameStream, max: nat) returns (r: Buffered)
    modifies body
    ensures r.Complete? ==> r.bytes == DataOf(old(body.rest)) && |r.bytes| <= max && ErrorFree(old(body.rest))
    ensures r.TooLarge? ==> DataOf(r.frames) == DataOf(old(body.rest)) && |DataOf(old(body.rest))| > max
    ensures r.TooLarge? ==> (ErrorFree(r.frames) <==> ErrorFree(old(body.rest)))
    ensures r.ReadError? <==> exists i :: BreaksEarly(old(body.rest), max, i)
  {
    hide ErrorFree, DataOf, DataFrames;
    ghost var all := body.rest;
    var buf: Bytes := [];
    ghost var i := 0;
    assert buf == DataOf(all[..0]) && ErrorFree(all[..0]) by { NothingRead(all); }
    var frame := body.Next();
    while frame.Some?
      invariant 0 <= i <= |all|
      invariant frame.Some? ==> i < |all| && frame.value == all[i] && body.rest == all[i + 1..]
      invariant frame.None? ==> i == |all|
      invariant buf == DataOf(all[..i]) && |buf| <= max && ErrorFree(all[..i])
      decreases |all| - i
    {
      OneMoreFrame(all, i);
      if frame.value.Broken? {
        assert BreaksEarly(all, max, i);
        return ReadError;
      }
      if frame.value.Data? {
        var data := frame.value.bytes;
        if |buf| + |data| > max {
          ChainedStream(all, i);
          NoEarlyBreak(all, max, i);
          DataOfPrefix(all, i + 1);
          return TooLarge([Data(buf), Data(data)] + DataFrames(body.rest));
        }
        buf := buf + data;
      }
      frame := body.Next();
      i := i + 1;
    }
    assert all[..i] == all;
    NoEarlyBreak(all, max, i);
    r := Complete(buf);
  }

  lemma NothingRead(frames: seq<Frame>)
    ensures DataOf(frames[..0]) == [] && ErrorFree(frames[..0])
  {
  }

  // ----- the retry loop

  /** A body for one attempt: the buffered bytes, or the client's own stream. */
  datatype Payload = Whole(bytes: Bytes) | Stream(frames: seq<Frame>)

  function PayloadData(payload: Payload): Bytes {
    match payload
    case Whole(bytes) => bytes
    case Stream(frames) => DataOf(frames)
  }

  predicate PayloadErrorFree(payload: Payload) { payload.Stream? ==> ErrorFree(payload.frames) }

  /** The parts of a request that matter to the proxy, and its body. */
  datatype Request = Request(connect: bool, fields: Fields, payload: Payload)

  /** What the proxy answers when sending, if it comes to that, ends with `outcome`. */
  function Reply(req: Request, policy: Policy, outcome: Outcome, derive: string -> string): Response {
    match Refusal(req.fields, req.connect, policy)
    case Some(status) => Response(status, Http11, map[], None)
    case None => Answer(req.fields, policy, outcome, derive)
  }

  /** The request may have reached the upstream: it was sent, and not stopped by a connect failure. */
  predicate Reached(req: Request, policy: Policy, outcome: Outcome) {
    Refusal(req.fields, req.connect, policy).None? && outcome != Failed(true)
  }

  predicate IsRetryable(res: Response) {
    match res.error
    case Some(e) => e.isConnect
    case None => false
  }

  /**
   A reply asks for a retry exactly if the request was sent and failed to
   connect; no response of the upstream can do so, whatever it carries.
   */
  lemma RetryableIffNotConnected(req: Request, policy: Policy, outcome: Outcome, derive: string -> string)
    ensures IsRetryable(Reply(req, policy, outcome, derive)) <==>
            Refusal(req.fields, req.connect, policy).None? && outcome == Failed(true)
    ensures IsRetryable(Reply(req, policy, outcome, derive)) ==> !Reached(req, policy, outcome)
    ensures outcome.Answered? ==>
              var error := Reply(req, policy, outcome, derive).error; error == None || error == Some(ProxyError(false))
  {
  }

  /** The proxy inside the retry layer; the outcome of its k-th call is arbitrary. */
  class Proxy {
    const policy: Policy
    const outcome: nat -> Outcome
    const derive: string -> string
    var calls: seq<Request>

    constructor (policy: Policy, outcome: nat -> Outcome, derive: string -> string)
      ensures this.policy == policy && this.outcome == outcome && this.derive == derive && calls == []
    {
      this.policy, this.outcome, this.derive := policy, outcome, derive;
      calls := [];
    }

    /** Of the calls from the `first` on, no two reached the upstream. */
    ghost predicate AtMostOneReached(first: nat)
      reads this
    {
      forall j, k | first <= j < k < |calls| ::
        !(Reached(calls[j], policy, outcome(j)) && Reached(calls[k], policy, outcome(k)))
    }

    function ReplyTo(k: nat, req: Request): Response { Reply(req, policy, outcome(k), derive) }

    method Call(req: Request) returns (res: Response)
      modifies this`calls
      ensures calls == old(calls) + [req]
      ensures res == ReplyTo(|old(calls)|, req)
    {
      res := ReplyTo(|calls|, req);
      calls := calls + [req];
    }
  }

  const BAD_REQUEST: nat := 400

  /**
   A whole retry run. Every attempt but the last failed to connect, so at most
   one attempt reaches the upstream; all attempts carry the same parts and the
   client's data; a body that was not buffered is sent once. The result is the
   reply to the last attempt, which is the first that is not a connect failure
   unless the attempts are used up.
   */
  method Call(proxy: Proxy, attempts: nat, maxBuffer: nat, connect: bool, fields: Fields, body: FrameStream)
    returns (res: Response)
    requires attempts >= 1
    modifies proxy`calls, body
    ensures old(proxy.calls) <= proxy.calls
    ensures var first := |old(proxy.calls)|; var made := |proxy.calls| - first;
            if attempts > 1 && exists i :: BreaksEarly(old(body.rest), maxBuffer, i)
            then made == 0 && res.status == 400 && !IsRetryable(res)
            else
              && 1 <= made <= attempts
              && res == proxy.ReplyTo(|proxy.calls| - 1, proxy.calls[|proxy.calls| - 1])
              && (if attempts > 1 && |DataOf(old(body.rest))| > maxBuffer then made == 1
                  else made < attempts ==> !IsRetryable(res))
    ensures forall k | |old(proxy.calls)| <= k < |proxy.calls| - 1 ::
              IsRetryable(proxy.ReplyTo(k, proxy.calls[k])) && !Reached(proxy.calls[k], proxy.policy, proxy.outcome(k))
    ensures proxy.AtMostOneReached(|old(proxy.calls)|)
    ensures forall k | |old(proxy.calls)| <= k < |proxy.calls| ::
              && proxy.calls[k] == proxy.calls[|old(proxy.calls)|]
              && proxy.calls[k].connect == connect && proxy.calls[k].fields == fields
              && PayloadData(proxy.calls[k].payload) == DataOf(old(body.rest))
              && (PayloadErrorFree(proxy.calls[k].payload) <==> ErrorFree(old(body.rest)))
  {
    hide Reply, DataOf;
    if attempts == 1 {
      res := proxy.Call(Request(connect, fields, Stream(body.rest)));
      return;
    }
    var buffered := BufferBody(body, maxBuffer);
    match buffered {
      case ReadError =>
        res := Response(BAD_REQUEST, Http11, map[], None);
      case TooLarge(frames) =>
        res := proxy.Call(Request(connect, fields, Stream(frames)));
      case Complete(bytes) =>
        res := Replay(proxy, attempts, Request(connect, fields, Whole(bytes)));
    }
  }

  /** The attempt loop of `Call`. */
  method Replay(proxy: Proxy, attempts: nat, req: Request) returns (res: Response)
    requires attempts >= 1
    modifies proxy`calls
    ensures old(proxy.calls) <= proxy.calls
    ensures 1 <= |proxy.calls| - |old(proxy.calls)| <= attempts
    ensures res == proxy.ReplyTo(|proxy.calls| - 1, req)
    ensures |proxy.calls| - |old(proxy.calls)| < attempts ==> !IsRetryable(res)
    ensures forall k | |old(proxy.calls)| <= k < |proxy.calls| :: proxy.calls[k] == req
    ensures forall k | |old(proxy.calls)| <= k < |proxy.calls| - 1 ::
              IsRetryable(proxy.ReplyTo(k, req)) && !Reached(req, proxy.policy, proxy.outcome(k))
  {
    hide Reply;
    var attempt := 0;
    ghost var first := |proxy.calls|;
    while true
      invariant 0 <= attempt < attempts && |proxy.calls| == first + attempt
      invariant old(proxy.calls) <= proxy.calls
      invariant forall k | first <= k < |proxy.calls| :: proxy.calls[k] == req
      invariant forall k | first <= k < |proxy.calls| ::
                  IsRetryable(proxy.ReplyTo(k, req)) && !Reached(req, proxy.policy, proxy.outcome(k))
      decreases attempts - attempt
    {
      attempt := attempt + 1;
      res := proxy.Call(req);
      RetryableIffNotConnected(req, proxy.policy, proxy.outcome(|proxy.calls| - 1), proxy.derive);
      if !IsRetryable(res) || attempt >= attempts {
        return;
      }
    }
  }
}
