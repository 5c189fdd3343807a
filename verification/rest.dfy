/**
 The JSON REST client (clients/rest/rest.go): classifying a response,
 rendering `HttpError`, and the goroutine that turns a notification stream
 into events. The transport, the body reader and the JSON decoder are
 replaced by their outcomes, given as inputs.
 */
module Rest {
  import opened Results
  import opened Strings

  // ---------------------------------------------------------------------
  // Status classification and HttpError

  /** Both `doRequest` and `OpenEventStream` accept exactly the 2xx codes. */
  predicate IsSuccess(code: int)
    ensures IsSuccess(code) <==> 200 <= code <= 299
  {
    !(code < 200 || code > 299)
  }

  /** Why a request failed. */
  datatype Failure =
    | Transport(err: Error)            // client.Do failed
    | ReadFailed(err: Error)           // reading the body failed
    | Api(err: Error)                  // the device's own ErrorResponse
    | Http(code: int, status: string)  // HttpError

  const HttpErrorPrefix := "status "

  /** `HttpError.Error`: "status <code>: <status text>". */
  function HttpErrorText(code: int, status: string): (r: string)
    ensures HttpErrorPrefix <= r
  {
    HttpErrorPrefix + Itoa(code) + ": " + status
  }

  /** Reads the code and status text back from an `HttpError` message. */
  function ParseHttpErrorText(s: string): Option<(int, string)> {
    if !(HttpErrorPrefix <= s) then None
    else
      match SplitFirst(s[|HttpErrorPrefix|..], ':')
      case None => None
      case Some(kv) =>
        match ParseInt(kv.0)
        case None => None
        case Some(n) => if |kv.1| > 0 && kv.1[0] == ' ' then Some((n, kv.1[1..])) else None
  }

  /** The message names the code and the status text exactly, even when the text holds ':'. */
  lemma HttpErrorTextRoundTrip(code: int, status: string)
    ensures ParseHttpErrorText(HttpErrorText(code, status)) == Some((code, status))
  {
    var r := HttpErrorText(code, status);
    var rest := r[|HttpErrorPrefix|..];
    var digits := Itoa(code);
    assert rest == digits + [':'] + (" " + status);
    ItoaLacks(code, ':');
    assert rest[|digits|] == ':';
    assert forall i :: 0 <= i < |digits| ==> rest[i] == digits[i];
    assert IndexOf(rest, ':') == |digits|;
    assert rest[..|digits|] == digits;
    assert rest[|digits| + 1..] == " " + status;
    ItoaRoundTrip(code);
    assert (" " + status)[1..] == status;
  }

  function FailureText(f: Failure): string {
    match f
    case Transport(e) => e.text
    case ReadFailed(e) => e.text
    case Api(e) => e.text
    case Http(code, status) => HttpErrorText(code, status)
  }

  // ---------------------------------------------------------------------
  // doRequest

  /** What `io.ReadAll` gave for the body. */
  datatype Body = BodyRead(bytes: seq<bv8>) | BodyFailed(err: Error)

  /**
   What the transport produced: an error, or a response with its status, its
   body, and the device error that unmarshalling the body as an
   `ErrorResponse` yields (None when it does not parse).
   */
  datatype Response =
    | NoResponse(err: Error)
    | Received(code: int, status: string, body: Body, apiError: Option<Error>)

  /** The result of `doRequest` and whether the response body was closed. */
  datatype Completed = Completed(result: Result<seq<bv8>, Failure>, bodyClosed: bool)

  /** The error classification shared by both versions of `doRequest`. */
  function Classify(code: int, status: string, bytes: seq<bv8>, apiError: Option<Error>): (r: Result<seq<bv8>, Failure>)
    ensures r.Ok? <==> IsSuccess(code)
    ensures r.Ok? ==> r.value == bytes
    ensures r.Err? && r.error.Api? <==> !IsSuccess(code) && |bytes| > 0 && apiError.Some?
    ensures r.Err? && !r.error.Api? ==> r.error == Http(code, status)
  {
    if code < 200 || code > 299 then
      if |bytes| > 0 && apiError.Some? then Err(Api(apiError.value))
      else Err(Http(code, status))
    else Ok(bytes)
  }

  /**
   `doRequest` as written: the `defer` that closes the body is registered only
   after the body has been read, so a failed read leaves it open.
   */
  function DoRequestAsWritten(resp: Response): (c: Completed)
    ensures resp.NoResponse? ==> c == Completed(Err(Transport(resp.err)), false)
    ensures resp.Received? && resp.body.BodyFailed? ==> c.result == Err(ReadFailed(resp.body.err))
    ensures c.bodyClosed <==> resp.Received? && resp.body.BodyRead?
  {
    match resp
    case NoResponse(e) => Completed(Err(Transport(e)), false)
    case Received(code, status, body, apiError) =>
      match body
      case BodyFailed(e) => Completed(Err(ReadFailed(e)), false)
      case BodyRead(bytes) => Completed(Classify(code, status, bytes, apiError), true)
  }

  /** `doRequest` closing the body of every response it received. */
  function DoRequest(resp: Response): (c: Completed)
    ensures resp.NoResponse? ==> c == Completed(Err(Transport(resp.err)), false)
    ensures resp.Received? && resp.body.BodyFailed? ==> c.result == Err(ReadFailed(resp.body.err))
    ensures c.bodyClosed <==> resp.Received?
    ensures c.result.Ok? <==> resp.Received? && resp.body.BodyRead? && IsSuccess(resp.code)
  {
    match resp
    case NoResponse(e) => Completed(Err(Transport(e)), false)
    case Received(code, status, body, apiError) =>
      match body
      case BodyFailed(e) => Completed(Err(ReadFailed(e)), true)
      case BodyRead(bytes) => Completed(Classify(code, status, bytes, apiError), true)
  }

  /** A response whose body cannot be read is left open as written, and closed once corrected; the result is the same. */
  lemma ReadFailureLeavesBodyOpen(code: int, status: string, e: Error, apiError: Option<Error>)
    ensures !DoRequestAsWritten(Received(code, status, BodyFailed(e), apiError)).bodyClosed
    ensures DoRequest(Received(code, status, BodyFailed(e), apiError)).bodyClosed
    ensures DoRequest(Received(code, status, BodyFailed(e), apiError)).result
      == DoRequestAsWritten(Received(code, status, BodyFailed(e), apiError)).result
  {
  }

  /** Both versions agree on every result; they differ only in closing. */
  lemma DoRequestSameResult(resp: Response)
    ensures DoRequest(resp).result == DoRequestAsWritten(resp).result
    ensures DoRequestAsWritten(resp).bodyClosed ==> DoRequest(resp).bodyClosed
  {
  }

  /** An empty error body, or one that does not parse, is reported as an `HttpError` naming the status. */
  lemma UnparsedErrorBodyIsHttpError(code: int, status: string, bytes: seq<bv8>, apiError: Option<Error>)
    requires !IsSuccess(code) && (|bytes| == 0 || apiError.None?)
    ensures DoRequest(Received(code, status, BodyRead(bytes), apiError)).result == Err(Http(code, status))
    ensures ParseHttpErrorText(FailureText(Http(code, status))) == Some((code, status))
  {
    HttpErrorTextRoundTrip(code, status);
  }

  // ---------------------------------------------------------------------
  // processEvents

  /** One result of `Decoder.Decode`. */
  datatype Decoded = Value(raw: seq<bv8>) | EndOfStream | DecodeFailed(err: Error)

  /** An `Event`: the raw value (empty on failure) and the decode error, if any. */
  datatype EventError = Eof | Other(err: Error)
  datatype Event = Event(value: seq<bv8>, err: Option<EventError>)

  function EventOf(d: Decoded): (e: Event)
    ensures e.err == Some(Eof) <==> d.EndOfStream?
    ensures e.err.None? <==> d.Value?
  {
    match d
    case Value(raw) => Event(raw, None)
    case EndOfStream => Event([], Some(Eof))
    case DecodeFailed(err) => Event([], Some(Other(err)))
  }

  /**
   The goroutine's run: the events sent, and whether it returned (closing the
   channel and the body). It does not return while the script has no more
   outcomes: Decode is then still waiting for data.
   */
  datatype Produced = Produced(events: seq<Event>, channelClosed: bool, bodyClosed: bool)

  /**
   `processEvents` from decode attempt `i` on. `cancelAt == Some(c)` means the
   context is done when attempt `c` has been decoded, and the select takes the
   cancellation, dropping that outcome.
   */
  function ProcessFrom(outcomes: seq<Decoded>, cancelAt: Option<nat>, i: nat): (p: Produced)
    requires i <= |outcomes|
    ensures |p.events| <= |outcomes| - i
    ensures p.channelClosed == p.bodyClosed
    decreases |outcomes| - i
  {
    if i == |outcomes| then Produced([], false, false)
    else if cancelAt == Some(i) then Produced([], true, true)
    else if outcomes[i].EndOfStream? then Produced([EventOf(outcomes[i])], true, true)
    else
      var rest := ProcessFrom(outcomes, cancelAt, i + 1);
      Produced([EventOf(outcomes[i])] + rest.events, rest.channelClosed, rest.bodyClosed)
  }

  /**
   `processEvents` on the whole body: the channel is closed only after an EOF
   event or at the cancellation point, and the body is closed with it.
   */
  function ProcessEvents(outcomes: seq<Decoded>, cancelAt: Option<nat>): (p: Produced)
    ensures |p.events| <= |outcomes|
    ensures p.channelClosed == p.bodyClosed
    ensures p.channelClosed ==> (|p.events| > 0 && IsEofEvent(p.events[|p.events| - 1])) || cancelAt == Some(|p.events|)
    ensures !p.channelClosed ==> |p.events| == |outcomes|
  {
    ProcessFromEnds(outcomes, cancelAt, 0);
    ProcessFrom(outcomes, cancelAt, 0)
  }

  predicate IsEofEvent(e: Event) {
    e.err == Some(Eof)
  }

  /**
   One event per decode attempt, in decode order; an EOF event, if any, is the
   last one; nothing is sent at or after the cancellation point.
   */
  lemma {:induction false} ProcessFromEvents(outcomes: seq<Decoded>, cancelAt: Option<nat>, i: nat)
    requires i <= |outcomes|
    ensures var p := ProcessFrom(outcomes, cancelAt, i);
      && (forall k :: 0 <= k < |p.events| ==> p.events[k] == EventOf(outcomes[i + k]))
      && (forall k :: i <= k < i + |p.events| - 1 ==> !outcomes[k].EndOfStream?)
      && (cancelAt.Some? && i <= cancelAt.value ==> i + |p.events| <= cancelAt.value)
    decreases |outcomes| - i
  {
    if i < |outcomes| && cancelAt != Some(i) && !outcomes[i].EndOfStream? {
      ProcessFromEvents(outcomes, cancelAt, i + 1);
      var rest := ProcessFrom(outcomes, cancelAt, i + 1);
      var p := ProcessFrom(outcomes, cancelAt, i);
      assert p.events == [EventOf(outcomes[i])] + rest.events;
      assert |p.events| == 1 + |rest.events|;
      forall k | 0 <= k < |p.events|
        ensures p.events[k] == EventOf(outcomes[i + k])
      {
        ProcessFromEventAt(outcomes, cancelAt, i, k);
      }
      forall k | i <= k < i + |p.events| - 1
        ensures !outcomes[k].EndOfStream?
      {
        if k > i {
          assert i + 1 <= k < i + 1 + |rest.events| - 1;
        }
      }
    }
  }

  /** The k-th event sent from attempt `i` on is the outcome of attempt i + k. */
  lemma {:induction false} ProcessFromEventAt(outcomes: seq<Decoded>, cancelAt: Option<nat>, i: nat, k: nat)
    requires i <= |outcomes| && k < |ProcessFrom(outcomes, cancelAt, i).events|
    ensures i + k < |outcomes|
    ensures ProcessFrom(outcomes, cancelAt, i).events[k] == EventOf(outcomes[i + k])
    decreases k
  {
    if k > 0 {
      ProcessFromEventAt(outcomes, cancelAt, i + 1, k - 1);
    }
  }

  /**
   The loop returns only on EOF or cancellation: a closed channel means the
   last event was EOF or the context was done at the next attempt; an open
   one means every outcome was delivered and none was EOF.
   */
  lemma {:induction false} ProcessFromEnds(outcomes: seq<Decoded>, cancelAt: Option<nat>, i: nat)
    requires i <= |outcomes|
    ensures var p := ProcessFrom(outcomes, cancelAt, i);
      && (p.channelClosed ==>
          (|p.events| > 0 && IsEofEvent(p.events[|p.events| - 1])) || cancelAt == Some(i + |p.events|))
      && (!p.channelClosed ==> i + |p.events| == |outcomes| && forall k :: i <= k < |outcomes| ==> !outcomes[k].EndOfStream?)
    decreases |outcomes| - i
  {
    var p := ProcessFrom(outcomes, cancelAt, i);
    if i == |outcomes| {
      assert p.events == [];
    } else if cancelAt == Some(i) {
      assert p.events == [];
    } else if outcomes[i].EndOfStream? {
      assert p.events == [EventOf(outcomes[i])];
    } else {
      ProcessFromEnds(outcomes, cancelAt, i + 1);
      var rest := ProcessFrom(outcomes, cancelAt, i + 1);
      assert p.events == [EventOf(outcomes[i])] + rest.events;
      assert p.channelClosed == rest.channelClosed;
      if |rest.events| > 0 {
        assert p.events[|p.events| - 1] == rest.events[|rest.events| - 1];
      }
    }
  }

  /** Without EOF and without cancellation every outcome, errors included, becomes an event and the loop keeps waiting. */
  lemma ErrorsDoNotEndTheLoop(outcomes: seq<Decoded>)
    requires forall k :: 0 <= k < |outcomes| ==> !outcomes[k].EndOfStream?
    ensures |ProcessEvents(outcomes, None).events| == |outcomes|
    ensures !ProcessEvents(outcomes, None).channelClosed
  {
    ProcessFromEnds(outcomes, None, 0);
    ProcessFromEvents(outcomes, None, 0);
  }

  // ---------------------------------------------------------------------
  // OpenEventStream

  /** What the product sent back to the stream request. */
  datatype StreamResponse =
    | StreamNoResponse(err: Error)
    | StreamReceived(code: int, status: string, outcomes: seq<Decoded>, cancelAt: Option<nat>)

  datatype Opened =
    | OpenFailed(failure: Failure, bodyClosed: bool)
    | Streaming(produced: Produced)

  /** `OpenEventStream`: a non-2xx response is closed and reported; otherwise the goroutine runs on the body. */
  function OpenEventStream(resp: StreamResponse): (o: Opened)
    ensures o.Streaming? <==> resp.StreamReceived? && IsSuccess(resp.code)
    ensures resp.StreamReceived? && !IsSuccess(resp.code) ==> o == OpenFailed(Http(resp.code, resp.status), true)
    ensures resp.StreamNoResponse? ==> o == OpenFailed(Transport(resp.err), false)
  {
    match resp
    case StreamNoResponse(e) => OpenFailed(Transport(e), false)
    case StreamReceived(code, status, outcomes, cancelAt) =>
      if code < 200 || code > 299 then OpenFailed(Http(code, status), true)
      else Streaming(ProcessEvents(outcomes, cancelAt))
  }
}
