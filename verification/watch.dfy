/**
 The `watch-notifications` command (beoutil/main.go): open the product's
 notification stream, print every event, reconnect when the product ends
 the stream, and return when the stream cannot be opened or the channel
 closes. Each connection attempt's response is an input; decoding an event's
 value into a notification is a given function.
 */
module Watch {
  import opened Results
  import opened Models
  import Rest

  /** What the loop does, in order: the lines it prints and how it ends. */
  datatype Action =
    | Reconnecting
    | PrintError(eventErr: Rest.EventError)
    | PrintDecodeError(decodeErr: Error)
    | PrintNotification(n: Notification)
    | Return(result: Option<Rest.Failure>)

  type Decoder = seq<bv8> -> Result<Notification, Error>

  /** What one non-EOF event prints. */
  function PrintFor(e: Rest.Event, decode: Decoder): (a: Action)
    requires !Rest.IsEofEvent(e)
    ensures a.PrintError? <==> e.err.Some?
    ensures a.PrintNotification? <==> e.err.None? && decode(e.value).Ok?
  {
    match e.err
    case Some(err) => PrintError(err)
    case None =>
      match decode(e.value)
      case Err(err) => PrintDecodeError(err)
      case Ok(n) => PrintNotification(n)
  }

  /** The actions taken for one channel, and whether the loop goes back to reopen it. */
  datatype Consumed = Consumed(actions: seq<Action>, reconnect: bool)

  /**
   The `for event := range events` loop over the events a channel delivers;
   `closed` says whether the channel is closed after them.
   */
  function Consume(events: seq<Rest.Event>, closed: bool, decode: Decoder): (c: Consumed)
    ensures c.reconnect ==> |c.actions| > 0 && c.actions[|c.actions| - 1] == Reconnecting
    ensures forall k :: 0 <= k < |c.actions| - 1 ==> c.actions[k] != Reconnecting && !c.actions[k].Return?
    ensures |c.actions| > 0 && c.actions[|c.actions| - 1].Return? ==> c.actions[|c.actions| - 1] == Return(None) && closed
    decreases |events|
  {
    if |events| == 0 then Consumed(if closed then [Return(None)] else [], false)
    else if Rest.IsEofEvent(events[0]) then Consumed([Reconnecting], true)
    else
      var rest := Consume(events[1..], closed, decode);
      Consumed([PrintFor(events[0], decode)] + rest.actions, rest.reconnect)
  }

  predicate NoEof(events: seq<Rest.Event>) {
    forall k :: 0 <= k < |events| ==> !Rest.IsEofEvent(events[k])
  }

  /** The k-th action is the print of the k-th event, when no earlier event is EOF. */
  lemma {:induction false} ConsumeActionAt(events: seq<Rest.Event>, closed: bool, decode: Decoder, j: nat, k: nat)
    requires k < j <= |events|
    requires forall n :: 0 <= n < j ==> !Rest.IsEofEvent(events[n])
    ensures |Consume(events, closed, decode).actions| > k
    ensures Consume(events, closed, decode).actions[k] == PrintFor(events[k], decode)
    decreases k
  {
    assert !Rest.IsEofEvent(events[0]);
    if k > 0 {
      var tail := events[1..];
      assert forall n :: 0 <= n < j - 1 ==> tail[n] == events[n + 1];
      ConsumeActionAt(tail, closed, decode, j - 1, k - 1);
      assert tail[k - 1] == events[k];
    }
  }

  /** An EOF at position j, with none before it, ends the loop with a reconnect as action j. */
  lemma {:induction false} ConsumeReconnects(events: seq<Rest.Event>, closed: bool, decode: Decoder, j: nat)
    requires j < |events| && Rest.IsEofEvent(events[j])
    requires forall n :: 0 <= n < j ==> !Rest.IsEofEvent(events[n])
    ensures Consume(events, closed, decode).reconnect
    ensures |Consume(events, closed, decode).actions| == j + 1
    decreases j
  {
    if j > 0 {
      var tail := events[1..];
      assert !Rest.IsEofEvent(events[0]);
      assert forall n :: 0 <= n < j - 1 ==> tail[n] == events[n + 1];
      assert tail[j - 1] == events[j];
      ConsumeReconnects(tail, closed, decode, j - 1);
    }
  }

  /** Without EOF the loop runs until the channel closes, and then returns nil. */
  lemma {:induction false} ConsumeCloses(events: seq<Rest.Event>, closed: bool, decode: Decoder)
    requires NoEof(events)
    ensures !Consume(events, closed, decode).reconnect
    ensures |Consume(events, closed, decode).actions| == |events| + (if closed then 1 else 0)
    ensures closed ==> Consume(events, closed, decode).actions[|events|] == Return(None)
    decreases |events|
  {
    if |events| > 0 {
      var tail := events[1..];
      assert !Rest.IsEofEvent(events[0]);
      assert forall n :: 0 <= n < |tail| ==> tail[n] == events[n + 1];
      ConsumeCloses(tail, closed, decode);
      var rest := Consume(tail, closed, decode);
      assert Consume(events, closed, decode).actions == [PrintFor(events[0], decode)] + rest.actions;
    }
  }

  /**
   Every event before the first EOF is printed, one action each, in order,
   and the loop stays on the channel; at EOF it reconnects; a channel that
   closes without EOF ends the command with nil.
   */
  lemma ConsumeEvents(events: seq<Rest.Event>, closed: bool, decode: Decoder, j: nat)
    requires j <= |events| && NoEof(events[..j])
    requires j == |events| || Rest.IsEofEvent(events[j])
    ensures var c := Consume(events, closed, decode);
      && |c.actions| >= j
      && (forall k :: 0 <= k < j ==> c.actions[k] == PrintFor(events[k], decode))
      && (j < |events| ==> c.reconnect && |c.actions| == j + 1)
      && (j == |events| ==> !c.reconnect && c.actions[j..] == (if closed then [Return(None)] else []))
  {
    forall n | 0 <= n < j
      ensures !Rest.IsEofEvent(events[n])
    {
      assert events[..j][n] == events[n];
    }
    if j < |events| {
      ConsumeReconnects(events, closed, decode, j);
    } else {
      assert events[..j] == events;
      ConsumeCloses(events, closed, decode);
      var c := Consume(events, closed, decode);
      assert c.actions[j..] == (if closed then [Return(None)] else []);
    }
    forall k | 0 <= k < j
      ensures Consume(events, closed, decode).actions[k] == PrintFor(events[k], decode)
    {
      ConsumeActionAt(events, closed, decode, j, k);
    }
  }

  /** The whole command over the responses to its successive open attempts. */
  function WatchNotifications(attempts: seq<Rest.StreamResponse>, decode: Decoder): (trace: seq<Action>)
    ensures forall k :: 0 <= k < |trace| - 1 ==> !trace[k].Return?
    ensures |attempts| > 0 && Rest.OpenEventStream(attempts[0]).OpenFailed? ==>
      trace == [Return(Some(Rest.OpenEventStream(attempts[0]).failure))]
    decreases |attempts|
  {
    if |attempts| == 0 then []
    else
      match Rest.OpenEventStream(attempts[0])
      case OpenFailed(f, _) => [Return(Some(f))]
      case Streaming(p) =>
        var c := Consume(p.events, p.channelClosed, decode);
        if c.reconnect then c.actions + WatchNotifications(attempts[1..], decode) else c.actions
  }

  /** The trace of an attempt that opened: its consumed actions, then the next attempts if it reconnects. */
  lemma OpenedTrace(code: int, status: string, outcomes: seq<Rest.Decoded>, cancelAt: Option<nat>, more: seq<Rest.StreamResponse>, decode: Decoder)
    requires Rest.IsSuccess(code)
    ensures var p := Rest.ProcessEvents(outcomes, cancelAt);
      var c := Consume(p.events, p.channelClosed, decode);
      WatchNotifications([Rest.StreamReceived(code, status, outcomes, cancelAt)] + more, decode)
        == c.actions + (if c.reconnect then WatchNotifications(more, decode) else [])
  {
    var attempts := [Rest.StreamReceived(code, status, outcomes, cancelAt)] + more;
    assert attempts[1..] == more;
    assert Rest.OpenEventStream(attempts[0]) == Rest.Streaming(Rest.ProcessEvents(outcomes, cancelAt));
  }

  /** The events of a stream that ends at EOF attempt `j`: one per earlier attempt, then EOF. */
  lemma EofEvents(outcomes: seq<Rest.Decoded>, j: nat)
    requires j < |outcomes| && outcomes[j].EndOfStream?
    requires forall k :: 0 <= k < j ==> !outcomes[k].EndOfStream?
    ensures var p := Rest.ProcessEvents(outcomes, None);
      && p.channelClosed && |p.events| == j + 1
      && (forall k :: 0 <= k <= j ==> p.events[k] == Rest.EventOf(outcomes[k]))
  {
    var p := Rest.ProcessEvents(outcomes, None);
    Rest.ProcessFromEvents(outcomes, None, 0);
    Rest.ProcessFromEnds(outcomes, None, 0);
    var last := |p.events| - 1;
    assert p.events[last] == Rest.EventOf(outcomes[last]);
  }

  /** The events of a stream without EOF cancelled at attempt `c`: one per earlier attempt. */
  lemma CancelledEvents(outcomes: seq<Rest.Decoded>, c: nat)
    requires c < |outcomes|
    requires forall k :: 0 <= k < |outcomes| ==> !outcomes[k].EndOfStream?
    ensures var p := Rest.ProcessEvents(outcomes, Some(c));
      && p.channelClosed && |p.events| == c
      && (forall k :: 0 <= k < c ==> p.events[k] == Rest.EventOf(outcomes[k]))
  {
    Rest.ProcessFromEvents(outcomes, Some(c), 0);
    Rest.ProcessFromEnds(outcomes, Some(c), 0);
  }

  /** Events that are decode outcomes other than EOF hold no EOF event. */
  lemma NoEofEvents(events: seq<Rest.Event>, outcomes: seq<Rest.Decoded>, j: nat)
    requires j <= |events| && j <= |outcomes|
    requires forall k :: 0 <= k < j ==> events[k] == Rest.EventOf(outcomes[k]) && !outcomes[k].EndOfStream?
    ensures NoEof(events[..j])
  {
    forall k | 0 <= k < j
      ensures !Rest.IsEofEvent(events[..j][k])
    {
      assert events[..j][k] == Rest.EventOf(outcomes[k]);
    }
  }

  /**
   A stream the product ends cleanly (EOF, no cancellation): every value before
   it is printed, then "[Reconnecting...]", then the next attempt runs.
   */
  lemma EofReconnects(code: int, status: string, outcomes: seq<Rest.Decoded>, j: nat, more: seq<Rest.StreamResponse>, decode: Decoder)
    requires Rest.IsSuccess(code)
    requires j < |outcomes| && outcomes[j].EndOfStream?
    requires forall k :: 0 <= k < j ==> !outcomes[k].EndOfStream?
    ensures var trace := WatchNotifications([Rest.StreamReceived(code, status, outcomes, None)] + more, decode);
      && |trace| >= j + 1
      && (forall k :: 0 <= k < j ==> trace[k] == PrintFor(Rest.EventOf(outcomes[k]), decode))
      && trace[j] == Reconnecting
      && trace[j + 1..] == WatchNotifications(more, decode)
  {
    var p := Rest.ProcessEvents(outcomes, None);
    EofEvents(outcomes, j);
    NoEofEvents(p.events, outcomes, j);
    ConsumeEvents(p.events, true, decode, j);
    OpenedTrace(code, status, outcomes, None, more, decode);
    var c := Consume(p.events, true, decode);
    var trace := WatchNotifications([Rest.StreamReceived(code, status, outcomes, None)] + more, decode);
    assert trace == c.actions + WatchNotifications(more, decode);
    assert |c.actions| == j + 1;
  }

  /**
   A stream without EOF whose context is cancelled at decode attempt `c`:
   the events before it are printed and the command returns nil when the
   channel closes.
   */
  lemma CancelledStreamReturnsNil(code: int, status: string, outcomes: seq<Rest.Decoded>, c: nat, more: seq<Rest.StreamResponse>, decode: Decoder)
    requires Rest.IsSuccess(code) && c < |outcomes|
    requires forall k :: 0 <= k < |outcomes| ==> !outcomes[k].EndOfStream?
    ensures var trace := WatchNotifications([Rest.StreamReceived(code, status, outcomes, Some(c))] + more, decode);
      && |trace| == c + 1
      && (forall k :: 0 <= k < c ==> trace[k] == PrintFor(Rest.EventOf(outcomes[k]), decode))
      && trace[c] == Return(None)
  {
    var p := Rest.ProcessEvents(outcomes, Some(c));
    CancelledEvents(outcomes, c);
    NoEofEvents(p.events, outcomes, c);
    ConsumeEvents(p.events, true, decode, c);
    OpenedTrace(code, status, outcomes, Some(c), more, decode);
    var actions := Consume(p.events, true, decode).actions;
    assert actions[c..] == [Return(None)];
    assert |actions| == c + 1 && actions[c] == Return(None);
  }
}
