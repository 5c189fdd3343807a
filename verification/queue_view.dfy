/**
 The `get-queue`, `set-repeat` and `set-random` commands (beoutil/main.go):
 the rows the queue listing shows, and the words the commands accept and
 display for the queue's repeat and random modes.
 */
module QueueView {
  import opened Results
  import opened Strings
  import opened Models
  import Zone

  // ---------------------------------------------------------------------
  // Repeat and random words

  /** The word `get-queue` displays for a stored repeat value. */
  function RepeatWord(repeat: string): (r: string)
    ensures r in {"all", "current", "off", "unknown"}
    ensures r == "unknown" <==> repeat !in {RepeatAll, RepeatCurrentItem, RepeatOff}
    ensures r != "unknown" ==> ParseRepeat(r) == Some(repeat)
  {
    if repeat == RepeatAll then "all"
    else if repeat == RepeatCurrentItem then "current"
    else if repeat == RepeatOff then "off"
    else "unknown"
  }

  /** The word `get-queue` displays for a stored random value. */
  function RandomWord(random: string): (r: string)
    ensures r in {"on", "off", "unknown"}
    ensures r == "unknown" <==> random !in {RandomRandom, RandomOff}
    ensures r != "unknown" ==> ParseRandom(r) == Some(random)
  {
    if random == RandomRandom then "on"
    else if random == RandomOff then "off"
    else "unknown"
  }

  /** The value `set-repeat` sends for a word; None where it shows usage and exits. */
  function ParseRepeat(word: string): (r: Option<string>)
    ensures r.Some? <==> word in {"all", "current", "off"}
    ensures r.Some? ==> r.value in {RepeatAll, RepeatCurrentItem, RepeatOff}
  {
    if word == "all" then Some(RepeatAll)
    else if word == "current" then Some(RepeatCurrentItem)
    else if word == "off" then Some(RepeatOff)
    else None
  }

  /** The value `set-random` sends for a word; None where it shows usage and exits. */
  function ParseRandom(word: string): (r: Option<string>)
    ensures r.Some? <==> word in {"on", "off"}
    ensures r.Some? ==> r.value in {RandomRandom, RandomOff}
  {
    if word == "on" then Some(RandomRandom)
    else if word == "off" then Some(RandomOff)
    else None
  }

  /** A word `set-repeat` accepts is displayed back as that same word. */
  lemma RepeatWordRoundTrip(word: string)
    ensures ParseRepeat(word).Some? ==> RepeatWord(ParseRepeat(word).value) == word
  {
  }

  /** A stored repeat value is displayed as a word `set-repeat` maps back to it, unless it is shown as "unknown". */
  lemma RepeatValueRoundTrip(repeat: string)
    ensures RepeatWord(repeat) != "unknown" <==> repeat in {RepeatAll, RepeatCurrentItem, RepeatOff}
    ensures RepeatWord(repeat) != "unknown" ==> ParseRepeat(RepeatWord(repeat)) == Some(repeat)
    ensures ParseRepeat(RepeatWord(repeat)).None? <==> RepeatWord(repeat) == "unknown"
  {
  }

  lemma RandomWordRoundTrip(word: string)
    ensures ParseRandom(word).Some? ==> RandomWord(ParseRandom(word).value) == word
  {
  }

  lemma RandomValueRoundTrip(random: string)
    ensures RandomWord(random) != "unknown" <==> random in {RandomRandom, RandomOff}
    ensures RandomWord(random) != "unknown" ==> ParseRandom(RandomWord(random)) == Some(random)
    ensures ParseRandom(RandomWord(random)).None? <==> RandomWord(random) == "unknown"
  {
  }

  /** The request `set-repeat` sends, or None for a word it rejects. */
  function SetRepeatCommand(word: string): (r: Option<Zone.Request>)
    ensures r.Some? <==> ParseRepeat(word).Some?
    ensures r.Some? ==> r.value.Put? && r.value.body.QueueBody? && RepeatWord(r.value.body.queue.repeat) == word
  {
    match ParseRepeat(word)
    case Some(v) => Some(Zone.SetQueueRepeat(v))
    case None => None
  }

  /** The request `set-random` sends, or None for a word it rejects. */
  function SetRandomCommand(word: string): (r: Option<Zone.Request>)
    ensures r.Some? <==> ParseRandom(word).Some?
    ensures r.Some? ==> r.value.Put? && r.value.body.QueueBody? && RandomWord(r.value.body.queue.random) == word
  {
    match ParseRandom(word)
    case Some(v) => Some(Zone.SetQueueRandom(v))
    case None => None
  }

  // ---------------------------------------------------------------------
  // The listing

  /** One line of the listing: the play marker, the shown id, the track and its artist. */
  datatype Row = Row(marked: bool, id: string, track: string, artist: string)

  /**
   What `get-queue` shows: "Queue empty.", a crash on an item without a
   track, or the rows with the repeat and random words.
   */
  datatype View = QueueEmpty | NilTrackPanic | Listing(rows: seq<Row>, repeat: string, random: string)

  /** `get-queue` asks for the window offset -200, count 200; the negative offset is sent with its sign. */
  function GetQueueRequest(): (r: Zone.Request)
    ensures r.Get? && Zone.ParsePlayQueuePath(r.path) == Some((-200, 200))
    ensures '&' in r.path
  {
    Zone.PlayQueuePathRoundTrip(-200, 200);
    Zone.Get(Zone.PlayQueuePath(-200, 200))
  }

  /** The item treated as playing: `playNowId`, or the first item's id when the device left it empty. */
  function PlayingId(q: PlayQueue): (r: string)
    requires |q.items| > 0
    ensures q.playNowId != "" ==> r == q.playNowId
    ensures q.playNowId == "" ==> r == q.items[0].id
  {
    if q.playNowId == "" then q.items[0].id else q.playNowId
  }

  predicate AllHaveTracks(items: seq<PlayQueueItem>) {
    forall i :: 0 <= i < |items| ==> items[i].track.Some?
  }

  /** The line for one item: marked iff it is the playing one, its id shown without `plid-`. */
  function RowOf(item: PlayQueueItem, playing: string): (r: Row)
    requires item.track.Some?
    ensures r.marked <==> item.id == playing
    ensures Zone.ItemIdPrefix <= item.id ==> Zone.ItemIdPrefix + r.id == item.id
    ensures !(Zone.ItemIdPrefix <= item.id) ==> r.id == item.id
    ensures r.track == item.track.value.name && r.artist == item.track.value.artistName
  {
    Row(item.id == playing, TrimPrefix(item.id, Zone.ItemIdPrefix), item.track.value.name, item.track.value.artistName)
  }

  function Rows(items: seq<PlayQueueItem>, playing: string): (rows: seq<Row>)
    requires AllHaveTracks(items)
    ensures |rows| == |items|
    ensures forall i :: 0 <= i < |items| ==> (rows[i].marked <==> items[i].id == playing)
    ensures forall i :: 0 <= i < |items| && Zone.ItemIdPrefix <= items[i].id ==> Zone.ItemIdPrefix + rows[i].id == items[i].id
    ensures forall i :: 0 <= i < |items| && !(Zone.ItemIdPrefix <= items[i].id) ==> rows[i].id == items[i].id
    ensures forall i :: 0 <= i < |items| ==> rows[i].track == items[i].track.value.name && rows[i].artist == items[i].track.value.artistName
  {
    seq(|items|, i requires 0 <= i < |items| && AllHaveTracks(items) => RowOf(items[i], playing))
  }

  /** `doGetQueue` on the queue the device returned. */
  function GetQueue(q: PlayQueue): (v: View)
    ensures v == QueueEmpty <==> |q.items| == 0
    ensures v == NilTrackPanic <==> |q.items| > 0 && !AllHaveTracks(q.items)
    ensures v.Listing? ==> |v.rows| == |q.items|
    ensures v.Listing? ==> v.repeat == RepeatWord(q.repeat) && v.random == RandomWord(q.random)
  {
    if |q.items| == 0 then QueueEmpty
    else if !AllHaveTracks(q.items) then NilTrackPanic
    else Listing(Rows(q.items, PlayingId(q)), RepeatWord(q.repeat), RandomWord(q.random))
  }

  /**
   The marker sits on exactly the rows whose item is playing; when the device
   left `playNowId` empty, the first row is marked.
   */
  lemma MarkerOnPlayingItem(q: PlayQueue, i: nat)
    requires GetQueue(q).Listing? && i < |q.items|
    ensures GetQueue(q).rows[i].marked <==> q.items[i].id == (if q.playNowId == "" then q.items[0].id else q.playNowId)
    ensures q.playNowId == "" ==> GetQueue(q).rows[0].marked
  {
  }

  /**
   Each row shows its item's track and artist, and its id with `plid-`
   trimmed; passing that id to remove or play-queue-item addresses the same
   item again.
   */
  lemma ShownRowAddressesItem(q: PlayQueue, i: nat)
    requires GetQueue(q).Listing? && i < |q.items|
    requires Zone.ItemIdPrefix <= q.items[i].id
    ensures var row := GetQueue(q).rows[i];
      && row.track == q.items[i].track.value.name
      && row.artist == q.items[i].track.value.artistName
      && Zone.ItemIdPrefix + row.id == q.items[i].id
      && Zone.RemoveQueueItem(row.id).path == Zone.PlayQueueBase + q.items[i].id
      && Zone.PlayQueueItemRequest(row.id).body.playQueueItemId == q.items[i].id
  {
    Zone.ShownIdRoundTrip(q.items[i].id);
  }

  /** An id the device sent without the prefix is shown unchanged. */
  lemma UnprefixedIdShownAsIs(q: PlayQueue, i: nat)
    requires GetQueue(q).Listing? && i < |q.items|
    requires !(Zone.ItemIdPrefix <= q.items[i].id)
    ensures GetQueue(q).rows[i].id == q.items[i].id
  {
  }
}
