/**
 The play-queue requests of the BeoZone client (clients/beoremote/beozone.go):
 the path each one builds and the body it sends. A request is returned as a
 value instead of being sent; paths are relative to the product's base URL.
 */
module Zone {
  import opened Results
  import opened Strings
  import opened Models

  const PlayQueueBase := "/BeoZone/Zone/PlayQueue/"
  const PlayPointerPath := "/BeoZone/Zone/PlayQueue/PlayPointer"
  /** `ClearPlayQueue` deletes the queue path WITHOUT the trailing slash. */
  const ClearPath := "/BeoZone/Zone/PlayQueue"
  const ItemIdPrefix := "plid-"

  /** The `When` values with a meaning of their own; any other value appends at the end. */
  const Now := "now"
  const Next := "next"

  datatype Body =
    | NoBody
    | ItemBody(item: PlayQueueItem)
    | QueueBody(queue: PlayQueue)
    | PointerBody(playQueueItemId: string, position: int)

  datatype Request = Get(path: string) | Post(path: string, body: Body) | Put(path: string, body: Body) | Delete(path: string)

  // ---------------------------------------------------------------------
  // GetPlayQueue

  /** The path `GetPlayQueue(offset, count)` requests. */
  function PlayQueuePath(offset: int, count: int): (r: string)
    ensures PlayQueueBase <= r
    ensures offset == 0 && count == 0 ==> r == PlayQueueBase
    ensures '?' in r <==> offset != 0 || count != 0
    ensures '&' in r <==> offset != 0 && count != 0
  {
    var question := if offset != 0 || count != 0 then "?" else "";
    var off := if offset != 0 then Param("offset", Itoa(offset)) else "";
    var amp := if offset != 0 && count != 0 then "&" else "";
    var cnt := if count != 0 then Param("count", Itoa(count)) else "";
    ItoaLacks(offset, '?');
    ItoaLacks(count, '?');
    ItoaLacks(offset, '&');
    ItoaLacks(count, '&');
    PlayQueueBase + question + off + amp + cnt
  }

  /** The parameters of a play-queue path: the `&`-separated list after '?'. */
  function QueryParams(path: string): seq<string>
    requires PlayQueueBase <= path
  {
    var rest := path[|PlayQueueBase|..];
    if |rest| > 0 && rest[0] == '?' then Split(rest[1..], '&') else []
  }

  /** Reads offset and count back from a play-queue path; an absent parameter reads as 0. */
  function ParsePlayQueuePath(path: string): Option<(int, int)> {
    if !(PlayQueueBase <= path) then None
    else
      var rest := path[|PlayQueueBase|..];
      if rest == [] then Some((0, 0))
      else if rest[0] != '?' then None
      else Some((IntParam(QueryParams(path), "offset"), IntParam(QueryParams(path), "count")))
  }

  lemma SplitSingle(s: string, sep: char)
    requires sep !in s
    ensures Split(s, sep) == [s]
  {
  }

  lemma ParamRead(key: string, other: string, n: int)
    requires |key| > 0 && |other| > 0 && key[0] != other[0]
    ensures IntParam([Param(key, Itoa(n))], key) == n
    ensures !HasKey(Param(key, Itoa(n)), other)
  {
    ItoaRoundTrip(n);
    var p := Param(key, Itoa(n));
    assert p[|key| + 1..] == Itoa(n);
    assert (key + "=") <= p;
    assert p[0] == key[0] && (other + "=")[0] == other[0];
  }

  /** A path with both parameters lists them in order. */
  lemma TwoParamQuery(o: string, c: string)
    requires '&' !in o && '&' !in c
    ensures QueryParams(PlayQueueBase + "?" + o + "&" + c) == [o, c]
  {
    var path := PlayQueueBase + "?" + o + "&" + c;
    assert path[|PlayQueueBase|..] == "?" + o + "&" + c;
    assert ("?" + o + "&" + c)[1..] == Join([o, c], '&');
    SplitJoin([o, c], '&');
  }

  /** Both parameters present: `offset=` first, then `count=`. */
  lemma BothParamsRoundTrip(offset: int, count: int)
    requires offset != 0 && count != 0
    ensures QueryParams(PlayQueuePath(offset, count)) == [Param("offset", Itoa(offset)), Param("count", Itoa(count))]
  {
    var o := Param("offset", Itoa(offset));
    var c := Param("count", Itoa(count));
    assert PlayQueuePath(offset, count) == PlayQueueBase + "?" + o + "&" + c;
    ParamLacksAmpersand("offset", offset);
    ParamLacksAmpersand("count", count);
    TwoParamQuery(o, c);
  }

  /** A path with a single parameter lists exactly that parameter. */
  lemma SingleParamQuery(p: string)
    requires '&' !in p
    ensures QueryParams(PlayQueueBase + "?" + p) == [p]
  {
    var path := PlayQueueBase + "?" + p;
    assert path[|PlayQueueBase|..] == "?" + p;
    assert ("?" + p)[1..] == p;
    SplitSingle(p, '&');
  }

  /** A rendered parameter holds no '&'. */
  lemma ParamLacksAmpersand(key: string, n: int)
    requires '&' !in key
    ensures '&' !in Param(key, Itoa(n))
  {
    ItoaLacks(n, '&');
  }

  /** Exactly one parameter present. */
  lemma OneParamRoundTrip(offset: int, count: int)
    requires (offset != 0) != (count != 0)
    ensures QueryParams(PlayQueuePath(offset, count)) ==
      [if offset != 0 then Param("offset", Itoa(offset)) else Param("count", Itoa(count))]
  {
    if offset != 0 {
      var p := Param("offset", Itoa(offset));
      assert PlayQueuePath(offset, count) == PlayQueueBase + "?" + p;
      ParamLacksAmpersand("offset", offset);
      SingleParamQuery(p);
    } else {
      var p := Param("count", Itoa(count));
      assert PlayQueuePath(offset, count) == PlayQueueBase + "?" + p;
      ParamLacksAmpersand("count", count);
      SingleParamQuery(p);
    }
  }

  /** The path round-trips: offset and count are read back exactly. */
  lemma PlayQueuePathRoundTrip(offset: int, count: int)
    ensures ParsePlayQueuePath(PlayQueuePath(offset, count)) == Some((offset, count))
  {
    var path := PlayQueuePath(offset, count);
    if offset == 0 && count == 0 {
      assert path[|PlayQueueBase|..] == [];
    } else {
      assert path[|PlayQueueBase|..][0] == '?';
      ParamsRead(offset, count);
    }
  }

  lemma ParamsRead(offset: int, count: int)
    requires offset != 0 || count != 0
    ensures IntParam(QueryParams(PlayQueuePath(offset, count)), "offset") == offset
    ensures IntParam(QueryParams(PlayQueuePath(offset, count)), "count") == count
  {
    var ps := QueryParams(PlayQueuePath(offset, count));
    var o := Param("offset", Itoa(offset));
    var c := Param("count", Itoa(count));
    ParamRead("offset", "count", offset);
    ParamRead("count", "offset", count);
    if offset != 0 && count != 0 {
      BothParamsRoundTrip(offset, count);
      assert ps == [o] + [c];
      assert IntParam(ps, "count") == IntParam([c], "count");
    } else {
      OneParamRoundTrip(offset, count);
      if offset != 0 {
        assert ps == [o];
      } else {
        assert ps == [c];
      }
    }
  }

  /** `offset=` is sent iff offset != 0 and then comes first; `count=` is sent iff count != 0. */
  lemma PlayQueuePathParams(offset: int, count: int)
    ensures var ps := QueryParams(PlayQueuePath(offset, count));
      && (HasParam(ps, "offset") <==> offset != 0)
      && (HasParam(ps, "count") <==> count != 0)
      && (offset != 0 ==> HasKey(ps[0], "offset"))
  {
    var ps := QueryParams(PlayQueuePath(offset, count));
    if offset != 0 && count != 0 {
      BothParamsRoundTrip(offset, count);
      ParamRead("offset", "count", offset);
      ParamRead("count", "offset", count);
      assert HasKey(ps[0], "offset") && HasKey(ps[1], "count");
    } else if offset != 0 || count != 0 {
      OneParamRoundTrip(offset, count);
      ParamRead("offset", "count", offset);
      ParamRead("count", "offset", count);
      assert HasKey(ps[0], if offset != 0 then "offset" else "count");
    } else {
      assert PlayQueuePath(offset, count)[|PlayQueueBase|..] == [];
    }
  }

  // ---------------------------------------------------------------------
  // Adding to the queue

  /** The path of `AddQueueItem` and `AddDeezerTracks` for the given `When`. */
  function AddPath(play: string): (r: string)
    ensures play == Now ==> r == PlayQueueBase + "?instantplay"
    ensures play == Next ==> r == PlayQueueBase + "?id=&insert=after"
    ensures r == PlayQueueBase <==> play != Now && play != Next
  {
    if play == Now then PlayQueueBase + "?instantplay"
    else if play == Next then PlayQueueBase + "?id=&insert=after"
    else PlayQueueBase
  }

  function AddQueueItem(qi: PlayQueueItem, play: string): (r: Request)
    ensures r.Post? && r.path == AddPath(play) && r.body == ItemBody(qi)
  {
    Post(AddPath(play), ItemBody(qi))
  }

  /**
   `AddDeezerTracks`: the items as a Deezer playlist whose id is that of the
   first item's track. The Go code indexes `qi[0].Track.Deezer` unchecked.
   */
  function AddDeezerTracks(items: seq<PlayQueueItem>, play: string): (r: Request)
    requires |items| > 0 && items[0].track.Some? && items[0].track.value.deezer.Some?
    ensures r.Post? && r.path == AddPath(play) && r.body.QueueBody?
    ensures r.body.queue.items == items
    ensures r.body.queue.container == Container(DeezerPlaylist, items[0].track.value.deezer.value)
    ensures r.body.queue.(items := [], container := EmptyPlayQueue.container) == EmptyPlayQueue
  {
    Post(AddPath(play), QueueBody(EmptyPlayQueue.(items := items, container := Container(DeezerPlaylist, items[0].track.value.deezer.value))))
  }

  // ---------------------------------------------------------------------
  // Item ids

  /** `RemoveQueueItem`: the item's id reads back from the path once `plid-` is trimmed. */
  function RemoveQueueItem(id: string): (r: Request)
    ensures r.Delete? && PlayQueueBase + ItemIdPrefix <= r.path
    ensures TrimPrefix(r.path, PlayQueueBase + ItemIdPrefix) == id
  {
    Delete(PlayQueueBase + ItemIdPrefix + id)
  }

  /**
   `MoveQueueItem`: a bodiless POST naming the moved item in the path and the
   item it goes before in the `id` parameter, both with `plid-` added.
   */
  function MoveQueueItem(id: string, before: string): (r: Request)
    ensures r.Post? && r.body == NoBody && PlayQueueBase + ItemIdPrefix <= r.path
    ensures '?' !in id ==>
      SplitFirst(TrimPrefix(r.path, PlayQueueBase + ItemIdPrefix), '?') == Some((id, Param("id", ItemIdPrefix + before)))
  {
    var path := PlayQueueBase + ItemIdPrefix + id + "?id=" + ItemIdPrefix + before;
    assert TrimPrefix(path, PlayQueueBase + ItemIdPrefix) == id + ['?'] + Param("id", ItemIdPrefix + before);
    SplitFirstAt(id, '?', Param("id", ItemIdPrefix + before));
    Post(path, NoBody)
  }

  /** `PlayQueueItem`: moves the play pointer to the item, whose id reads back once `plid-` is trimmed. */
  function PlayQueueItemRequest(id: string): (r: Request)
    ensures r.Post? && r.path == PlayPointerPath && r.body.PointerBody? && r.body.position == 0
    ensures ItemIdPrefix <= r.body.playQueueItemId && TrimPrefix(r.body.playQueueItemId, ItemIdPrefix) == id
  {
    Post(PlayPointerPath, PointerBody(ItemIdPrefix + id, 0))
  }

  /** `ClearPlayQueue`: a DELETE of the queue itself, the item base without its trailing slash. */
  function ClearPlayQueue(): (r: Request)
    ensures r.Delete? && r.path + "/" == PlayQueueBase
  {
    Delete(ClearPath)
  }

  /**
   An id shown with its `plid-` prefix trimmed names, once the requests add
   the prefix back, the original queue item.
   */
  lemma ShownIdRoundTrip(itemId: string)
    requires ItemIdPrefix <= itemId
    ensures var shown := TrimPrefix(itemId, ItemIdPrefix);
      && RemoveQueueItem(shown).path == PlayQueueBase + itemId
      && PlayQueueItemRequest(shown).body.playQueueItemId == itemId
  {
  }

  // ---------------------------------------------------------------------
  // Repeat and random

  /** `SetQueueRepeat`: a queue whose only non-zero field is `repeat`. */
  function SetQueueRepeat(repeat: string): (r: Request)
    ensures r.Put? && r.path == PlayQueueBase && r.body.QueueBody?
    ensures r.body.queue.repeat == repeat
    ensures r.body.queue.(repeat := "") == EmptyPlayQueue
  {
    Put(PlayQueueBase, QueueBody(EmptyPlayQueue.(repeat := repeat)))
  }

  /** `SetQueueRandom`: a queue whose only non-zero field is `random`. */
  function SetQueueRandom(random: string): (r: Request)
    ensures r.Put? && r.path == PlayQueueBase && r.body.QueueBody?
    ensures r.body.queue.random == random
    ensures r.body.queue.(random := "") == EmptyPlayQueue
  {
    Put(PlayQueueBase, QueueBody(EmptyPlayQueue.(random := random)))
  }
}
