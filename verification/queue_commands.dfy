/**
 The `queue-track` and `queue-album` commands (beoutil/main.go): turning
 Deezer tracks into play-queue items and the requests each command sends.
 The responses of the Deezer API and of the product are inputs; the result
 is the list of product requests sent, in order, and how the command ended.
 */
module QueueCommands {
  import opened Results
  import opened Strings
  import opened Models
  import Deezer
  import Zone

  // ---------------------------------------------------------------------
  // toQueueItem

  const ImageMediaType := "image/jpg"

  /** The picture of a Deezer artist for one image size; "" for any other size. */
  function PictureFor(a: Deezer.Artist, size: string): string {
    if size == SizeLarge then a.pictureBig
    else if size == SizeMedium then a.pictureMedium
    else if size == SizeSmall then a.pictureSmall
    else ""
  }

  /** `getArtistImages`: the artist's three pictures, largest first, all as JPEG. */
  function ArtistImages(a: Deezer.Artist): (imgs: seq<Image>)
    ensures |imgs| == 3
    ensures imgs[0].size == SizeLarge && imgs[1].size == SizeMedium && imgs[2].size == SizeSmall
    ensures forall i :: 0 <= i < |imgs| ==> imgs[i].url == PictureFor(a, imgs[i].size) && imgs[i].mediaType == ImageMediaType
  {
    [Image(a.pictureBig, SizeLarge, ImageMediaType),
     Image(a.pictureMedium, SizeMedium, ImageMediaType),
     Image(a.pictureSmall, SizeSmall, ImageMediaType)]
  }

  /**
   `toQueueItem`: a planned item carrying the track, its one artist and the
   artist's pictures. The Go code dereferences `t.Artist` unchecked.
   */
  function ToQueueItem(t: Deezer.Track): (qi: PlayQueueItem)
    requires t.artist.Some?
    ensures qi.behaviour == BehaviourPlanned && qi.id == ""
    ensures qi.track.Some?
    ensures qi.track.value.deezer == Some(DeezerRef(t.id))
    ensures ParseInt(qi.track.value.id) == Some(t.id)
    ensures qi.track.value.name == t.title && qi.track.value.artistName == ""
    ensures qi.track.value.image == ArtistImages(t.artist.value)
    ensures |qi.track.value.artist| == 1
    ensures var a := qi.track.value.artist[0];
      && a.deezer == DeezerRef(t.artist.value.id)
      && ParseInt(a.id) == Some(t.artist.value.id)
      && a.name == t.artist.value.name && a.nameNormalized == t.artist.value.name
      && a.image == []
  {
    var da := t.artist.value;
    ItoaRoundTrip(t.id);
    ItoaRoundTrip(da.id);
    var a := Artist(Itoa(da.id), da.name, da.name, DeezerRef(da.id), []);
    PlayQueueItem("", BehaviourPlanned, Some(Track(Some(DeezerRef(t.id)), Itoa(t.id), t.title, "", [a], ArtistImages(da))))
  }

  /** Distinct tracks give items with distinct track ids. */
  lemma ToQueueItemInjective(t: Deezer.Track, u: Deezer.Track)
    requires t.artist.Some? && u.artist.Some? && t.id != u.id
    ensures ToQueueItem(t).track.value.id != ToQueueItem(u).track.value.id
  {
    var a := ToQueueItem(t).track.value.id;
    var b := ToQueueItem(u).track.value.id;
    assert ParseInt(a) != ParseInt(b);
  }

  // ---------------------------------------------------------------------
  // The commands

  /** How a command ended: usage shown, an error (or nil) returned, or a nil-pointer or index panic. */
  datatype Outcome = Usage | Returned(err: Option<Error>) | Panic

  datatype Run = Run(requests: seq<Zone.Request>, outcome: Outcome)

  predicate ValidPlay(play: string) {
    play in {Zone.Now, Zone.Next, "last"}
  }

  /**
   `doQueueTrack` once the track lookup has produced `fetched`; `clearErr` and
   `addErr` are what the product answered to the clear and the add.
   */
  function QueueTrackWith(play: string, fetched: Result<Deezer.Track, Error>, clearErr: Option<Error>, addErr: Option<Error>): (r: Run)
    ensures r.outcome == Usage <==> !ValidPlay(play)
    ensures r.outcome == Usage || fetched.Err? ==> r.requests == []
    ensures ValidPlay(play) && fetched.Err? ==> r.outcome == Returned(Some(fetched.error))
    ensures |r.requests| > 0 && r.requests[0] == Zone.ClearPlayQueue() <==> ValidPlay(play) && play == Zone.Now && fetched.Ok?
    ensures play == Zone.Now && clearErr.Some? && fetched.Ok? ==> r == Run([Zone.ClearPlayQueue()], Returned(clearErr))
    ensures r.outcome == Panic <==> ValidPlay(play) && fetched.Ok? && fetched.value.artist.None? && (play != Zone.Now || clearErr.None?)
    ensures |r.requests| <= 2
    ensures forall i :: 0 <= i < |r.requests| && r.requests[i].Post? ==>
      && i == |r.requests| - 1 && fetched.Ok? && fetched.value.artist.Some?
      && r.requests[i] == Zone.AddQueueItem(ToQueueItem(fetched.value), play)
  {
    if !ValidPlay(play) then Run([], Usage)
    else
      match fetched
      case Err(e) => Run([], Returned(Some(e)))
      case Ok(t) =>
        var clears := if play == Zone.Now then [Zone.ClearPlayQueue()] else [];
        if play == Zone.Now && clearErr.Some? then Run(clears, Returned(clearErr))
        else if t.artist.None? then Run(clears, Panic)
        else Run(clears + [Zone.AddQueueItem(ToQueueItem(t), play)], Returned(addErr))
  }

  /** `doQueueTrack` with `GetTrack` returning the lookup's error. */
  function QueueTrack(play: string, trackId: string, get: string -> Result<Deezer.Track, Error>, clearErr: Option<Error>, addErr: Option<Error>): (r: Run)
    ensures ValidPlay(play) && get(Deezer.TrackURL(trackId)).Err? ==> r == Run([], Returned(Some(get(Deezer.TrackURL(trackId)).error)))
    ensures get(Deezer.TrackURL(trackId)).Ok? ==> r == QueueTrackWith(play, get(Deezer.TrackURL(trackId)), clearErr, addErr)
  {
    QueueTrackWith(play, Deezer.GetTrack(trackId, get).result, clearErr, addErr)
  }

  /** `doQueueTrack` with `GetTrack` as written. */
  function QueueTrackAsWritten(play: string, trackId: string, get: string -> Result<Deezer.Track, Error>, clearErr: Option<Error>, addErr: Option<Error>): (r: Run)
    ensures ValidPlay(play) && get(Deezer.TrackURL(trackId)).Err? ==>
      r.outcome == (if play == Zone.Now && clearErr.Some? then Returned(clearErr) else Panic)
    ensures get(Deezer.TrackURL(trackId)).Ok? ==> r == QueueTrackWith(play, get(Deezer.TrackURL(trackId)), clearErr, addErr)
  {
    QueueTrackWith(play, Deezer.GetTrackAsWritten(trackId, get).result, clearErr, addErr)
  }

  /**
   With `play` "now" the queue is cleared first, and the item is added with
   `?instantplay` only after the clear succeeded; "next" and "last" never clear.
   */
  lemma NowClearsThenAdds(play: string, t: Deezer.Track, addErr: Option<Error>)
    requires ValidPlay(play) && t.artist.Some?
    ensures var r := QueueTrackWith(play, Ok(t), None, addErr);
      && r.outcome == Returned(addErr)
      && r.requests[|r.requests| - 1] == Zone.Post(Zone.AddPath(play), Zone.ItemBody(ToQueueItem(t)))
      && (play == Zone.Now ==> |r.requests| == 2 && r.requests[0] == Zone.Delete(Zone.ClearPath))
      && (play != Zone.Now ==> |r.requests| == 1)
  {
  }

  /**
   A failed track lookup under "now": as written the command clears the
   queue and then crashes on the zero track's missing artist; with the error
   returned it sends nothing and reports the error.
   */
  lemma FailedLookupClearsThenPanics(trackId: string, get: string -> Result<Deezer.Track, Error>, addErr: Option<Error>)
    requires get(Deezer.TrackURL(trackId)).Err?
    ensures QueueTrackAsWritten(Zone.Now, trackId, get, None, addErr) == Run([Zone.ClearPlayQueue()], Panic)
    ensures QueueTrack(Zone.Now, trackId, get, None, addErr) == Run([], Returned(Some(get(Deezer.TrackURL(trackId)).error)))
  {
    Deezer.FailedGetTrackHasNoArtist(trackId, get);
  }

  predicate AllHaveArtists(tracks: seq<Deezer.Track>) {
    forall i :: 0 <= i < |tracks| ==> tracks[i].artist.Some?
  }

  function QueueItems(tracks: seq<Deezer.Track>): (items: seq<PlayQueueItem>)
    requires AllHaveArtists(tracks)
    ensures |items| == |tracks|
    ensures forall i :: 0 <= i < |tracks| ==> items[i] == ToQueueItem(tracks[i])
  {
    seq(|tracks|, i requires 0 <= i < |tracks| && AllHaveArtists(tracks) => ToQueueItem(tracks[i]))
  }

  /**
   `doQueueDeezerAlbum` once the album lookup has produced `response`: the
   album's tracks as one Deezer-playlist add. A track without an artist, or
   an empty album, crashes after any clear.
   */
  function QueueAlbumWith(play: string, response: Result<seq<Deezer.Track>, Error>, clearErr: Option<Error>, addErr: Option<Error>): (r: Run)
    ensures r.outcome == Usage <==> !ValidPlay(play)
    ensures ValidPlay(play) && response.Err? ==> r == Run([], Returned(Some(response.error)))
    ensures |r.requests| > 0 && r.requests[0] == Zone.ClearPlayQueue() <==> ValidPlay(play) && play == Zone.Now && response.Ok?
    ensures r.outcome == Panic <==>
      (ValidPlay(play) && response.Ok? && (play != Zone.Now || clearErr.None?)
       && (|response.value| == 0 || !AllHaveArtists(response.value)))
    ensures |r.requests| <= 2
  {
    if !ValidPlay(play) then Run([], Usage)
    else
      match response
      case Err(e) => Run([], Returned(Some(e)))
      case Ok(tracks) =>
        var clears := if play == Zone.Now then [Zone.ClearPlayQueue()] else [];
        if play == Zone.Now && clearErr.Some? then Run(clears, Returned(clearErr))
        else if !AllHaveArtists(tracks) || |tracks| == 0 then Run(clears, Panic)
        else Run(clears + [Zone.AddDeezerTracks(QueueItems(tracks), play)], Returned(addErr))
  }

  /** `doQueueDeezerAlbum` with the album looked up through `GetAlbumTracks`. */
  function QueueAlbum(play: string, albumId: string, get: string -> Result<seq<Deezer.Track>, Error>, clearErr: Option<Error>, addErr: Option<Error>): (r: Run)
    ensures ValidPlay(play) && get(Deezer.AlbumTracksURL(albumId)).Err? ==>
      r == Run([], Returned(Some(get(Deezer.AlbumTracksURL(albumId)).error)))
    ensures get(Deezer.AlbumTracksURL(albumId)).Ok? ==> r == QueueAlbumWith(play, get(Deezer.AlbumTracksURL(albumId)), clearErr, addErr)
  {
    QueueAlbumWith(play, Deezer.GetAlbumTracks(albumId, get).result, clearErr, addErr)
  }

  /**
   A successful album add sends every track, in album order, as a playlist
   named by the first track's id.
   */
  lemma AlbumAddCarriesTracks(play: string, tracks: seq<Deezer.Track>, addErr: Option<Error>)
    requires ValidPlay(play) && |tracks| > 0 && AllHaveArtists(tracks)
    ensures var r := QueueAlbumWith(play, Ok(tracks), None, addErr);
      var add := r.requests[|r.requests| - 1];
      && r.outcome == Returned(addErr)
      && add.Post? && add.path == Zone.AddPath(play) && add.body.QueueBody?
      && add.body.queue.container == Container(DeezerPlaylist, DeezerRef(tracks[0].id))
      && |add.body.queue.items| == |tracks|
      && (forall i :: 0 <= i < |tracks| ==> add.body.queue.items[i].track.value.deezer == Some(DeezerRef(tracks[i].id)))
  {
    var items := QueueItems(tracks);
    assert items[0].track.value.deezer == Some(DeezerRef(tracks[0].id));
  }
}
