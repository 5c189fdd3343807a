/**
 The Deezer album iterator (clients/deezer/albumIter.go): a four-field state
 machine. Each `Next` call either answers EOF without a request or requests
 the current endpoint; the page (or error) that request produced is an input.
 */
module AlbumIter {
  import opened Results
  import Deezer

  datatype State = State(endpoint: string, read: int, total: int, started: bool)

  /** One page of `/artist/{id}/albums`: its albums, the `total` field and the `next` link. */
  datatype Page = Page(data: seq<Deezer.Album>, total: int, next: string)

  datatype Answer = Eof | Failed(err: Error) | Albums(albums: seq<Deezer.Album>)

  /** A `Next` call: the state after it, the endpoint it requested (if any), and its answer. */
  datatype Call = Call(after: State, requested: Option<string>, answer: Answer)

  /** `NewAlbumIter`: read 0, not started, the artist's album list as endpoint. */
  function NewAlbumIter(artistId: string): (s: State)
    ensures s.read == 0 && !s.started
    ensures s.endpoint == Deezer.BaseURL + "/artist/" + artistId + "/albums"
  {
    State(Deezer.BaseURL + "/artist/" + artistId + "/albums", 0, 0, false)
  }

  /** `Read`. */
  function Read(s: State): int {
    s.read
  }

  /** `Next` with `response` standing for what requesting `s.endpoint` would return. */
  function Next(s: State, response: Result<Page, Error>): (c: Call)
    ensures c.answer == Eof <==> s.started && s.read == s.total
    ensures c.requested.None? <==> c.answer == Eof
    ensures c.requested.Some? ==> c.requested.value == s.endpoint
    ensures c.answer.Eof? || c.answer.Failed? ==> c.after == s
    ensures c.answer.Failed? ==> response == Err(c.answer.err)
    ensures c.answer.Albums? ==> response.Ok? && c.answer.albums == response.value.data
    ensures c.answer.Albums? ==> c.after.started && c.after.endpoint == response.value.next
    ensures c.answer.Albums? ==> Read(c.after) == Read(s) + |c.answer.albums|
    ensures c.answer.Albums? ==> c.after.total == (if s.started then s.total else response.value.total)
  {
    if s.started && s.read == s.total then Call(s, None, Eof)
    else
      match response
      case Err(e) => Call(s, Some(s.endpoint), Failed(e))
      case Ok(p) =>
        Call(State(p.next, s.read + |p.data|, if s.started then s.total else p.total, true), Some(s.endpoint), Albums(p.data))
  }

  /** The first `Next` after `NewAlbumIter` always issues a request, so never answers EOF. */
  lemma FirstNextNeverEof(artistId: string, response: Result<Page, Error>)
    ensures Next(NewAlbumIter(artistId), response).answer != Eof
    ensures Next(NewAlbumIter(artistId), response).requested == Some(NewAlbumIter(artistId).endpoint)
  {
  }

  /** Once EOF is answered, every later call answers EOF again. */
  lemma EofSticky(s: State, r1: Result<Page, Error>, r2: Result<Page, Error>)
    requires Next(s, r1).answer == Eof
    ensures Next(Next(s, r1).after, r2).answer == Eof
  {
  }

  // ---------------------------------------------------------------------
  // A sequence of calls

  /** The calls made against a script of responses, one response per call. */
  function Run(s: State, responses: seq<Result<Page, Error>>): (calls: seq<Call>)
    ensures |calls| == |responses|
    decreases |responses|
  {
    if |responses| == 0 then []
    else
      var c := Next(s, responses[0]);
      [c] + Run(c.after, responses[1..])
  }

  function Final(s: State, calls: seq<Call>): State {
    if |calls| == 0 then s else calls[|calls| - 1].after
  }

  /** The number of albums handed out by the calls. */
  function Delivered(calls: seq<Call>): nat {
    if |calls| == 0 then 0
    else (if calls[0].answer.Albums? then |calls[0].answer.albums| else 0) + Delivered(calls[1..])
  }

  /** `Read` counts every album handed out since the start. */
  lemma {:induction false} ReadCountsDelivered(s: State, responses: seq<Result<Page, Error>>)
    ensures Read(Final(s, Run(s, responses))) == Read(s) + Delivered(Run(s, responses))
    decreases |responses|
  {
    if |responses| > 0 {
      var c := Next(s, responses[0]);
      var rest := Run(c.after, responses[1..]);
      ReadCountsDelivered(c.after, responses[1..]);
      assert Run(s, responses) == [c] + rest;
      assert ([c] + rest)[1..] == rest;
      if |rest| > 0 {
        assert Final(s, [c] + rest) == Final(c.after, rest);
      }
    }
  }

  /** Once started, `total` never changes: it is the first successful page's value. */
  lemma {:induction false} TotalFixedOnceStarted(s: State, responses: seq<Result<Page, Error>>)
    requires s.started
    ensures Final(s, Run(s, responses)).total == s.total
    ensures Final(s, Run(s, responses)).started
    decreases |responses|
  {
    if |responses| > 0 {
      var c := Next(s, responses[0]);
      var rest := Run(c.after, responses[1..]);
      TotalFixedOnceStarted(c.after, responses[1..]);
      assert Run(s, responses) == [c] + rest;
      if |rest| > 0 {
        assert Final(s, [c] + rest) == Final(c.after, rest);
      }
    }
  }

  /** The first successful page fixes `total` for the rest of the iteration. */
  lemma TotalFromFirstPage(artistId: string, p: Page, responses: seq<Result<Page, Error>>)
    ensures var c := Next(NewAlbumIter(artistId), Ok(p));
      Final(c.after, Run(c.after, responses)).total == p.total
  {
    TotalFixedOnceStarted(Next(NewAlbumIter(artistId), Ok(p)).after, responses);
  }
}
