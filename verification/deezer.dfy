/**
 The Deezer client (clients/deezer/client.go): the search URL, the album
 iterator's starting state, and what each call returns for the response the
 HTTP layer produced. Responses are inputs; a request is returned as its URL.
 */
module Deezer {
  import opened Results
  import opened Strings

  const BaseURL := "https://api.deezer.com"

  /** The fields of a Deezer artist the program reads. */
  datatype Artist = Artist(id: int, name: string, pictureSmall: string, pictureMedium: string, pictureBig: string)

  /** The fields of a Deezer track the program reads; `artist` is a pointer in Go. */
  datatype Track = Track(id: int, title: string, artist: Option<Artist>)

  datatype Album = Album(id: int, title: string)

  /** The Go zero value of `models.Track`. */
  const ZeroTrack := Track(0, "", None)

  datatype SearchOptions = SearchOptions(q: string, index: int, limit: int)

  // ---------------------------------------------------------------------
  // url.QueryEscape

  predicate Unreserved(c: char) {
    || 'a' <= c <= 'z' || 'A' <= c <= 'Z' || '0' <= c <= '9'
    || c == '-' || c == '_' || c == '.' || c == '~'
  }

  function HexDigit(d: nat): (c: char)
    requires d < 16
    ensures IsHex(c) && HexValue(c) == d
  {
    if d < 10 then ('0' as int + d) as char else ('A' as int + d - 10) as char
  }

  predicate IsHex(c: char) {
    '0' <= c <= '9' || 'A' <= c <= 'F' || 'a' <= c <= 'f'
  }

  function HexValue(c: char): nat
    requires IsHex(c)
  {
    if '0' <= c <= '9' then c as int - '0' as int
    else if 'A' <= c <= 'F' then c as int - 'A' as int + 10
    else c as int - 'a' as int + 10
  }

  /** The UTF-8 bytes of one character, as Go sees the bytes of a string. */
  function Utf8(c: char): (bs: seq<nat>)
    ensures 1 <= |bs| <= 4
    ensures forall i :: 0 <= i < |bs| ==> bs[i] < 256
    ensures c as int < 0x80 <==> bs == [c as int]
  {
    var n := c as int;
    if n < 0x80 then [n]
    else if n < 0x800 then [0xC0 + n / 64, 0x80 + n % 64]
    else if n < 0x10000 then [0xE0 + n / 4096, 0x80 + (n / 64) % 64, 0x80 + n % 64]
    else [0xF0 + n / 262144, 0x80 + (n / 4096) % 64, 0x80 + (n / 64) % 64, 0x80 + n % 64]
  }

  function PercentBytes(bs: seq<nat>): (r: string)
    requires forall i :: 0 <= i < |bs| ==> bs[i] < 256
    ensures |r| == 3 * |bs|
    ensures forall i :: 0 <= i < |r| ==> r[i] == '%' || IsHex(r[i])
  {
    if |bs| == 0 then ""
    else ['%', HexDigit(bs[0] / 16), HexDigit(bs[0] % 16)] + PercentBytes(bs[1..])
  }

  /** Escaping of one character in query-component mode. */
  function EscapeChar(c: char): (r: string)
    ensures |r| >= 1
    ensures forall i :: 0 <= i < |r| ==> Unreserved(r[i]) || r[i] == '+' || r[i] == '%' || IsHex(r[i])
  {
    if Unreserved(c) then [c]
    else if c == ' ' then "+"
    else PercentBytes(Utf8(c))
  }

  /** `url.QueryEscape`: unreserved characters kept, space as '+', every other byte as %XX. */
  function QueryEscape(s: string): (r: string)
    ensures |r| >= |s|
    ensures forall i :: 0 <= i < |r| ==> Unreserved(r[i]) || r[i] == '+' || r[i] == '%' || IsHex(r[i])
  {
    if |s| == 0 then ""
    else EscapeChar(s[0]) + QueryEscape(s[1..])
  }

  /** Reads back an escaped ASCII query: '+' is a space and %XX the byte XX. */
  function QueryUnescape(s: string): Option<string> {
    if |s| == 0 then Some("")
    else if s[0] == '%' then
      if |s| >= 3 && IsHex(s[1]) && IsHex(s[2]) then
        Prepend((HexValue(s[1]) * 16 + HexValue(s[2])) as char, QueryUnescape(s[3..]))
      else None
    else if s[0] == '+' then Prepend(' ', QueryUnescape(s[1..]))
    else Prepend(s[0], QueryUnescape(s[1..]))
  }

  function Prepend(c: char, r: Option<string>): Option<string> {
    match r
    case Some(s) => Some([c] + s)
    case None => None
  }

  predicate Ascii(s: string) {
    forall i :: 0 <= i < |s| ==> s[i] as int < 0x80
  }

  lemma EscapeCharRoundTrip(c: char, t: string)
    requires c as int < 0x80
    ensures QueryUnescape(EscapeChar(c) + t) == Prepend(c, QueryUnescape(t))
  {
    if !Unreserved(c) && c != ' ' {
      var n := c as int;
      var e := EscapeChar(c);
      assert e == ['%', HexDigit(n / 16), HexDigit(n % 16)];
      assert (e + t)[3..] == t;
      assert (n / 16) * 16 + n % 16 == n;
    } else if c == ' ' {
      assert (EscapeChar(c) + t)[1..] == t;
    } else {
      assert (EscapeChar(c) + t)[1..] == t;
    }
  }

  /** Escaping an ASCII query and unescaping it gives the query back. */
  lemma {:induction false} QueryEscapeRoundTrip(s: string)
    requires Ascii(s)
    ensures QueryUnescape(QueryEscape(s)) == Some(s)
  {
    if |s| > 0 {
      QueryEscapeRoundTrip(s[1..]);
      EscapeCharRoundTrip(s[0], QueryEscape(s[1..]));
      assert [s[0]] + s[1..] == s;
    }
  }

  /** A query made of unreserved characters only is sent unchanged. */
  lemma {:induction false} UnreservedUnescaped(s: string)
    requires forall i :: 0 <= i < |s| ==> Unreserved(s[i])
    ensures QueryEscape(s) == s
  {
    if |s| > 0 {
      UnreservedUnescaped(s[1..]);
      assert [s[0]] + s[1..] == s;
    }
  }

  // ---------------------------------------------------------------------
  // SearchArtist

  const SearchPrefix := "/search/artist?"

  /** The URL `SearchArtist` requests, relative to `BaseURL`. */
  function SearchPath(opts: SearchOptions): (r: string)
    ensures SearchPrefix + "q=" + QueryEscape(opts.q) <= r
  {
    SearchPrefix + "q=" + QueryEscape(opts.q)
      + (if opts.index != 0 then "&" + Param("index", Itoa(opts.index)) else "")
      + (if opts.limit != 0 then "&" + Param("limit", Itoa(opts.limit)) else "")
  }

  /** The `&`-separated parameters after the '?' of a search path. */
  function SearchParams(path: string): seq<string>
    requires SearchPrefix <= path
  {
    Split(path[|SearchPrefix|..], '&')
  }

  /** The parameters a search path is made of, in the order written. */
  function ExpectedParams(opts: SearchOptions): seq<string> {
    ["q=" + QueryEscape(opts.q)]
      + (if opts.index != 0 then [Param("index", Itoa(opts.index))] else [])
      + (if opts.limit != 0 then [Param("limit", Itoa(opts.limit))] else [])
  }

  lemma EscapeLacks(s: string, c: char)
    requires !Unreserved(c) && c != '+' && c != '%' && !IsHex(c)
    ensures c !in QueryEscape(s)
  {
  }

  lemma NoAmpersand(opts: SearchOptions)
    ensures NoneContains(ExpectedParams(opts), '&')
  {
    EscapeLacks(opts.q, '&');
    ItoaLacks(opts.index, '&');
    ItoaLacks(opts.limit, '&');
  }

  /** Appending `&`-prefixed optional parameters is joining the present ones with '&'. */
  lemma AppendedParams(q: string, a: string, b: string, hasA: bool, hasB: bool)
    ensures q + (if hasA then "&" + a else "") + (if hasB then "&" + b else "")
      == Join([q] + (if hasA then [a] else []) + (if hasB then [b] else []), '&')
  {
    var ps := [q] + (if hasA then [a] else []) + (if hasB then [b] else []);
    if hasA && hasB {
      assert ps == [q, a, b] && ps[..2] == [q, a] && [q, a][..1] == [q];
      assert Join([q, a], '&') == q + "&" + a;
      assert Join(ps, '&') == q + "&" + a + "&" + b;
    } else if hasA {
      assert ps == [q, a] && ps[..1] == [q];
    } else if hasB {
      assert ps == [q, b] && ps[..1] == [q];
    } else {
      assert ps == [q];
    }
  }

  /** The search path is its parameters joined with '&', and splitting it gives them back. */
  lemma SearchPathParams(opts: SearchOptions)
    ensures SearchParams(SearchPath(opts)) == ExpectedParams(opts)
  {
    var q := "q=" + QueryEscape(opts.q);
    var ip := Param("index", Itoa(opts.index));
    var lp := Param("limit", Itoa(opts.limit));
    var tail := q + (if opts.index != 0 then "&" + ip else "") + (if opts.limit != 0 then "&" + lp else "");
    assert SearchPath(opts) == SearchPrefix + tail;
    assert SearchPath(opts)[|SearchPrefix|..] == tail;
    AppendedParams(q, ip, lp, opts.index != 0, opts.limit != 0);
    NoAmpersand(opts);
    SplitJoin(ExpectedParams(opts), '&');
  }

  lemma IntParamRead(ps: seq<string>, i: nat, key: string, n: int)
    requires i < |ps| && ps[i] == Param(key, Itoa(n))
    requires forall j :: 0 <= j < i ==> !HasKey(ps[j], key)
    ensures IntParam(ps, key) == n
    decreases i
  {
    if i == 0 {
      ItoaRoundTrip(n);
      assert ps[0][|key| + 1..] == Itoa(n);
    } else {
      assert !HasKey(ps[0], key);
      IntParamRead(ps[1..], i - 1, key, n);
    }
  }

  /** A parameter whose first character differs from the key's is not that key's. */
  lemma HeadDiffers(p: string, key: string)
    requires |p| > 0 && |key| > 0 && p[0] != key[0]
    ensures !HasKey(p, key)
  {
  }

  lemma NoParam(ps: seq<string>, key: string)
    requires |key| > 0
    requires forall i :: 0 <= i < |ps| ==> |ps[i]| > 0 && ps[i][0] != key[0]
    ensures !HasParam(ps, key)
  {
    forall i | 0 <= i < |ps|
      ensures !HasKey(ps[i], key)
    {
      HeadDiffers(ps[i], key);
    }
  }

  /** Reading the parameters of a search, given in the order they are written. */
  lemma ParamsOfSearch(ps: seq<string>, q: string, index: int, limit: int)
    requires ps == ["q=" + q]
      + (if index != 0 then [Param("index", Itoa(index))] else [])
      + (if limit != 0 then [Param("limit", Itoa(limit))] else [])
    ensures |ps| == 1 + (if index != 0 then 1 else 0) + (if limit != 0 then 1 else 0)
    ensures index != 0 ==> HasKey(ps[1], "index") && IntParam(ps, "index") == index
    ensures limit != 0 ==> HasKey(ps[|ps| - 1], "limit") && IntParam(ps, "limit") == limit
    ensures index == 0 ==> !HasParam(ps, "index")
    ensures limit == 0 ==> !HasParam(ps, "limit")
  {
    var a := "q=" + q;
    var b := Param("index", Itoa(index));
    var c := Param("limit", Itoa(limit));
    if index != 0 && limit != 0 {
      assert ps == [a, b, c];
      ReadBoth(a, index, limit);
    } else if index != 0 {
      assert ps == [a, b];
      ReadIndexOnly(a, index);
    } else if limit != 0 {
      assert ps == [a, c];
      ReadLimitOnly(a, limit);
    } else {
      assert ps == [a];
      NoParam(ps, "index");
      NoParam(ps, "limit");
    }
  }

  lemma ReadBoth(a: string, index: int, limit: int)
    requires |a| > 0 && a[0] == 'q'
    ensures var b, c := Param("index", Itoa(index)), Param("limit", Itoa(limit));
      && HasKey(b, "index") && IntParam([a, b, c], "index") == index
      && HasKey(c, "limit") && IntParam([a, b, c], "limit") == limit
  {
    var b, c := Param("index", Itoa(index)), Param("limit", Itoa(limit));
    assert b[0] == 'i';
    HeadDiffers(a, "index");
    HeadDiffers(a, "limit");
    HeadDiffers(b, "limit");
    IntParamRead([a, b, c], 1, "index", index);
    IntParamRead([a, b, c], 2, "limit", limit);
  }

  lemma ReadIndexOnly(a: string, index: int)
    requires |a| > 0 && a[0] == 'q'
    ensures var b := Param("index", Itoa(index));
      && HasKey(b, "index") && IntParam([a, b], "index") == index
      && !HasParam([a, b], "limit")
  {
    var b := Param("index", Itoa(index));
    assert b[0] == 'i';
    HeadDiffers(a, "index");
    IntParamRead([a, b], 1, "index", index);
    NoParam([a, b], "limit");
  }

  lemma ReadLimitOnly(a: string, limit: int)
    requires |a| > 0 && a[0] == 'q'
    ensures var c := Param("limit", Itoa(limit));
      && HasKey(c, "limit") && IntParam([a, c], "limit") == limit
      && !HasParam([a, c], "index")
  {
    var c := Param("limit", Itoa(limit));
    assert c[0] == 'l';
    HeadDiffers(a, "limit");
    IntParamRead([a, c], 1, "limit", limit);
    NoParam([a, c], "index");
  }

  /**
   The search round-trips: the query is the first parameter and unescapes to
   the original (for an ASCII query); `index=` is present iff Index != 0 and
   `limit=` iff Limit != 0, index before limit, each read back exactly.
   */
  lemma SearchPathRoundTrip(opts: SearchOptions)
    ensures var ps := SearchParams(SearchPath(opts));
      && "q=" <= ps[0]
      && (Ascii(opts.q) ==> QueryUnescape(ps[0][2..]) == Some(opts.q))
      && |ps| == 1 + (if opts.index != 0 then 1 else 0) + (if opts.limit != 0 then 1 else 0)
      && (opts.index != 0 ==> HasKey(ps[1], "index") && IntParam(ps, "index") == opts.index)
      && (opts.limit != 0 ==> HasKey(ps[|ps| - 1], "limit") && IntParam(ps, "limit") == opts.limit)
      && (opts.index == 0 ==> !HasParam(ps, "index"))
      && (opts.limit == 0 ==> !HasParam(ps, "limit"))
  {
    SearchPathParams(opts);
    ParamsOfSearch(ExpectedParams(opts), QueryEscape(opts.q), opts.index, opts.limit);
    assert ExpectedParams(opts)[0] == "q=" + QueryEscape(opts.q);
    if Ascii(opts.q) {
      QueryEscapeRoundTrip(opts.q);
    }
  }


  // ---------------------------------------------------------------------
  // Requests through the REST client

  /**
   One GET through the REST client: the URL asked for and what came back.
   The `get` parameter of each call stands for `DoGet` decoding the answer
   into that call's response type.
   */
  datatype Fetched<T> = Fetched(url: string, result: Result<T, Error>)

  /** `SearchArtist`: asks for the search path of `opts`; the artists on success, the request's error otherwise. */
  function SearchArtist(opts: SearchOptions, get: string -> Result<seq<Artist>, Error>): (r: Fetched<seq<Artist>>)
    ensures BaseURL <= r.url && r.url[|BaseURL|..] == SearchPath(opts)
    ensures get(r.url).Ok? ==> r.result == Ok(get(r.url).value)
    ensures get(r.url).Err? ==> r.result == Err(get(r.url).error)
  {
    var url := BaseURL + SearchPath(opts);
    match get(url)
    case Ok(data) => Fetched(url, Ok(data))
    case Err(e) => Fetched(url, Err(e))
  }

  function AlbumTracksURL(albumId: string): string {
    BaseURL + "/album/" + albumId + "/tracks"
  }

  function TrackURL(trackId: string): string {
    BaseURL + "/track/" + trackId
  }

  /** Different ids are different requests, and an album's track list is never a track request. */
  lemma URLsDistinct(a: string, b: string)
    ensures AlbumTracksURL(a) == AlbumTracksURL(b) ==> a == b
    ensures TrackURL(a) == TrackURL(b) ==> a == b
    ensures AlbumTracksURL(a) != TrackURL(b)
  {
    var n := |BaseURL + "/album/"|;
    if AlbumTracksURL(a) == AlbumTracksURL(b) {
      assert a == AlbumTracksURL(a)[n..|AlbumTracksURL(a)| - 7];
      assert b == AlbumTracksURL(b)[n..|AlbumTracksURL(b)| - 7];
    }
    if TrackURL(a) == TrackURL(b) {
      assert a == TrackURL(a)[|BaseURL + "/track/"|..];
      assert b == TrackURL(b)[|BaseURL + "/track/"|..];
    }
    assert AlbumTracksURL(a)[|BaseURL| + 1] == 'a';
    assert TrackURL(b)[|BaseURL| + 1] == 't';
  }

  /** `GetAlbumTracks`: asks for the album's track list; the tracks on success, the request's error otherwise. */
  function GetAlbumTracks(albumId: string, get: string -> Result<seq<Track>, Error>): (r: Fetched<seq<Track>>)
    ensures r.url == AlbumTracksURL(albumId)
    ensures get(r.url).Ok? ==> r.result == Ok(get(r.url).value)
    ensures get(r.url).Err? ==> r.result == Err(get(r.url).error)
  {
    var url := AlbumTracksURL(albumId);
    match get(url)
    case Ok(data) => Fetched(url, Ok(data))
    case Err(e) => Fetched(url, Err(e))
  }

  // ---------------------------------------------------------------------
  // GetTrack

  /** `GetTrack` as written: a failed request yields the zero track and no error. */
  function GetTrackAsWritten(trackId: string, get: string -> Result<Track, Error>): (r: Fetched<Track>)
    ensures r.url == TrackURL(trackId)
    ensures r.result.Ok?
    ensures get(r.url).Ok? ==> r.result == get(r.url)
    ensures get(r.url).Err? ==> r.result.value == ZeroTrack
  {
    var url := TrackURL(trackId);
    match get(url)
    case Ok(t) => Fetched(url, Ok(t))
    case Err(_) => Fetched(url, Ok(ZeroTrack))
  }

  /** `GetTrack` returning the request's error, as its signature promises. */
  function GetTrack(trackId: string, get: string -> Result<Track, Error>): (r: Fetched<Track>)
    ensures r.url == TrackURL(trackId)
    ensures r.result.Ok? <==> get(r.url).Ok?
    ensures get(r.url).Ok? ==> r.result == Ok(get(r.url).value)
    ensures get(r.url).Err? ==> r.result == Err(get(r.url).error)
  {
    var url := TrackURL(trackId);
    match get(url)
    case Ok(t) => Fetched(url, Ok(t))
    case Err(e) => Fetched(url, Err(e))
  }

  /** The two versions ask for the same URL and agree exactly when the request succeeds. */
  lemma GetTrackDiffersOnlyOnError(trackId: string, get: string -> Result<Track, Error>)
    ensures GetTrackAsWritten(trackId, get).url == GetTrack(trackId, get).url
    ensures GetTrackAsWritten(trackId, get).result == GetTrack(trackId, get).result <==> get(TrackURL(trackId)).Ok?
  {
  }

  /** The zero track returned for a failed request has no artist; corrected, the error comes back. */
  lemma FailedGetTrackHasNoArtist(trackId: string, get: string -> Result<Track, Error>)
    requires get(TrackURL(trackId)).Err?
    ensures GetTrackAsWritten(trackId, get).result.Ok?
    ensures GetTrackAsWritten(trackId, get).result.value.artist.None?
    ensures GetTrack(trackId, get).result == Err(get(TrackURL(trackId)).error)
  {
  }
}
