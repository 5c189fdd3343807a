# beoutil in Dafny

`beoutil` is a command-line tool for Bang & Olufsen network speakers. It
finds products on the local network and lists how they are paired. It can
put every product into standby, and it manages a product's play queue,
including tracks and albums looked up on Deezer. It can also print the
product's live notification stream. Almost all of it is a thin REST client.
This project models the parts that carry logic of their own, with the
network, mDNS, JSON decoding and goroutines replaced by scripted inputs:

- **Discovery** (`beoutil/products.go`). Each mDNS advertisement's TXT strings
  are folded into attributes, and the advertisements into a directory keyed
  by `jid`.
- **Topology** (`beoutil/main.go`). Every cached address is asked for the
  products it knows. The answers are merged (the first report of a jid is
  kept), cached addresses are laid over the result, and the rows of
  `list-products` are chosen, including `joinIPs`.
- **Standby** (`beoutil/main.go`). The per-address loop of `all-standby`.
- **QueueView, QueueCommands, Timers** (`beoutil/main.go`). Covers:
  - the `get-queue` listing;
  - the repeat and random words;
  - `toQueueItem`;
  - the `queue-track` and `queue-album` flows, where "now" clears the queue
    first;
  - the RECURRING column of `get-timers`.
- **Zone** (`clients/beoremote/beozone.go`). The play-queue requests: paths,
  query strings, `plid-` ids and request bodies.
- **Deezer, AlbumIter** (`clients/deezer`). Covers:
  - the search URL, with `url.QueryEscape` written out;
  - the URL `SearchArtist`, `GetAlbumTracks` and `GetTrack` request, and what they return;
  - the album pagination state machine.
- **Rest** (`clients/rest/rest.go`). Covers:
  - 2xx classification;
  - `HttpError` text;
  - `doRequest`;
  - `OpenEventStream`;
  - the `processEvents` producer loop.
- **Watch** (`beoutil/main.go`). The reconnecting `watch-notifications` loop.

Go maps are iterated in an order the program does not choose. The model
takes that order as an explicit `order: seq<string>` of the map's keys.
`Topology.GetAllSystemProducts` requires `Topology.Enumerates` (every key
exactly once). `Topology.ListRows` and `Standby.AllStandbyRun` fold over
prefixes of the order, so they require only that each entry of `order` is a
key. What they state holds for every such sequence, every iteration order
included. A Go panic that the code can reach
is a value: `QueueView.View.NilTrackPanic` or `QueueCommands.Outcome.Panic`.
It is never a precondition on the command.

Three behaviours of the code are easy to miss:

- An advertisement without a `jid` attribute is stored under the key "".
  It is not dropped (`beoutil/products.go:61`).
- `getAllSystemProducts` queries every address of every cached product. It
  has no `break` after a successful query (`beoutil/main.go:118-131`).
- `watch-notifications` prints the notification's `Data` raw. It does not
  dispatch on (type, kind) (`beoutil/main.go:802-806`).

Two modules are shared helpers:

- **Strings**: `strconv.Itoa`, `TrimPrefix`, `SplitN` on the first separator,
  joining and splitting, and query parameters. Each builder comes with an
  independent reader.
- **Keyed**: the first-wins and last-wins folds into a map.

## Model

| member | source | states |
|---|---|---|
| Strings.Itoa | clients/beoremote/beozone.go:148-156 | the rendering is non-empty, starts with '-' exactly for a negative number, and is otherwise all digits |
| Strings.ItoaRoundTrip | beoutil/main.go:659 | reading a rendered integer back gives the same integer |
| Strings.TrimPrefix | beoutil/main.go:368 | when the prefix is present, prefix + result is the input; otherwise the input is unchanged |
| Strings.SplitFirstAt | clients/beoremote/beozone.go:180-184 | a text whose first separator follows separator-free text splits there into exactly the two pieces |
| Strings.SplitFirst | beoutil/products.go:56 | None exactly when there is no separator; otherwise the text before the first separator (which holds none) and everything after it, separators included |
| Strings.SplitJoin | beoutil/main.go:103-108 | splitting a join of separator-free parts at the separator gives the parts back |
| Strings.JoinCount | beoutil/main.go:103-108 | a join of n separator-free parts holds exactly n-1 separators |
| Keyed.IndexLastWins | beoutil/products.go:61-65 | the last-wins fold has a key iff some element has it, and holds the value of the last such element |
| Keyed.IndexSize | beoutil/products.go:61-65 | the last-wins fold has at most as many keys as elements |
| Keyed.FirstIndexFirstWins | beoutil/main.go:126-130 | the first-wins fold has a key iff some element has it, and holds the value of the first such element |
| Keyed.FirstIndexStable | beoutil/main.go:127-129 | elements appended later never change an entry already in the first-wins fold |
| Discovery.Attributes | beoutil/products.go:54-59 | no key holds '='; at most one key per TXT string |
| Discovery.AttributesLastWins | beoutil/products.go:54-59 | a key is present iff some TXT string holds '=' with that text before its first '='; its value is everything after the first '=' of the last such string |
| Discovery.AttributesAt | beoutil/products.go:54-59 | a key is present iff some TXT string defines it; the last such string splits at its first '=' into the key and the stored value |
| Discovery.StringWithoutEqualsIgnored | beoutil/products.go:56-58 | a TXT string without '=' adds nothing to the attributes |
| Discovery.Record | beoutil/products.go:61-65 | the stored record holds the advertisement's addresses, its name attribute ("" when absent) and its jid attribute |
| Discovery.Fold | beoutil/products.go:53-66 | every stored record's jid equals its key, and there are at most as many records as advertisements |
| Discovery.FoldLastWins | beoutil/products.go:61-65 | the keys are exactly the advertisements' jids, and each holds the record of the LAST advertisement with that jid, addresses replaced, never unioned |
| Discovery.MissingJidStoredUnderEmptyKey | beoutil/products.go:61 | an advertisement without a jid is kept under the key "" |
| Discovery.LaterAdvertisementReplaces | beoutil/products.go:61-65 | an appended advertisement's addresses replace whatever its jid held |
| Discovery.DiscoverProducts | beoutil/products.go:38-77 | a resolver error, then a browse error, is returned with no directory; the result is a directory iff neither happened, and then it is the fold of the advertisements (`Fold`, whose contents `FoldLastWins` pins); no advertisements give the empty directory |
| Topology.GetAllSystemProducts | beoutil/main.go:112-140 | each entry's product jid is its key; its addresses are the cached ones for a cached jid and empty otherwise |
| Topology.FailedAddressSkipped | beoutil/main.go:122-124 | a failed query contributes nothing and the other addresses are merged as if it were absent |
| Topology.ReportsContents | beoutil/main.go:118-131 | the merged reports are exactly the products some queried address answered with |
| Topology.EveryAddressQueried | beoutil/main.go:118-119 | every address of every cached product is queried |
| Topology.FirstReportWins | beoutil/main.go:126-130 | the keys are exactly the jids some address reported, and each holds the first product reported under it |
| Topology.Overlay | beoutil/main.go:133-138 | same keys; cached jids get the cached addresses with the product unchanged; other entries are untouched |
| Topology.JoinIPs | beoutil/main.go:98-110 | "-" for no addresses; otherwise splitting at ',' gives the addresses back, with exactly len-1 commas |
| Topology.WriteIPs | beoutil/main.go:98-110 | the builder loop yields `JoinIPs` |
| Topology.RoleOf | beoutil/main.go:155-163 | master iff the pairing role is integratedMaster, slave iff integratedSlave, "-" otherwise or without pairing |
| Topology.PartnerRow | beoutil/main.go:171-180 | the partner row is a nested "slave" row for the partner's jid; a partner missing from the map reads as Go's zero value: empty name, "-" addresses, offline, state "-"; a partner in the map shows its name, joined addresses, online flag and state |
| Topology.RowsFor | beoutil/main.go:164-181 | no row for a slave; otherwise first the product's own row (name, role word, joined addresses, jid, online flag, state or "-"), and for a master a second row: the partner row of its partner's jid |
| Topology.ListRows | beoutil/main.go:154-182 | at most two rows per product; its contents are pinned by `ListRowsAppend` and `ProductRowsAt` (each product's rows in order, as one block) together with `RowsFor` (which rows a product prints) |
| Topology.ListRowsAppend | beoutil/main.go:154-182 | listing two runs of products one after the other prints their two tables one after the other |
| Topology.ProductRowsAt | beoutil/main.go:154-182 | the rows of the n-th product come as one block, right after the rows of the products before it |
| Topology.ListRowsShaped | beoutil/main.go:154-182 | no top-level row is a slave; each nested row follows a master row; each master row is followed by a nested row; every top-level row is a listed non-slave product |
| Topology.NonSlavesListed | beoutil/main.go:164-170 | every product that is not a slave gets a top-level row |
| Standby.AddressStep | beoutil/main.go:200-212 | all-standby is sent iff the state read was "on"; the error is that of the last call; the step stops the product iff the state was not "on" or all-standby succeeded |
| Standby.DeviceRun | beoutil/main.go:199-213 | the error is the last call's (or the incoming one when no call was made); a call is made iff the product has an address, and the first reads the first address's state |
| Standby.DeviceRunCalls | beoutil/main.go:199-213 | all-standby only after "on"; every address read as "on" is sent all-standby at once; only the product's addresses are contacted |
| Standby.DeviceRunStopsLast | beoutil/main.go:206-212 | no call that finishes the product is followed by another |
| Standby.DeviceRunInOrder | beoutil/main.go:199-205 | the addresses asked for their state are a prefix of the product's addresses, in order, and all of them unless the last call finished the product |
| Standby.AllStandbyRun | beoutil/main.go:194-215 | the returned error is that of the last call made, or nil when no call was made |
| Standby.AllStandbyRunCalls | beoutil/main.go:198-213 | all-standby only after "on"; every address read as "on" is sent all-standby at once; only cached addresses are contacted |
| Standby.RunStep | beoutil/main.go:198-214 | adding the n-th product appends exactly its inner loop, entered with the error the products before it left |
| Standby.ProductRunAt | beoutil/main.go:198-214 | the calls for the n-th product are its own inner loop, entered with the error the earlier products left, as one block right after their calls |
| Standby.OnProductPutInStandby | beoutil/main.go:199-209 | a product whose first address reports "on" is sent all-standby at that address |
| QueueView.RepeatWord | beoutil/main.go:373-380 | one of "all", "current", "off", "unknown"; "unknown" iff the value is not a repeat mode; any other word maps back to the value through set-repeat's parser |
| QueueView.RandomWord | beoutil/main.go:381-386 | one of "on", "off", "unknown"; "unknown" iff the value is not a random mode; any other word maps back to the value through set-random's parser |
| QueueView.ParseRepeat | beoutil/main.go:430-448 | a value exactly for "all", "current" and "off", and it is a repeat mode |
| QueueView.ParseRandom | beoutil/main.go:450-466 | a value exactly for "on" and "off", and it is a random mode |
| QueueView.RepeatWordRoundTrip | beoutil/main.go:436-443 | a word set-repeat accepts is displayed back by get-queue as the same word |
| QueueView.RepeatValueRoundTrip | beoutil/main.go:373-380 | a stored repeat is shown as something other than "unknown" iff it is one of the three modes, and that word maps back to it |
| QueueView.RandomWordRoundTrip | beoutil/main.go:456-459 | a word set-random accepts is displayed back by get-queue as the same word |
| QueueView.RandomValueRoundTrip | beoutil/main.go:381-386 | a stored random is shown as something other than "unknown" iff it is one of the two modes, and that word maps back to it |
| QueueView.SetRepeatCommand | beoutil/main.go:430-448 | a request is sent iff the word is accepted, and the queue it puts displays as that word |
| QueueView.SetRandomCommand | beoutil/main.go:450-466 | a request is sent iff the word is accepted, and the queue it puts displays as that word |
| QueueView.GetQueueRequest | beoutil/main.go:350 | the requested window reads back as offset -200 and count 200, both present |
| QueueView.PlayingId | beoutil/main.go:359-361 | the device's playNowId, or the first item's id when the device left it empty |
| QueueView.RowOf | beoutil/main.go:363-371 | marked iff the item is the playing one; the shown id is the item id without `plid-` (the prefix plus the shown id gives it back), or unchanged without the prefix; the track's name and artist |
| QueueView.Rows | beoutil/main.go:364-372 | one row per item, in order, each marked iff its item is playing, with the trimmed id, the track and the artist |
| QueueView.GetQueue | beoutil/main.go:344-392 | "Queue empty." iff there are no items; a crash iff some item has no track; otherwise one row per item, with the repeat and random words |
| QueueView.MarkerOnPlayingItem | beoutil/main.go:359-367 | exactly the rows whose id equals the playing id are marked; an empty playNowId marks the first row |
| QueueView.ShownRowAddressesItem | beoutil/main.go:368-371 | a row shows its track and artist; its shown id, passed to remove or play-queue-item, addresses the same item |
| QueueView.UnprefixedIdShownAsIs | beoutil/main.go:368 | an id without the `plid-` prefix is shown unchanged |
| Zone.PlayQueuePath | clients/beoremote/beozone.go:144-156 | the base path alone when offset and count are 0; '?' iff either is non-zero; '&' iff both are |
| Zone.PlayQueuePathRoundTrip | clients/beoremote/beozone.go:144-156 | offset and count read back exactly from the path |
| Zone.PlayQueuePathParams | clients/beoremote/beozone.go:148-156 | `offset=` is present iff offset != 0 and then comes first; `count=` is present iff count != 0 |
| Zone.AddPath | clients/beoremote/beozone.go:205-211 | Now gives `?instantplay`, Next gives `?id=&insert=after`, any other value gives no query string |
| Zone.AddQueueItem | clients/beoremote/beozone.go:204-217 | a POST of the item to the add path |
| Zone.AddDeezerTracks | clients/beoremote/beozone.go:219-241 | needs a first item with a Deezer track; sends the items as a Deezer playlist named by that track's id, and no other queue field is set |
| Zone.RemoveQueueItem | clients/beoremote/beozone.go:174-178 | a DELETE whose path, with the queue path and `plid-` trimmed, reads back as the id |
| Zone.MoveQueueItem | clients/beoremote/beozone.go:180-184 | a bodiless POST; after the queue path and `plid-`, the path holds the moved id up to the first '?' (when the id holds none), then `id=plid-` and the id it goes before |
| Zone.PlayQueueItemRequest | clients/beoremote/beozone.go:186-194 | a POST to the play pointer at position 0, whose item id reads back as the id once `plid-` is trimmed |
| Zone.ShownIdRoundTrip | clients/beoremote/beozone.go:174-194 | an id with the `plid-` prefix trimmed is restored by the remove and play-pointer requests |
| Zone.ClearPlayQueue | clients/beoremote/beozone.go:169-172 | a DELETE of the queue itself: the item base path without its trailing slash |
| Zone.SetQueueRepeat | clients/beoremote/beozone.go:196-198 | a PUT of a queue whose only non-zero field is repeat |
| Zone.SetQueueRandom | clients/beoremote/beozone.go:200-202 | a PUT of a queue whose only non-zero field is random |
| QueueCommands.ArtistImages | beoutil/main.go:621-640 | three images, large, medium, small, in that order, each the artist's picture of that size, all "image/jpg" |
| QueueCommands.ToQueueItem | beoutil/main.go:641-664 | needs an artist; a planned item whose track names the Deezer track id (its id reads back as that id) and title, and holds exactly one artist, with the artist's Deezer id, name and no images |
| QueueCommands.ToQueueItemInjective | beoutil/main.go:659 | distinct tracks give distinct track ids |
| QueueCommands.QueueTrackWith | beoutil/main.go:666-690 | usage iff the play word is invalid; a failed lookup sends nothing; the clear is the first request iff the word is "now"; a failed clear stops; a missing artist crashes; the add comes last |
| QueueCommands.QueueTrack | beoutil/main.go:678-681 | the track is looked up by id; a failed lookup returns its error and sends nothing; a successful one goes on as `QueueTrackWith` with that track |
| QueueCommands.QueueTrackAsWritten | beoutil/main.go:678-689 | a failed lookup never returns its error: it crashes, or returns the clear's error; a successful one goes on as `QueueTrackWith` |
| QueueCommands.NowClearsThenAdds | beoutil/main.go:683-689 | "now" clears, then adds with `?instantplay`; "next" and "last" only add |
| QueueCommands.FailedLookupClearsThenPanics | clients/deezer/client.go:86-88 | as written, a failed lookup under "now" clears the queue and then crashes; corrected, it sends nothing and returns the error |
| QueueCommands.QueueItems | beoutil/main.go:715-718 | one item per track, in album order |
| QueueCommands.QueueAlbum | beoutil/main.go:703-707 | the album is looked up by id; a failed lookup returns its error and sends nothing; a successful one goes on as `QueueAlbumWith` with its tracks |
| QueueCommands.QueueAlbumWith | beoutil/main.go:692-720 | usage iff the play word is invalid; a failed lookup sends nothing; the clear is first iff "now"; it crashes iff the album is empty or a track has no artist, once any clear succeeded |
| QueueCommands.AlbumAddCarriesTracks | beoutil/main.go:715-719 | a successful album add sends every track, in order, as a playlist named by the first track's id |
| Timers.Abbrev | beoutil/main.go:743-759 | a known day reads back from its abbreviation (Thursday is "thur"); an unknown day is written as ""; no abbreviation holds ',' |
| Timers.RecurringColumn | beoutil/main.go:741-760 | the loop yields the abbreviations joined with ',' |
| Timers.RecurringRoundTrip | beoutil/main.go:741-760 | exactly len-1 commas, unknown days included; splitting at ',' gives each known day back and an empty field for an unknown one |
| Rest.IsSuccess | clients/rest/rest.go:74 | success exactly for codes 200 to 299, both ends included |
| Rest.Classify | clients/rest/rest.go:74-84 | success iff 200 <= code <= 299, with the body; the device's error iff the body is non-empty and parses; `HttpError` otherwise |
| Rest.HttpErrorText | clients/rest/rest.go:55-57 | the message starts with "status " |
| Rest.HttpErrorTextRoundTrip | clients/rest/rest.go:55-57 | the code and the status text read back exactly from the message, even when the text holds ':' |
| Rest.DoRequestAsWritten | clients/rest/rest.go:63-85 | transport and read errors are returned as such; the body is closed iff it was read successfully |
| Rest.DoRequest | clients/rest/rest.go:63-85 | the body of every received response is closed; the result is the body iff it was read and the status is 2xx |
| Rest.ReadFailureLeavesBodyOpen | clients/rest/rest.go:69-73 | a body that cannot be read stays open as written and is closed once corrected, with the same result |
| Rest.DoRequestSameResult | clients/rest/rest.go:63-85 | the corrected version returns exactly what the code returns |
| Rest.UnparsedErrorBodyIsHttpError | clients/rest/rest.go:74-82 | a non-2xx response with an empty or unparsable body yields `HttpError`, whose message names the code and status |
| Rest.EventOf | clients/rest/rest.go:158-163 | the event carries EOF iff the decode hit end of stream, and no error iff a value was decoded |
| Rest.ProcessFrom | clients/rest/rest.go:153-169 | at most one event per decode attempt; the channel and the body are closed together |
| Rest.ProcessEvents | clients/rest/rest.go:153-169 | at most one event per decode attempt; the channel and the body are closed together, and only after an EOF event or at the cancellation point; otherwise every attempt was delivered |
| Rest.ProcessFromEventAt | clients/rest/rest.go:157-166 | the k-th event sent is the result of the k-th decode attempt |
| Rest.ProcessFromEvents | clients/rest/rest.go:157-166 | the k-th event is the k-th decode outcome; only the last event can be EOF; nothing is sent from the cancellation point on |
| Rest.ProcessFromEnds | clients/rest/rest.go:159-167 | the loop returns only after delivering EOF or on cancellation; otherwise every outcome was delivered and none was EOF |
| Rest.ErrorsDoNotEndTheLoop | clients/rest/rest.go:159-167 | without EOF and without cancellation, every outcome, errors included, is delivered and the channel stays open |
| Rest.OpenEventStream | clients/rest/rest.go:171-192 | streaming iff the response is 2xx; a non-2xx response is closed and reported as `HttpError`; a transport error is returned as is |
| Watch.PrintFor | beoutil/main.go:796-806 | an error event prints the error; a value prints the notification iff it decodes |
| Watch.Consume | beoutil/main.go:789-808 | reconnect only as the last action; no action before the last returns; a return ends with nil and only on a closed channel |
| Watch.ConsumeReconnects | beoutil/main.go:789-795 | an EOF event after only non-EOF events ends the loop with a reconnect, right after their prints |
| Watch.ConsumeCloses | beoutil/main.go:789-808 | without EOF, one action per event and, once the channel closes, a final nil return |
| Watch.ConsumeEvents | beoutil/main.go:789-808 | each event before the first EOF prints one action, in order; EOF reconnects; a channel closing without EOF returns nil |
| Watch.WatchNotifications | beoutil/main.go:778-809 | the command returns at most once, as its last action; a failed open returns that error |
| Watch.EofReconnects | beoutil/main.go:784-795 | a stream ended by EOF prints each earlier event, then reconnects, and the next attempt continues the trace |
| Watch.CancelledStreamReturnsNil | beoutil/main.go:789-808 | a cancelled stream without EOF prints the events before the cancellation, then returns nil |
| AlbumIter.NewAlbumIter | clients/deezer/client.go:67-72 | read 0, not started, endpoint is the artist's album list under the Deezer base URL |
| AlbumIter.Next | clients/deezer/albumIter.go:44-63 | EOF without a request iff started and read == total; a failure leaves the state unchanged; a page adds its length to read, sets endpoint to its next link and total only on the first page |
| AlbumIter.FirstNextNeverEof | clients/deezer/albumIter.go:50-53 | the first call always requests the starting endpoint |
| AlbumIter.EofSticky | clients/deezer/albumIter.go:50-52 | once EOF is answered, the next call answers EOF again |
| AlbumIter.ReadCountsDelivered | clients/deezer/albumIter.go:56-67 | `Read` equals the number of albums handed out |
| AlbumIter.TotalFixedOnceStarted | clients/deezer/albumIter.go:57-60 | once started, total never changes |
| AlbumIter.TotalFromFirstPage | clients/deezer/albumIter.go:57-60 | total is the first successful page's value for the rest of the iteration |
| Deezer.QueryEscape | clients/deezer/client.go:54 | the result is at least as long as the input and uses only unreserved characters, '+', '%' and hex digits |
| Deezer.QueryEscapeRoundTrip | clients/deezer/client.go:54 | an escaped ASCII query unescapes to the query |
| Deezer.UnreservedUnescaped | clients/deezer/client.go:54 | a query of unreserved characters is sent unchanged |
| Deezer.SearchPath | clients/deezer/client.go:54-60 | starts with `/search/artist?q=` and the escaped query |
| Deezer.SearchPathParams | clients/deezer/client.go:54-60 | the path's parameters are the escaped query, then `index=` if Index != 0, then `limit=` if Limit != 0 |
| Deezer.SearchPathRoundTrip | clients/deezer/client.go:54-60 | the query comes first and, for an ASCII query, unescapes back; `index=` is present iff Index != 0 and `limit=` iff Limit != 0, index before limit, each read back exactly |
| Deezer.SearchArtist | clients/deezer/client.go:53-64 | requests the Deezer base URL followed by the search path of the options; the decoded artists on success, the request's error otherwise |
| Deezer.URLsDistinct | clients/deezer/client.go:74-90 | different album ids, or different track ids, are different requests, and an album's track list is never a track request |
| Deezer.GetAlbumTracks | clients/deezer/client.go:74-82 | requests `/album/<id>/tracks`; the decoded tracks on success, the request's error otherwise |
| Deezer.GetTrackAsWritten | clients/deezer/client.go:84-90 | requests `/track/<id>`; never an error: a failed request yields the zero track |
| Deezer.GetTrack | clients/deezer/client.go:84-90 | corrected: requests the same URL; the result is an error exactly when the request failed, and then it is that error |
| Deezer.GetTrackDiffersOnlyOnError | clients/deezer/client.go:84-90 | the two versions request the same URL and return the same result exactly when the request succeeds |
| Deezer.FailedGetTrackHasNoArtist | clients/deezer/client.go:86-88 | the zero track returned for a failure has no artist; corrected, the error comes back |

## Left out

- Network and mDNS. The zeroconf browse, the HTTP transport and every device
  or Deezer call are inputs, such as `query`, `getState`, `allStandby`,
  responses and pages. The Deezer calls take `get`, which stands for the
  REST client's `DoGet` and the decoding of its answer. Nothing is sent.
  These inputs are functions of the address or URL, so the model assumes
  that an address asked twice in one run gives the same answer both times.
  That happens when two cached products share an address, or one product
  lists an address twice. No property stated here depends on it.
- Concurrency. The goroutines, the `WaitGroup` and the unbuffered channel are
  sequential in the model. Cancellation is an index `cancelAt`: when the
  context is done at that decode attempt, the `select` takes the
  cancellation. The other choice of a racing `select` is the same as
  cancelling one attempt later.
- JSON decoding. Decode outcomes, the unmarshalled `ErrorResponse` and the
  notification decoder are inputs. Go's `json.Decoder` repeats a non-EOF
  error on every later call; the model takes whatever outcomes it is given,
  so it does not derive that endless repetition.
- The `ErrorResponse` type and the Deezer artist record
  (`clients/deezer/models/artist.go`) are not part of this model. The device
  error is an `Error` value. The artist keeps only ID, Name and its three
  picture URLs.
- The product cache file, its HOME lookup and `getCachedProducts`
  (`beoutil/main.go:50-91`) are out. The cache is given as a
  `Discovery.Directory`. As a result, the read-error return of
  `getAllSystemProducts` and `doAllStandby` is not modelled.
- Command-line plumbing is out: argument-count checks, flags, tabwriter and
  `fmt` output. Rows and actions are data. The play, repeat and random
  words are validated as in the code.
- Printing-only commands are out: `doFindProducts`, `doSearchArtist`,
  `doListAlbums`, `doListTracks`, the sources and listener commands. So are
  the thin one-request wrappers in `beozone.go`, `beodevice.go`,
  `beohome.go` and `beosecurity.go`.
- Zone request paths are relative to the product's base URL
  `http://<address>:8080`. Only the Deezer URLs carry their base URL.
- Addresses are the rendered strings of `net.IP.String`.
- Deezer.SearchPathRoundTrip: the query's unescaping back is proved for ASCII
  queries only, for the same reason as the next line.
- Deezer.QueryEscapeRoundTrip: proved for ASCII queries only, because the
  reader does not reassemble multi-byte UTF-8 sequences. The escaping itself
  covers every character, through its UTF-8 bytes.
- Topology.JoinIPs: the split round trip is stated for addresses without
  ','. A rendered IPv4 address never contains one.
- Float fields of the Deezer models are irrelevant here, and so is the
  notification payload, which is printed raw.

## Findings

| source | as written | input that shows it | evidently intended | confidence | as-written member | corrected member |
|---|---|---|---|---|---|---|
| clients/deezer/client.go:86-88 | a failed track request returns the zero `Track` with a nil error | `queue-track --play now` with a track id the request fails for: the queue is cleared, then `toQueueItem` dereferences the zero track's nil artist | return the request's error, so the command stops before touching the queue | high, not executed | QueueCommands.FailedLookupClearsThenPanics | Deezer.GetTrack |
| clients/rest/rest.go:69-73 | the `defer` that closes the response body is registered only after `io.ReadAll` succeeded | any response whose body read fails: `doRequest` returns the read error and the body is never closed | close the body of every response received, as the later `defer` does for a successful read | medium, not executed | Rest.ReadFailureLeavesBodyOpen | Rest.DoRequest |
