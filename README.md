# last-spot core, modelled in Dafny

last-spot reads a listener's recent top albums from Last.fm, finds artists
similar to the ones they play, and builds a private Spotify playlist from
the top albums of those similar artists. This project models the decision
logic of `src/main.rs` with every network reply given as an input:

- **Discovery** (`get_recommendations`): the walk over the chart with a
  seen-artist set, two similar artists per new seed, each paired with its
  first top album, and the early return at ten recommendations
  (`discovery.dfy`, module `Discovery`).
- **Callback parsing** (`get_spotify_auth_token`): the authorization code
  taken from the loopback redirect's request line (`callback.dfy`, module
  `Callback`, over the string primitives of `text.dfy`, module `Text`).
- **Track resolution** (`create_spotify_playlist`): one search per
  recommendation and the album fallback (`resolution.dfy`, module
  `Resolution`).
- **Batching**: `chunks(100)` and the write loop (`batching.dfy`, module
  `Batching`), and the whole of `create_spotify_playlist` (`playlist.dfy`,
  module `Playlist`).

Remote calls are oracles. A Last.fm lookup returns `Fetch` (`Unreachable`
when the request cannot be sent, `Undecodable` when the JSON does not match,
or `Fetched`). A Spotify search returns `SearchReply`. An album-tracks
lookup returns `Option`. A playlist write returns `Delivery`. The program
makes a failed *send* fatal (`send().await?`) but skips a failed *decode*
(`if let Ok(..)`), and the model keeps the two apart.

The discovery walk is proved against a specification in two layers. The
walk produces a stream of events: a recommendation is pushed, or a request
fails to send. A small machine consumes the stream and is full at ten. The
closed form of the machine is "the recommendations pushed before the first
failed send, first ten of them".

The model follows the code, including where one might expect otherwise:

- Deduplication applies only to seed artists. A similar artist shared by two
  seeds is recommended twice, so there is no "no duplicate artists" property.
- A similar-artist or top-album request that cannot be *sent* aborts discovery;
  only undecodable replies are skipped (src/main.rs:213, :221).
- A search that cannot be sent, or whose successful reply does not decode, aborts
  playlist building (src/main.rs:290, :314). Only a non-success status is skipped.
- The album fallback runs only when the search reply has no `tracks` field, not
  when that list is empty (src/main.rs:317-322).
- A playlist write that cannot be sent aborts the operation (src/main.rs:361);
  a refused write only warns.
- The echoed `state` is never compared with the generated one.

## Model

| member | source | states |
|---|---|---|
| `Discovery.GetRecommendations` | src/main.rs:181-236 | The loop with its seen-artist set and early returns yields exactly `Recommendations`, the event-machine specification: a failed chart fetch is `TopAlbumsFailed`, a failed send before the tenth push is `LookupUnreachable`. |
| `Discovery.ExpandSeed` | src/main.rs:205-232 | The inner loop over one seed: either the walk goes on with the seed's events applied, or it stops (a failed send, or the tenth push) with the outcome the whole walk then has. |
| `Discovery.RecommendationsClosedForm` | src/main.rs:186-235 | The result is "flatten, then take ten": the first ten recommendations pushed before any failed send. A failed send is an error only when fewer than ten came before it. |
| `Discovery.RunClosedForm` | src/main.rs:223-228 | Pushing onto a list that holds fewer than ten stops at exactly ten, and a failed send aborts only while still collecting. |
| `Discovery.RecommendationsBounded` | src/main.rs:226-228 | Never more than ten recommendations. |
| `Discovery.LaterAlbumsIgnored` | src/main.rs:226-228 | Once ten are pushed, chart albums after that point change nothing, even ones whose lookups would fail: the return is immediate, mid-chart. |
| `Discovery.ChartEventsBySeeds` | src/main.rs:199-203 | The seen-set walk expands exactly the distinct chart artists, each once, in order of first appearance, whatever their lookups return. |
| `Discovery.DistinctArtistsSpec` | src/main.rs:199-203 | The expanded seeds are exactly the chart's artists, without repeats. |
| `Discovery.RepeatedSeedAddsNothing` | src/main.rs:199-203 | A chart album by an already-seen artist leaves the result unchanged, including when that artist's similar-artist lookup failed. |
| `Discovery.SeedEventsSpec` | src/main.rs:213-223 | A seed adds at most two events. Each recommendation it adds has an artist among the seed's first two similar artists, with that artist's first top album. |
| `Discovery.RecommendationsEndorsed` | src/main.rs:213-223 | Every returned recommendation comes from some chart artist through the similar-artist and top-album lookups. |
| `Discovery.TwoSeedsTwoRecommendations` | src/main.rs:199-233 | Two chart albums by distinct artists, each with one similar artist that has one top album, give exactly those two recommendations, in chart order. |
| `Text.Tokens` | src/main.rs:142 | `split_whitespace` yields non-empty tokens that hold no Unicode whitespace. |
| `Text.TokensJoinWords` | src/main.rs:142 | Tokenising words joined by single spaces gives the words back. |
| `Text.TokensLeading` | src/main.rs:142 | Leading whitespace adds no tokens. |
| `Text.TokensSeparated` | src/main.rs:142 | Any non-empty run of whitespace separates tokens: the tokens of `a`, the run, then `b` are those of `a` followed by those of `b`. |
| `Text.Split` | src/main.rs:326 | `split` yields at least one piece, and no piece holds the separator. |
| `Text.JoinSplit` | src/main.rs:326 | Joining the pieces of a split with the separator restores the text. |
| `Text.SplitJoin` | src/main.rs:326 | Splitting a join of separator-free pieces gives the pieces back. |
| `Text.AfterLastSpec` | src/main.rs:326 | `split(":").last()` is the colon-free tail of the text. It is preceded by `:` when the text holds one, and is the whole text otherwise. |
| `Callback.CodeOfRequestLine` | src/main.rs:142-149 | `InvalidRequest` exactly when the request line has fewer than two whitespace-separated tokens. Otherwise the outcome is that of the second token, the request target. |
| `Callback.FirstCode` | src/main.rs:145-147 | `find` picks the first pair whose decoded key is `code`, and there is none exactly when no pair has that key. |
| `Callback.RawPairsRoundTrip` | src/main.rs:145 | Splitting a query on `&` and at the first `=` gives back the `key=value` pairs it was built from, for keys free of `&` and `=` and values free of `&`. |
| `Callback.QueryOfTarget` | src/main.rs:144 | The query of `/path?query` is `query`. |
| `Callback.NoQueryNoCode` | src/main.rs:144-147 | A target without `?` has no query and fails with `NoCode`. |
| `Callback.OnlyFirstCodeMatters` | src/main.rs:145-149 | Two pair lists that agree on the decoded keys up to the first `code` pair and on that pair's decoded value give the same code. The values before it (the `state` value among them) and every pair after it are irrelevant, however many pairs follow. |
| `Callback.CodeOfEncodedTarget` | src/main.rs:144-149 | For a target `path?query` whose query encodes a list of pairs: `Unparseable` when the parser rejects the URL. Otherwise it is the decoded value of the first pair whose decoded key is `code`, and `NoCode` when there is none. |
| `Callback.TrimEnd` | src/main.rs:144 | The URL parser's input loses only a trailing run of C0 controls and spaces, and afterwards does not end in one. |
| `Callback.TrailingControlTrimmed` | src/main.rs:144-149 | A control character at the very end of the target never reaches the code: `/callback?code=AB` followed by U+0001 yields `AB`. |
| `Callback.RequestLineTarget` | src/main.rs:139-143 | For a line `VERB target VERSION\r\n` the code is read from `target`. |
| `Callback.RequestLineAnySpacing` | src/main.rs:142-149 | With any leading whitespace, any non-empty whitespace between verb and target, and anything after the target that starts with whitespace, the code is read from the target. |
| `Callback.CallbackWithCode` | src/main.rs:142-149 | `GET /callback?code=ABC123&state=XYZ HTTP/1.1` yields the code `ABC123`. |
| `Callback.CallbackWithoutCode` | src/main.rs:142-149 | `GET /callback?state=XYZ HTTP/1.1` fails with `NoCode`. |
| `Resolution.SearchQueryRoundTrip` | src/main.rs:280 | The query is `album:` + album + ` artist:` + artist. It reads back as the same recommendation whenever the album name does not itself hold ` artist:`. |
| `Resolution.AlbumIdSpec` | src/main.rs:326 | The album id is the text after the last `:` of the album URI, or the whole URI when it holds no `:`. |
| `Resolution.AlbumIdOfUri` | src/main.rs:326 | The id of `spotify:album:<id>` is `<id>`. |
| `Resolution.Resolve` | src/main.rs:286-343 | One recommendation yields at most one URI, or a fatal error. |
| `Resolution.ResolveProvenance` | src/main.rs:292-343 | Fatal exactly when the search cannot be sent or does not decode. A URI is the first track of the reply, or, only when `tracks` is absent, the first track of the first album. Nothing is found for a rejected search, an empty `tracks`, no albums, or a failed or empty album lookup. |
| `Resolution.FallbackOnlyWithoutTracks` | src/main.rs:317-343 | The album-tracks lookup can affect the outcome only when the reply has no `tracks` field and has an album, and only through that album's id. A present but empty `tracks` never falls back. |
| `Resolution.ResolveTracks` | src/main.rs:277-344 | The resolution loop with its `continue`s yields exactly `ResolveAll`. |
| `Resolution.ResolveAllAppend` | src/main.rs:279-344 | Recommendations are resolved independently and in order: the URIs for `a + b` are those of `a` followed by those of `b`. |
| `Resolution.ResolveAllBounded` | src/main.rs:279-344 | At most one URI per recommendation. |
| `Resolution.SkippedLeavesNoTrace` | src/main.rs:292-296 | A recommendation that finds nothing can be removed from anywhere in the list without changing the URIs. |
| `Resolution.FatalIsSticky` | src/main.rs:286-314 | A fatal search ends the whole resolution with that error. |
| `Batching.ChunksFlatten` | src/main.rs:351 | Concatenating the batches in order gives back `track_uris` exactly. |
| `Batching.ChunksShape` | src/main.rs:351 | Every batch but the last is full and the last holds 1 to n items. There are just enough batches for all items, and none for no items. |
| `Batching.BatchCount` | src/main.rs:350-351 | There are ceil(n/100) batches. |
| `Batching.TwoHundredFifty` | src/main.rs:351 | 250 URIs go out as batches of 100, 100 and 50, in order. |
| `Batching.OneBatch` | src/main.rs:350-351 | Up to 100 URIs go out in a single request. |
| `Batching.AddTracks` | src/main.rs:347-370 | The batches sent are a prefix of `chunks(100)`, all of them unless one could not be sent (then it is the last sent and the result is an error). A refused batch does not stop the loop. No URIs, no request. |
| `Playlist.CreateSpotifyPlaylist` | src/main.rs:238-373 | Each creation failure ends the operation before any search. A fatal search ends it before any write. Otherwise the batches are written to the returned playlist id, and the URL is returned exactly when every batch was sent. `AddFailed` means the last batch attempted could not be sent and every one before it was, so a refused batch never stops the writes. |
| `Playlist.TwoMatchesOneBatch` | src/main.rs:317-321 | Two recommendations whose searches find a track give those two URIs in order, written in one request. |

## Left out

- HTTP, JSON decoding, `async`/`await`: every request is an input, and each
  reply is a value that says whether it was sent, decoded or refused.
- The token exchange after the callback (src/main.rs:157-178) is left out.
  It is one POST with a Basic-auth header built by a Base64 library, and its
  only logic is "non-success status is an error".
- The random `state` (src/main.rs:101-105) is left out, because it is
  randomness. Building the authorization URL and percent-encoding its
  parameters are left out too.
- The TCP listener, reading the line from the socket and writing the success
  page are left out. The model starts from the request line as read.
- `Callback.CodeOfTarget`: the URL parser is an input. Whether
  `http://localhost` + target parses is a predicate parameter, and the
  percent-decoding of keys and values is a function parameter. The model
  spells out the parts of parsing the result depends on:
  - the trimming of trailing C0 controls and spaces (`Callback.TrimEnd`);
  - the query as the text after the first `?` and before the first `#` (`Callback.QueryOf`);
  - the form splitting on `&` and the first `=`, with empty pieces skipped (`Callback.RawPairs`);
  - not the parser's percent-encoding of other characters in the query, which is assumed to be undone by that decoding.
- The error messages are error constructors, not the strings "Invalid request"
  and "No code found".
- Request parameters (`period=6month`, `limit=10`, `limit=5`, `limit=1`) are
  not modelled. The model takes whatever lists the oracles return, so it does
  not assume a chart of at most ten albums or at most five similar artists.
- Reading the body of a refused creation (`text().await?`) is taken to succeed.
  Its own failure is not modelled.
- The playlist name's date (`chrono`), console output, environment loading and
  opening the browser (src/main.rs:126-131, 376-444) are left out. The
  orchestration in `main` is left out too.
- Lookups are functions of their request: the same request always gets the
  same reply, and the number of requests made is not modelled. So
  `Discovery.RepeatedSeedAddsNothing` would also hold if an artist were
  marked seen only after a successful lookup. Separately, the walk itself
  marks the artist seen before the lookup, as the program does.
