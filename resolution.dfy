/**
 * Turning recommendations into track URIs of the target catalog (the
 * resolution loop of `create_spotify_playlist`). Per recommendation: search
 * `album:<album> artist:<artist>`; a rejected search is skipped; a reply
 * with a `tracks` field gives its first track, if any, and nothing else is
 * tried; only a reply without `tracks` falls back to the first album's
 * first track. At most one URI per recommendation, in recommendation order.
 */
module Resolution {
  import opened Wrappers
  import opened Text
  import opened Discovery

  /** The reply to one catalog search, as the program reads it. */
  datatype SearchReply =
    | NotSent                 // `send().await?` failed: fatal
    | Rejected                // non-success status: a warning, the recommendation is skipped
    | Malformed               // success status, but the body is not a search response: fatal
    | Found(tracks: Option<seq<string>>, albums: seq<string>)
      // track URIs when the reply has a `tracks` field; album URIs

  /** Search replies, by query text. */
  type SearchOracle = string -> SearchReply
  /**
   * First tracks of an album, by album id; `None` when the request fails or
   * its reply does not decode (the status is not inspected).
   */
  type AlbumTracksOracle = string -> Option<seq<string>>

  datatype ResolutionError = SearchNotSent | SearchMalformed

  /** What one recommendation yields: at most one URI, or a fatal error. */
  datatype Resolved = Fatal(error: ResolutionError) | Picked(uris: seq<string>)

  // ---------------------------------------------------------------------
  // The search query
  // ---------------------------------------------------------------------

  /** `format!("album:{} artist:{}", album, artist)`. */
  function SearchQuery(rec: Recommendation): string {
    "album:" + rec.album + " artist:" + rec.artist
  }

  const ArtistField := " artist:"

  predicate Occurs(pattern: string, s: string, k: nat) {
    k + |pattern| <= |s| && s[k..k + |pattern|] == pattern
  }

  ghost predicate Contains(s: string, pattern: string) {
    exists k: nat :: Occurs(pattern, s, k)
  }

  /** The first position of `pattern` in `s`, if it occurs. */
  function IndexOf(s: string, pattern: string, from: nat): (r: Option<nat>)
    requires pattern != []
    ensures r.Some? ==> from <= r.value && Occurs(pattern, s, r.value)
    ensures r.Some? ==> forall j: nat :: from <= j < r.value ==> !Occurs(pattern, s, j)
    ensures r.None? ==> forall j: nat :: from <= j ==> !Occurs(pattern, s, j)
    decreases |s| - from
  {
    if from + |pattern| > |s| then None
    else if s[from..from + |pattern|] == pattern then Some(from)
    else IndexOf(s, pattern, from + 1)
  }

  /** Reading a query back: the album runs up to the first ` artist:`. */
  function ParseQuery(q: string): Option<Recommendation> {
    if |q| < 6 || q[..6] != "album:" then None
    else
      var rest := q[6..];
      match IndexOf(rest, ArtistField, 0)
      case None => None
      case Some(k) => Some(Recommendation(rest[k + |ArtistField|..], rest[..k]))
  }

  /**
   * The query names the album and then the artist, and reads back exactly
   * as long as the album name does not itself hold ` artist:`.
   */
  lemma SearchQueryRoundTrip(rec: Recommendation)
    requires !Contains(rec.album, ArtistField)
    ensures ParseQuery(SearchQuery(rec)) == Some(rec)
  {
    var q := SearchQuery(rec);
    var rest := rec.album + ArtistField + rec.artist;
    assert q[..6] == "album:" && q[6..] == rest;
    var n := |rec.album|;
    assert Occurs(ArtistField, rest, n) by {
      assert rest[n..n + |ArtistField|] == ArtistField;
    }
    forall j: nat | j < n
      ensures !Occurs(ArtistField, rest, j)
    {
      if j + |ArtistField| <= n {
        assert rest[j..j + |ArtistField|] == rec.album[j..j + |ArtistField|];
        assert !Occurs(ArtistField, rec.album, j);
      } else if j + |ArtistField| <= |rest| {
        assert rest[j..j + |ArtistField|][n - j] == rest[n] == ' ';
        assert ArtistField[n - j] != ' ';
      }
    }
    assert rest[..n] == rec.album;
    assert rest[n + |ArtistField|..] == rec.artist;
  }

  // ---------------------------------------------------------------------
  // One recommendation
  // ---------------------------------------------------------------------

  /** `uri.split(":").last().unwrap_or("")`: the id after the last colon of a catalog URI. */
  function AlbumId(uri: string): string {
    AfterLast(uri, ':')
  }

  /** The album id of a URI of the form `spotify:album:<id>` is `<id>`. */
  lemma AlbumIdOfUri(prefix: string, id: string)
    requires ':' !in id
    ensures AlbumId(prefix + ":" + id) == id
  {
    AfterLastOf(prefix, id, ':');
  }

  /** The id is the colon-free tail of the URI; a URI without a colon is its own id. */
  lemma AlbumIdSpec(uri: string)
    ensures ':' !in AlbumId(uri)
    ensures |AlbumId(uri)| <= |uri| && uri[|uri| - |AlbumId(uri)|..] == AlbumId(uri)
    ensures ':' !in uri ==> AlbumId(uri) == uri
    ensures ':' in uri ==> |AlbumId(uri)| < |uri| && uri[|uri| - |AlbumId(uri)| - 1] == ':'
  {
    AfterLastSpec(uri, ':');
  }

  function First(items: seq<string>): (r: seq<string>)
    ensures |r| <= 1 && r <= items
    ensures items != [] ==> r == [items[0]]
  {
    if items == [] then [] else [items[0]]
  }

  /** The resolution policy for one recommendation. */
  function Resolve(rec: Recommendation, search: SearchOracle, albumTracks: AlbumTracksOracle): (r: Resolved)
    ensures r.Picked? ==> |r.uris| <= 1
  {
    match search(SearchQuery(rec))
    case NotSent => Fatal(SearchNotSent)
    case Malformed => Fatal(SearchMalformed)
    case Rejected => Picked([])
    case Found(tracks, albums) =>
      match tracks
      case Some(items) => Picked(First(items))
      case None =>
        if albums == [] then Picked([])
        else match albumTracks(AlbumId(albums[0]))
          case None => Picked([])
          case Some(items) => Picked(First(items))
  }

  /**
   * Where a URI comes from: the first track of the search reply, or, when
   * the reply had no `tracks` field, the first track of its first album.
   */
  lemma ResolveProvenance(rec: Recommendation, search: SearchOracle, albumTracks: AlbumTracksOracle)
    ensures Resolve(rec, search, albumTracks).Fatal? <==>
      search(SearchQuery(rec)) == NotSent || search(SearchQuery(rec)) == Malformed
    ensures Resolve(rec, search, albumTracks) == Picked([]) ==>
      match search(SearchQuery(rec))
      case Found(Some(items), _) => items == []
      case Found(None, albums) => albums == [] || albumTracks(AlbumId(albums[0])) in {None, Some([])}
      case other => other == Rejected
    ensures forall u :: Resolve(rec, search, albumTracks) == Picked([u]) ==>
      match search(SearchQuery(rec))
      case Found(Some(items), _) => items != [] && u == items[0]
      case Found(None, albums) =>
        albums != [] && albumTracks(AlbumId(albums[0])).Some?
        && albumTracks(AlbumId(albums[0])).value != [] && u == albumTracks(AlbumId(albums[0])).value[0]
      case _ => false
  {
  }

  /**
   * The album fallback is consulted only when the reply has no `tracks`
   * field: two album-track oracles can change the outcome only then, and
   * only through the first album's id.
   */
  lemma FallbackOnlyWithoutTracks(rec: Recommendation, search: SearchOracle, at1: AlbumTracksOracle, at2: AlbumTracksOracle)
    requires Resolve(rec, search, at1) != Resolve(rec, search, at2)
    ensures search(SearchQuery(rec)).Found? && search(SearchQuery(rec)).tracks.None?
    ensures search(SearchQuery(rec)).albums != []
    ensures at1(AlbumId(search(SearchQuery(rec)).albums[0])) != at2(AlbumId(search(SearchQuery(rec)).albums[0]))
  {
  }

  // ---------------------------------------------------------------------
  // All recommendations
  // ---------------------------------------------------------------------

  /** The `track_uris` the loop accumulates, or the error that ends it. */
  function ResolveAll(recs: seq<Recommendation>, search: SearchOracle, albumTracks: AlbumTracksOracle)
    : Result<seq<string>, ResolutionError>
    decreases |recs|
  {
    if recs == [] then Ok([])
    else
      match ResolveAll(recs[..|recs| - 1], search, albumTracks)
      case Err(e) => Err(e)
      case Ok(uris) =>
        match Resolve(recs[|recs| - 1], search, albumTracks)
        case Fatal(e) => Err(e)
        case Picked(u) => Ok(uris + u)
  }

  /**
   * Recommendations are resolved independently and in order: the URIs of
   * `a + b` are those of `a` followed by those of `b`, and a fatal error in
   * either is the outcome.
   */
  lemma {:induction false} ResolveAllAppend(a: seq<Recommendation>, b: seq<Recommendation>, search: SearchOracle, albumTracks: AlbumTracksOracle)
    ensures ResolveAll(a + b, search, albumTracks) ==
      match ResolveAll(a, search, albumTracks)
      case Err(e) => Err(e)
      case Ok(ua) =>
        match ResolveAll(b, search, albumTracks)
        case Err(e) => Err(e)
        case Ok(ub) => Ok(ua + ub)
    decreases |b|
  {
    if b == [] {
      assert a + b == a;
      match ResolveAll(a, search, albumTracks)
      case Err(e) =>
      case Ok(ua) => assert ua + [] == ua;
    } else {
      var b' := b[..|b| - 1];
      assert (a + b)[..|a + b| - 1] == a + b';
      assert (a + b)[|a + b| - 1] == b[|b| - 1];
      ResolveAllAppend(a, b', search, albumTracks);
      match ResolveAll(a, search, albumTracks)
      case Err(e) =>
      case Ok(ua) =>
        match ResolveAll(b', search, albumTracks)
        case Err(e) =>
        case Ok(ub) =>
          match Resolve(b[|b| - 1], search, albumTracks)
          case Fatal(e) =>
          case Picked(u) => assert ua + ub + u == ua + (ub + u);
    }
  }

  /** At most one URI per recommendation. */
  lemma {:induction false} ResolveAllBounded(recs: seq<Recommendation>, search: SearchOracle, albumTracks: AlbumTracksOracle)
    ensures ResolveAll(recs, search, albumTracks).Ok? ==> |ResolveAll(recs, search, albumTracks).value| <= |recs|
    decreases |recs|
  {
    if recs != [] {
      ResolveAllBounded(recs[..|recs| - 1], search, albumTracks);
    }
  }

  /** A recommendation that finds nothing leaves no trace, wherever it stands. */
  lemma SkippedLeavesNoTrace(a: seq<Recommendation>, rec: Recommendation, b: seq<Recommendation>,
                             search: SearchOracle, albumTracks: AlbumTracksOracle)
    requires Resolve(rec, search, albumTracks) == Picked([])
    ensures ResolveAll(a + [rec] + b, search, albumTracks) == ResolveAll(a + b, search, albumTracks)
  {
    ResolveAllAppend(a + [rec], b, search, albumTracks);
    ResolveAllAppend(a, [rec], search, albumTracks);
    ResolveAllAppend(a, b, search, albumTracks);
    assert [rec][..0] == [];
    match ResolveAll(a, search, albumTracks)
    case Err(e) =>
    case Ok(ua) => assert ua + [] == ua;
  }

  /** A fatal search anywhere makes the whole resolution fail. */
  lemma {:induction false} FatalIsSticky(recs: seq<Recommendation>, k: nat, search: SearchOracle, albumTracks: AlbumTracksOracle)
    requires k <= |recs|
    requires ResolveAll(recs[..k], search, albumTracks).Err?
    ensures ResolveAll(recs, search, albumTracks) == ResolveAll(recs[..k], search, albumTracks)
  {
    ResolveAllAppend(recs[..k], recs[k..], search, albumTracks);
    assert recs[..k] + recs[k..] == recs;
  }

  // ---------------------------------------------------------------------
  // The imperative loop
  // ---------------------------------------------------------------------

  /** The resolution loop: push at most one URI per recommendation, `continue` past skips. */
  method ResolveTracks(recs: seq<Recommendation>, search: SearchOracle, albumTracks: AlbumTracksOracle)
    returns (result: Result<seq<string>, ResolutionError>)
    ensures result == ResolveAll(recs, search, albumTracks)
  {
    var trackUris: seq<string> := [];
    for i := 0 to |recs|
      invariant ResolveAll(recs[..i], search, albumTracks) == Ok(trackUris)
    {
      var rec := recs[i];
      assert recs[..i + 1][..i] == recs[..i] && recs[..i + 1][i] == rec;
      var query := SearchQuery(rec);
      match search(query) {
        case NotSent =>
          FatalIsSticky(recs, i + 1, search, albumTracks);
          return Err(SearchNotSent);
        case Rejected =>
          assert trackUris + [] == trackUris;
          continue;
        case Malformed =>
          FatalIsSticky(recs, i + 1, search, albumTracks);
          return Err(SearchMalformed);
        case Found(tracks, albums) =>
          if tracks.Some? {
            if tracks.value != [] {
              trackUris := trackUris + [tracks.value[0]];
            } else {
              assert trackUris + [] == trackUris;
            }
          } else if albums != [] {
            var albumId := AlbumId(albums[0]);
            var reply := albumTracks(albumId);
            if reply.Some? && reply.value != [] {
              trackUris := trackUris + [reply.value[0]];
            } else {
              assert trackUris + [] == trackUris;
            }
          } else {
            assert trackUris + [] == trackUris;
          }
      }
    }
    assert recs[..|recs|] == recs;
    return Ok(trackUris);
  }
}
