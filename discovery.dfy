/**
 * The discovery engine (`get_recommendations`). The listener's chart of top
 * albums is walked in order; each artist not seen before is a seed, marked
 * seen before anything is fetched for it; the first two artists similar to a
 * seed are each paired with their own first top album; the walk returns as
 * soon as ten recommendations are held.
 *
 * Every remote lookup is an input. A lookup whose request cannot be sent is
 * fatal (`send().await?`); one whose reply does not decode is skipped
 * (`if let Ok(..) = ..json()`).
 */
module Discovery {
  import opened Wrappers

  /** An entry of the listener's top-albums chart. */
  datatype TopAlbum = TopAlbum(name: string, artist: string)

  /** A suggested (similar artist, that artist's top album) pair. */
  datatype Recommendation = Recommendation(artist: string, album: string)

  /** The result of one request to the source catalog. */
  datatype Fetch<T> =
    | Unreachable        // the request could not be sent: propagated with `?`
    | Undecodable        // the reply is not the expected JSON shape
    | Fetched(value: T)

  datatype DiscoveryError =
    | TopAlbumsFailed    // the chart itself could not be fetched or decoded
    | LookupUnreachable  // a similar-artist or top-album request could not be sent

  /** Similar artists of an artist, in similarity order. */
  type SimilarOracle = string -> Fetch<seq<string>>
  /** Top album names of an artist, best first. */
  type AlbumsOracle = string -> Fetch<seq<string>>

  const MaxRecommendations: nat := 10
  const SimilarPerSeed: nat := 2

  function Take<T>(s: seq<T>, n: nat): (r: seq<T>)
    ensures |r| <= n && r <= s
    ensures |s| >= n ==> |r| == n
  {
    if |s| <= n then s else s[..n]
  }

  // ---------------------------------------------------------------------
  // The walk as a stream of events, in the order the program produces them
  // ---------------------------------------------------------------------

  /** One step of the walk: a recommendation is pushed, or a request fails to send. */
  datatype Event = Emit(rec: Recommendation) | Abort

  /** What one similar artist contributes: its first top album, if there is one. */
  function CandidateEvents(name: string, albumsOf: AlbumsOracle): (es: seq<Event>)
    ensures |es| <= 1
  {
    match albumsOf(name)
    case Unreachable => [Abort]
    case Undecodable => []
    case Fetched(albums) => if albums == [] then [] else [Emit(Recommendation(name, albums[0]))]
  }

  /** The contributions of a list of similar artists, in order. */
  function CandidatesEvents(names: seq<string>, albumsOf: AlbumsOracle): seq<Event>
    decreases |names|
  {
    if names == [] then []
    else CandidatesEvents(names[..|names| - 1], albumsOf) + CandidateEvents(names[|names| - 1], albumsOf)
  }

  /** What one seed artist contributes: its first two similar artists, each expanded. */
  function SeedEvents(seed: string, similar: SimilarOracle, albumsOf: AlbumsOracle): seq<Event> {
    match similar(seed)
    case Unreachable => [Abort]
    case Undecodable => []
    case Fetched(names) => CandidatesEvents(Take(names, SimilarPerSeed), albumsOf)
  }

  /** The artists credited anywhere in `albums`: the program's `seen_artists` after walking them. */
  function Artists(albums: seq<TopAlbum>): set<string>
    decreases |albums|
  {
    if albums == [] then {} else Artists(albums[..|albums| - 1]) + {albums[|albums| - 1].artist}
  }

  /** The events of a walk over `albums`: an album whose artist was seen earlier adds none. */
  function ChartEvents(albums: seq<TopAlbum>, similar: SimilarOracle, albumsOf: AlbumsOracle): seq<Event>
    decreases |albums|
  {
    if albums == [] then []
    else
      var earlier := albums[..|albums| - 1];
      var seed := albums[|albums| - 1].artist;
      var prev := ChartEvents(earlier, similar, albumsOf);
      if seed in Artists(earlier) then prev else prev + SeedEvents(seed, similar, albumsOf)
  }

  // ---------------------------------------------------------------------
  // Consuming the events: the list fills up to ten, or a failure aborts
  // ---------------------------------------------------------------------

  datatype Progress = Collecting(recs: seq<Recommendation>) | Full(recs: seq<Recommendation>) | Aborted

  /** `recommendations.push(..)` and the `len() >= 10` return, or the `?` on a failed send. */
  function Step(p: Progress, e: Event): Progress {
    match p
    case Collecting(recs) =>
      (match e
       case Abort => Aborted
       case Emit(r) =>
         if |recs| + 1 >= MaxRecommendations then Full(recs + [r]) else Collecting(recs + [r]))
    case _ => p
  }

  function RunFrom(p: Progress, es: seq<Event>): Progress
    decreases |es|
  {
    if es == [] then p else RunFrom(Step(p, es[0]), es[1..])
  }

  function Outcome(p: Progress): Result<seq<Recommendation>, DiscoveryError> {
    match p
    case Collecting(recs) => Ok(recs)
    case Full(recs) => Ok(recs)
    case Aborted => Err(LookupUnreachable)
  }

  /** The result of `get_recommendations` for the given replies of the source catalog. */
  function Recommendations(top: Fetch<seq<TopAlbum>>, similar: SimilarOracle, albumsOf: AlbumsOracle)
    : Result<seq<Recommendation>, DiscoveryError>
  {
    match top
    case Fetched(albums) => Outcome(RunFrom(Collecting([]), ChartEvents(albums, similar, albumsOf)))
    case _ => Err(TopAlbumsFailed)
  }

  // ---------------------------------------------------------------------
  // Facts about the event machine
  // ---------------------------------------------------------------------

  lemma {:induction false} RunSnoc(p: Progress, es: seq<Event>, e: Event)
    ensures RunFrom(p, es + [e]) == Step(RunFrom(p, es), e)
    decreases |es|
  {
    if es != [] {
      assert (es + [e])[1..] == es[1..] + [e];
      RunSnoc(Step(p, es[0]), es[1..], e);
    }
  }

  /** Once full or aborted, nothing further changes the outcome: the early return. */
  lemma {:induction false} RunStopped(p: Progress, es: seq<Event>)
    requires !p.Collecting?
    ensures RunFrom(p, es) == p
    decreases |es|
  {
    if es != [] {
      RunStopped(p, es[1..]);
    }
  }

  lemma {:induction false} RunAppend(p: Progress, a: seq<Event>, b: seq<Event>)
    ensures RunFrom(p, a + b) == RunFrom(RunFrom(p, a), b)
    decreases |a|
  {
    if a == [] {
      assert a + b == b;
    } else {
      assert (a + b)[0] == a[0];
      assert (a + b)[1..] == a[1..] + b;
      RunAppend(Step(p, a[0]), a[1..], b);
    }
  }

  lemma RunPrefixStopped(p: Progress, pre: seq<Event>, es: seq<Event>)
    requires pre <= es
    requires !RunFrom(p, pre).Collecting?
    ensures RunFrom(p, es) == RunFrom(p, pre)
  {
    assert es[..|pre|] == pre;
    assert es == pre + es[|pre|..];
    RunAppend(p, pre, es[|pre|..]);
    RunStopped(RunFrom(p, pre), es[|pre|..]);
  }

  /** The recommendations pushed before the first failed send, in order. */
  function EmitsBeforeAbort(es: seq<Event>): seq<Recommendation> {
    if es == [] then []
    else match es[0]
      case Abort => []
      case Emit(r) => [r] + EmitsBeforeAbort(es[1..])
  }

  /**
   * The machine in closed form: flatten the events up to the first failed
   * send and keep ten; the failure is reported only when fewer than ten
   * came before it.
   */
  lemma {:induction false} RunClosedForm(acc: seq<Recommendation>, es: seq<Event>)
    requires |acc| < MaxRecommendations
    ensures RunFrom(Collecting(acc), es) ==
      var all := acc + EmitsBeforeAbort(es);
      if |all| >= MaxRecommendations then Full(all[..MaxRecommendations])
      else if Abort in es then Aborted
      else Collecting(all)
    decreases |es|
  {
    if es != [] {
      match es[0]
      case Abort =>
        RunStopped(Aborted, es[1..]);
      case Emit(r) =>
        var acc' := acc + [r];
        assert acc + EmitsBeforeAbort(es) == acc' + EmitsBeforeAbort(es[1..]);
        assert Abort in es <==> Abort in es[1..] by {
          assert es == [es[0]] + es[1..];
        }
        if |acc'| >= MaxRecommendations {
          RunStopped(Full(acc'), es[1..]);
          assert (acc' + EmitsBeforeAbort(es[1..]))[..MaxRecommendations] == acc';
        } else {
          RunClosedForm(acc', es[1..]);
        }
    }
  }

  /**
   * `get_recommendations` is "flatten, then take ten": the recommendations
   * are the first ten pushed before any failed send, and a failed send is
   * an error only if it comes before the tenth.
   */
  lemma RecommendationsClosedForm(albums: seq<TopAlbum>, similar: SimilarOracle, albumsOf: AlbumsOracle)
    ensures Recommendations(Fetched(albums), similar, albumsOf) ==
      var es := ChartEvents(albums, similar, albumsOf);
      var all := EmitsBeforeAbort(es);
      if |all| >= MaxRecommendations then Ok(all[..MaxRecommendations])
      else if Abort in es then Err(LookupUnreachable)
      else Ok(all)
  {
    RunClosedForm([], ChartEvents(albums, similar, albumsOf));
    assert [] + EmitsBeforeAbort(ChartEvents(albums, similar, albumsOf))
        == EmitsBeforeAbort(ChartEvents(albums, similar, albumsOf));
  }

  lemma {:induction false} EmitsFromEvents(es: seq<Event>)
    ensures forall r :: r in EmitsBeforeAbort(es) ==> Emit(r) in es
  {
    if es != [] && es[0].Emit? {
      EmitsFromEvents(es[1..]);
    }
  }

  /** Never more than ten recommendations. */
  lemma RecommendationsBounded(top: Fetch<seq<TopAlbum>>, similar: SimilarOracle, albumsOf: AlbumsOracle)
    ensures Recommendations(top, similar, albumsOf).Ok? ==>
      |Recommendations(top, similar, albumsOf).value| <= MaxRecommendations
  {
    if top.Fetched? {
      RecommendationsClosedForm(top.value, similar, albumsOf);
    }
  }

  // ---------------------------------------------------------------------
  // Seeds: each chart artist is expanded once, in order of first appearance
  // ---------------------------------------------------------------------

  /** The chart's artists without repeats, in order of first appearance. */
  function DistinctArtists(albums: seq<TopAlbum>): seq<string>
    decreases |albums|
  {
    if albums == [] then []
    else
      var earlier := DistinctArtists(albums[..|albums| - 1]);
      var seed := albums[|albums| - 1].artist;
      if seed in earlier then earlier else earlier + [seed]
  }

  /** The events of a list of seeds, one seed after the other. */
  function SeedsEvents(seeds: seq<string>, similar: SimilarOracle, albumsOf: AlbumsOracle): seq<Event>
    decreases |seeds|
  {
    if seeds == [] then []
    else SeedsEvents(seeds[..|seeds| - 1], similar, albumsOf) + SeedEvents(seeds[|seeds| - 1], similar, albumsOf)
  }

  lemma {:induction false} DistinctArtistsSpec(albums: seq<TopAlbum>)
    ensures forall a :: a in DistinctArtists(albums) <==> a in Artists(albums)
    ensures forall i, j :: 0 <= i < j < |DistinctArtists(albums)| ==> DistinctArtists(albums)[i] != DistinctArtists(albums)[j]
    decreases |albums|
  {
    if albums != [] {
      var earlier := albums[..|albums| - 1];
      DistinctArtistsSpec(earlier);
      assert albums == earlier + [albums[|albums| - 1]];
      assert Artists(albums) == Artists(earlier) + {albums[|albums| - 1].artist};
    }
  }

  /**
   * The seen-set walk expands exactly the distinct chart artists, each once,
   * in order of first appearance, whatever their lookups return.
   */
  lemma {:induction false} ChartEventsBySeeds(albums: seq<TopAlbum>, similar: SimilarOracle, albumsOf: AlbumsOracle)
    ensures ChartEvents(albums, similar, albumsOf) == SeedsEvents(DistinctArtists(albums), similar, albumsOf)
    decreases |albums|
  {
    if albums != [] {
      var earlier := albums[..|albums| - 1];
      ChartEventsBySeeds(earlier, similar, albumsOf);
      DistinctArtistsSpec(earlier);
      var d := DistinctArtists(earlier);
      var seed := albums[|albums| - 1].artist;
      if seed !in d {
        assert (d + [seed])[..|d|] == d;
      }
    }
  }

  /** A chart album whose artist already appeared adds nothing, even if that artist's lookup failed. */
  lemma RepeatedSeedAddsNothing(albums: seq<TopAlbum>, album: TopAlbum, similar: SimilarOracle, albumsOf: AlbumsOracle)
    requires album.artist in Artists(albums)
    ensures Recommendations(Fetched(albums + [album]), similar, albumsOf)
         == Recommendations(Fetched(albums), similar, albumsOf)
  {
    assert (albums + [album])[..|albums|] == albums;
  }

  // ---------------------------------------------------------------------
  // What a seed contributes
  // ---------------------------------------------------------------------

  /**
   * `rec` is a recommendation the program can derive from `seed`: its artist
   * is among the seed's first two similar artists, and its album is that
   * artist's first top album.
   */
  ghost predicate Endorsed(seed: string, rec: Recommendation, similar: SimilarOracle, albumsOf: AlbumsOracle) {
    similar(seed).Fetched? && rec.artist in Take(similar(seed).value, SimilarPerSeed)
    && albumsOf(rec.artist).Fetched? && albumsOf(rec.artist).value != []
    && rec.album == albumsOf(rec.artist).value[0]
  }

  lemma {:induction false} CandidatesEventsSpec(names: seq<string>, albumsOf: AlbumsOracle)
    ensures |CandidatesEvents(names, albumsOf)| <= |names|
    ensures forall r :: Emit(r) in CandidatesEvents(names, albumsOf) ==>
      r.artist in names && albumsOf(r.artist).Fetched? && albumsOf(r.artist).value != []
      && r.album == albumsOf(r.artist).value[0]
    decreases |names|
  {
    if names != [] {
      var earlier := names[..|names| - 1];
      CandidatesEventsSpec(earlier, albumsOf);
      assert forall n :: n in earlier ==> n in names;
      assert names[|names| - 1] in names;
    }
  }

  /** A seed adds at most two events, and every recommendation it adds is endorsed by it. */
  lemma SeedEventsSpec(seed: string, similar: SimilarOracle, albumsOf: AlbumsOracle)
    ensures |SeedEvents(seed, similar, albumsOf)| <= SimilarPerSeed
    ensures forall r :: Emit(r) in SeedEvents(seed, similar, albumsOf) ==> Endorsed(seed, r, similar, albumsOf)
  {
    if similar(seed).Fetched? {
      CandidatesEventsSpec(Take(similar(seed).value, SimilarPerSeed), albumsOf);
    }
  }

  lemma {:induction false} ChartEventsEndorsed(albums: seq<TopAlbum>, similar: SimilarOracle, albumsOf: AlbumsOracle)
    ensures forall r :: Emit(r) in ChartEvents(albums, similar, albumsOf) ==>
      exists seed :: seed in Artists(albums) && Endorsed(seed, r, similar, albumsOf)
    decreases |albums|
  {
    if albums != [] {
      var earlier := albums[..|albums| - 1];
      var seed := albums[|albums| - 1].artist;
      ChartEventsEndorsed(earlier, similar, albumsOf);
      SeedEventsSpec(seed, similar, albumsOf);
      assert albums == earlier + [albums[|albums| - 1]];
      assert Artists(albums) == Artists(earlier) + {seed};
    }
  }

  /** Every recommendation returned comes from a chart artist through the two-step lookup. */
  lemma RecommendationsEndorsed(albums: seq<TopAlbum>, similar: SimilarOracle, albumsOf: AlbumsOracle)
    ensures Recommendations(Fetched(albums), similar, albumsOf).Ok? ==>
      forall r :: r in Recommendations(Fetched(albums), similar, albumsOf).value ==>
        exists seed :: seed in Artists(albums) && Endorsed(seed, r, similar, albumsOf)
  {
    var es := ChartEvents(albums, similar, albumsOf);
    RecommendationsClosedForm(albums, similar, albumsOf);
    EmitsFromEvents(es);
    ChartEventsEndorsed(albums, similar, albumsOf);
    var all := EmitsBeforeAbort(es);
    assert forall r :: r in all[..Min(|all|, MaxRecommendations)] ==> r in all;
  }

  function Min(a: int, b: int): int { if a < b then a else b }

  // ---------------------------------------------------------------------
  // The early return
  // ---------------------------------------------------------------------

  lemma {:induction false} ChartEventsPrefix(albums: seq<TopAlbum>, n: nat, similar: SimilarOracle, albumsOf: AlbumsOracle)
    requires n <= |albums|
    ensures ChartEvents(albums[..n], similar, albumsOf) <= ChartEvents(albums, similar, albumsOf)
    decreases |albums| - n
  {
    if n < |albums| {
      ChartEventsPrefix(albums, n + 1, similar, albumsOf);
      var longer := albums[..n + 1];
      assert longer[..|longer| - 1] == albums[..n];
    } else {
      assert albums[..n] == albums;
    }
  }

  /**
   * Once ten recommendations have been pushed, the rest of the chart is
   * never looked at: it cannot add recommendations or turn the result into
   * an error.
   */
  lemma LaterAlbumsIgnored(albums: seq<TopAlbum>, more: seq<TopAlbum>, similar: SimilarOracle, albumsOf: AlbumsOracle)
    requires |EmitsBeforeAbort(ChartEvents(albums, similar, albumsOf))| >= MaxRecommendations
    ensures Recommendations(Fetched(albums + more), similar, albumsOf)
         == Recommendations(Fetched(albums), similar, albumsOf)
  {
    var pre := ChartEvents(albums, similar, albumsOf);
    ChartEventsPrefix(albums + more, |albums|, similar, albumsOf);
    assert (albums + more)[..|albums|] == albums;
    RunClosedForm([], pre);
    assert [] + EmitsBeforeAbort(pre) == EmitsBeforeAbort(pre);
    RunPrefixStopped(Collecting([]), pre, ChartEvents(albums + more, similar, albumsOf));
  }

  /**
   * Two chart albums by different artists, each with one similar artist
   * that has one top album, give exactly those two recommendations.
   */
  lemma TwoSeedsTwoRecommendations(a1: TopAlbum, a2: TopAlbum, s1: string, s2: string, al1: string, al2: string,
                                   similar: SimilarOracle, albumsOf: AlbumsOracle)
    requires a1.artist != a2.artist
    requires similar(a1.artist) == Fetched([s1]) && similar(a2.artist) == Fetched([s2])
    requires albumsOf(s1) == Fetched([al1]) && albumsOf(s2) == Fetched([al2])
    ensures Recommendations(Fetched([a1, a2]), similar, albumsOf)
         == Ok([Recommendation(s1, al1), Recommendation(s2, al2)])
  {
    var e1 := Emit(Recommendation(s1, al1));
    var e2 := Emit(Recommendation(s2, al2));
    assert [a1, a2][..1] == [a1] && [a1][..0] == [];
    assert [s1][..0] == [] && [s2][..0] == [];
    assert CandidateEvents(s1, albumsOf) == [e1] && CandidateEvents(s2, albumsOf) == [e2];
    assert CandidatesEvents([s1], albumsOf) == [] + [e1];
    assert CandidatesEvents([s2], albumsOf) == [] + [e2];
    assert Take([s1], SimilarPerSeed) == [s1] && Take([s2], SimilarPerSeed) == [s2];
    assert SeedEvents(a1.artist, similar, albumsOf) == [e1];
    assert SeedEvents(a2.artist, similar, albumsOf) == [e2];
    assert ChartEvents([a1], similar, albumsOf) == [e1];
    assert ChartEvents([a1, a2], similar, albumsOf) == [e1, e2];
    assert [e1, e2][1..] == [e2] && [e2][1..] == [];
    assert EmitsBeforeAbort([e2]) == [Recommendation(s2, al2)];
    assert EmitsBeforeAbort([e1, e2]) == [Recommendation(s1, al1), Recommendation(s2, al2)];
    assert Abort !in [e1, e2];
    RunClosedForm([], [e1, e2]);
    assert [] + EmitsBeforeAbort([e1, e2]) == EmitsBeforeAbort([e1, e2]);
  }

  // ---------------------------------------------------------------------
  // The imperative walk
  // ---------------------------------------------------------------------

  /**
   * `get_recommendations`: a loop over the chart with a seen-artist set;
   * each new seed is expanded by `ExpandSeed`, which holds the inner loop
   * and whose `stop` stands for the early `return`s inside it.
   */
  method GetRecommendations(top: Fetch<seq<TopAlbum>>, similar: SimilarOracle, albumsOf: AlbumsOracle)
    returns (result: Result<seq<Recommendation>, DiscoveryError>)
    ensures result == Recommendations(top, similar, albumsOf)
  {
    if !top.Fetched? {
      return Err(TopAlbumsFailed);
    }
    var albums := top.value;
    var recommendations: seq<Recommendation> := [];
    var seenArtists: set<string> := {};
    for i := 0 to |albums|
      invariant seenArtists == Artists(albums[..i])
      invariant RunFrom(Collecting([]), ChartEvents(albums[..i], similar, albumsOf)) == Collecting(recommendations)
    {
      var artist := albums[i].artist;
      ghost var done := ChartEvents(albums[..i], similar, albumsOf);
      ArtistsStep(albums, i);
      ChartStep(albums, i, similar, albumsOf);
      if artist in seenArtists {
        assert done + [] == done;
        continue;
      }
      seenArtists := seenArtists + {artist};
      var stop;
      recommendations, stop := ExpandSeed(artist, similar, albumsOf, recommendations, done);
      if stop.Some? {
        SeedPrefix(albums, i, SeedEvents(artist, similar, albumsOf), similar, albumsOf);
        RunPrefixStopped(Collecting([]), done + SeedEvents(artist, similar, albumsOf), ChartEvents(albums, similar, albumsOf));
        assert albums[..|albums|] == albums;
        return stop.value;
      }
    }
    assert albums[..|albums|] == albums;
    return Ok(recommendations);
  }

  /**
   * The body of the chart loop for a new seed: fetch its similar artists and
   * push the first top album of each of the first two. `stop` is the value
   * `get_recommendations` returns early (a failed send, or the tenth push);
   * otherwise the walk goes on with the extended list.
   */
  method ExpandSeed(seed: string, similar: SimilarOracle, albumsOf: AlbumsOracle,
                    recommendations: seq<Recommendation>, ghost done: seq<Event>)
    returns (recs: seq<Recommendation>, stop: Option<Result<seq<Recommendation>, DiscoveryError>>)
    requires RunFrom(Collecting([]), done) == Collecting(recommendations)
    ensures stop.None? ==> RunFrom(Collecting([]), done + SeedEvents(seed, similar, albumsOf)) == Collecting(recs)
    ensures stop.Some? ==>
      var p := RunFrom(Collecting([]), done + SeedEvents(seed, similar, albumsOf));
      !p.Collecting? && stop.value == Outcome(p)
  {
    recs := recommendations;
    match similar(seed) {
      case Unreachable =>
        RunSnoc(Collecting([]), done, Abort);
        return recs, Some(Err(LookupUnreachable));
      case Undecodable =>
        assert done + [] == done;
        return recs, None;
      case Fetched(names) =>
        var candidates := Take(names, SimilarPerSeed);
        assert candidates[..0] == [] && done + [] == done;
        for j := 0 to |candidates|
          invariant RunFrom(Collecting([]), done + CandidatesEvents(candidates[..j], albumsOf)) == Collecting(recs)
        {
          var name := candidates[j];
          ghost var before := done + CandidatesEvents(candidates[..j], albumsOf);
          ghost var after := done + CandidatesEvents(candidates[..j + 1], albumsOf);
          ghost var all := done + CandidatesEvents(candidates, albumsOf);
          CandidatesStep(candidates, j, albumsOf);
          assert after == before + CandidateEvents(name, albumsOf);
          CandidatesPrefix(candidates, j + 1, albumsOf);
          PrefixExtend(done, CandidatesEvents(candidates[..j + 1], albumsOf), CandidatesEvents(candidates, albumsOf), all);
          match albumsOf(name) {
            case Unreachable =>
              RunSnoc(Collecting([]), before, Abort);
              RunPrefixStopped(Collecting([]), after, all);
              return recs, Some(Err(LookupUnreachable));
            case Undecodable =>
              assert after == before;
            case Fetched(topAlbums) =>
              if topAlbums == [] {
                assert after == before;
              } else {
                RunSnoc(Collecting([]), before, Emit(Recommendation(name, topAlbums[0])));
                recs := recs + [Recommendation(name, topAlbums[0])];
                if |recs| >= MaxRecommendations {
                  RunPrefixStopped(Collecting([]), after, all);
                  return recs, Some(Ok(recs));
                }
              }
          }
        }
        assert candidates[..|candidates|] == candidates;
        return recs, None;
    }
  }

  lemma ArtistsStep(albums: seq<TopAlbum>, i: nat)
    requires i < |albums|
    ensures Artists(albums[..i + 1]) == Artists(albums[..i]) + {albums[i].artist}
  {
    assert albums[..i + 1][..i] == albums[..i];
  }

  lemma CandidatesStep(names: seq<string>, j: nat, albumsOf: AlbumsOracle)
    requires j < |names|
    ensures CandidatesEvents(names[..j + 1], albumsOf) == CandidatesEvents(names[..j], albumsOf) + CandidateEvents(names[j], albumsOf)
  {
    assert names[..j + 1][..j] == names[..j];
  }

  /** One more chart album: its seed's events, unless its artist was seen. */
  lemma ChartStep(albums: seq<TopAlbum>, i: nat, similar: SimilarOracle, albumsOf: AlbumsOracle)
    requires i < |albums|
    ensures ChartEvents(albums[..i + 1], similar, albumsOf) ==
      ChartEvents(albums[..i], similar, albumsOf) +
      (if albums[i].artist in Artists(albums[..i]) then [] else SeedEvents(albums[i].artist, similar, albumsOf))
  {
    var upTo := albums[..i + 1];
    assert upTo[..|upTo| - 1] == albums[..i];
    assert upTo[|upTo| - 1] == albums[i];
  }

  /** The events of a seed being expanded, after those of the albums before it, lead the whole walk's. */
  lemma SeedPrefix(albums: seq<TopAlbum>, i: nat, partial: seq<Event>, similar: SimilarOracle, albumsOf: AlbumsOracle)
    requires i < |albums|
    requires albums[i].artist !in Artists(albums[..i])
    requires partial <= SeedEvents(albums[i].artist, similar, albumsOf)
    ensures ChartEvents(albums[..i], similar, albumsOf) + partial <= ChartEvents(albums, similar, albumsOf)
  {
    var prev := ChartEvents(albums[..i], similar, albumsOf);
    var seedEvents := SeedEvents(albums[i].artist, similar, albumsOf);
    ChartStep(albums, i, similar, albumsOf);
    ChartEventsPrefix(albums, i + 1, similar, albumsOf);
    assert albums[..|albums|] == albums;
    PrefixExtend(prev, partial, seedEvents, ChartEvents(albums, similar, albumsOf));
  }

  lemma PrefixExtend<T>(prev: seq<T>, partial: seq<T>, full: seq<T>, whole: seq<T>)
    requires partial <= full && prev + full <= whole
    ensures prev + partial <= whole
  {
    assert prev + partial == (prev + full)[..|prev| + |partial|];
  }

  lemma {:induction false} CandidatesPrefix(names: seq<string>, n: nat, albumsOf: AlbumsOracle)
    requires n <= |names|
    ensures CandidatesEvents(names[..n], albumsOf) <= CandidatesEvents(names, albumsOf)
    decreases |names| - n
  {
    if n < |names| {
      CandidatesPrefix(names, n + 1, albumsOf);
      var longer := names[..n + 1];
      assert longer[..|longer| - 1] == names[..n];
    } else {
      assert names[..n] == names;
    }
  }
}
