/**
 * `create_spotify_playlist` as a whole: create the playlist, resolve the
 * recommendations to track URIs, then add them in batches to the playlist,
 * addressed by the id the creation returned. Returns the playlist's public
 * URL.
 */
module Playlist {
  import opened Wrappers
  import opened Discovery
  import opened Resolution
  import opened Batching

  /** The reply to the playlist-creation request. */
  datatype CreateReply =
    | CreateNotSent                              // `send().await?` failed
    | CreateRefused(status: nat, body: string)   // non-success status
    | CreateMalformed                            // success, but no id / url in the body
    | Created(id: string, url: string)

  datatype PlaylistError =
    | CreationNotSent
    | CreationFailed(status: nat, body: string)
    | CreationMalformed
    | SearchFailed(cause: ResolutionError)
    | AddFailed

  method CreateSpotifyPlaylist(reply: CreateReply, recs: seq<Recommendation>,
                               search: SearchOracle, albumTracks: AlbumTracksOracle,
                               post: (string, seq<string>) -> Delivery)
    returns (result: Result<string, PlaylistError>, posted: seq<seq<string>>)
    ensures reply == CreateNotSent ==> result == Err(CreationNotSent) && posted == []
    ensures reply.CreateRefused? ==> result == Err(CreationFailed(reply.status, reply.body)) && posted == []
    ensures reply == CreateMalformed ==> result == Err(CreationMalformed) && posted == []
    ensures reply.Created? && ResolveAll(recs, search, albumTracks).Err? ==>
      result == Err(SearchFailed(ResolveAll(recs, search, albumTracks).error)) && posted == []
    ensures reply.Created? && ResolveAll(recs, search, albumTracks).Ok? ==>
      var uris := ResolveAll(recs, search, albumTracks).value;
      posted <= Chunks(uris, BatchSize)
      && (result == Ok(reply.url) <==>
            posted == Chunks(uris, BatchSize)
            && forall k :: 0 <= k < |posted| ==> post(reply.id, posted[k]) != NotDelivered)
      && (result.Ok? ==> result == Ok(reply.url))
      && (result.Err? ==>
            result == Err(AddFailed)
            && posted != [] && post(reply.id, posted[|posted| - 1]) == NotDelivered
            && forall k :: 0 <= k < |posted| - 1 ==> post(reply.id, posted[k]) != NotDelivered)
  {
    posted := [];
    match reply {
      case CreateNotSent => return Err(CreationNotSent), posted;
      case CreateRefused(status, body) => return Err(CreationFailed(status, body)), posted;
      case CreateMalformed => return Err(CreationMalformed), posted;
      case Created(id, url) =>
        var resolved := ResolveTracks(recs, search, albumTracks);
        if resolved.Err? {
          return Err(SearchFailed(resolved.error)), posted;
        }
        var added;
        posted, added := AddTracks(id, resolved.value, post);
        if added.Err? {
          return Err(AddFailed), posted;
        }
        return Ok(url), posted;
    }
  }

  /**
   * Two recommendations whose searches both find a track end up in the
   * playlist in one request, in recommendation order.
   */
  lemma TwoMatchesOneBatch(r1: Recommendation, r2: Recommendation, t1: string, t2: string,
                           search: SearchOracle, albumTracks: AlbumTracksOracle)
    requires search(SearchQuery(r1)).Found? && search(SearchQuery(r1)).tracks == Some([t1])
    requires search(SearchQuery(r2)).Found? && search(SearchQuery(r2)).tracks == Some([t2])
    ensures ResolveAll([r1, r2], search, albumTracks) == Ok([t1, t2])
    ensures Chunks([t1, t2], BatchSize) == [[t1, t2]]
  {
    assert [r1, r2][..1] == [r1];
    assert [r1][..0] == [];
    assert Resolve(r1, search, albumTracks) == Picked([t1]);
    assert Resolve(r2, search, albumTracks) == Picked([t2]);
    assert ResolveAll([r1], search, albumTracks) == Ok([] + [t1]);
    assert [] + [t1] + [t2] == [t1, t2];
  }
}
