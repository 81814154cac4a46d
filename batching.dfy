/**
 * Adding the resolved tracks to the playlist in batches
 * (`track_uris.chunks(100)` in `create_spotify_playlist`): consecutive
 * slices of at most 100 URIs, each sent in its own request to the playlist
 * id. A refused batch only prints a warning; a batch that cannot be sent
 * ends the operation (`send().await?`).
 */
module Batching {
  import opened Wrappers

  /** The most URIs the catalog's write endpoint takes per request. */
  const BatchSize: nat := 100

  /** `slice::chunks(n)`: consecutive slices of `n` items, the last one possibly shorter. */
  function Chunks<T>(s: seq<T>, n: nat): seq<seq<T>>
    requires n > 0
    decreases |s|
  {
    if s == [] then [] else if |s| <= n then [s] else [s[..n]] + Chunks(s[n..], n)
  }

  function Flatten<T>(ss: seq<seq<T>>): seq<T> {
    if ss == [] then [] else ss[0] + Flatten(ss[1..])
  }

  /** Concatenating the batches in order gives the URIs back. */
  lemma {:induction false} ChunksFlatten<T>(s: seq<T>, n: nat)
    requires n > 0
    ensures Flatten(Chunks(s, n)) == s
    decreases |s|
  {
    if |s| > n {
      ChunksFlatten(s[n..], n);
      assert s[..n] + s[n..] == s;
    } else if s != [] {
      assert s + [] == s;
    }
  }

  /**
   * Every batch but the last is full, the last holds 1 to `n` items, and
   * there are just enough batches to hold every item; none for no URIs.
   */
  lemma {:induction false} ChunksShape<T>(s: seq<T>, n: nat)
    requires n > 0
    ensures (|Chunks(s, n)| - 1) * n < |s| <= |Chunks(s, n)| * n || (s == [] && Chunks(s, n) == [])
    ensures forall i :: 0 <= i < |Chunks(s, n)| - 1 ==> |Chunks(s, n)[i]| == n
    ensures Chunks(s, n) != [] ==> 1 <= |Chunks(s, n)[|Chunks(s, n)| - 1]| <= n
    ensures Chunks(s, n) == [] <==> s == []
    decreases |s|
  {
    if |s| > n {
      var rest := s[n..];
      ChunksShape(rest, n);
      var c := Chunks(s, n);
      assert c[1..] == Chunks(rest, n);
      var k := |Chunks(rest, n)|;
      assert |c| == k + 1;
      assert (k + 1) * n == k * n + n && k * n == (k - 1) * n + n;
    }
  }

  /** For batches of 100: exactly ceil(|s| / 100) requests. */
  lemma BatchCount<T>(s: seq<T>)
    ensures |Chunks(s, BatchSize)| == (|s| + BatchSize - 1) / BatchSize
  {
    ChunksShape(s, BatchSize);
  }

  /** 250 URIs go out as batches of 100, 100 and 50, in their original order. */
  lemma TwoHundredFifty<T>(s: seq<T>)
    requires |s| == 250
    ensures Chunks(s, BatchSize) == [s[..100], s[100..200], s[200..]]
  {
    var t := s[100..];
    assert t[..100] == s[100..200];
    assert t[100..] == s[200..];
    assert Chunks(s[200..], BatchSize) == [s[200..]];
    assert Chunks(t, BatchSize) == [s[100..200], s[200..]];
  }

  /** Up to 100 URIs go out in a single request. */
  lemma OneBatch<T>(s: seq<T>)
    requires 0 < |s| <= BatchSize
    ensures Chunks(s, BatchSize) == [s]
  {
  }

  /** The outcome of one write request. */
  datatype Delivery = NotDelivered | Refused | Accepted

  datatype BatchError = AddNotSent

  /**
   * The batch loop: posts the batches of `uris` to `playlistId` in order.
   * `posted` are the batches actually sent. They are all of them unless a
   * request could not be sent; that one is the last sent and fails the whole
   * operation. Refused batches do not stop the loop. No URIs, no request.
   */
  method AddTracks(playlistId: string, uris: seq<string>, post: (string, seq<string>) -> Delivery)
    returns (posted: seq<seq<string>>, result: Result<(), BatchError>)
    ensures posted <= Chunks(uris, BatchSize)
    ensures uris == [] ==> posted == [] && result.Ok?
    ensures result.Ok? <==>
      posted == Chunks(uris, BatchSize) && forall k :: 0 <= k < |posted| ==> post(playlistId, posted[k]) != NotDelivered
    ensures result.Err? ==>
      posted != [] && post(playlistId, posted[|posted| - 1]) == NotDelivered
      && forall k :: 0 <= k < |posted| - 1 ==> post(playlistId, posted[k]) != NotDelivered
  {
    posted := [];
    if uris == [] {
      return posted, Ok(());
    }
    var batches := Chunks(uris, BatchSize);
    for k := 0 to |batches|
      invariant posted == batches[..k]
      invariant forall m :: 0 <= m < k ==> post(playlistId, batches[m]) != NotDelivered
    {
      var delivery := post(playlistId, batches[k]);
      posted := posted + [batches[k]];
      assert posted == batches[..k + 1];
      if delivery == NotDelivered {
        return posted, Err(AddNotSent);
      }
    }
    assert batches[..|batches|] == batches;
    return posted, Ok(());
  }
}
