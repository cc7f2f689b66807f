/** The duplicate filter and batching of `add_tracks_to_playlist`
    (overload_spotify_sync.py:227-252). The playlist's pages are an input: each entry is the track
    id, or `None` for an entry whose `track` is null (skipped by the source). */
module Playlist {
  import opened Wrappers

  /** The most items one `playlist_add_items` call takes. */
  const BatchSize: nat := 100

  /** The ids already in the playlist, gathered over all pages. */
  function ExistingIds(pages: seq<seq<Option<string>>>): (ids: set<string>)
    ensures forall id :: id in ids <==> exists p, e | 0 <= p < |pages| && 0 <= e < |pages[p]| :: pages[p][e] == Some(id)
  {
    set p, e | 0 <= p < |pages| && 0 <= e < |pages[p]| && pages[p][e].Some? :: pages[p][e].value
  }

  /** The ids of one page's non-null entries. */
  function PageIds(page: seq<Option<string>>): (ids: set<string>)
    ensures forall id :: id in ids <==> Some(id) in page
  {
    set e | 0 <= e < |page| && page[e].Some? :: page[e].value
  }

  /** Reading one more page adds exactly that page's ids: the `while` loop over `next` pages
      accumulates into one set. */
  lemma ExistingIdsAppend(pages: seq<seq<Option<string>>>, page: seq<Option<string>>)
    ensures ExistingIds([]) == {}
    ensures ExistingIds(pages + [page]) == ExistingIds(pages) + PageIds(page)
  {
    var all := pages + [page];
    forall id | id in ExistingIds(all)
      ensures id in ExistingIds(pages) + PageIds(page)
    {
      var p, e :| 0 <= p < |all| && 0 <= e < |all[p]| && all[p][e] == Some(id);
      if p < |pages| {
        assert pages[p][e] == Some(id);
      } else {
        assert page[e] == Some(id);
      }
    }
    forall id | id in ExistingIds(pages) + PageIds(page)
      ensures id in ExistingIds(all)
    {
      if id in ExistingIds(pages) {
        var p, e :| 0 <= p < |pages| && 0 <= e < |pages[p]| && pages[p][e] == Some(id);
        assert all[p][e] == Some(id);
      } else {
        var e :| 0 <= e < |page| && page[e] == Some(id);
        assert all[|pages|][e] == Some(id);
      }
    }
  }

  /** The requested ids not in `existing`, in request order; repeats inside the request stay. */
  function NewTracks(trackIds: seq<string>, existing: set<string>): (r: seq<string>)
    ensures |r| <= |trackIds|
    ensures forall t | t in r :: t !in existing
  {
    if trackIds == [] then []
    else
      var rest := NewTracks(trackIds[1..], existing);
      if trackIds[0] in existing then rest else [trackIds[0]] + rest
  }

  /** An id is added exactly as often as it was requested, unless the playlist already has it. */
  lemma {:induction false} NewTracksCount(trackIds: seq<string>, existing: set<string>, t: string)
    ensures multiset(NewTracks(trackIds, existing))[t] == if t in existing then 0 else multiset(trackIds)[t]
  {
    if trackIds != [] {
      NewTracksCount(trackIds[1..], existing, t);
      assert trackIds == [trackIds[0]] + trackIds[1..];
    }
  }

  /** Filtering a concatenation filters each part: the requested order is kept. */
  lemma {:induction false} NewTracksAppend(a: seq<string>, b: seq<string>, existing: set<string>)
    ensures NewTracks(a + b, existing) == NewTracks(a, existing) + NewTracks(b, existing)
  {
    if a == [] {
      assert a + b == b;
    } else {
      assert (a + b)[1..] == a[1..] + b;
      NewTracksAppend(a[1..], b, existing);
    }
  }

  function Flatten(batches: seq<seq<string>>): (r: seq<string>) {
    if batches == [] then [] else Flatten(batches[..|batches| - 1]) + batches[|batches| - 1]
  }

  /** The calls `range(0, len(new_tracks), 100)` makes: consecutive slices of 100, the last one
      possibly shorter. */
  method Batches(xs: seq<string>) returns (batches: seq<seq<string>>)
    ensures Flatten(batches) == xs
    ensures forall b | b in batches :: 0 < |b| <= BatchSize
    ensures forall k | 0 <= k < |batches| - 1 :: |batches[k]| == BatchSize
    ensures |batches| == (|xs| + BatchSize - 1) / BatchSize
  {
    batches := [];
    var i := 0;
    while i < |xs|
      invariant 0 <= i <= |xs|
      invariant i == |batches| * BatchSize || i == |xs|
      invariant |batches| == (i + BatchSize - 1) / BatchSize
      invariant Flatten(batches) == xs[..i]
      invariant forall b | b in batches :: 0 < |b| <= BatchSize
      invariant forall k | 0 <= k < |batches| :: i < |xs| ==> |batches[k]| == BatchSize
      invariant forall k | 0 <= k < |batches| - 1 :: |batches[k]| == BatchSize
    {
      var end := if i + BatchSize <= |xs| then i + BatchSize else |xs|;
      var batch := xs[i..end];
      assert xs[..end] == xs[..i] + batch;
      batches := batches + [batch];
      i := end;
    }
    assert xs[..i] == xs;
  }

  /** What one call of `add_tracks_to_playlist` does against the API: whether it reads the
      playlist, and the batches it adds, in order. */
  datatype AddPlan = AddPlan(readsPlaylist: bool, batches: seq<seq<string>>)

  /** `add_tracks_to_playlist(playlist_id, track_ids)`. */
  method AddTracksToPlaylist(trackIds: seq<string>, pages: seq<seq<Option<string>>>) returns (plan: AddPlan)
    ensures trackIds == [] ==> plan == AddPlan(false, [])
    ensures trackIds != [] ==> plan.readsPlaylist
    ensures Flatten(plan.batches) == NewTracks(trackIds, ExistingIds(pages))
    ensures forall b | b in plan.batches :: 0 < |b| <= BatchSize
  {
    if trackIds == [] {
      return AddPlan(false, []);
    }
    var newTracks := NewTracks(trackIds, ExistingIds(pages));
    if newTracks == [] {
      return AddPlan(true, []);
    }
    var batches := Batches(newTracks);
    return AddPlan(true, batches);
  }
}
