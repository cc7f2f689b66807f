/** `search_spotify` (overload_spotify_sync.py:162-203): a fixed list of query strings tried in
    order against the search endpoint, which is a function from a query to its response. */
module Search {
  import opened Wrappers
  import opened Text
  import opened Catalog
  import opened Extraction

  /** Python's truthiness test on `music_info.get('spotify_id')`: present and not empty. */
  predicate HasSpotifyId(info: MusicInfo) {
    info.spotifyId.Some? && info.spotifyId.value != []
  }

  /** The queries tried, most specific first; the bare track name always comes last. */
  function Queries(artist: string, track: string): (qs: seq<string>)
    ensures |qs| == (if artist == [] then 1 else 4)
    ensures qs[|qs| - 1] == track
  {
    (if artist != [] then
      ["artist:" + artist + " track:" + track, artist + " " + track, "\"" + artist + "\" \"" + track + "\""]
    else [])
    + [track]
  }

  /** A response the loop accepts: it has items, and reading the first item's first artist does not
      raise. Any other response, a failed call included, moves on to the next query. */
  predicate Hit(resp: SearchResponse) {
    resp.Found? && resp.items != [] && resp.items[0].artists != []
  }

  /** The id the loop returns for an accepted response. */
  function HitId(resp: SearchResponse): string
    requires Hit(resp)
  {
    resp.items[0].id
  }

  /** `search_spotify(music_info)`. */
  method SearchSpotify(info: MusicInfo, search: string -> SearchResponse) returns (id: Option<string>)
    ensures HasSpotifyId(info) ==> id == info.spotifyId
    ensures !HasSpotifyId(info) && info.track == [] ==> id == None
    ensures !HasSpotifyId(info) && info.track != [] ==>
      var qs := Queries(info.artist, info.track);
      && (id.None? <==> forall k | 0 <= k < |qs| :: !Hit(search(qs[k])))
      && (id.Some? ==> exists k | 0 <= k < |qs| ::
            && Hit(search(qs[k]))
            && id.value == HitId(search(qs[k]))
            && forall j | 0 <= j < k :: !Hit(search(qs[j])))
  {
    if HasSpotifyId(info) {
      return info.spotifyId;
    }
    if info.track == [] {
      return None;
    }
    var qs := Queries(info.artist, info.track);
    var i := 0;
    while i < |qs|
      invariant 0 <= i <= |qs|
      invariant forall j | 0 <= j < i :: !Hit(search(qs[j]))
    {
      var resp := search(qs[i]);
      if Hit(resp) {
        return Some(HitId(resp));
      }
      i := i + 1;
    }
    return None;
  }

  /** Every query names the track, and every query but the last also names the artist. */
  lemma QueriesMention(artist: string, track: string)
    ensures forall k | 0 <= k < |Queries(artist, track)| :: Contains(Queries(artist, track)[k], track)
    ensures forall k | 0 <= k < |Queries(artist, track)| - 1 :: Contains(Queries(artist, track)[k], artist)
  {
    var qs := Queries(artist, track);
    assert OccursAt(track, track, 0);
    ContainsAt(track, track, 0);
    if artist != [] {
      var q0 := "artist:" + artist + " track:" + track;
      var q1 := artist + " " + track;
      var q2 := "\"" + artist + "\" \"" + track + "\"";
      assert qs == [q0, q1, q2, track];
      FieldQueryMentions(artist, track);
      PlainQueryMentions(artist, track);
      QuotedQueryMentions(artist, track);
      forall k | 0 <= k < 4
        ensures Contains(qs[k], track)
      {
        if k == 0 {
          assert qs[k] == q0;
        } else if k == 1 {
          assert qs[k] == q1;
        } else if k == 2 {
          assert qs[k] == q2;
        }
      }
      forall k | 0 <= k < 3
        ensures Contains(qs[k], artist)
      {
        if k == 0 {
          assert qs[k] == q0;
        } else if k == 1 {
          assert qs[k] == q1;
        } else {
          assert qs[k] == q2;
        }
      }
    } else {
      assert qs == [track];
    }
  }

  lemma FieldQueryMentions(artist: string, track: string)
    ensures var q := "artist:" + artist + " track:" + track;
      Contains(q, track) && Contains(q, artist)
  {
    ContainsInConcat("artist:" + artist + " track:", track, track);
    ContainsInConcat("artist:", artist, artist);
    ContainsExtend("artist:" + artist, " track:", artist);
    ContainsExtend("artist:" + artist + " track:", track, artist);
  }

  lemma PlainQueryMentions(artist: string, track: string)
    ensures var q := artist + " " + track;
      Contains(q, track) && Contains(q, artist)
  {
    ContainsInConcat(artist + " ", track, track);
    ContainsInConcat(artist, " ", artist);
    ContainsExtend(artist + " ", track, artist);
  }

  lemma QuotedQueryMentions(artist: string, track: string)
    ensures var q := "\"" + artist + "\" \"" + track + "\"";
      Contains(q, track) && Contains(q, artist)
  {
    ContainsInConcat("\"" + artist + "\" \"", track, track);
    ContainsExtend("\"" + artist + "\" \"" + track, "\"", track);
    ContainsInConcat("\"", artist, artist);
    ContainsExtend("\"" + artist, "\" \"", artist);
    ContainsExtend("\"" + artist + "\" \"", track, artist);
    ContainsExtend("\"" + artist + "\" \"" + track, "\"", artist);
  }
}
