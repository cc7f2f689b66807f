/** Where a post's artist and track come from: `extract_music_info` and the extractors it
    dispatches to (overload_spotify_sync.py:78-160). */
module Extraction {
  import opened Wrappers
  import opened Text
  import opened TitleSplitter
  import opened Catalog

  /** The `'source'` entry of the result. Every non-Spotify branch reports `'youtube'`. */
  datatype Source = YouTube | Spotify

  /** The music-info dictionary; `spotifyId` is present only for Spotify links. */
  datatype MusicInfo = MusicInfo(artist: string, track: string, source: Source, spotifyId: Option<string>)

  /** `extract_youtube_info(url, title)`: the title splitter, never failing. The URL is unused. */
  function ExtractYoutubeInfo(url: string, title: string): (r: MusicInfo)
    ensures r.source == YouTube && r.spotifyId.None?
    ensures IsStripped(r.artist) && IsStripped(r.track)
  {
    var split := SplitTitle(title);
    MusicInfo(split.artist, split.track, YouTube, None)
  }

  /** The title's split as a YouTube-sourced result: what every non-Spotify branch returns. */
  predicate IsTitleSplit(r: MusicInfo, title: string) {
    r == MusicInfo(SplitTitle(title).artist, SplitTitle(title).track, YouTube, None)
  }

  /** The three delegates that reuse the YouTube extractor (overload_spotify_sync.py:150-160): each
      gives the title's split, whatever the URL. */
  function ExtractSoundcloudInfo(url: string, title: string): (r: MusicInfo)
    ensures IsTitleSplit(r, title)
  {
    ExtractYoutubeInfo(url, title)
  }

  function ExtractBandcampInfo(url: string, title: string): (r: MusicInfo)
    ensures IsTitleSplit(r, title)
  {
    ExtractYoutubeInfo(url, title)
  }

  function ExtractFromTitle(title: string): (r: MusicInfo)
    ensures IsTitleSplit(r, title)
  {
    ExtractYoutubeInfo("", title)
  }

  /** The literal part of `spotify\.com/track/([a-zA-Z0-9]+)`. */
  const TrackMarker: string := "spotify.com/track/"

  predicate IsAlnum(c: char) {
    ('a' <= c <= 'z') || ('A' <= c <= 'Z') || ('0' <= c <= '9')
  }

  /** Length of the run of ASCII letters and digits at the start of `s`: the greedy `[a-zA-Z0-9]+`. */
  function AlnumRun(s: string): (n: nat)
    ensures n <= |s|
    ensures forall i | 0 <= i < n :: IsAlnum(s[i])
    ensures n == |s| || !IsAlnum(s[n])
  {
    if s == [] || !IsAlnum(s[0]) then 0 else 1 + AlnumRun(s[1..])
  }

  /** The marker occurs at `k` and is followed by at least one letter or digit: where `re.search`
      can start a match. */
  predicate TrackIdAt(url: string, k: nat) {
    OccursAt(url, TrackMarker, k) && k + |TrackMarker| < |url| && IsAlnum(url[k + |TrackMarker|])
  }

  /** The id group of a match starting at `k`. */
  function TrackIdFrom(url: string, k: nat): string
    requires TrackIdAt(url, k)
  {
    var start := k + |TrackMarker|;
    url[start..start + AlnumRun(url[start..])]
  }

  /** The track id `re.search` extracts: the id after the leftmost marker that is followed by a
      letter or digit, running to the first character that is neither. */
  function SpotifyTrackId(url: string): (r: Option<string>)
    ensures r.Some? ==> r.value != [] && forall i | 0 <= i < |r.value| :: IsAlnum(r.value[i])
  {
    match FirstIndex(|url|, (k: nat) => TrackIdAt(url, k), 0)
    case Some(k) =>
      assert TrackIdAt(url, k);
      Some(TrackIdFrom(url, k))
    case None => None
  }

  /** `re.search` finds a match exactly when some position holds the marker followed by a letter or
      digit, and the id it returns is the one after the leftmost such position. */
  lemma {:induction false} SpotifyTrackIdLeftmost(url: string)
    ensures SpotifyTrackId(url).None? <==> forall k | 0 <= k < |url| :: !TrackIdAt(url, k)
    ensures forall k | 0 <= k < |url| && TrackIdAt(url, k) && (forall m | 0 <= m < k :: !TrackIdAt(url, m)) ::
      SpotifyTrackId(url) == Some(TrackIdFrom(url, k))
  {
    var f := (k: nat) => TrackIdAt(url, k);
    forall k | 0 <= k < |url| && TrackIdAt(url, k) && (forall m | 0 <= m < k :: !TrackIdAt(url, m))
      ensures SpotifyTrackId(url) == Some(TrackIdFrom(url, k))
    {
      assert forall m | 0 <= m < k :: !f(m);
      FirstIndexIsLeast(|url|, f, k);
    }
    var r := FirstIndex(|url|, f, 0);
    if r.None? {
      forall k | 0 <= k < |url|
        ensures !TrackIdAt(url, k)
      {
        assert !f(k);
      }
    } else {
      assert f(r.value);
    }
  }

  /** The id after a marker sits in the URL right behind it, and the character after it (if any)
      is neither a letter nor a digit: the greedy group takes the whole run. */
  lemma TrackIdFromInUrl(url: string, k: nat)
    requires TrackIdAt(url, k)
    ensures var e := k + |TrackMarker| + |TrackIdFrom(url, k)|;
      && OccursAt(url, TrackMarker + TrackIdFrom(url, k), k)
      && (e == |url| || !IsAlnum(url[e]))
  {
    var start := k + |TrackMarker|;
    var id := TrackIdFrom(url, k);
    assert url[k..start + |id|] == url[k..start] + url[start..start + |id|];
  }

  /** A link that starts with the marker gives back exactly the id written after it, however the
      link goes on, as long as the next character is not a letter or digit. */
  lemma {:induction false} TrackIdOfLink(id: string, rest: string)
    requires id != [] && forall i | 0 <= i < |id| :: IsAlnum(id[i])
    requires rest == [] || !IsAlnum(rest[0])
    ensures SpotifyTrackId(TrackMarker + id + rest) == Some(id)
  {
    var url := TrackMarker + id + rest;
    var start := |TrackMarker|;
    assert url[..start] == TrackMarker;
    assert url[start..] == id + rest;
    AlnumRunExact(id + rest, |id|);
    assert url[start..start + |id|] == id;
    SpotifyTrackIdLeftmost(url);
  }

  /** A run of exactly `n` letters and digits followed by something else has length `n`. */
  lemma {:induction false} AlnumRunExact(s: string, n: nat)
    requires n <= |s| && (n == |s| || !IsAlnum(s[n]))
    requires forall i | 0 <= i < n :: IsAlnum(s[i])
    ensures AlnumRun(s) == n
  {
    if n > 0 {
      AlnumRunExact(s[1..], n - 1);
    }
  }

  /** `extract_spotify_info`: the id is looked up with `lookup`, whose `None` stands for a call that
      raised. A track without artists makes `track['artists'][0]` raise, which is caught too. */
  function ExtractSpotifyInfo(url: string, lookup: string -> Option<CatalogTrack>): (r: Option<MusicInfo>)
    ensures r.Some? <==>
      && SpotifyTrackId(url).Some?
      && lookup(SpotifyTrackId(url).value).Some?
      && lookup(SpotifyTrackId(url).value).value.artists != []
    ensures r.Some? ==> var t := lookup(SpotifyTrackId(url).value).value;
      r.value == MusicInfo(t.artists[0], t.name, Spotify, Some(SpotifyTrackId(url).value))
  {
    match SpotifyTrackId(url)
    case None => None
    case Some(id) =>
      match lookup(id)
      case None => None
      case Some(t) =>
        if t.artists == [] then None
        else Some(MusicInfo(t.artists[0], t.name, Spotify, Some(id)))
  }

  /** The host a post's URL is recognised as, by plain substring tests in this order. */
  datatype Host = YouTubeHost | SpotifyHost | SoundCloudHost | BandcampHost | OtherHost

  function HostOf(url: string): (h: Host)
    ensures h == YouTubeHost <==> Contains(url, "youtube.com") || Contains(url, "youtu.be")
    ensures h == SpotifyHost <==>
      && !Contains(url, "youtube.com")
      && !Contains(url, "youtu.be")
      && Contains(url, "spotify.com")
  {
    if Contains(url, "youtube.com") || Contains(url, "youtu.be") then YouTubeHost
    else if Contains(url, "spotify.com") then SpotifyHost
    else if Contains(url, "soundcloud.com") then SoundCloudHost
    else if Contains(url, "bandcamp.com") then BandcampHost
    else OtherHost
  }

  /** `extract_music_info(post)`: `lookup` is the Spotify client's `track` call. Every branch but
      Spotify ends in the title splitter, whatever the URL; a Spotify URL is looked up by its track
      id instead. */
  function ExtractMusicInfo(url: string, title: string, lookup: string -> Option<CatalogTrack>): (r: Option<MusicInfo>)
    ensures HostOf(url) != SpotifyHost ==> r.Some? && IsTitleSplit(r.value, title)
    ensures HostOf(url) == SpotifyHost ==> r == ExtractSpotifyInfo(url, lookup)
    ensures r.Some? && r.value.source == Spotify <==> HostOf(url) == SpotifyHost && r.Some?
  {
    match HostOf(url)
    case YouTubeHost => Some(ExtractYoutubeInfo(url, title))
    case SpotifyHost => ExtractSpotifyInfo(url, lookup)
    case SoundCloudHost => Some(ExtractSoundcloudInfo(url, title))
    case BandcampHost => Some(ExtractBandcampInfo(url, title))
    case OtherHost => Some(ExtractFromTitle(title))
  }

  /** A Spotify link never reaches the title splitter: what the post is called does not matter. */
  lemma SpotifyIgnoresTitle(url: string, title1: string, title2: string, lookup: string -> Option<CatalogTrack>)
    requires HostOf(url) == SpotifyHost
    ensures ExtractMusicInfo(url, title1, lookup) == ExtractMusicInfo(url, title2, lookup)
  {
  }

  /** A URL naming both YouTube and Spotify is treated as YouTube, whose test comes first. */
  lemma YouTubeBeforeSpotify(url: string, title: string, lookup: string -> Option<CatalogTrack>)
    requires Contains(url, "youtu.be") && Contains(url, "spotify.com")
    ensures ExtractMusicInfo(url, title, lookup).Some?
    ensures ExtractMusicInfo(url, title, lookup).value.source == YouTube
  {
  }
}
