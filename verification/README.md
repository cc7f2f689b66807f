# Overload Spotify Sync — a Dafny model of its pure core

Overload Spotify Sync reads recent posts from the r/theoverload subreddit and finds each one on
Spotify. For every post it works out an artist and a track from the link and the title, then
searches Spotify with a few query strings. The tracks it finds are added to a playlist in batches,
skipping tracks the playlist already holds. Debugging scripts around it add metadata parsers for yt-dlp titles, og:title
tags, JSON-LD and Bandcamp page titles, a smart-quote normaliser, and a remix-candidate score.

This project models the deterministic logic of all of this as pure Dafny functions and methods, and
proves what each one promises. The Spotify and Reddit clients are modelled as plain input values:
a lookup is a function from an id to an optional track, a search is a function from a query to a
response, and a listing is a sequence of submissions.

| file | module | models |
|---|---|---|
| wrappers.dfy | Wrappers | `Option` and `Result` |
| text.dfy | Text | `str.strip`, `str.rstrip`, `str.lower`, `str.split`, `sub in s` |
| title_splitter.dfy | TitleSplitter | the six title patterns of `extract_youtube_info` |
| extraction.dfy | Extraction | `extract_music_info`, its dispatch, and the Spotify track-id regex |
| catalog.dfy | Catalog | the track and search-response values the API returns |
| search.dfy | Search | the query list and first-hit loop of `search_spotify` |
| posts.dfy | Posts | the recent-post filter of `get_recent_posts` |
| playlist.dfy | Playlist | the dedup and batching of `add_tracks_to_playlist` |
| remix_score.dfy | RemixScore | the additive remix score of `debug_remix_scoring` |
| metadata.dfy | Metadata | the yt-dlp, og:title, JSON-LD and Bandcamp title parsers |
| normalize.dfy | Normalize | `normalize_text` |
| config.dfy | Config | `Config`: environment lookup, `int()`, validation, `__str__` |

`IsSpace` is exactly the set of characters for which Python's `str.isspace()` holds: tab, line
feed, vertical tab, form feed, carriage return, U+001C-U+001F, space, U+0085, U+00A0, U+1680,
U+2000-U+200A, U+2028, U+2029, U+202F, U+205F and U+3000. `str.strip()`, `str.split()` and the
regex class `\s` all use this set. Case is ASCII-only: `LowerChar` maps only `A`-`Z`.

Each regular expression of the title splitter is modelled as a scanner for its "anchor": the index
its lazy first group `(.+?)` stops in front of. On a stripped title the regex engine returns the
match at the earliest anchor for which the rest of the pattern succeeds. `\s*` and `\s+` around the
separator are absorbed by stripping both groups, as the source does. Because `.` does not match a
line feed, both groups must be free of `\n`.

In this revision of the code:
- The title is split as given, after `strip()`; no label or year cleaning happens before the
  splitter in this revision.
- `search_spotify` takes the first item of the first non-empty response; there is no scoring or
  acceptance gate.
- The remix score's artist bonus also fires when a single word of the artist occurs in an artist
  name; no minimum score is applied.

## Model

| member | source | states |
|---|---|---|
| `TitleSplitter.SplitTitle` | overload_spotify_sync.py:115-129 | Splitting a title never fails, and both the artist and the track come back stripped. |
| `TitleSplitter.MatchPattern` | overload_spotify_sync.py:116-120 | A pattern that matches yields two stripped groups. |
| `TitleSplitter.MatchPatternEarliest` | overload_spotify_sync.py:106-116 | A pattern fails exactly when it has no anchor in the title. Otherwise it yields the groups at the earliest anchor, because the lazy first group stops as early as the rest of the pattern allows. |
| `TitleSplitter.FirstMatchFromIsFirst` | overload_spotify_sync.py:115-122 | The pattern loop returns the result of the first pattern that matches, or nothing when none does. |
| `TitleSplitter.SplitTitleFirstMatch` | overload_spotify_sync.py:115-122 | Patterns are tried in the fixed order, and the first one that matches the stripped title decides the split. |
| `TitleSplitter.SplitTitleFallback` | overload_spotify_sync.py:124-129 | When no pattern matches, the artist is empty and the track is the whole stripped title. |
| `TitleSplitter.DashWins` | overload_spotify_sync.py:106-120 | A title with a usable hyphen, en dash or em dash is split at the earliest one (index at least 1, something after it), whatever colon, " by ", bracket, pipe or quote it also holds. Both sides are trimmed. |
| `TitleSplitter.ByPatternSplit` | overload_spotify_sync.py:109-120 | If neither the dash nor the colon pattern matches, the earliest " by " in any letter case splits the title. The text before it is the artist and the text after it the track, despite the pattern's "Track by Artist" label. |
| `TitleSplitter.EarliestByMatches` | overload_spotify_sync.py:109 | The " by " pattern yields the stripped text around its earliest usable "by". |
| `TitleSplitter.PlainTitleIsTrack` | overload_spotify_sync.py:106-129 | A title with no dash, colon, pipe, double quote, opening bracket or "by" in any case falls through to an empty artist and the whole stripped title. |
| `TitleSplitter.NoAnchorInPlainTitle` | overload_spotify_sync.py:106-113 | None of the six patterns has an anchor in such a title. |
| `TitleSplitter.NoByInPlainTitle` | overload_spotify_sync.py:109 | Without "by" in any letter case, the " by " pattern has no anchor. |
| `TitleSplitter.MatchedArtistNonEmpty` | overload_spotify_sync.py:107-119 | The dash, colon, by, pipe and quoted patterns never produce an empty artist: the lazy first group holds a non-blank character. |
| `Extraction.ExtractYoutubeInfo` | overload_spotify_sync.py:103-129 | The YouTube extractor always returns a result with source `youtube`, no Spotify id, and stripped artist and track. |
| `Extraction.HostOf` | overload_spotify_sync.py:84-101 | A URL is treated as YouTube exactly when it contains `youtube.com` or `youtu.be`. It is treated as Spotify exactly when it contains `spotify.com` and neither of those. |
| `Extraction.ExtractMusicInfo` | overload_spotify_sync.py:78-101 | Every non-Spotify URL yields the title splitter's artist and track with source `youtube` and no id, whatever the URL. A Spotify URL yields exactly what the Spotify extractor gives for it. A result has source `spotify` exactly when it comes from a Spotify URL. |
| `Extraction.ExtractSoundcloudInfo` | overload_spotify_sync.py:150-152 | The SoundCloud extractor gives the title splitter's artist and track with source `youtube`, whatever the URL. |
| `Extraction.ExtractBandcampInfo` | overload_spotify_sync.py:154-156 | The Bandcamp extractor gives the title splitter's artist and track with source `youtube`, whatever the URL. |
| `Extraction.ExtractFromTitle` | overload_spotify_sync.py:158-160 | A post with an unrecognised URL gets the title splitter's artist and track with source `youtube`. |
| `Extraction.SpotifyIgnoresTitle` | overload_spotify_sync.py:88-89 | For a Spotify URL, the post title has no influence on the result. |
| `Extraction.YouTubeBeforeSpotify` | overload_spotify_sync.py:84-89 | A URL mentioning both `youtu.be` and `spotify.com` is handled as YouTube, whose test comes first. |
| `Extraction.AlnumRun` | overload_spotify_sync.py:135 | The greedy `[a-zA-Z0-9]+` group takes the whole run of ASCII letters and digits. |
| `Extraction.SpotifyTrackId` | overload_spotify_sync.py:135-137 | An extracted track id is a non-empty string of ASCII letters and digits. |
| `Extraction.SpotifyTrackIdLeftmost` | overload_spotify_sync.py:135-137 | `re.search` finds an id exactly when `spotify.com/track/` followed by a letter or digit occurs somewhere. The id it returns follows the leftmost such occurrence. |
| `Extraction.TrackIdFromInUrl` | overload_spotify_sync.py:135-137 | The id appears in the URL right after the marker, and the next character, if any, is not a letter or digit. |
| `Extraction.TrackIdOfLink` | overload_spotify_sync.py:135-137 | A link made of the marker, an alphanumeric id and a tail that does not start with a letter or digit gives back exactly that id. |
| `Extraction.ExtractSpotifyInfo` | overload_spotify_sync.py:131-148 | A result comes exactly when an id is found, the lookup succeeds and the track has an artist. It then carries the first artist, the track name, source `spotify` and the id. Every other case is None. |
| `Search.Queries` | overload_spotify_sync.py:174-183 | With an artist there are four queries, otherwise one. The bare track name is always the last query. |
| `Search.QueriesMention` | overload_spotify_sync.py:176-183 | Every query contains the track, and every query but the last contains the artist. |
| `Search.SearchSpotify` | overload_spotify_sync.py:162-203 | A present Spotify id is returned without searching, and an empty track gives None. Otherwise the result is None exactly when no query hits. When a query hits, the result is the first item's id of the first query that hits. |
| `Posts.Window` | overload_spotify_sync.py:60 | At most the first 100 submissions of the listing are read, in order. |
| `Posts.FilterAccepted` | overload_spotify_sync.py:60-73 | Every kept post comes from a submission that is at most a day old and has at least the minimum score. |
| `Posts.RecentPosts` | overload_spotify_sync.py:58-73 | No more than 100 posts are returned. |
| `Posts.RecentPostsExactly` | overload_spotify_sync.py:58-73 | A submission among the first 100 is kept exactly when it was created no earlier than one day before now and has at least `min_upvotes` points. |
| `Posts.FilterAcceptedComplete` | overload_spotify_sync.py:63-73 | Every accepted submission is kept. |
| `Posts.FilterAcceptedAppend` | overload_spotify_sync.py:60-73 | The filter distributes over concatenation, so source order is kept. |
| `Posts.RecentPostsIgnoresTail` | overload_spotify_sync.py:60 | Submissions past the hundredth never affect the result. |
| `Posts.DayBoundary` | overload_spotify_sync.py:58-64 | A submission exactly one day old is kept, and one a second older is dropped. |
| `Playlist.ExistingIdsAppend` | overload_spotify_sync.py:233-239 | No pages give no ids, and reading one more page adds exactly the ids of that page's non-null entries. |
| `Playlist.NewTracks` | overload_spotify_sync.py:242 | No new track is already in the playlist, and there are no more new tracks than requested ids. |
| `Playlist.NewTracksCount` | overload_spotify_sync.py:242 | Each id appears as often as it was requested unless the playlist has it, in which case it does not appear. Duplicates inside the request are kept. |
| `Playlist.NewTracksAppend` | overload_spotify_sync.py:242 | The filter distributes over concatenation, so request order is kept. |
| `Playlist.Batches` | overload_spotify_sync.py:248-251 | The batches concatenate back to the input. Each batch holds 1 to 100 ids, and every batch but the last holds exactly 100. There are ceil(n/100) batches. |
| `Playlist.AddTracksToPlaylist` | overload_spotify_sync.py:227-252 | An empty request makes no API call. Otherwise the playlist is read, and the added batches, each of 1 to 100 ids, concatenate to the requested ids not already in the playlist. |
| `RemixScore.LowerAllAppendIdempotent` | debug/debug_remix_scoring.py:36 | Lowercasing a list of names distributes over concatenation, and lowercasing it twice is the same as once. |
| `RemixScore.InSome` | debug/debug_remix_scoring.py:47 | `any(x in name for name in names)` holds exactly when some name contains x. |
| `RemixScore.SomeIn` | debug/debug_remix_scoring.py:61 | `any(ind in name for ind in indicators)` holds exactly when some indicator occurs in the name. |
| `RemixScore.SomeWordInSome` | debug/debug_remix_scoring.py:74-80 | `found_words` ends up non-empty exactly when some word occurs in some artist name. |
| `RemixScore.Score` | debug/debug_remix_scoring.py:34-91 | The score is at most 18 (5+5+3+2+2+1). |
| `RemixScore.ScoreIgnoresCase` | debug/debug_remix_scoring.py:35-87 | Inputs that agree after lowercasing get the same score. |
| `RemixScore.ScoreOfLowercased` | debug/debug_remix_scoring.py:35-36 | Lowercasing the candidate and the search terms beforehand does not change the score. |
| `RemixScore.IndicatorBonusIff` | debug/debug_remix_scoring.py:61-62 | The generic bonus is 2 when any remix word occurs in the name, however many do, and 0 otherwise. "mixx" qualifies. |
| `RemixScore.EmptyTermAddsNothing` | debug/debug_remix_scoring.py:41-87 | An empty remixer, remix type, artist or track adds nothing on its own, whatever the other terms are. |
| `RemixScore.EmptyTermsScore` | debug/debug_remix_scoring.py:41-87 | With all four terms empty, only the generic remix-word bonus can score. |
| `RemixScore.ArtistBonusByWords` | debug/debug_remix_scoring.py:69-84 | For an artist with at least one word, the artist bonus is 2 exactly when some word of it occurs in some artist name. The whole-artist test never adds anything. |
| `RemixScore.ScoreMonotoneInArtists` | debug/debug_remix_scoring.py:47-77 | Adding credited artists to a candidate never lowers its score. |
| `RemixScore.ParanoidMixxScoresTwo` | debug/debug_remix_scoring.py:12-91 | ("Paranoid London", "Eating Glue", "SAD PROM Live", "rework") against Diern's "Paranoid Mixx" scores exactly 2. |
| `Metadata.SplitFirst` | debug/test_ytdlp_extraction.py:30-31 | The split happens exactly when the separator occurs. The two parts rejoin with the separator to the input, and the separator does not occur before the first part ends. |
| `Metadata.SplitFirstJoin` | debug/test_metadata_extraction.py:37-42 | Joining two parts with the separator and splitting again gives the parts back when the separator does not occur before the joint. |
| `Metadata.CleanSuffix` | debug/test_ytdlp_extraction.py:37-38 | One trailing-bracket cleanup returns a stripped prefix of its stripped input, and leaves a text that does not end in the closing bracket unchanged. |
| `Metadata.CleanSuffixCut` | debug/test_ytdlp_extraction.py:37 | When the text ends in the closing bracket, `re.sub` cuts at the leftmost opening bracket whose text up to the end has no line feed, together with the whitespace before it. |
| `Metadata.CleanSuffixNoCut` | debug/test_ytdlp_extraction.py:37 | Without such an opening bracket, the text is unchanged. |
| `Metadata.CleanSuffixLeftmost` | debug/test_ytdlp_extraction.py:37 | "A [x] B [y]" is cleaned to "A": the cut starts at the first usable bracket, not at the one that opens the last group. |
| `Metadata.CleanTrack` | debug/test_ytdlp_extraction.py:37-38 | Both cleanups together return a stripped prefix of the track. |
| `Metadata.CleanSuffixRemoves` | debug/test_ytdlp_extraction.py:37 | A trailing bracketed part with no line feed is removed with the whitespace before it, when no earlier bracket of that kind exists. |
| `Metadata.CleanTrackYearThenLabel` | debug/test_ytdlp_extraction.py:37-38 | "T (year) [label]" cleans to "T". |
| `Metadata.CleanTrackLabelThenYear` | debug/test_ytdlp_extraction.py:37-38 | "T [label] (year)" cleans to "T [label]", because square brackets are cleaned first. |
| `Metadata.CleanTrackKeepsUnbracketed` | debug/test_ytdlp_extraction.py:37-38 | A track that does not end in `]` or `)` is unchanged. |
| `Metadata.BandcampMetadata` | debug/test_metadata_extraction.py:54-112 | The Bandcamp parser never returns an artist without a track, and whatever it returns is stripped. |
| `Metadata.YtdlpTitle` | debug/test_ytdlp_extraction.py:21-43 | The parser always returns a track. |
| `Metadata.YtdlpTitleSplits` | debug/test_ytdlp_extraction.py:30-40 | A title containing " - " gives the stripped text before its first occurrence as the artist. The track is the stripped and cleaned text after it. |
| `Metadata.YtdlpTitleUnsplit` | debug/test_ytdlp_extraction.py:43 | Without " - ", the result is no artist and the whole title. |
| `Metadata.OgTitle` | debug/test_metadata_extraction.py:31-48 | Without an og:title tag there is no track. An artist only comes with a track. |
| `Metadata.OgTitleSplit` | debug/test_metadata_extraction.py:33-45 | An og:title with " - " splits at its first occurrence into stripped parts. Without " - ", the stripped title is the track and there is no artist. |
| `Metadata.OgTitleJoin` | debug/test_metadata_extraction.py:37-42 | "Artist - Track" built from stripped parts splits back into them. |
| `Metadata.NameOf` | debug/test_metadata_extraction.py:75 | A name read from an object is stripped. |
| `Metadata.ScriptStep` | debug/test_metadata_extraction.py:72-91 | A script only returns a result with a non-empty, stripped track. |
| `Metadata.ScanScripts` | debug/test_metadata_extraction.py:71-91 | A result of the scan is the result of one of the scripts. |
| `Metadata.FirstDecisiveScript` | debug/test_metadata_extraction.py:71-91 | The first script that does not pass decides, by returning or by raising. Later scripts and the page title are ignored, and an exception gives (None, None). |
| `Metadata.AllScriptsPass` | debug/test_metadata_extraction.py:93-105 | When every script passes, the page title decides. |
| `Metadata.MalformedIsSkipped` | debug/test_metadata_extraction.py:90-91 | A script that is not valid JSON changes nothing. |
| `Metadata.FoundIff` | debug/test_metadata_extraction.py:74-88 | A script gives a result exactly when it decodes to an object with `@type` "MusicRecording" whose name is a non-blank string and whose `byArtist` can be read. |
| `Metadata.RecordingArtist` | debug/test_metadata_extraction.py:76-83 | `byArtist` as an object gives its name, and as a non-empty list gives its first element's name. As a string or when absent it gives no artist. |
| `Metadata.PageTitle` | debug/test_metadata_extraction.py:94-108 | The page title gives an artist exactly when it gives a track. |
| `Metadata.PageTitleJoin` | debug/test_metadata_extraction.py:100-105 | A title made of a track, the pipe separator and an artist gives that track and artist. Segments after a second separator are ignored. |
| `Normalize.ReplaceChar` | tests/test_simple_dexter.py:23 | `str.replace` of one character leaves a text without that character unchanged. When the replacement differs, no occurrence of the character survives. |
| `Normalize.NormalizeText` | tests/test_simple_dexter.py:22-23 | U+2019 becomes `'`, U+201C and U+201D become `"`, and every other character stays where it is. |
| `Normalize.NormalizeTextRemovesSmartQuotes` | tests/test_simple_dexter.py:23 | The output holds no U+2019, U+201C or U+201D. |
| `Normalize.NormalizeTextFixedPoint` | tests/test_simple_dexter.py:23 | A string without those characters is unchanged. |
| `Normalize.NormalizeTextIdempotent` | tests/test_simple_dexter.py:23 | Normalising twice is the same as normalising once. |
| `Normalize.LeftSingleQuoteKept` | tests/test_simple_dexter.py:23 | U+2018 is not replaced. |
| `Normalize.SmartApostropheMatchesAscii` | tests/test_simple_dexter.py:9-33 | "I Don’t Care" and "I Don't Care" differ, but are equal after lowercasing and normalising. |
| `Config.GetEnvVar` | config.py:28-35 | A set variable is returned even when empty, then the default, then `''`. A required variable that comes out empty is an error naming it. |
| `Config.NatToString` | config.py:50 | The decimal text of n is non-empty, all digits, and denotes n. |
| `Config.IntToString` | config.py:50 | The decimal text of any integer is non-empty and has no surrounding whitespace. |
| `Config.ParseIntGrammar` | config.py:22 | `int()` accepts exactly an optional sign and at least one digit inside whitespace. Its value is the digits' value, negated after a minus sign. |
| `Config.ParseIntToString` | config.py:22 | `int(str(n)) == n`, with any whitespace around the text. |
| `Config.StripPadded` | config.py:22 | Stripping removes exactly the whitespace padding around a stripped text. |
| `Config.Validate` | config.py:37-43 | Validation succeeds exactly when min_upvotes is non-negative and the playlist name is not blank. A negative threshold is the reported error. |
| `Config.LoadConfig` | config.py:11-26 | A loaded configuration has all four credentials non-empty, a non-negative threshold and a non-blank playlist name. Every field is its variable's value: each credential as set, the redirect URI and playlist name as set or else their defaults, and the threshold as `int()` of MIN_UPVOTES or of "3". |
| `Config.LoadConfigSucceeds` | config.py:11-43 | Loading succeeds exactly when the four credentials are set and non-empty, MIN_UPVOTES or its default parses to a non-negative integer, and PLAYLIST_NAME or its default is not blank. |
| `Config.Defaults` | config.py:19-23 | With only the credentials set, the redirect URI, threshold and playlist name take the defaults `http://localhost:8888/callback`, 3 and `notes from r/theoverload`. |
| `Config.MissingCredential` | config.py:13-33 | The first credential that is missing or empty, in reading order, is the one reported by name. |
| `Config.NegativeThresholdRejected` | config.py:39-40 | A negative MIN_UPVOTES is rejected. |
| `Config.BlankPlaylistRejected` | config.py:42-43 | An empty or blank PLAYLIST_NAME is rejected even when set explicitly, because a set variable hides the default. |
| `Config.MaskEqualIff` | config.py:48-49 | Two client ids are shown alike exactly when they have the same length, so an empty id never looks like a set one. |
| `Config.MaskDistinguishesEmpty` | config.py:48-49 | A masked id never looks like "Not set". |
| `Config.DescribeShows` | config.py:45-52 | The description contains the threshold, the playlist name, the redirect URI and both masked client ids. |
| `Config.DescribeHidesSecrets` | config.py:45-52 | The description does not depend on the secrets, and depends on the client ids only through their lengths. |
| `Text.StripEmpty` | config.py:42 | `s.strip()` is empty exactly when s is all whitespace. |
| `Text.StripSlice` | overload_spotify_sync.py:116 | `strip()` keeps a contiguous piece of its input, with only whitespace cut on either side. |
| `Text.Words` | debug/debug_remix_scoring.py:74 | `split()` returns non-empty runs of non-whitespace characters, and nothing exactly when the input is all whitespace. |
| `Text.WordsAreMaximalRuns` | debug/debug_remix_scoring.py:74 | A string is one of the words exactly when it is a maximal run of non-whitespace characters of the input. |
| `Text.MaximalRunInWords` | debug/debug_remix_scoring.py:74 | Every maximal run of non-whitespace characters is returned as a word. |
| `Text.WordsSplitAtSpace` | debug/debug_remix_scoring.py:74 | Cutting the input in front of a whitespace character splits the word list at the same place, so words come back in input order. |
| `Text.WordsOccur` | debug/debug_remix_scoring.py:74-77 | Every word `split()` returns is a substring of its input. |
| `Text.ContainsIff` | debug/debug_remix_scoring.py:41 | `sub in s` holds exactly when sub occurs at some position of s. |

## Left out

- The Reddit and Spotify clients, OAuth, HTTP, BeautifulSoup and yt-dlp fetching are network I/O. Their results are model inputs: the listing, the `track` lookup, the `search` function, the playlist pages, the page's tags and scripts, and the yt-dlp title.
- `get_or_create_playlist` is API plumbing with no logic of its own.
- `run` is orchestration over the modelled operations plus logging.
- Logging, `print` output and `time.sleep` rate limiting have no effect on results.
- Posts.RecentPosts: times are whole seconds compared directly. `datetime.fromtimestamp` local-time conversion, daylight-saving shifts and fractional timestamps are not modelled.
- Search.SearchSpotify: only the failure of reading the first item's first artist is modelled as an exception. A response item missing its `id` or `name` key is not.
- Playlist.ExistingIds: a non-null playlist entry always has a string id. Local files, whose id is null, are not modelled.
- Extraction.ExtractSpotifyInfo: a lookup that raises and a track without artists both give None. A track object missing its `name` key is not modelled.
- Config.LoadConfig: `int()` is modelled as surrounding whitespace, an optional sign and ASCII digits. Underscore separators and non-ASCII digits are not accepted.
- Metadata.ScriptStep: JSON numbers are integers. Whether a value is a float does not matter to any test in the code.
- The HTTP status check and the outer exception handlers of the fetchers are part of the fetch, not the parsing.
- Case is ASCII-only. Unicode case mapping for `lower()` and `re.IGNORECASE` is not modelled.
- Only the six title patterns are modelled, each by its shape. There is no general regular-expression engine.
- The scripts that only query live APIs and print, `setup_github_secrets.py` and `tests/test_regex.py` have no logic of their own to model.
- The methods that test scripts call but the main module does not define are not modelled (`extract_remix_info`, `find_best_remix_match`, `build_search_queries` and others).
