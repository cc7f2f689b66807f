/** The parsing halves of the page-metadata extractors in the debugging scripts: the yt-dlp title
    split and cleanup (debug/test_ytdlp_extraction.py:21-43), the og:title split, the JSON-LD
    MusicRecording scan and the Bandcamp page-title split (debug/test_metadata_extraction.py:31-112).
    What the fetch returns is an input here. */
module Metadata {
  import opened Wrappers
  import opened Text

  /** The `(artist, track)` tuple the extractors return; either side may be `None`. */
  datatype Meta = Meta(artist: Option<string>, track: Option<string>)

  const DashSeparator: string := " - "
  const PipeSeparator: string := " | "

  /** `s.split(sep, 1)` when `sep in s`: the text before and after the first occurrence. */
  function SplitFirst(s: string, sep: string): (r: Option<(string, string)>)
    ensures r.None? <==> !Contains(s, sep)
    ensures r.Some? ==> r.value.0 + sep + r.value.1 == s
    ensures r.Some? ==> forall k | 0 <= k < |r.value.0| :: !OccursAt(s, sep, k)
  {
    match IndexOf(s, sep)
    case None => None
    case Some(k) =>
      assert s[..k] + sep + s[k + |sep|..] == s by {
        assert s[k..k + |sep|] == sep;
      }
      Some((s[..k], s[k + |sep|..]))
  }

  /** Splitting undoes joining, as long as the separator does not occur before the joint. */
  lemma SplitFirstJoin(a: string, sep: string, b: string)
    requires sep != [] && !Contains(a + sep[..|sep| - 1], sep)
    ensures SplitFirst(a + sep + b, sep) == Some((a, b))
  {
    var s := a + sep + b;
    var t := a + sep[..|sep| - 1];
    assert OccursAt(s, sep, |a|) by {
      assert s[|a|..|a| + |sep|] == sep;
    }
    ContainsAt(s, sep, |a|);
    var k := IndexOf(s, sep).value;
    if k < |a| {
      assert OccursAt(t, sep, k) by {
        forall i | 0 <= i < |sep|
          ensures t[k + i] == sep[i]
        {
          assert t[k + i] == s[k + i];
          assert s[k..k + |sep|][i] == s[k + i];
        }
      }
      ContainsAt(t, sep, k);
    }
    assert s[..|a|] == a && s[|a| + |sep|..] == b;
  }

  // ---- yt-dlp title ----

  /** One of the cleanups `re.sub(r'\s*\[.*?\]$', '', t)` (with `open` `[` and `close` `]`) and
      `re.sub(r'\s*\(.*?\)$', '', t)`, on a stripped track: when the track ends in `close`, cut from
      the earliest `open` whose bracketed text holds no line feed, together with the whitespace in
      front of it. */
  function CleanSuffix(t: string, open: char, close: char): (r: string)
    requires IsStripped(t)
    ensures IsStripped(r)
    ensures |r| <= |t| && r == t[..|r|]
    ensures (t == [] || t[|t| - 1] != close) ==> r == t
  {
    if t != [] && t[|t| - 1] == close then
      match FirstIndex(|t| - 1, (q: nat) => UsableOpen(t, open, q), 0)
      case Some(q) =>
        var r := TrimRight(t[..q]);
        assert r == t[..|r|];
        assert r != [] ==> r[0] == t[0];
        r
      case None => t
    else t
  }

  /** `open` at index `q` can start the bracketed suffix: something follows it and the text
      between it and the last character holds no line feed. */
  predicate UsableOpen(t: string, open: char, q: nat) {
    q + 1 < |t| && t[q] == open && NoNewline(t[q + 1..|t| - 1])
  }

  /** The cleanup cuts at the leftmost usable opening bracket, with the whitespace before it, when
      the text ends in the closing bracket. */
  lemma CleanSuffixCut(t: string, open: char, close: char, q: nat)
    requires IsStripped(t) && t != [] && t[|t| - 1] == close
    requires UsableOpen(t, open, q)
    requires forall j | 0 <= j < q :: !UsableOpen(t, open, j)
    ensures CleanSuffix(t, open, close) == TrimRight(t[..q])
  {
    FirstIndexIsLeast(|t| - 1, (j: nat) => UsableOpen(t, open, j), q);
  }

  /** Without a usable opening bracket the text is left alone. */
  lemma CleanSuffixNoCut(t: string, open: char, close: char)
    requires IsStripped(t)
    requires forall q | 0 <= q < |t| :: !UsableOpen(t, open, q)
    ensures CleanSuffix(t, open, close) == t
  {
  }

  /** The cut is at the FIRST usable bracket, not at the one that opens the final group:
      "A [x] B [y]" is cleaned to "A". */
  lemma {:induction false} CleanSuffixLeftmost(a: string, x: string, b: string, y: string)
    requires IsStripped(a) && a != [] && '[' !in a
    requires NoNewline(x) && NoNewline(b) && NoNewline(y)
    ensures CleanSuffix(a + " [" + x + "] " + b + " [" + y + "]", '[', ']') == a
  {
    var t := a + " [" + x + "] " + b + " [" + y + "]";
    var q := |a| + 1;
    LeftmostShape(a, x, b, y);
    CleanSuffixCut(t, '[', ']', q);
    TrimRightSpace(a);
  }

  /** The facts `CleanSuffixLeftmost` needs about its text: it is stripped, ends in `]`, and its
      first usable `[` is the one right after `a + " "`. */
  lemma {:induction false} LeftmostShape(a: string, x: string, b: string, y: string)
    requires IsStripped(a) && a != [] && '[' !in a
    requires NoNewline(x) && NoNewline(b) && NoNewline(y)
    ensures var t := a + " [" + x + "] " + b + " [" + y + "]";
      && IsStripped(t) && t != [] && t[|t| - 1] == ']'
      && UsableOpen(t, '[', |a| + 1)
      && (forall j | 0 <= j < |a| + 1 :: !UsableOpen(t, '[', j))
      && t[..|a| + 1] == a + " "
  {
    var t := a + " [" + x + "] " + b + " [" + y + "]";
    var q := |a| + 1;
    var inner := x + "] " + b + " [" + y;
    assert t == (a + " ") + ['['] + inner + [']'];
    assert t[q + 1..|t| - 1] == inner;
    assert NoNewline(inner) by {
      assert forall i | 0 <= i < |inner| :: inner[i] in x || inner[i] in b || inner[i] in y || inner[i] in "] [";
    }
    forall j | 0 <= j < q
      ensures !UsableOpen(t, '[', j)
    {
      assert j < |a| ==> t[j] == a[j];
    }
    assert t[0] == a[0];
    assert t[..q] == a + " ";
  }

  /** Both cleanups, in the source's order: square brackets first, then parentheses. */
  function CleanTrack(t: string): (r: string)
    requires IsStripped(t)
    ensures IsStripped(r)
    ensures |r| <= |t| && r == t[..|r|]
  {
    var u := CleanSuffix(t, '[', ']');
    var r := CleanSuffix(u, '(', ')');
    assert r == t[..|r|];
    r
  }

  /** The yt-dlp extractor's parsing of the video title. */
  function YtdlpTitle(rawTitle: string): (m: Meta)
    ensures m.track.Some?
  {
    var title := Strip(rawTitle);
    match SplitFirst(title, DashSeparator)
    case Some((artist, track)) => Meta(Some(Strip(artist)), Some(CleanTrack(Strip(track))))
    case None => Meta(None, Some(title))
  }

  /** A title with `" - "` is split at its first occurrence; the artist is stripped, the track is
      stripped and cleaned. */
  lemma YtdlpTitleSplits(rawTitle: string)
    requires Contains(Strip(rawTitle), DashSeparator)
    ensures var title := Strip(rawTitle);
      exists k: nat :: OccursAt(title, DashSeparator, k)
        && (forall j | 0 <= j < k :: !OccursAt(title, DashSeparator, j))
        && YtdlpTitle(rawTitle) == Meta(Some(Strip(title[..k])), Some(CleanTrack(Strip(title[k + 3..]))))
  {
    var title := Strip(rawTitle);
    var r := SplitFirst(title, DashSeparator).value;
    var k := |r.0|;
    assert title[..k] == r.0 && title[k + 3..] == r.1;
    assert OccursAt(title, DashSeparator, k) by {
      assert title[k..k + 3] == DashSeparator;
    }
  }

  /** Without `" - "` the stripped title comes back whole, with no artist. */
  lemma YtdlpTitleUnsplit(rawTitle: string)
    requires !Contains(Strip(rawTitle), DashSeparator)
    ensures YtdlpTitle(rawTitle) == Meta(None, Some(Strip(rawTitle)))
  {
  }

  /** A track that does not end in `]` or `)` is left as it is. */
  lemma CleanTrackKeepsUnbracketed(t: string)
    requires IsStripped(t)
    requires t == [] || (t[|t| - 1] != ']' && t[|t| - 1] != ')')
    ensures CleanTrack(t) == t
  {
  }

  /** A bracketed suffix is removed with the whitespace in front of it, when `base` holds no opening
      bracket of the same kind: the earliest bracket is the one that opens the suffix. */
  lemma {:induction false} CleanSuffixRemoves(base: string, open: char, inner: string, close: char)
    requires IsStripped(base + [open] + inner + [close])
    requires open !in base && NoNewline(inner)
    ensures CleanSuffix(base + [open] + inner + [close], open, close) == TrimRight(base)
  {
    var t := base + [open] + inner + [close];
    var q := |base|;
    assert t[q + 1..|t| - 1] == inner;
    forall j | 0 <= j < q
      ensures !UsableOpen(t, open, j)
    {
      assert t[j] == base[j];
    }
    CleanSuffixCut(t, open, close, q);
    assert t[..q] == base;
  }

  /** The square-bracket cleanup runs first: a label after a year is removed, and then the year. */
  lemma {:induction false} CleanTrackYearThenLabel(name: string, year: string, labelName: string)
    requires IsStripped(name) && name != []
    requires '[' !in name && '(' !in name
    requires NoNewline(year) && NoNewline(labelName) && '[' !in year
    ensures CleanTrack(name + " (" + year + ") [" + labelName + "]") == name
  {
    var withYear := name + " " + ['('] + year + [')'];
    assert withYear == name + " (" + year + ")";
    assert name + " (" + year + ") [" + labelName + "]" == withYear + " " + ['['] + labelName + [']'];
    assert IsStripped(withYear) && '[' !in withYear;
    CleanSuffixAfterSpace(withYear, '[', labelName, ']');
    CleanSuffixAfterSpace(name, '(', year, ')');
  }

  /** A stripped text, one space and a bracketed part: the cleanup gives back the text. */
  lemma CleanSuffixAfterSpace(base: string, open: char, inner: string, close: char)
    requires IsStripped(base) && base != [] && open !in base && NoNewline(inner)
    requires !IsSpace(open) && !IsSpace(close)
    ensures IsStripped(base + " " + [open] + inner + [close])
    ensures CleanSuffix(base + " " + [open] + inner + [close], open, close) == base
  {
    var t := base + " " + [open] + inner + [close];
    assert t == (base + " ") + [open] + inner + [close];
    assert t[0] == base[0] && t[|t| - 1] == close;
    assert open !in base + " ";
    CleanSuffixRemoves(base + " ", open, inner, close);
    TrimRightSpace(base);
  }

  /** A year after a label is removed but the label stays: when the square-bracket cleanup ran, the
      track still ended in `)`. */
  lemma {:induction false} CleanTrackLabelThenYear(name: string, year: string, labelName: string)
    requires IsStripped(name) && name != []
    requires '(' !in name && '(' !in labelName
    requires NoNewline(year) && NoNewline(labelName)
    ensures CleanTrack(name + " [" + labelName + "] (" + year + ")") == name + " [" + labelName + "]"
  {
    var withLabel := name + " [" + labelName + "]";
    var t := name + " [" + labelName + "] (" + year + ")";
    assert IsStripped(withLabel);
    assert t == (withLabel + " ") + ['('] + year + [')'];
    assert CleanSuffix(t, '[', ']') == t;
    assert '(' !in withLabel + " ";
    CleanSuffixRemoves(withLabel + " ", '(', year, ')');
    TrimRightSpace(withLabel);
  }

  lemma TrimRightSpace(s: string)
    requires IsStripped(s)
    ensures TrimRight(s + " ") == s
  {
    var t := s + " ";
    assert TrailingSpaces(t) == 1 + TrailingSpaces(s);
    if s != [] {
      assert TrailingSpaces(s) == 0;
    }
  }

  // ---- og:title ----

  /** The `<meta property="og:title">` tag: absent, or present with its `content` attribute, which
      may itself be absent. */
  datatype TitleTag = NoTag | Tag(content: Option<string>)

  /** The og:title half of `extract_youtube_metadata`. */
  function OgTitle(tag: TitleTag): (m: Meta)
    ensures tag.NoTag? <==> m.track.None?
    ensures m.artist.Some? ==> m.track.Some?
  {
    match tag
    case NoTag => Meta(None, None)
    case Tag(content) =>
      var title := Strip(content.GetOr(""));
      match SplitFirst(title, DashSeparator)
      case Some((artist, track)) => Meta(Some(Strip(artist)), Some(Strip(track)))
      case None => Meta(None, Some(title))
  }

  /** An og:title with `" - "` gives the stripped text before and after its first occurrence;
      one without gives the whole stripped title as the track and no artist. */
  lemma OgTitleSplit(content: string)
    ensures var title := Strip(content);
      && (!Contains(title, DashSeparator) ==> OgTitle(Tag(Some(content))) == Meta(None, Some(title)))
      && (Contains(title, DashSeparator) ==> exists k: nat ::
            && OccursAt(title, DashSeparator, k)
            && (forall j | 0 <= j < k :: !OccursAt(title, DashSeparator, j))
            && OgTitle(Tag(Some(content))) == Meta(Some(Strip(title[..k])), Some(Strip(title[k + 3..]))))
  {
    var title := Strip(content);
    if Contains(title, DashSeparator) {
      var r := SplitFirst(title, DashSeparator).value;
      var k := |r.0|;
      assert title[..k] == r.0 && title[k + 3..] == r.1;
      assert OccursAt(title, DashSeparator, k) by {
        assert title[k..k + 3] == DashSeparator;
      }
    }
  }

  /** "Artist - Track" round trip: a title built from a stripped artist with no dash separator and
      any stripped track splits back into them. */
  lemma OgTitleJoin(artist: string, track: string)
    requires IsStripped(artist) && IsStripped(track) && artist != [] && track != []
    requires !Contains(artist + " -", DashSeparator)
    ensures OgTitle(Tag(Some(artist + DashSeparator + track))) == Meta(Some(artist), Some(track))
  {
    var title := artist + DashSeparator + track;
    assert IsStripped(title);
    StripOfStripped(title);
    assert DashSeparator[..2] == " -";
    SplitFirstJoin(artist, DashSeparator, track);
    StripOfStripped(artist);
    StripOfStripped(track);
  }

  // ---- JSON-LD ----

  /** A decoded JSON value. Numbers are kept as integers; nothing here inspects them. */
  datatype Json = JNull | JBool(b: bool) | JNum(n: int) | JStr(s: string) | JArr(elems: seq<Json>) | JObj(fields: map<string, Json>)

  /** A `<script type="application/ld+json">` tag: it has no single text child (`script.string` is
      `None`), its text is not valid JSON, or its text decodes to a value. */
  datatype Script = NoText | Malformed | Decoded(data: Json)

  /** What one pass of the loop does: move on, return a result, or raise an exception that is not
      a `JSONDecodeError`, which leaves the loop and the function with `(None, None)`. */
  datatype Step = Skip | Found(artist: Option<string>, track: string) | Abort

  /** `obj.get('name', '').strip()`, or the exception it raises when the name is not a string. */
  function NameOf(fields: map<string, Json>): (r: Option<string>)
    ensures r.Some? ==> IsStripped(r.value)
  {
    if "name" !in fields then Some("")
    else match fields["name"]
      case JStr(s) => Some(Strip(s))
      case _ => None
  }

  /** The artist taken from `byArtist`: `Some(None)` when it yields none, `None` when reading it
      raises. */
  function ByArtist(fields: map<string, Json>): (r: Option<Option<string>>)
    ensures r.Some? && r.value.Some? ==> IsStripped(r.value.value)
  {
    if "byArtist" !in fields then Some(None)
    else match fields["byArtist"]
      case JObj(artist) =>
        (match NameOf(artist) case Some(n) => Some(Some(n)) case None => None)
      case JArr(elems) =>
        if elems == [] then Some(None)
        else (match elems[0]
          case JObj(artist) => (match NameOf(artist) case Some(n) => Some(Some(n)) case None => None)
          case _ => None)
      case _ => Some(None)
  }

  /** The `in` test of `'@type' in data`: on a dictionary its keys, on a list its elements, on a
      string its substrings; on anything else it raises. */
  function HasTypeKey(data: Json): (r: Option<bool>)
  {
    match data
    case JObj(fields) => Some("@type" in fields)
    case JArr(elems) => Some(JStr("@type") in elems)
    case JStr(s) => Some(Contains(s, "@type"))
    case _ => None
  }

  /** One pass of the loop over the script tags (debug/test_metadata_extraction.py:72-91). */
  function ScriptStep(script: Script): (r: Step)
    ensures r.Found? ==> r.track != [] && IsStripped(r.track)
    ensures r.Found? && r.artist.Some? ==> IsStripped(r.artist.value)
  {
    match script
    case NoText => Abort
    case Malformed => Skip
    case Decoded(data) =>
      match HasTypeKey(data)
      case None => Abort
      case Some(false) => Skip
      case Some(true) =>
        if !data.JObj? then Abort
        else if data.fields["@type"] != JStr("MusicRecording") then Skip
        else match NameOf(data.fields)
          case None => Abort
          case Some(track) =>
            match ByArtist(data.fields)
            case None => Abort
            case Some(artist) => if track != [] then Found(artist, track) else Skip
  }

  /** The loop over the script tags: the first one that returns or raises decides. */
  function ScanScripts(scripts: seq<Script>): (r: Step)
    ensures r.Found? ==> exists i | 0 <= i < |scripts| :: ScriptStep(scripts[i]) == r
  {
    if scripts == [] then Skip
    else match ScriptStep(scripts[0])
      case Skip =>
        var r := ScanScripts(scripts[1..]);
        assert r.Found? ==> exists i | 0 <= i < |scripts[1..]| :: ScriptStep(scripts[1..][i]) == r;
        assert forall i | 0 <= i < |scripts[1..]| :: scripts[1..][i] == scripts[i + 1];
        r
      case r => r
  }

  /** The page's `<title>` text when there is a title tag. */
  function PageTitle(titleText: Option<string>): (m: Meta)
    ensures m.artist.Some? <==> m.track.Some?
    ensures m.track.Some? ==> IsStripped(m.track.value) && IsStripped(m.artist.value)
  {
    match titleText
    case None => Meta(None, None)
    case Some(text) =>
      var title := Strip(text);
      match SplitFirst(title, PipeSeparator)
      case None => Meta(None, None)
      case Some((first, rest)) =>
        var second := match SplitFirst(rest, PipeSeparator) case Some((s, _)) => s case None => rest;
        Meta(Some(Strip(second)), Some(Strip(first)))
  }

  /** `extract_bandcamp_metadata` after the fetch: the JSON-LD scripts first, then the page title.
      Whatever it returns is stripped, and an artist never comes without a track. */
  function BandcampMetadata(scripts: seq<Script>, titleText: Option<string>): (m: Meta)
    ensures m.artist.Some? ==> m.track.Some?
    ensures m.track.Some? ==> IsStripped(m.track.value)
    ensures m.artist.Some? ==> IsStripped(m.artist.value)
  {
    match ScanScripts(scripts)
    case Abort => Meta(None, None)
    case Found(artist, track) => Meta(artist, Some(track))
    case Skip => PageTitle(titleText)
  }

  /** The scan stops at the first script that does not pass: its result (or its exception) decides,
      and neither the later scripts nor the page title are consulted. */
  lemma {:induction false} FirstDecisiveScript(scripts: seq<Script>, i: nat, titleText: Option<string>)
    requires i < |scripts| && !ScriptStep(scripts[i]).Skip?
    requires forall j | 0 <= j < i :: ScriptStep(scripts[j]).Skip?
    ensures ScanScripts(scripts) == ScriptStep(scripts[i])
    ensures BandcampMetadata(scripts, titleText) ==
      match ScriptStep(scripts[i])
      case Found(artist, track) => Meta(artist, Some(track))
      case _ => Meta(None, None)
  {
    if i > 0 {
      assert ScriptStep(scripts[0]).Skip?;
      FirstDecisiveScript(scripts[1..], i - 1, titleText);
    }
  }

  /** When every script passes, the page title is the fallback. */
  lemma {:induction false} AllScriptsPass(scripts: seq<Script>, titleText: Option<string>)
    requires forall j | 0 <= j < |scripts| :: ScriptStep(scripts[j]).Skip?
    ensures BandcampMetadata(scripts, titleText) == PageTitle(titleText)
  {
    if scripts != [] {
      assert ScriptStep(scripts[0]).Skip?;
      AllScriptsPass(scripts[1..], titleText);
    }
  }

  /** A script whose text is not valid JSON is skipped: removing it changes nothing. */
  lemma {:induction false} MalformedIsSkipped(before: seq<Script>, after: seq<Script>)
    ensures ScanScripts(before + [Malformed] + after) == ScanScripts(before + after)
  {
    if before == [] {
      assert (before + [Malformed] + after)[1..] == after;
      assert before + after == after;
    } else {
      assert (before + [Malformed] + after)[1..] == before[1..] + [Malformed] + after;
      assert (before + after)[1..] == before[1..] + after;
      assert (before + [Malformed] + after)[0] == (before + after)[0];
      MalformedIsSkipped(before[1..], after);
    }
  }

  /** A script returns a result only when it decodes to an object whose `@type` is
      "MusicRecording" and whose name is a string that is not blank, and its artist can be read. */
  lemma FoundIff(script: Script)
    ensures ScriptStep(script).Found? <==>
      && script.Decoded? && script.data.JObj?
      && "@type" in script.data.fields && script.data.fields["@type"] == JStr("MusicRecording")
      && "name" in script.data.fields && script.data.fields["name"].JStr?
      && Strip(script.data.fields["name"].s) != []
      && ByArtist(script.data.fields).Some?
  {
  }

  /** For a MusicRecording with a usable name, `byArtist` as an object gives its name, as a
      non-empty list gives its first element's name, and as anything else gives no artist. */
  lemma RecordingArtist(fields: map<string, Json>, name: string, artist: string, others: seq<Json>)
    requires "@type" in fields && fields["@type"] == JStr("MusicRecording")
    requires "name" in fields && fields["name"] == JStr(name) && Strip(name) != []
    ensures var byDict := fields["byArtist" := JObj(map["name" := JStr(artist)])];
      ScriptStep(Decoded(JObj(byDict))) == Found(Some(Strip(artist)), Strip(name))
    ensures var byList := fields["byArtist" := JArr([JObj(map["name" := JStr(artist)])] + others)];
      ScriptStep(Decoded(JObj(byList))) == Found(Some(Strip(artist)), Strip(name))
    ensures var byText := fields["byArtist" := JStr(artist)];
      ScriptStep(Decoded(JObj(byText))) == Found(None, Strip(name))
    ensures var noArtist := fields - {"byArtist"};
      ScriptStep(Decoded(JObj(noArtist))) == Found(None, Strip(name))
  {
    RecordingStep(fields["byArtist" := JObj(map["name" := JStr(artist)])], name);
    RecordingStep(fields["byArtist" := JArr([JObj(map["name" := JStr(artist)])] + others)], name);
    RecordingStep(fields["byArtist" := JStr(artist)], name);
    RecordingStep(fields - {"byArtist"}, name);
  }

  /** A MusicRecording with a usable name and a readable `byArtist` is found with that artist. */
  lemma RecordingStep(fields: map<string, Json>, name: string)
    requires "@type" in fields && fields["@type"] == JStr("MusicRecording")
    requires "name" in fields && fields["name"] == JStr(name) && Strip(name) != []
    requires ByArtist(fields).Some?
    ensures ScriptStep(Decoded(JObj(fields))) == Found(ByArtist(fields).value, Strip(name))
  {
  }

  /** A page title "Track | Artist | ..." gives that artist and track; later segments are ignored. */
  lemma PageTitleJoin(track: string, artist: string, extra: string)
    requires IsStripped(track) && IsStripped(artist) && track != [] && artist != []
    requires !Contains(track + " |", PipeSeparator) && !Contains(artist + " |", PipeSeparator)
    ensures PageTitle(Some(track + PipeSeparator + artist)) == Meta(Some(artist), Some(track))
    ensures IsStripped(extra) && extra != [] ==>
      PageTitle(Some(track + PipeSeparator + artist + PipeSeparator + extra)) == Meta(Some(artist), Some(track))
  {
    PageTitleTwo(track, artist);
    if IsStripped(extra) && extra != [] {
      PageTitleThree(track, artist, extra);
    }
  }

  lemma PageTitleTwo(track: string, artist: string)
    requires IsStripped(track) && IsStripped(artist) && track != [] && artist != []
    requires !Contains(track + " |", PipeSeparator) && !Contains(artist + " |", PipeSeparator)
    ensures PageTitle(Some(track + PipeSeparator + artist)) == Meta(Some(artist), Some(track))
  {
    assert PipeSeparator[..2] == " |";
    var title := track + PipeSeparator + artist;
    assert IsStripped(title);
    StripOfStripped(title);
    SplitFirstJoin(track, PipeSeparator, artist);
    NoSeparatorNoSplit(artist);
    StripOfStripped(artist);
    StripOfStripped(track);
  }

  lemma PageTitleThree(track: string, artist: string, extra: string)
    requires IsStripped(track) && IsStripped(artist) && track != [] && artist != []
    requires !Contains(track + " |", PipeSeparator) && !Contains(artist + " |", PipeSeparator)
    requires IsStripped(extra) && extra != []
    ensures PageTitle(Some(track + PipeSeparator + artist + PipeSeparator + extra)) == Meta(Some(artist), Some(track))
  {
    assert PipeSeparator[..2] == " |";
    var longer := track + PipeSeparator + (artist + PipeSeparator + extra);
    assert longer == track + PipeSeparator + artist + PipeSeparator + extra;
    assert IsStripped(longer) by {
      assert longer[0] == track[0];
      assert longer[|longer| - 1] == extra[|extra| - 1];
    }
    StripOfStripped(longer);
    SplitFirstJoin(track, PipeSeparator, artist + PipeSeparator + extra);
    SplitFirstJoin(artist, PipeSeparator, extra);
    StripOfStripped(artist);
    StripOfStripped(track);
  }

  lemma NoSeparatorNoSplit(s: string)
    requires !Contains(s + " |", PipeSeparator)
    ensures SplitFirst(s, PipeSeparator).None?
  {
    if Contains(s, PipeSeparator) {
      var k := IndexOf(s, PipeSeparator).value;
      assert (s + " |")[k..k + 3] == s[k..k + 3];
      ContainsAt(s + " |", PipeSeparator, k);
    }
  }
}
