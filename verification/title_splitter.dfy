/** The post-title splitter of `extract_youtube_info` (overload_spotify_sync.py:103-129).

    The source tries six regular expressions, in a fixed order, against the stripped title with
    `re.match` (anchored at the start) and `re.IGNORECASE`:

      Dash       `^(.+?)\s*[-–—]\s*(.+)$`
      Colon      `^(.+?)\s*:\s*(.+)$`
      By         `^(.+?)\s+by\s+(.+)$`
      Bracketed  `^\[(.+?)\]\s*(.+)$`
      Pipe       `^(.+?)\s*\|\s*(.+)$`
      Quoted     `^(.+?)\s*"(.+?)"`

    Each is modelled by the index its lazy first group stops in front of (its "anchor"). On a
    stripped title the lazy group `(.+?)` grows one character at a time, so the match the engine
    returns is the one at the EARLIEST anchor for which the rest of the pattern succeeds; `\s*` and
    `\s+` are absorbed by stripping both groups, as the source does; and since `.` does not match a
    line feed, both groups must be free of `\n` (whitespace around the separator may contain one). */
module TitleSplitter {
  import opened Wrappers
  import opened Text

  /** The two capture groups of a match, each stripped. */
  datatype Split = Split(artist: string, track: string)

  datatype Pattern = Dash | Colon | By | Bracketed | Pipe | Quoted

  /** The order the source tries the patterns in. */
  const Patterns: seq<Pattern> := [Dash, Colon, By, Bracketed, Pipe, Quoted]

  /** Hyphen-minus, en dash or em dash: the class `[-–—]`. */
  predicate IsDash(c: char) {
    c == '-' || c == '\U{2013}' || c == '\U{2014}'
  }

  /** The separator character of the patterns shaped `^(.+?)\s*SEP\s*(.+)$`. */
  predicate IsSeparator(p: Pattern, c: char) {
    match p
    case Dash => IsDash(c)
    case Colon => c == ':'
    case Pipe => c == '|'
    case _ => false
  }

  /** `^(.+?)\s*SEP\s*(.+)$` succeeds with SEP at index `j`. */
  predicate SeparatorAt(p: Pattern, s: string, j: nat) {
    && 1 <= j < |s|
    && IsSeparator(p, s[j])
    && Strip(s[j + 1..]) != []
    && NoNewline(Strip(s[..j]))
    && NoNewline(Strip(s[j + 1..]))
  }

  /** `^(.+?)\s+by\s+(.+)$` succeeds with `by` (in any case) at index `e`. */
  predicate ByAt(s: string, e: nat) {
    && 2 <= e && e + 2 < |s|
    && IsSpace(s[e - 1])
    && LowerChar(s[e]) == 'b' && LowerChar(s[e + 1]) == 'y'
    && IsSpace(s[e + 2])
    && Strip(s[e + 2..]) != []
    && NoNewline(Strip(s[..e]))
    && NoNewline(Strip(s[e + 2..]))
  }

  /** `^\[(.+?)\]\s*(.+)$` succeeds with the closing bracket at index `c`. */
  predicate BracketAt(s: string, c: nat) {
    && 2 <= c < |s|
    && s[0] == '['
    && s[c] == ']'
    && NoNewline(s[1..c])
    && Strip(s[c + 1..]) != []
    && NoNewline(Strip(s[c + 1..]))
  }

  /** The first double quote at or after index `from`: where the lazy `(.+?)"` of the Quoted
      pattern stops. */
  function QuoteFrom(s: string, from: nat): (r: Option<nat>)
    ensures r.Some? ==> from <= r.value < |s| && s[r.value] == '"'
    ensures r.Some? ==> forall k | from <= k < r.value :: s[k] != '"'
    ensures r.None? ==> forall k | from <= k < |s| :: s[k] != '"'
    decreases |s| - from
  {
    if from >= |s| then None
    else if s[from] == '"' then Some(from)
    else QuoteFrom(s, from + 1)
  }

  /** `^(.+?)\s*"(.+?)"` succeeds with the opening quote at index `j`: the quoted group holds at
      least one character and runs up to the next quote, with no line feed on the way. */
  predicate QuoteAt(s: string, j: nat) {
    && 1 <= j < |s|
    && s[j] == '"'
    && NoNewline(Strip(s[..j]))
    && match QuoteFrom(s, j + 2)
       case Some(q) => NoNewline(s[j + 1..q])
       case None => false
  }

  predicate AnchorAt(p: Pattern, s: string, j: nat) {
    match p
    case By => ByAt(s, j)
    case Bracketed => BracketAt(s, j)
    case Quoted => QuoteAt(s, j)
    case _ => SeparatorAt(p, s, j)
  }

  /** The stripped capture groups of pattern `p` anchored at `j`. */
  function Groups(p: Pattern, s: string, j: nat): (r: Split)
    requires AnchorAt(p, s, j)
    ensures IsStripped(r.artist) && IsStripped(r.track)
  {
    match p
    case By => Split(Strip(s[..j]), Strip(s[j + 2..]))
    case Bracketed => Split(Strip(s[1..j]), Strip(s[j + 1..]))
    case Quoted => Split(Strip(s[..j]), Strip(s[j + 1..QuoteFrom(s, j + 2).value]))
    case _ => Split(Strip(s[..j]), Strip(s[j + 1..]))
  }

  /** `re.match(pattern, s, re.IGNORECASE)` followed by stripping both groups. */
  function MatchPattern(p: Pattern, s: string): (r: Option<Split>)
    ensures r.Some? ==> IsStripped(r.value.artist) && IsStripped(r.value.track)
  {
    match FirstIndex(|s|, (j: nat) => AnchorAt(p, s, j), 0)
    case Some(j) => Some(Groups(p, s, j))
    case None => None
  }

  /** A pattern matches exactly when it has an anchor, and then yields the groups at its earliest
      anchor: the lazy first group stops as early as the rest of the pattern allows. */
  lemma {:induction false} MatchPatternEarliest(p: Pattern, s: string)
    ensures MatchPattern(p, s).None? <==> forall j | 0 <= j < |s| :: !AnchorAt(p, s, j)
    ensures forall j | 0 <= j < |s| && AnchorAt(p, s, j) && (forall k | 0 <= k < j :: !AnchorAt(p, s, k)) ::
      MatchPattern(p, s) == Some(Groups(p, s, j))
  {
    var f := (j: nat) => AnchorAt(p, s, j);
    forall j | 0 <= j < |s| && AnchorAt(p, s, j) && (forall k | 0 <= k < j :: !AnchorAt(p, s, k))
      ensures MatchPattern(p, s) == Some(Groups(p, s, j))
    {
      assert forall k | 0 <= k < j :: !f(k);
      FirstIndexIsLeast(|s|, f, j);
    }
    var r := FirstIndex(|s|, f, 0);
    if r.None? {
      forall j | 0 <= j < |s|
        ensures !AnchorAt(p, s, j)
      {
        assert !f(j);
      }
    } else {
      assert f(r.value);
    }
  }

  /** The loop over `patterns` from position `i` on: the first pattern that matches wins. */
  function FirstMatchFrom(s: string, i: nat): (r: Option<Split>)
    requires i <= |Patterns|
    ensures r.Some? ==> IsStripped(r.value.artist) && IsStripped(r.value.track)
    decreases |Patterns| - i
  {
    if i == |Patterns| then None
    else if MatchPattern(Patterns[i], s).Some? then MatchPattern(Patterns[i], s)
    else FirstMatchFrom(s, i + 1)
  }

  /** The artist/track pair `extract_youtube_info` builds from a post title: the groups of the first
      pattern that matches the stripped title, or an empty artist and the whole stripped title as the
      track when none does. It never fails, and both parts come back stripped. */
  function SplitTitle(title: string): (r: Split)
    ensures IsStripped(r.artist) && IsStripped(r.track)
  {
    match FirstMatchFrom(Strip(title), 0)
    case Some(split) => split
    case None => Split("", Strip(title))
  }

  /** `FirstMatchFrom` returns the result of the first matching pattern at or after `i`, or nothing
      when none of them matches. */
  lemma {:induction false} FirstMatchFromIsFirst(s: string, i: nat, k: nat)
    requires i <= k <= |Patterns|
    requires forall m | i <= m < k :: MatchPattern(Patterns[m], s).None?
    ensures k == |Patterns| ==> FirstMatchFrom(s, i).None?
    ensures k < |Patterns| && MatchPattern(Patterns[k], s).Some? ==> FirstMatchFrom(s, i) == MatchPattern(Patterns[k], s)
    decreases k - i
  {
    if i < k {
      assert MatchPattern(Patterns[i], s).None?;
      FirstMatchFromIsFirst(s, i + 1, k);
    }
  }

  /** Patterns are tried in the fixed order and the first one that matches decides the split. */
  lemma {:induction false} SplitTitleFirstMatch(title: string, k: nat)
    requires k < |Patterns|
    requires MatchPattern(Patterns[k], Strip(title)).Some?
    requires forall m | 0 <= m < k :: MatchPattern(Patterns[m], Strip(title)).None?
    ensures SplitTitle(title) == MatchPattern(Patterns[k], Strip(title)).value
  {
    FirstMatchFromIsFirst(Strip(title), 0, k);
  }

  /** When no pattern matches, the artist is empty and the track is the whole stripped title. */
  lemma {:induction false} SplitTitleFallback(title: string)
    requires forall m | 0 <= m < |Patterns| :: MatchPattern(Patterns[m], Strip(title)).None?
    ensures SplitTitle(title) == Split("", Strip(title))
  {
    FirstMatchFromIsFirst(Strip(title), 0, |Patterns|);
  }

  /** The dash pattern comes first, so a title with a usable dash is split at its earliest usable
      dash, whatever colon, " by ", bracket, pipe or quote it also holds; both sides are trimmed. */
  lemma {:induction false} DashWins(title: string, j: nat)
    requires SeparatorAt(Dash, Strip(title), j)
    requires forall k | 0 <= k < j :: !SeparatorAt(Dash, Strip(title), k)
    ensures var s := Strip(title); SplitTitle(title) == Split(Strip(s[..j]), Strip(s[j + 1..]))
  {
    var s := Strip(title);
    DashMatchesEarliest(s, j);
    assert Patterns[0] == Dash;
    assert FirstMatchFrom(s, 0) == MatchPattern(Dash, s);
  }

  /** The dash pattern matches at the earliest usable dash. */
  lemma DashMatchesEarliest(s: string, j: nat)
    requires SeparatorAt(Dash, s, j)
    requires forall k | 0 <= k < j :: !SeparatorAt(Dash, s, k)
    ensures MatchPattern(Dash, s) == Some(Split(Strip(s[..j]), Strip(s[j + 1..])))
  {
    MatchPatternEarliest(Dash, s);
    assert Groups(Dash, s, j) == Split(Strip(s[..j]), Strip(s[j + 1..]));
    assert AnchorAt(Dash, s, j);
    forall k | 0 <= k < j
      ensures !AnchorAt(Dash, s, k)
    {
      assert !SeparatorAt(Dash, s, k);
    }
  }

  /** When neither the dash nor the colon pattern matches, a " by " (in any letter case) splits the
      title with the text BEFORE it as the artist and the text after it as the track, although the
      pattern is labelled "Track by Artist". */
  lemma {:induction false} ByPatternSplit(title: string, e: nat)
    requires MatchPattern(Dash, Strip(title)).None? && MatchPattern(Colon, Strip(title)).None?
    requires ByAt(Strip(title), e)
    requires forall k | 0 <= k < e :: !ByAt(Strip(title), k)
    ensures var s := Strip(title); SplitTitle(title) == Split(Strip(s[..e]), Strip(s[e + 2..]))
  {
    EarliestByMatches(Strip(title), e);
    ThirdPatternDecides(title);
  }

  /** With the dash and colon patterns failing, a matching by pattern decides the split. */
  lemma {:induction false} ThirdPatternDecides(title: string)
    requires MatchPattern(Dash, Strip(title)).None? && MatchPattern(Colon, Strip(title)).None?
    requires MatchPattern(By, Strip(title)).Some?
    ensures SplitTitle(title) == MatchPattern(By, Strip(title)).value
  {
    var s := Strip(title);
    assert Patterns[0] == Dash && Patterns[1] == Colon && Patterns[2] == By;
    assert FirstMatchFrom(s, 0) == FirstMatchFrom(s, 1);
    assert FirstMatchFrom(s, 1) == FirstMatchFrom(s, 2);
    assert FirstMatchFrom(s, 2) == MatchPattern(By, s);
  }

  lemma {:induction false} EarliestByMatches(s: string, e: nat)
    requires ByAt(s, e)
    requires forall k | 0 <= k < e :: !ByAt(s, k)
    ensures MatchPattern(By, s) == Some(Split(Strip(s[..e]), Strip(s[e + 2..])))
  {
    MatchPatternEarliest(By, s);
    assert AnchorAt(By, s, e);
    forall k | 0 <= k < e
      ensures !AnchorAt(By, s, k)
    {
      assert !ByAt(s, k);
    }
  }

  /** With no dash, colon, pipe, quote or opening bracket anywhere and no "by" in any case, no
      pattern can match: the artist is empty and the whole stripped title is the track. */
  lemma {:induction false} PlainTitleIsTrack(title: string)
    requires var s := Strip(title);
      forall i | 0 <= i < |s| :: !IsDash(s[i]) && s[i] !in ":|\"["
    requires !Contains(Lower(Strip(title)), "by")
    ensures SplitTitle(title) == Split("", Strip(title))
  {
    var s := Strip(title);
    forall k | 0 <= k < |Patterns|
      ensures MatchPattern(Patterns[k], s).None?
    {
      forall j | 0 <= j < |s|
        ensures !AnchorAt(Patterns[k], s, j)
      {
        NoAnchorInPlainTitle(Patterns[k], s, j);
      }
      MatchPatternEarliest(Patterns[k], s);
    }
    SplitTitleFallback(title);
  }

  lemma {:induction false} NoAnchorInPlainTitle(p: Pattern, s: string, j: nat)
    requires forall i | 0 <= i < |s| :: !IsDash(s[i]) && s[i] !in ":|\"["
    requires !Contains(Lower(s), "by")
    ensures !AnchorAt(p, s, j)
  {
    if p == By {
      NoByInPlainTitle(s, j);
      assert !ByAt(s, j);
    } else if j < |s| {
      assert s[j] !in ":|\"[" && s[0] !in ":|\"[";
    }
  }

  /** Without "by" in any letter case, no index starts the two letters the by pattern needs. */
  lemma {:induction false} NoByInPlainTitle(s: string, j: nat)
    requires !Contains(Lower(s), "by")
    ensures !(j + 1 < |s| && LowerChar(s[j]) == 'b' && LowerChar(s[j + 1]) == 'y')
  {
    if j + 1 < |s| && LowerChar(s[j]) == 'b' && LowerChar(s[j + 1]) == 'y' {
      var l := Lower(s);
      assert l[j] == 'b' && l[j + 1] == 'y';
      assert l[j..j + 2] == "by";
      ContainsAt(l, "by", j);
    }
  }

  /** A match of the Dash, Colon, By, Pipe or Quoted pattern on a title never yields an empty
      artist: the lazy first group holds at least one non-blank character. */
  lemma {:induction false} MatchedArtistNonEmpty(p: Pattern, title: string)
    requires p != Bracketed
    requires MatchPattern(p, Strip(title)).Some?
    ensures MatchPattern(p, Strip(title)).value.artist != ""
  {
    var s := Strip(title);
    var j := FirstIndex(|s|, (j: nat) => AnchorAt(p, s, j), 0).value;
    assert AnchorAt(p, s, j);
    assert s[..j][0] == s[0];
    StripEmpty(s[..j]);
  }
}
