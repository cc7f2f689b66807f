/** Loading, validating and describing the settings (config.py). The process environment is a
    map from variable names to values. */
module Config {
  import opened Wrappers
  import opened Text

  type Env = map<string, string>

  datatype ConfigError =
    | MissingVariable(name: string)
    | InvalidInteger(text: string)
    | NegativeMinUpvotes
    | EmptyPlaylistName

  datatype Settings = Settings(
    redditClientId: string,
    redditClientSecret: string,
    spotifyClientId: string,
    spotifyClientSecret: string,
    spotifyRedirectUri: string,
    minUpvotes: int,
    playlistName: string)

  const DefaultRedirectUri: string := "http://localhost:8888/callback"
  const DefaultMinUpvotes: string := "3"
  const DefaultPlaylistName: string := "notes from r/theoverload"

  /** `_get_env_var(name, fallback, required)`: a set variable wins even when empty, then the
      fallback; a required variable must come out non-empty; `None` becomes `''`. */
  function GetEnvVar(env: Env, name: string, fallback: Option<string>, required: bool): (r: Result<string, ConfigError>)
    ensures r.Failure? ==> r.error == MissingVariable(name)
    ensures name in env ==> (r.Success? <==> !required || env[name] != []) && (r.Success? ==> r.value == env[name])
    ensures name !in env && fallback.Some? ==> (r.Success? <==> !required || fallback.value != []) && (r.Success? ==> r.value == fallback.value)
    ensures name !in env && fallback.None? ==> (r.Success? <==> !required) && (r.Success? ==> r.value == [])
  {
    var value := if name in env then Some(env[name]) else fallback;
    if required && (value.None? || value.value == []) then Failure(MissingVariable(name))
    else Success(value.GetOr(""))
  }

  // ---- int() ----

  predicate IsDigit(c: char) {
    '0' <= c <= '9'
  }

  predicate AllDigits(s: string) {
    forall i | 0 <= i < |s| :: IsDigit(s[i])
  }

  function DigitValue(c: char): nat
    requires IsDigit(c)
  {
    c as int - '0' as int
  }

  /** The number a string of decimal digits denotes. */
  function DigitsValue(s: string): nat
    requires AllDigits(s)
  {
    if s == [] then 0 else DigitsValue(s[..|s| - 1]) * 10 + DigitValue(s[|s| - 1])
  }

  /** `int(text)` for base ten: surrounding whitespace, an optional sign, then at least one digit. */
  function ParseInt(text: string): (r: Option<int>)
  {
    var t := Strip(text);
    if t == [] then None
    else
      var negative := t[0] == '-';
      var digits := if t[0] == '-' || t[0] == '+' then t[1..] else t;
      if digits != [] && AllDigits(digits) then
        var magnitude: int := DigitsValue(digits);
        Some(if negative then -magnitude else magnitude)
      else None
  }

  /** `t` is an optional sign followed by at least one digit: the text `int()` accepts once the
      surrounding whitespace is stripped. */
  predicate SignedDigits(t: string, sign: string, digits: string) {
    && t == sign + digits
    && (sign == "" || sign == "+" || sign == "-")
    && digits != [] && AllDigits(digits)
  }

  /** `int()` accepts exactly a signed run of digits inside whitespace, and gives its value. */
  lemma ParseIntGrammar(text: string)
    ensures ParseInt(text).Some? <==> exists sign, digits :: SignedDigits(Strip(text), sign, digits)
    ensures forall sign, digits | SignedDigits(Strip(text), sign, digits) ::
      ParseInt(text) == Some(if sign == "-" then -(DigitsValue(digits) as int) else DigitsValue(digits))
  {
    var t := Strip(text);
    forall sign, digits | SignedDigits(t, sign, digits)
      ensures ParseInt(text) == Some(if sign == "-" then -(DigitsValue(digits) as int) else DigitsValue(digits))
    {
      ParseIntOfSigned(text, sign, digits);
    }
    if ParseInt(text).Some? {
      ParseIntIsSigned(text);
    }
  }

  lemma ParseIntIsSigned(text: string)
    requires ParseInt(text).Some?
    ensures exists sign, digits :: SignedDigits(Strip(text), sign, digits)
  {
    var t := Strip(text);
    if t[0] == '-' || t[0] == '+' {
      assert SignedDigits(t, [t[0]], t[1..]);
    } else {
      assert SignedDigits(t, "", t);
    }
  }

  lemma ParseIntOfSigned(text: string, sign: string, digits: string)
    requires SignedDigits(Strip(text), sign, digits)
    ensures ParseInt(text) == Some(if sign == "-" then -(DigitsValue(digits) as int) else DigitsValue(digits))
  {
    var t := Strip(text);
    if sign == "" {
      assert t == digits && IsDigit(t[0]);
    } else {
      assert t[0] == sign[0] && t[1..] == digits;
    }
  }

  function DigitChar(d: nat): (c: char)
    requires d < 10
    ensures IsDigit(c) && DigitValue(c) == d
  {
    ('0' as int + d) as char
  }

  /** `str(n)` for a natural number. */
  function NatToString(n: nat): (s: string)
    ensures s != [] && AllDigits(s)
    ensures DigitsValue(s) == n
  {
    if n < 10 then [DigitChar(n)]
    else
      var s := NatToString(n / 10) + [DigitChar(n % 10)];
      assert s[..|s| - 1] == NatToString(n / 10);
      s
  }

  /** `str(n)`. */
  function IntToString(n: int): (s: string)
    ensures s != [] && IsStripped(s)
  {
    if n < 0 then "-" + NatToString(-n) else NatToString(n)
  }

  /** `int(str(n)) == n`, with or without whitespace around it. */
  lemma ParseIntToString(n: int, before: string, after: string)
    requires AllSpace(before) && AllSpace(after)
    ensures ParseInt(before + IntToString(n) + after) == Some(n)
  {
    var s := IntToString(n);
    StripPadded(before, s, after);
    if n < 0 {
      assert s[1..] == NatToString(-n);
    }
  }

  /** Strip removes exactly the whitespace padding around a stripped, non-empty string. */
  lemma StripPadded(before: string, s: string, after: string)
    requires AllSpace(before) && AllSpace(after) && IsStripped(s) && s != []
    ensures Strip(before + s + after) == s
  {
    var rest := s + after;
    assert before + s + after == before + rest;
    PaddingBefore(before, rest);
    PaddingAfter(s, after);
    assert (before + rest)[|before|..] == rest;
    assert rest[..|s|] == s;
  }

  lemma PaddingBefore(before: string, rest: string)
    requires AllSpace(before) && rest != [] && !IsSpace(rest[0])
    ensures LeadingSpaces(before + rest) == |before|
  {
    var t := before + rest;
    assert forall i | 0 <= i < |before| :: IsSpace(t[i]);
    LeadingSpacesExact(t, |before|);
  }

  lemma PaddingAfter(s: string, after: string)
    requires AllSpace(after) && s != [] && !IsSpace(s[|s| - 1])
    ensures TrailingSpaces(s + after) == |after|
  {
    var t := s + after;
    assert forall i | |t| - |after| <= i < |t| :: IsSpace(t[i]);
    TrailingSpacesExact(t, |after|);
  }

  lemma {:induction false} LeadingSpacesExact(s: string, n: nat)
    requires n < |s| && !IsSpace(s[n])
    requires forall i | 0 <= i < n :: IsSpace(s[i])
    ensures LeadingSpaces(s) == n
  {
    if n > 0 {
      LeadingSpacesExact(s[1..], n - 1);
    }
  }

  lemma {:induction false} TrailingSpacesExact(s: string, n: nat)
    requires n < |s| && !IsSpace(s[|s| - 1 - n])
    requires forall i | |s| - n <= i < |s| :: IsSpace(s[i])
    ensures TrailingSpaces(s) == n
  {
    if n > 0 {
      TrailingSpacesExact(s[..|s| - 1], n - 1);
    }
  }

  // ---- loading and validation ----

  /** `_validate_config`: the threshold must be non-negative, and the playlist name not blank. */
  function Validate(c: Settings): (r: Result<Settings, ConfigError>)
    ensures r.Success? <==> c.minUpvotes >= 0 && Strip(c.playlistName) != []
    ensures r.Success? ==> r.value == c
    ensures r.Failure? && c.minUpvotes < 0 ==> r.error == NegativeMinUpvotes
  {
    if c.minUpvotes < 0 then Failure(NegativeMinUpvotes)
    else if Strip(c.playlistName) == [] then Failure(EmptyPlaylistName)
    else Success(c)
  }

  /** What `os.getenv(name, fallback)` returns for an optional variable with a string default. */
  function Setting(env: Env, name: string, fallback: string): string {
    if name in env then env[name] else fallback
  }

  /** The required variables, in the order `Config()` reads them. */
  const Credentials: seq<string> :=
    ["REDDIT_CLIENT_ID", "REDDIT_CLIENT_SECRET", "SPOTIFY_CLIENT_ID", "SPOTIFY_CLIENT_SECRET"]

  /** `Config()`: the variables are read in the source's order, so the first problem found is the
      one reported. Every field of a loaded configuration is the value of its variable. */
  function LoadConfig(env: Env): (r: Result<Settings, ConfigError>)
    ensures r.Success? ==>
      && r.value.redditClientId != [] && r.value.redditClientSecret != []
      && r.value.spotifyClientId != [] && r.value.spotifyClientSecret != []
      && r.value.minUpvotes >= 0 && Strip(r.value.playlistName) != []
    ensures r.Success? ==>
      && "REDDIT_CLIENT_ID" in env && r.value.redditClientId == env["REDDIT_CLIENT_ID"]
      && "REDDIT_CLIENT_SECRET" in env && r.value.redditClientSecret == env["REDDIT_CLIENT_SECRET"]
      && "SPOTIFY_CLIENT_ID" in env && r.value.spotifyClientId == env["SPOTIFY_CLIENT_ID"]
      && "SPOTIFY_CLIENT_SECRET" in env && r.value.spotifyClientSecret == env["SPOTIFY_CLIENT_SECRET"]
      && r.value.spotifyRedirectUri == Setting(env, "SPOTIFY_REDIRECT_URI", DefaultRedirectUri)
      && ParseInt(Setting(env, "MIN_UPVOTES", DefaultMinUpvotes)) == Some(r.value.minUpvotes)
      && r.value.playlistName == Setting(env, "PLAYLIST_NAME", DefaultPlaylistName)
  {
    var redditId :- GetEnvVar(env, "REDDIT_CLIENT_ID", None, true);
    var redditSecret :- GetEnvVar(env, "REDDIT_CLIENT_SECRET", None, true);
    var spotifyId :- GetEnvVar(env, "SPOTIFY_CLIENT_ID", None, true);
    var spotifySecret :- GetEnvVar(env, "SPOTIFY_CLIENT_SECRET", None, true);
    var redirect := GetEnvVar(env, "SPOTIFY_REDIRECT_URI", Some(DefaultRedirectUri), false).value;
    var minText := GetEnvVar(env, "MIN_UPVOTES", Some(DefaultMinUpvotes), false).value;
    var minUpvotes :- match ParseInt(minText)
      case Some(n) => Success(n)
      case None => Failure(InvalidInteger(minText));
    var playlist := GetEnvVar(env, "PLAYLIST_NAME", Some(DefaultPlaylistName), false).value;
    Validate(Settings(redditId, redditSecret, spotifyId, spotifySecret, redirect, minUpvotes, playlist))
  }

  /** The four credentials, set and non-empty. */
  predicate HasCredentials(env: Env) {
    && "REDDIT_CLIENT_ID" in env && env["REDDIT_CLIENT_ID"] != []
    && "REDDIT_CLIENT_SECRET" in env && env["REDDIT_CLIENT_SECRET"] != []
    && "SPOTIFY_CLIENT_ID" in env && env["SPOTIFY_CLIENT_ID"] != []
    && "SPOTIFY_CLIENT_SECRET" in env && env["SPOTIFY_CLIENT_SECRET"] != []
  }

  /** With only the credentials set, every other setting takes its default. */
  lemma Defaults(env: Env)
    requires HasCredentials(env)
    requires "SPOTIFY_REDIRECT_URI" !in env && "MIN_UPVOTES" !in env && "PLAYLIST_NAME" !in env
    ensures LoadConfig(env).Success?
    ensures LoadConfig(env).value.spotifyRedirectUri == DefaultRedirectUri
    ensures LoadConfig(env).value.minUpvotes == 3
    ensures LoadConfig(env).value.playlistName == DefaultPlaylistName
  {
    DefaultsAreValid();
  }

  lemma DefaultsAreValid()
    ensures ParseInt(DefaultMinUpvotes) == Some(3)
    ensures Strip(DefaultPlaylistName) != []
  {
    DefaultThreshold();
    DefaultPlaylistNotBlank();
  }

  lemma DefaultThreshold()
    ensures ParseInt(DefaultMinUpvotes) == Some(3)
  {
    ParseIntToString(3, "", "");
    assert "" + IntToString(3) + "" == DefaultMinUpvotes;
  }

  lemma DefaultPlaylistNotBlank()
    ensures Strip(DefaultPlaylistName) != []
  {
    var s := DefaultPlaylistName;
    assert IsStripped(s) by {
      assert s[0] == 'n' && s[|s| - 1] == 'd';
    }
    StripOfStripped(s);
  }

  /** Loading succeeds exactly when the four credentials are set and non-empty, MIN_UPVOTES (or
      its default) parses to a non-negative integer, and PLAYLIST_NAME (or its default) is not
      blank. */
  lemma LoadConfigSucceeds(env: Env)
    ensures LoadConfig(env).Success? <==>
      && HasCredentials(env)
      && ParseInt(Setting(env, "MIN_UPVOTES", DefaultMinUpvotes)).Some?
      && ParseInt(Setting(env, "MIN_UPVOTES", DefaultMinUpvotes)).value >= 0
      && Strip(Setting(env, "PLAYLIST_NAME", DefaultPlaylistName)) != []
  {
    if HasCredentials(env) {
      assert GetEnvVar(env, "MIN_UPVOTES", Some(DefaultMinUpvotes), false).value
        == Setting(env, "MIN_UPVOTES", DefaultMinUpvotes);
      assert GetEnvVar(env, "PLAYLIST_NAME", Some(DefaultPlaylistName), false).value
        == Setting(env, "PLAYLIST_NAME", DefaultPlaylistName);
    }
  }

  /** A missing or empty credential is reported by name: the first such one in reading order. */
  lemma MissingCredential(env: Env, k: nat)
    requires k < |Credentials|
    requires forall i | 0 <= i < k :: Credentials[i] in env && env[Credentials[i]] != []
    requires Credentials[k] !in env || env[Credentials[k]] == []
    ensures LoadConfig(env) == Failure(MissingVariable(Credentials[k]))
  {
    assert Credentials[0] == "REDDIT_CLIENT_ID" && Credentials[1] == "REDDIT_CLIENT_SECRET";
    assert Credentials[2] == "SPOTIFY_CLIENT_ID" && Credentials[3] == "SPOTIFY_CLIENT_SECRET";
  }

  /** A negative threshold is rejected. */
  lemma NegativeThresholdRejected(env: Env, n: int)
    requires HasCredentials(env) && n < 0
    requires "MIN_UPVOTES" in env && env["MIN_UPVOTES"] == IntToString(n)
    ensures LoadConfig(env) == Failure(NegativeMinUpvotes)
  {
    assert Setting(env, "MIN_UPVOTES", DefaultMinUpvotes) == IntToString(n);
    ParseIntOfIntToString(n);
    NegativeParsedThreshold(env, n);
  }

  lemma ParseIntOfIntToString(n: int)
    ensures ParseInt(IntToString(n)) == Some(n)
  {
    var s := IntToString(n);
    StripOfStripped(s);
    if n < 0 {
      assert s[0] == '-' && s[1..] == NatToString(-n);
    } else {
      assert s == NatToString(n);
    }
  }

  /** Whatever its text, a threshold that parses to a negative number fails validation. */
  lemma NegativeParsedThreshold(env: Env, n: int)
    requires HasCredentials(env) && n < 0
    requires ParseInt(Setting(env, "MIN_UPVOTES", DefaultMinUpvotes)) == Some(n)
    ensures LoadConfig(env) == Failure(NegativeMinUpvotes)
  {
  }

  /** A playlist name that is empty or only whitespace is rejected, even when it is set explicitly:
      a set variable hides the default. */
  lemma BlankPlaylistRejected(env: Env)
    requires HasCredentials(env) && "MIN_UPVOTES" !in env
    requires "PLAYLIST_NAME" in env && AllSpace(env["PLAYLIST_NAME"])
    ensures LoadConfig(env) == Failure(EmptyPlaylistName)
  {
    DefaultsAreValid();
    StripEmpty(env["PLAYLIST_NAME"]);
  }

  // ---- __str__ ----

  /** A client id as `__str__` shows it: one `*` per character, or "Not set" when empty. */
  function Mask(s: string): (r: string)
    ensures s == [] ==> r == "Not set"
    ensures s != [] ==> |r| == |s| && forall i | 0 <= i < |r| :: r[i] == '*'
  {
    if s == [] then "Not set" else seq(|s|, _ => '*')
  }

  /** Two ids are shown alike exactly when they have the same length: "Not set" is no run of
      stars, so an empty id is never confused with a set one. */
  lemma MaskEqualIff(s: string, t: string)
    ensures Mask(s) == Mask(t) <==> |s| == |t|
  {
    if s == [] && t != [] {
      MaskDistinguishesEmpty(t);
    } else if s != [] && t == [] {
      MaskDistinguishesEmpty(s);
    }
  }

  /** `str(config)`. */
  function Describe(c: Settings): string {
    "Config:\n  Reddit Client ID: " + (Mask(c.redditClientId)
    + ("\n  Spotify Client ID: " + (Mask(c.spotifyClientId)
    + ("\n  Min Upvotes: " + (IntToString(c.minUpvotes)
    + ("\n  Playlist Name: " + (c.playlistName
    + ("\n  Redirect URI: " + c.spotifyRedirectUri))))))))
  }

  /** The description shows the threshold, the playlist name and the redirect URI as they are, and
      each client id only masked. */
  lemma DescribeShows(c: Settings)
    ensures Contains(Describe(c), IntToString(c.minUpvotes))
    ensures Contains(Describe(c), c.playlistName) && Contains(Describe(c), c.spotifyRedirectUri)
    ensures Contains(Describe(c), Mask(c.redditClientId)) && Contains(Describe(c), Mask(c.spotifyClientId))
  {
    var t9 := "\n  Redirect URI: " + c.spotifyRedirectUri;
    var t8 := c.playlistName + t9;
    var t7 := "\n  Playlist Name: " + t8;
    var t6 := IntToString(c.minUpvotes) + t7;
    var t5 := "\n  Min Upvotes: " + t6;
    var t4 := Mask(c.spotifyClientId) + t5;
    var t3 := "\n  Spotify Client ID: " + t4;
    var t2 := Mask(c.redditClientId) + t3;
    var t1 := "Config:\n  Reddit Client ID: " + t2;
    assert t1 == Describe(c);
    ContainsInConcat("\n  Redirect URI: ", c.spotifyRedirectUri, c.spotifyRedirectUri);
    ContainsInConcat(c.playlistName, t9, c.spotifyRedirectUri);
    ContainsInConcat("\n  Playlist Name: ", t8, c.spotifyRedirectUri);
    ContainsInConcat("\n  Playlist Name: ", t8, c.playlistName);
    ContainsInConcat(IntToString(c.minUpvotes), t7, c.spotifyRedirectUri);
    ContainsInConcat(IntToString(c.minUpvotes), t7, c.playlistName);
    ShowsThrough("\n  Min Upvotes: ", t6, IntToString(c.minUpvotes), c.playlistName, c.spotifyRedirectUri);
    ShowsThrough(Mask(c.spotifyClientId), t5, IntToString(c.minUpvotes), c.playlistName, c.spotifyRedirectUri);
    ContainsInConcat(Mask(c.spotifyClientId), t5, "");
    ShowsThrough("\n  Spotify Client ID: ", t4, IntToString(c.minUpvotes), c.playlistName, c.spotifyRedirectUri);
    ContainsInConcat("\n  Spotify Client ID: ", t4, Mask(c.spotifyClientId));
    ShowsThrough(Mask(c.redditClientId), t3, IntToString(c.minUpvotes), c.playlistName, c.spotifyRedirectUri);
    ContainsInConcat(Mask(c.redditClientId), t3, Mask(c.spotifyClientId));
    ShowsThrough("Config:\n  Reddit Client ID: ", t2, IntToString(c.minUpvotes), c.playlistName, c.spotifyRedirectUri);
    ContainsInConcat("Config:\n  Reddit Client ID: ", t2, Mask(c.spotifyClientId));
    ContainsInConcat("Config:\n  Reddit Client ID: ", t2, Mask(c.redditClientId));
  }

  /** Three texts in a suffix stay in the whole. */
  lemma ShowsThrough(p: string, s: string, x: string, y: string, z: string)
    requires Contains(s, x) && Contains(s, y) && Contains(s, z)
    ensures Contains(p + s, x) && Contains(p + s, y) && Contains(p + s, z)
  {
    ContainsInConcat(p, s, x);
    ContainsInConcat(p, s, y);
    ContainsInConcat(p, s, z);
  }

  /** The description never depends on the secrets, and on the client ids only through their
      lengths. */
  lemma DescribeHidesSecrets(c1: Settings, c2: Settings)
    requires |c1.redditClientId| == |c2.redditClientId| && |c1.spotifyClientId| == |c2.spotifyClientId|
    requires c1.minUpvotes == c2.minUpvotes && c1.playlistName == c2.playlistName
    requires c1.spotifyRedirectUri == c2.spotifyRedirectUri
    ensures Describe(c1) == Describe(c2)
  {
    assert Mask(c1.redditClientId) == Mask(c2.redditClientId);
    assert Mask(c1.spotifyClientId) == Mask(c2.spotifyClientId);
  }

  /** A masked id and the "Not set" marker never look alike: at least one character of "Not set"
      is not a star, so an empty id is always told apart from a set one. */
  lemma MaskDistinguishesEmpty(s: string)
    requires s != []
    ensures Mask(s) != Mask([])
  {
    if |s| == |"Not set"| {
      assert Mask(s)[0] == '*' != 'N';
    }
  }
}
