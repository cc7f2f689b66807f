/** The remix-candidate score computed inline by `debug_remix_scoring`
    (debug/debug_remix_scoring.py:34-91): a sum of independent bonuses, each decided by substring
    tests on lowercased text. */
module RemixScore {
  import opened Text
  import opened Catalog

  /** The generic remix words searched for in the track name. */
  const Indicators: seq<string> := ["remix", "mix", "edit", "rework", "vip"]

  /** The artist names, each lowercased. */
  function LowerAll(names: seq<string>): (r: seq<string>)
    ensures |r| == |names|
    ensures forall i | 0 <= i < |names| :: r[i] == Lower(names[i])
  {
    seq(|names|, i requires 0 <= i < |names| => Lower(names[i]))
  }

  /** Lowercasing a list of names works name by name: it distributes over concatenation and a
      second pass changes nothing. */
  lemma LowerAllAppendIdempotent(a: seq<string>, b: seq<string>)
    ensures LowerAll(a + b) == LowerAll(a) + LowerAll(b)
    ensures LowerAll(LowerAll(a)) == LowerAll(a)
  {
    forall i | 0 <= i < |a|
      ensures LowerAll(LowerAll(a))[i] == LowerAll(a)[i]
    {
      LowerIdempotent(a[i]);
    }
  }

  /** `any(sub in name for name in names)`. */
  function InSome(sub: string, names: seq<string>): (r: bool)
    ensures r <==> exists i | 0 <= i < |names| :: Contains(names[i], sub)
  {
    if names == [] then false
    else Contains(names[0], sub) || InSome(sub, names[1..])
  }

  /** `any(sub in s for sub in subs)`. */
  function SomeIn(subs: seq<string>, s: string): (r: bool)
    ensures r <==> exists i | 0 <= i < |subs| :: Contains(s, subs[i])
  {
    if subs == [] then false
    else Contains(s, subs[0]) || SomeIn(subs[1..], s)
  }

  /** Some word of `words` occurs in some name: `found_words` ends up non-empty. */
  function SomeWordInSome(words: seq<string>, names: seq<string>): (r: bool)
    ensures r <==> exists i | 0 <= i < |words| :: InSome(words[i], names)
  {
    if words == [] then false
    else InSome(words[0], names) || SomeWordInSome(words[1..], names)
  }

  /** +5 when the remixer occurs in the track name (lowercased). */
  function RemixerInNameBonus(remixer: string, name: string): nat {
    if remixer != [] && Contains(name, Lower(remixer)) then 5 else 0
  }

  /** +5 when the remixer occurs in some artist name (lowercased). */
  function RemixerInArtistsBonus(remixer: string, artistNames: seq<string>): nat {
    if remixer != [] && InSome(Lower(remixer), artistNames) then 5 else 0
  }

  /** +3 when the remix type occurs in the track name. */
  function TypeBonus(remixType: string, name: string): nat {
    if remixType != [] && Contains(name, Lower(remixType)) then 3 else 0
  }

  /** +2, once, when any generic remix word occurs in the track name. */
  function IndicatorBonus(name: string): nat {
    if SomeIn(Indicators, name) then 2 else 0
  }

  /** +2 when the original artist occurs in some artist name, or else when one of its words does. */
  function ArtistBonus(originalArtist: string, artistNames: seq<string>): nat {
    if originalArtist != [] && InSome(Lower(originalArtist), artistNames) then 2
    else if SomeWordInSome(Words(Lower(originalArtist)), artistNames) then 2
    else 0
  }

  /** +1 when the original track name occurs in the track name. */
  function TrackBonus(originalTrack: string, name: string): nat {
    if originalTrack != [] && Contains(name, Lower(originalTrack)) then 1 else 0
  }

  /** The score of candidate `t` for the remix (`originalArtist`, `originalTrack`, `remixer`,
      `remixType`). */
  function Score(t: CatalogTrack, originalArtist: string, originalTrack: string, remixer: string, remixType: string): (score: nat)
    ensures score <= 18
  {
    var name := Lower(t.name);
    var artistNames := LowerAll(t.artists);
    RemixerInNameBonus(remixer, name)
    + RemixerInArtistsBonus(remixer, artistNames)
    + TypeBonus(remixType, name)
    + IndicatorBonus(name)
    + ArtistBonus(originalArtist, artistNames)
    + TrackBonus(originalTrack, name)
  }

  /** Case never matters: texts that agree after lowercasing score the same. */
  lemma ScoreIgnoresCase(t1: CatalogTrack, t2: CatalogTrack,
                         a1: string, a2: string, n1: string, n2: string,
                         r1: string, r2: string, y1: string, y2: string)
    requires Lower(t1.name) == Lower(t2.name) && LowerAll(t1.artists) == LowerAll(t2.artists)
    requires Lower(a1) == Lower(a2) && Lower(n1) == Lower(n2)
    requires Lower(r1) == Lower(r2) && Lower(y1) == Lower(y2)
    ensures Score(t1, a1, n1, r1, y1) == Score(t2, a2, n2, r2, y2)
  {
    assert |a1| == |Lower(a1)| == |a2|;
    assert |n1| == |Lower(n1)| == |n2|;
    assert |r1| == |Lower(r1)| == |r2|;
    assert |y1| == |Lower(y1)| == |y2|;
  }

  /** Lowercasing the search terms and the candidate beforehand changes nothing. */
  lemma ScoreOfLowercased(t: CatalogTrack, a: string, n: string, r: string, y: string)
    ensures Score(CatalogTrack(t.id, Lower(t.name), LowerAll(t.artists)), Lower(a), Lower(n), Lower(r), Lower(y))
         == Score(t, a, n, r, y)
  {
    LowerIdempotent(t.name);
    LowerIdempotent(a);
    LowerIdempotent(n);
    LowerIdempotent(r);
    LowerIdempotent(y);
    var t2 := CatalogTrack(t.id, Lower(t.name), LowerAll(t.artists));
    assert LowerAll(t2.artists) == LowerAll(t.artists) by {
      forall i | 0 <= i < |t.artists|
        ensures LowerAll(t2.artists)[i] == LowerAll(t.artists)[i]
      {
        LowerIdempotent(t.artists[i]);
      }
    }
    ScoreIgnoresCase(t2, t, Lower(a), a, Lower(n), n, Lower(r), r, Lower(y), y);
  }

  /** The generic bonus is +2 exactly when some remix word occurs in the name, however many do;
      it is a plain substring test, so "mixx" counts. */
  lemma IndicatorBonusIff(name: string)
    ensures IndicatorBonus(name) == (if exists i | 0 <= i < |Indicators| :: Contains(name, Indicators[i]) then 2 else 0)
    ensures Contains(name, "mix") ==> IndicatorBonus(name) == 2
  {
    if Contains(name, "mix") {
      assert Contains(name, Indicators[1]);
    }
  }

  /** Each empty search term adds nothing on its own, whatever the other terms are: every bonus
      is guarded by the term being non-empty, and an empty artist has no words. */
  lemma EmptyTermAddsNothing(name: string, artistNames: seq<string>)
    ensures RemixerInNameBonus("", name) == 0 && RemixerInArtistsBonus("", artistNames) == 0
    ensures TypeBonus("", name) == 0 && TrackBonus("", name) == 0
    ensures ArtistBonus("", artistNames) == 0
  {
    assert Words(Lower("")) == [];
  }

  /** With all four terms empty, only the generic remix words count. */
  lemma EmptyTermsScore(t: CatalogTrack)
    ensures Score(t, "", "", "", "") == IndicatorBonus(Lower(t.name))
  {
    assert Lower("") == "";
    assert Words("") == [];
  }

  /** Whenever the original artist has a word at all, the whole-artist test adds nothing to the word
      test: every word of a substring is itself a substring. */
  lemma {:induction false} ArtistBonusByWords(originalArtist: string, artistNames: seq<string>)
    requires !AllSpace(Lower(originalArtist))
    ensures ArtistBonus(originalArtist, artistNames) == (if SomeWordInSome(Words(Lower(originalArtist)), artistNames) then 2 else 0)
  {
    var a := Lower(originalArtist);
    var ws := Words(a);
    if originalArtist != [] && InSome(a, artistNames) {
      var i :| 0 <= i < |artistNames| && Contains(artistNames[i], a);
      assert ws != [];
      WordsOccur(a);
      ContainsTransitive(artistNames[i], a, ws[0]);
      assert InSome(ws[0], artistNames);
    }
  }

  /** Another credited artist can only raise the score. */
  lemma ScoreMonotoneInArtists(t: CatalogTrack, more: seq<string>, a: string, n: string, r: string, y: string)
    ensures Score(t, a, n, r, y) <= Score(CatalogTrack(t.id, t.name, t.artists + more), a, n, r, y)
  {
    var names := LowerAll(t.artists);
    var names2 := LowerAll(t.artists + more);
    assert forall i | 0 <= i < |names| :: names2[i] == names[i];
    forall sub | InSome(sub, names)
      ensures InSome(sub, names2)
    {
      var i :| 0 <= i < |names| && Contains(names[i], sub);
      assert Contains(names2[i], sub);
    }
    var ws := Words(Lower(a));
    if SomeWordInSome(ws, names) {
      var k :| 0 <= k < |ws| && InSome(ws[k], names);
      assert InSome(ws[k], names2);
    }
  }

  /** The debugging session's case: a search for SAD PROM Live's rework of Paranoid London's
      "Eating Glue" meets Diern's "Paranoid Mixx", which earns only the generic +2 ("mix" in
      "mixx"). */
  lemma ParanoidMixxScoresTwo()
    ensures Score(CatalogTrack("4qxB0G1bAbI8Fml7d2xqzp", "Paranoid Mixx", ["Diern"]),
                  "Paranoid London", "Eating Glue", "SAD PROM Live", "rework") == 2
  {
    DiernLowercased();
    RemixerMissing("paranoid mixx", ["diern"]);
    ReworkMissing("paranoid mixx");
    MixxHasIndicator("paranoid mixx");
    ParanoidLondonNotInDiern();
    EatingGlueMissing("paranoid mixx");
  }

  lemma DiernLowercased()
    ensures Lower("Paranoid Mixx") == "paranoid mixx"
    ensures LowerAll(["Diern"]) == ["diern"]
  {
    assert Lower("Diern") == "diern";
  }

  lemma ReworkMissing(name: string)
    requires name == "paranoid mixx"
    ensures TypeBonus("rework", name) == 0
  {
    assert Lower("rework") == "rework";
    NotContainsMissingChar(name, "rework", 2);
  }

  lemma MixxHasIndicator(name: string)
    requires name == "paranoid mixx"
    ensures IndicatorBonus(name) == 2
  {
    assert name[9..12] == "mix";
    ContainsAt(name, "mix", 9);
    IndicatorBonusIff(name);
  }

  lemma RemixerMissing(name: string, names: seq<string>)
    requires name == "paranoid mixx" && names == ["diern"]
    ensures RemixerInNameBonus("SAD PROM Live", name) == 0
    ensures RemixerInArtistsBonus("SAD PROM Live", names) == 0
  {
    assert Lower("SAD PROM Live") == "sad prom live";
    NotContainsMissingChar(name, "sad prom live", 0);
    NotContainsMissingChar("diern", "sad prom live", 0);
  }

  lemma EatingGlueMissing(name: string)
    requires name == "paranoid mixx"
    ensures TrackBonus("Eating Glue", name) == 0
  {
    var n := Lower("Eating Glue");
    assert n[5] == 'g';
    NotContainsMissingChar(name, n, 5);
  }

  lemma ParanoidLondonNotInDiern()
    ensures ArtistBonus("Paranoid London", ["diern"]) == 0
  {
    ParanoidLondonLowered();
    TwoLongWordsNoBonus("Paranoid London", "paranoid", "london", ["diern"]);
  }

  lemma ParanoidLondonLowered()
    ensures Lower("Paranoid London") == "paranoid" + " " + "london"
    ensures IsWord("paranoid") && IsWord("london")
  {
  }

  /** An artist of two words, each longer than every artist name, earns no artist bonus. */
  lemma TwoLongWordsNoBonus(originalArtist: string, w1: string, w2: string, artistNames: seq<string>)
    requires Lower(originalArtist) == w1 + " " + w2 && IsWord(w1) && IsWord(w2)
    requires forall j | 0 <= j < |artistNames| :: |w1| > |artistNames[j]| && |w2| > |artistNames[j]|
    ensures ArtistBonus(originalArtist, artistNames) == 0
  {
    TwoWords(w1, w2);
    LongerNotInSome(Lower(originalArtist), artistNames);
    NoLongerWordInSome([w1, w2], artistNames);
  }

  /** A text longer than every name is in none of them. */
  lemma LongerNotInSome(sub: string, names: seq<string>)
    requires forall j | 0 <= j < |names| :: |sub| > |names[j]|
    ensures !InSome(sub, names)
  {
    forall j | 0 <= j < |names|
      ensures !Contains(names[j], sub)
    {
      NotContainsLonger(names[j], sub);
    }
  }

  /** Words each longer than every name occur in none of them. */
  lemma NoLongerWordInSome(words: seq<string>, names: seq<string>)
    requires forall i, j | 0 <= i < |words| && 0 <= j < |names| :: |words[i]| > |names[j]|
    ensures !SomeWordInSome(words, names)
  {
    forall i | 0 <= i < |words|
      ensures !InSome(words[i], names)
    {
      LongerNotInSome(words[i], names);
    }
  }
}
