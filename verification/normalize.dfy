/** The smart-quote normaliser `normalize_text` (tests/test_simple_dexter.py): Reddit titles carry
    typographic quotes where catalog names carry ASCII ones, so both sides are mapped to ASCII before
    comparing. */
module Normalize {
  import opened Text

  const RightSingleQuote: char := '\U{2019}'
  const LeftDoubleQuote: char := '\U{201C}'
  const RightDoubleQuote: char := '\U{201D}'

  predicate IsSmartQuote(c: char) {
    c == RightSingleQuote || c == LeftDoubleQuote || c == RightDoubleQuote
  }

  /** `str.replace` of one character by another. */
  function ReplaceChar(s: string, target: char, replacement: char): (r: string)
    ensures |r| == |s|
    ensures forall i | 0 <= i < |s| :: r[i] == (if s[i] == target then replacement else s[i])
    ensures target !in s ==> r == s
    ensures target != replacement ==> target !in r
  {
    seq(|s|, i requires 0 <= i < |s| => if s[i] == target then replacement else s[i])
  }

  /** The three chained replacements of `normalize_text`, in the source's order. Position by
      position: U+2019 becomes an apostrophe, U+201C and U+201D become a double quote, and every
      other character (U+2018 included) is kept. */
  function NormalizeText(s: string): (r: string)
    ensures |r| == |s|
    ensures forall i | 0 <= i < |s| ::
      r[i] ==
        if s[i] == RightSingleQuote then '\''
        else if s[i] == LeftDoubleQuote || s[i] == RightDoubleQuote then '"'
        else s[i]
  {
    ReplaceChar(ReplaceChar(ReplaceChar(s, RightSingleQuote, '\''), LeftDoubleQuote, '"'), RightDoubleQuote, '"')
  }

  /** No smart quote survives normalisation. */
  lemma NormalizeTextRemovesSmartQuotes(s: string)
    ensures forall i | 0 <= i < |NormalizeText(s)| :: !IsSmartQuote(NormalizeText(s)[i])
  {
  }

  /** A string without smart quotes is a fixed point; so normalising twice changes nothing. */
  lemma NormalizeTextFixedPoint(s: string)
    requires forall i | 0 <= i < |s| :: !IsSmartQuote(s[i])
    ensures NormalizeText(s) == s
  {
  }

  lemma NormalizeTextIdempotent(s: string)
    ensures NormalizeText(NormalizeText(s)) == NormalizeText(s)
  {
    NormalizeTextRemovesSmartQuotes(s);
    NormalizeTextFixedPoint(NormalizeText(s));
  }

  /** The left single quote U+2018 is not among the replaced characters. */
  lemma LeftSingleQuoteKept(s: string, i: nat)
    requires i < |s| && s[i] == '\U{2018}'
    ensures NormalizeText(s)[i] == '\U{2018}'
  {
  }

  /** The case the test script exercises: the title's "I Don’t Care" (U+2019) and the catalog's
      "I Don't Care" are equal once both are lowercased and normalised, and differ before. */
  lemma SmartApostropheMatchesAscii()
    ensures "I Don\U{2019}t Care" != "I Don't Care"
    ensures NormalizeText(Lower("I Don\U{2019}t Care")) == NormalizeText(Lower("I Don't Care"))
  {
    var x := "I Don\U{2019}t Care";
    var y := "I Don't Care";
    assert x[5] != y[5];
    assert forall i | 0 <= i < |x| && i != 5 :: x[i] == y[i];
    var a := Lower(x);
    var b := Lower(y);
    assert forall i | 0 <= i < |a| :: NormalizeText(a)[i] == NormalizeText(b)[i];
  }
}
