/** The post form's `slugTransform`: trim, lower-case, replace the leading
    run of letters, digits and whitespace by one hyphen, then turn every
    remaining whitespace character into a hyphen. */
module Slug {
  import opened JsText

  /** The argument of `slugTransform`: a JavaScript string, or any other value
      (`undefined`, `null`, a number, ...), all of which it treats alike. */
  datatype Value = Str(text: string) | NonString

  /** The trimmed, lower-cased text the two replacements work on. */
  function Prepared(s: string): (r: string)
    ensures |r| <= |s|
    ensures r == [] <==> AllWhitespace(s)
    ensures NoAsciiUpper(r)
    ensures NoAsciiUpper(s) && Trim(s) == s ==> r == s
    ensures |r| == |Trim(s)|
    ensures forall i {:trigger r[i]} :: 0 <= i < |r| ==> r[i] == LowerChar(Trim(s)[i])
  {
    ToLower(Trim(s))
  }

  /** The two replacements applied to the prepared text. */
  function Replaced(s: string): string {
    ReplaceWhitespace(ReplaceLeadingRun(Prepared(s)))
  }

  /** `slugTransform(value)`. */
  function SlugTransform(v: Value): string {
    match v
    case NonString => ""
    case Str(s) => if s == "" then "" else Replaced(s)
  }

  /** The result is empty exactly for a non-string, the empty string or a
      whitespace-only string. */
  lemma SlugEmptyIff(v: Value)
    ensures SlugTransform(v) == "" <==> v.NonString? || AllWhitespace(v.text)
  {
    if v.Str? && v.text != "" {
      ReplacedLength(v.text);
    }
  }

  /** The result never contains whitespace. */
  lemma SlugNoWhitespace(v: Value)
    ensures NoWhitespace(SlugTransform(v))
  {
    if v.Str? && v.text != "" {
      ReplacedNoWhitespace(v.text);
    }
  }

  /** The result never contains an upper-case letter. */
  lemma SlugNoUpper(v: Value)
    ensures NoAsciiUpper(SlugTransform(v))
  {
    if v.Str? && v.text != "" {
      ReplacedNoAsciiUpper(v.text);
    }
  }

  /** The result is never longer than the input string. */
  lemma SlugNotLonger(v: Value)
    ensures v.Str? ==> |SlugTransform(v)| <= |v.text|
  {
    if v.Str? && v.text != "" {
      ReplacedLength(v.text);
    }
  }

  /** The result never begins with a letter, a digit or whitespace. */
  lemma SlugFirstChar(v: Value)
    ensures SlugTransform(v) != "" ==> !InLeadingClass(SlugTransform(v)[0])
  {
    if v.Str? && v.text != "" {
      ReplacedFirst(v.text);
    }
  }

  lemma ReplacedLength(s: string)
    ensures |Replaced(s)| <= |s|
    ensures Replaced(s) == "" <==> AllWhitespace(s)
  {
  }

  lemma ReplacedNoWhitespace(s: string)
    ensures NoWhitespace(Replaced(s))
  {
    ReplaceWhitespaceLeavesNone(ReplaceLeadingRun(Prepared(s)));
  }

  lemma ReplacedNoAsciiUpper(s: string)
    ensures NoAsciiUpper(Replaced(s))
  {
  }

  lemma ReplacedFirst(s: string)
    ensures Replaced(s) != "" ==> !InLeadingClass(Replaced(s)[0])
  {
  }

  /** For a non-empty string the result is the replacements on the prepared
      text. */
  lemma SlugOfNonEmpty(s: string)
    requires |s| > 0
    ensures SlugTransform(Str(s)) == Replaced(s)
  {
  }

  /** The slug stored in the form is always a value that `slugTransform`
      leaves unchanged. */
  predicate IsFixedPoint(slug: string) {
    SlugTransform(Str(slug)) == slug
  }

  /** Text without whitespace or upper-case letters is already trimmed and
      lower-cased. */
  lemma PreparedFixed(r: string)
    requires NoWhitespace(r) && NoAsciiUpper(r)
    ensures Prepared(r) == r
  {
    assert r != [] ==> !IsWhitespace(r[0]) && !IsWhitespace(r[|r| - 1]);
  }

  /** Text without whitespace or upper-case letters, starting with a
      character outside `[a-zA-Z\d\s]`, passes through every step unchanged. */
  lemma ReplacedFixed(r: string)
    requires r != [] && NoWhitespace(r) && NoAsciiUpper(r) && !InLeadingClass(r[0])
    ensures Replaced(r) == r
  {
    PreparedFixed(r);
  }

  /** Text without whitespace or upper-case letters, starting with a
      character outside `[a-zA-Z\d\s]`, is a value `slugTransform` keeps. */
  lemma FixedPointOf(x: string)
    requires x != [] && NoWhitespace(x) && NoAsciiUpper(x) && !InLeadingClass(x[0])
    ensures IsFixedPoint(x)
  {
    SlugOfNonEmpty(x);
    ReplacedFixed(x);
  }

  /** Applying the transform a second time changes nothing. */
  lemma SlugIdempotent(v: Value)
    ensures IsFixedPoint(SlugTransform(v))
  {
    var r := SlugTransform(v);
    if r != "" {
      SlugNoWhitespace(v);
      SlugNoUpper(v);
      SlugFirstChar(v);
      FixedPointOf(r);
    }
  }

  /** Lower-casing keeps the length of the leading `[a-zA-Z\d\s]` run. */
  lemma LowerKeepsRunLength(t: string, k: nat)
    requires k <= |t|
    requires forall i :: 0 <= i < k ==> InLeadingClass(t[i])
    requires k < |t| ==> !InLeadingClass(t[k])
    ensures LeadingRunLength(ToLower(t)) == k
  {
  }

  /** Shape of the result in terms of the maximal leading run of
      `[a-zA-Z\d\s]` in the trimmed input, of length k: with k > 0 that run is
      replaced by a single hyphen; the rest is lower-cased, with each
      whitespace character turned into a hyphen. */
  lemma SlugOfLeadingRun(s: string, k: nat)
    requires k <= |Trim(s)|
    requires forall i :: 0 <= i < k ==> InLeadingClass(Trim(s)[i])
    requires k < |Trim(s)| ==> !InLeadingClass(Trim(s)[k])
    ensures k > 0 ==> SlugTransform(Str(s)) == "-" + ReplaceWhitespace(ToLower(Trim(s)[k..]))
    ensures k == 0 ==> SlugTransform(Str(s)) == ReplaceWhitespace(ToLower(Trim(s)))
  {
    var t := Trim(s);
    if s == "" {
      assert t == "";
    } else {
      SlugOfPrepared(s);
      LowerKeepsRunLength(t, k);
      if k > 0 {
        ToLowerSuffix(t, k);
        WhitespaceAfterHyphen(ToLower(t)[k..]);
      }
    }
  }

  /** For a non-empty string the slug is the two replacements applied to the
      trimmed, lower-cased text. */
  lemma SlugOfPrepared(s: string)
    requires s != ""
    ensures SlugTransform(Str(s)) == ReplaceWhitespace(ReplaceLeadingRun(ToLower(Trim(s))))
  {
  }

  lemma ToLowerSuffix(t: string, k: nat)
    requires k <= |t|
    ensures ToLower(t)[k..] == ToLower(t[k..])
  {
  }

  /** A leading hyphen is kept by the whitespace replacement. */
  lemma WhitespaceAfterHyphen(s: string)
    ensures ReplaceWhitespace("-" + s) == "-" + ReplaceWhitespace(s)
  {
    assert ("-" + s)[1..] == s;
  }

  /** A title made only of letters, digits and whitespace, with at least one
      non-whitespace character, collapses to the single slug "-". */
  lemma PlainTitleCollapses(s: string)
    requires forall i :: 0 <= i < |s| ==> InLeadingClass(s[i])
    requires !AllWhitespace(s)
    ensures SlugTransform(Str(s)) == "-"
  {
    var t := Trim(s);
    TrimmedInClass(s);
    SlugOfLeadingRun(s, |t|);
    WholeRunCollapses(t);
  }

  /** Every character of the trimmed text is one of the characters of s. */
  lemma TrimmedInClass(s: string)
    requires forall i :: 0 <= i < |s| ==> InLeadingClass(s[i])
    ensures forall i :: 0 <= i < |Trim(s)| ==> InLeadingClass(Trim(s)[i])
  {
    var t := Trim(s);
    TrimIsInfix(s);
    forall i | 0 <= i < |t| ensures InLeadingClass(t[i]) {
      assert t[i] == s[LeadingWhitespace(s) + i];
    }
  }

  // Proof scaffolding for PlainTitleCollapses: nothing is left after the
  // run that covers the whole text.
  lemma WholeRunCollapses(t: string)
    ensures "-" + ReplaceWhitespace(ToLower(t[|t|..])) == "-"
  {
    assert t[|t|..] == [];
  }
}
