/** Concrete values of the post form's `slugTransform`, worked out step by
    step from the definitions. */
module SlugExamples {
  import opened JsText
  import opened Slug

  /** The literal behaviour of the anchored pattern: the whole of
      "My First Post" is one leading run, so only the "!" survives. */
  lemma SlugOfMyFirstPost()
    ensures SlugTransform(Str("  My First Post!  ")) == "-!"
  {
    TrimOfMyFirstPost();
    RunOfMyFirstPost();
    SlugOfLeadingRun("  My First Post!  ", 13);
    HyphenThenBang(SlugTransform(Str("  My First Post!  ")));
  }

  lemma TrimStartOfMyFirstPost()
    ensures TrimStart("  My First Post!  ") == "My First Post!  "
  {
    assert LeadingWhitespace("  My First Post!  ") == 2;
  }

  lemma TrimEndOfMyFirstPost()
    ensures TrimEnd("My First Post!  ") == "My First Post!"
  {
    var s := "My First Post!  ";
    assert IsWhitespace(s[15]) && IsWhitespace(s[14]) && !IsWhitespace(s[13]);
    assert TrailingWhitespace(s[..14]) == 0;
    assert TrailingWhitespace(s[..15]) == 1;
    assert TrailingWhitespace(s) == 2;
  }

  lemma TrimOfMyFirstPost()
    ensures Trim("  My First Post!  ") == "My First Post!"
  {
    TrimStartOfMyFirstPost();
    TrimEndOfMyFirstPost();
  }

  lemma RunOfMyFirstPost()
    ensures forall i :: 0 <= i < 13 ==> InLeadingClass("My First Post!"[i])
    ensures !InLeadingClass("My First Post!"[13])
    ensures "My First Post!"[13..] == "!"
  {
  }

  lemma LowerOfBang()
    ensures ReplaceWhitespace(ToLower("!")) == "!"
  {
  }

  /** Whitespace is replaced one character at a time, not one run at a time. */
  lemma SlugOfCommaTitle()
    ensures SlugTransform(Str("a, b  c")) == "-,-b--c"
  {
    TrimOfCommaTitle();
    RunOfCommaTitle();
    SlugOfLeadingRun("a, b  c", 1);
    HyphenThenCommaRest(SlugTransform(Str("a, b  c")));
  }

  lemma TrimOfCommaTitle()
    ensures Trim("a, b  c") == "a, b  c"
  {
  }

  lemma RunOfCommaTitle()
    ensures InLeadingClass("a, b  c"[0])
    ensures !InLeadingClass("a, b  c"[1])
    ensures "a, b  c"[1..] == ", b  c"
  {
  }

  lemma RestOfCommaTitle()
    ensures ReplaceWhitespace(ToLower(", b  c")) == ",-b--c"
  {
    LowerOfCommaRest();
    WhitespaceOfCommaRest();
  }

  lemma LowerOfCommaRest()
    ensures ToLower(", b  c") == ", b  c"
  {
  }

  lemma WhitespaceOfCommaRest()
    ensures ReplaceWhitespace(", b  c") == ",-b--c"
  {
  }

  // Proof scaffolding: single steps about literal strings, kept as separate
  // lemmas so that each goal the solver sees stays small.

  lemma HyphenThenBang(x: string)
    requires x == "-" + ReplaceWhitespace(ToLower("!"))
    ensures x == "-!"
  {
    LowerOfBang();
  }

  lemma HyphenThenCommaRest(x: string)
    requires x == "-" + ReplaceWhitespace(ToLower(", b  c"))
    ensures x == "-,-b--c"
  {
    RestOfCommaTitle();
    HyphenThenCommaLiteral();
  }

  lemma HyphenThenCommaLiteral()
    ensures "-" + ",-b--c" == "-,-b--c"
  {
  }
}
