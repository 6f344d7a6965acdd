/** JavaScript string operations used by the post form's slug derivation:
    the `\s` character class (which is also the set `String.prototype.trim`
    removes), ASCII `toLowerCase`, and the two regular-expression replacements
    `replace(/^[a-zA-Z\d\s]+/g, '-')` and `replace(/\s/g, '-')`. */
module JsText {

  /** ECMAScript WhiteSpace and LineTerminator code points: what `\s` matches
      and what `trim` strips. */
  predicate IsWhitespace(c: char) {
    if c <= ' ' then c == ' ' || '\t' <= c <= '\r'
    else if c < '\U{00A0}' then false
    else
      c == '\U{00A0}' || c == '\U{1680}' || '\U{2000}' <= c <= '\U{200A}' ||
      c == '\U{2028}' || c == '\U{2029}' || c == '\U{202F}' || c == '\U{205F}' ||
      c == '\U{3000}' || c == '\U{FEFF}'
  }

  predicate IsAsciiUpper(c: char) { 'A' <= c <= 'Z' }
  predicate IsAsciiLower(c: char) { 'a' <= c <= 'z' }
  predicate IsAsciiDigit(c: char) { '0' <= c <= '9' }
  predicate IsAsciiLetter(c: char) { IsAsciiUpper(c) || IsAsciiLower(c) }

  /** The regular-expression class `[a-zA-Z\d\s]`. */
  predicate InLeadingClass(c: char) {
    IsAsciiLetter(c) || IsAsciiDigit(c) || IsWhitespace(c)
  }

  predicate NoWhitespace(s: string) {
    forall i :: 0 <= i < |s| ==> !IsWhitespace(s[i])
  }

  predicate NoAsciiUpper(s: string) {
    forall i :: 0 <= i < |s| ==> !IsAsciiUpper(s[i])
  }

  predicate AllWhitespace(s: string) {
    forall i :: 0 <= i < |s| ==> IsWhitespace(s[i])
  }

  /** Lower-casing of one character, over the ASCII letters. */
  function LowerChar(c: char): (r: char)
    ensures !IsAsciiUpper(r)
    ensures IsAsciiUpper(c) ==> IsAsciiLower(r) && r as int - c as int == 'a' as int - 'A' as int
    ensures !IsAsciiUpper(c) ==> r == c
    ensures r != c ==> IsAsciiUpper(c) && IsAsciiLower(r)
  {
    if IsAsciiUpper(c) then (c as int - 'A' as int + 'a' as int) as char else c
  }

  /** Number of whitespace characters `s` starts with. */
  function LeadingWhitespace(s: string): (k: nat)
    ensures k <= |s|
    ensures forall i :: 0 <= i < k ==> IsWhitespace(s[i])
    ensures k < |s| ==> !IsWhitespace(s[k])
  {
    if s != [] && IsWhitespace(s[0]) then 1 + LeadingWhitespace(s[1..]) else 0
  }

  /** Number of whitespace characters `s` ends with. */
  function TrailingWhitespace(s: string): (k: nat)
    ensures k <= |s|
    ensures forall i :: |s| - k <= i < |s| ==> IsWhitespace(s[i])
    ensures k < |s| ==> !IsWhitespace(s[|s| - 1 - k])
  {
    if s != [] && IsWhitespace(s[|s| - 1]) then 1 + TrailingWhitespace(s[..|s| - 1]) else 0
  }

  /** Drops the leading whitespace: the result is the suffix of `s` that
      starts at its first non-whitespace character. */
  function TrimStart(s: string): (r: string)
    ensures |r| <= |s|
    ensures r != [] ==> !IsWhitespace(r[0])
    ensures r == [] <==> AllWhitespace(s)
    ensures s == [] || !IsWhitespace(s[0]) ==> r == s
    ensures AllWhitespace(s[..|s| - |r|])
  {
    s[LeadingWhitespace(s)..]
  }

  /** What `TrimStart` keeps is the input with exactly that whitespace prefix
      cut off. */
  lemma TrimStartIsSuffix(s: string)
    ensures TrimStart(s) == s[|s| - |TrimStart(s)|..]
  {
  }

  /** Drops the trailing whitespace: the result is the prefix of `s` that
      ends at its last non-whitespace character. */
  function TrimEnd(s: string): (r: string)
    ensures |r| <= |s|
    ensures forall i {:trigger r[i]} :: 0 <= i < |r| ==> r[i] == s[i]
    ensures r != [] ==> !IsWhitespace(r[|r| - 1])
    ensures r == [] <==> AllWhitespace(s)
    ensures s == [] || !IsWhitespace(s[|s| - 1]) ==> r == s
    ensures AllWhitespace(s[|r|..])
  {
    s[..|s| - TrailingWhitespace(s)]
  }

  /** `String.prototype.trim`: the result is the part of `s` between its
      leading and trailing whitespace. */
  function Trim(s: string): (r: string)
    ensures |r| <= |s|
    ensures r != [] ==> !IsWhitespace(r[0]) && !IsWhitespace(r[|r| - 1])
    ensures r == [] <==> AllWhitespace(s)
    ensures (s == [] || (!IsWhitespace(s[0]) && !IsWhitespace(s[|s| - 1]))) ==> r == s
  {
    var start := TrimStart(s);
    var r := TrimEnd(start);
    assert r != [] ==> r[0] == start[0];
    r
  }

  /** The trimmed text is the run of `s` that starts at the trim offset, and
      what `trim` removes on either side of it is whitespace only. */
  lemma TrimIsInfix(s: string)
    ensures LeadingWhitespace(s) + |Trim(s)| <= |s|
    ensures forall i :: 0 <= i < |Trim(s)| ==> Trim(s)[i] == s[LeadingWhitespace(s) + i]
    ensures AllWhitespace(s[..LeadingWhitespace(s)])
    ensures AllWhitespace(s[LeadingWhitespace(s) + |Trim(s)|..])
  {
    var k := LeadingWhitespace(s);
    var t := TrimStart(s);
    var r := Trim(s);
    assert r == TrimEnd(t);
    forall i | 0 <= i < |r|
      ensures r[i] == s[k + i]
    {
      assert r[i] == t[i];
      assert t[i] == s[k..][i];
    }
  }

  /** `String.prototype.toLowerCase`, over the ASCII letters. */
  function ToLower(s: string): (r: string)
    ensures |r| == |s|
    ensures forall i {:trigger r[i]} :: 0 <= i < |s| ==> r[i] == LowerChar(s[i])
    ensures NoAsciiUpper(s) ==> r == s
  {
    if s == [] then [] else [LowerChar(s[0])] + ToLower(s[1..])
  }

  /** Length of the longest prefix of `s` matching `[a-zA-Z\d\s]*`. */
  function LeadingRunLength(s: string): (k: nat)
    ensures k <= |s|
    ensures forall i :: 0 <= i < k ==> InLeadingClass(s[i])
    ensures k < |s| ==> !InLeadingClass(s[k])
  {
    if s != [] && InLeadingClass(s[0]) then 1 + LeadingRunLength(s[1..]) else 0
  }

  /** `s.replace(/^[a-zA-Z\d\s]+/g, '-')`: the anchor lets the pattern match
      at most once, at the start, and the match is the maximal run. */
  function ReplaceLeadingRun(s: string): (r: string)
    ensures |r| <= |s|
    ensures r == [] <==> s == []
    ensures r != [] ==> !InLeadingClass(r[0])
    ensures NoAsciiUpper(s) ==> NoAsciiUpper(r)
    ensures s != [] && !InLeadingClass(s[0]) ==> r == s
  {
    var k := LeadingRunLength(s);
    if k == 0 then s else "-" + s[k..]
  }

  /** When `s` starts inside the class, the maximal leading run, of length
      k, is replaced by one hyphen and the rest of `s` follows unchanged. */
  lemma ReplaceLeadingRunShape(s: string)
    requires s != [] && InLeadingClass(s[0])
    ensures var r := ReplaceLeadingRun(s); var k := |s| - |r| + 1;
      r[0] == '-' && 0 < k <= |s| &&
      (forall i :: 0 <= i < k ==> InLeadingClass(s[i])) &&
      (k < |s| ==> !InLeadingClass(s[k])) &&
      forall i :: 0 < i < |r| ==> r[i] == s[k - 1 + i]
  {
    var k := LeadingRunLength(s);
    var r := ReplaceLeadingRun(s);
    assert r == "-" + s[k..];
    forall i | 0 < i < |r|
      ensures r[i] == s[k + i - 1]
    {
      assert r[i] == s[k..][i - 1];
    }
  }

  /** `s.replace(/\s/g, '-')`: every whitespace character, one at a time,
      becomes a hyphen. */
  function ReplaceWhitespace(s: string): (r: string)
    ensures |r| == |s|
    ensures forall i {:trigger r[i]} :: 0 <= i < |s| ==> r[i] == if IsWhitespace(s[i]) then '-' else s[i]
    ensures NoWhitespace(s) ==> r == s
  {
    if s == [] then [] else [if IsWhitespace(s[0]) then '-' else s[0]] + ReplaceWhitespace(s[1..])
  }

  /** No whitespace is left after the whitespace replacement. */
  lemma ReplaceWhitespaceLeavesNone(s: string)
    ensures NoWhitespace(ReplaceWhitespace(s))
  {
    var r := ReplaceWhitespace(s);
    forall i | 0 <= i < |r|
      ensures !IsWhitespace(r[i])
    {
      assert r[i] == if IsWhitespace(s[i]) then '-' else s[i];
    }
  }
}
