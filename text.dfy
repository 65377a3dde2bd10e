/**
 * String primitives the source uses: `toLowerCase`, `trim`, `\s` and
 * `includes`, over the ASCII character class.
 */
module Text {

  /** The ASCII members of the JavaScript whitespace class `\s`. */
  predicate IsWhitespace(c: char) {
    c == ' ' || c == '\t' || c == '\n' || c == '\r' || c == '\U{B}' || c == '\U{C}'
  }

  predicate IsUpper(c: char) {
    'A' <= c <= 'Z'
  }

  function LowerChar(c: char): (r: char)
    ensures !IsUpper(r)
    ensures IsUpper(c) ==> r as int == c as int + 32
    ensures !IsUpper(c) ==> r == c
  {
    if IsUpper(c) then (c as int + 32) as char else c
  }

  /** `s.toLowerCase()` on ASCII letters. */
  function ToLower(s: string): (r: string)
    ensures |r| == |s|
    ensures forall i :: 0 <= i < |s| ==> r[i] == LowerChar(s[i])
  {
    if s == [] then [] else [LowerChar(s[0])] + ToLower(s[1..])
  }

  predicate IsLower(s: string) {
    forall i :: 0 <= i < |s| ==> !IsUpper(s[i])
  }

  predicate HasNoWhitespace(s: string) {
    forall i :: 0 <= i < |s| ==> !IsWhitespace(s[i])
  }

  /** Neither end of `s` is whitespace. */
  predicate IsTrimmed(s: string) {
    s == [] || (!IsWhitespace(s[0]) && !IsWhitespace(s[|s| - 1]))
  }

  /** The number of whitespace characters at the front of `s`. */
  function LeadingWhitespace(s: string): (n: nat)
    ensures n <= |s|
    ensures n == |s| || !IsWhitespace(s[n])
  {
    if s != [] && IsWhitespace(s[0]) then 1 + LeadingWhitespace(s[1..]) else 0
  }

  lemma {:induction false} LeadingAllWhitespace(s: string)
    ensures forall k :: 0 <= k < LeadingWhitespace(s) ==> IsWhitespace(s[k])
  {
    if s != [] && IsWhitespace(s[0]) {
      LeadingAllWhitespace(s[1..]);
      assert forall k :: 1 <= k < LeadingWhitespace(s) ==> s[k] == s[1..][k - 1];
    }
  }

  /** The length of `s` once the whitespace at its end is cut off. */
  function TrailingCut(s: string): (n: nat)
    ensures n <= |s|
    ensures n == 0 || !IsWhitespace(s[n - 1])
  {
    if s != [] && IsWhitespace(s[|s| - 1]) then TrailingCut(s[..|s| - 1]) else |s|
  }

  lemma {:induction false} TrailingAllWhitespace(s: string)
    ensures forall k :: TrailingCut(s) <= k < |s| ==> IsWhitespace(s[k])
  {
    if s != [] && IsWhitespace(s[|s| - 1]) {
      TrailingAllWhitespace(s[..|s| - 1]);
      assert forall k :: TrailingCut(s) <= k < |s| - 1 ==> s[k] == s[..|s| - 1][k];
    }
  }

  /** Where the trimmed piece of `s` starts. */
  function TrimStart(s: string): (i: nat)
    ensures i <= |s|
  {
    LeadingWhitespace(s)
  }

  /** Where the trimmed piece of `s` ends. */
  function TrimEnd(s: string): (j: nat)
    ensures TrimStart(s) <= j <= |s|
  {
    var i := LeadingWhitespace(s);
    i + TrailingCut(s[i..])
  }

  /**
   * `s.trim()`: the piece of `s` between its leading and its trailing
   * whitespace, which neither starts nor ends with whitespace.
   */
  function Trim(s: string): (r: string)
    ensures r == s[TrimStart(s)..TrimEnd(s)]
    ensures IsTrimmed(r)
  {
    var i := LeadingWhitespace(s);
    var t := s[i..];
    var n := TrailingCut(t);
    assert n > 0 ==> s[i] == t[0];
    s[i..i + n]
  }

  /**
   * Everything `trim` cuts off on either side is whitespace, so the result
   * is empty exactly when all of `s` is whitespace.
   */
  lemma TrimCutsWhitespace(s: string)
    ensures forall k :: 0 <= k < TrimStart(s) ==> IsWhitespace(s[k])
    ensures forall k :: TrimEnd(s) <= k < |s| ==> IsWhitespace(s[k])
    ensures Trim(s) == [] <==> forall k :: 0 <= k < |s| ==> IsWhitespace(s[k])
  {
    var i := LeadingWhitespace(s);
    var t := s[i..];
    LeadingAllWhitespace(s);
    TrailingAllWhitespace(t);
    assert forall k :: TrimEnd(s) <= k < |s| ==> s[k] == t[k - i];
  }

  /** The `toLowerCase().trim()` key normalization of the registry and the synonym cache. */
  function Normalize(s: string): (r: string)
    ensures |r| <= |s|
  {
    Trim(ToLower(s))
  }

  /** `s.includes(sub)`. */
  predicate Contains(s: string, sub: string)
    decreases |s|
  {
    sub <= s || (s != [] && Contains(s[1..], sub))
  }

  lemma {:induction false} ToLowerOfLower(s: string)
    requires IsLower(s)
    ensures ToLower(s) == s
  {
    if s != [] {
      ToLowerOfLower(s[1..]);
    }
  }

  lemma TrimOfTrimmed(s: string)
    requires IsTrimmed(s)
    ensures Trim(s) == s
  {
  }

  lemma LowerSlice(s: string, i: int, j: int)
    requires IsLower(s) && 0 <= i <= j <= |s|
    ensures IsLower(s[i..j])
  {
  }

  /** A normalized string is lowercase, trimmed, and a fixed point of normalization. */
  lemma NormalizeIsNormal(s: string)
    ensures IsLower(Normalize(s)) && IsTrimmed(Normalize(s))
    ensures Normalize(Normalize(s)) == Normalize(s)
  {
    var n := Normalize(s);
    var l := ToLower(s);
    LowerSlice(l, TrimStart(l), TrimEnd(l));
    assert IsLower(n);
    ToLowerOfLower(n);
    TrimOfTrimmed(n);
  }
}
