/** The string normalisations the source applies to referral codes and guesses:
    `String.prototype.trim` and `String.prototype.toUpperCase`, and the
    case-insensitive comparison the profile store performs. */
module Text {

  /** ECMAScript's WhiteSpace and LineTerminator code points, the set `trim` strips. */
  predicate IsSpace(c: char) {
    var n := c as int;
    n == 0x09 || n == 0x0A || n == 0x0B || n == 0x0C || n == 0x0D || n == 0x20
    || n == 0xA0 || n == 0x1680 || (0x2000 <= n <= 0x200A) || n == 0x2028
    || n == 0x2029 || n == 0x202F || n == 0x205F || n == 0x3000 || n == 0xFEFF
  }

  predicate IsLower(c: char) {
    'a' <= c <= 'z'
  }

  /** Upper-case mapping of one character (ASCII letters only). */
  function UpperChar(c: char): (u: char)
    ensures !IsLower(u)
    ensures IsSpace(u) <==> IsSpace(c)
    ensures IsLower(c) ==> u as int == c as int - 32
    ensures !IsLower(c) ==> u == c
  {
    if IsLower(c) then (c as int - 32) as char else c
  }

  /** The end of the run of white space that starts at index `i`. */
  function SpaceRunEnd(s: string, i: nat): (n: nat)
    requires i <= |s|
    ensures i <= n <= |s|
    ensures forall k :: i <= k < n ==> IsSpace(s[k])
    ensures n < |s| ==> !IsSpace(s[n])
    decreases |s| - i
  {
    if i == |s| || !IsSpace(s[i]) then i else SpaceRunEnd(s, i + 1)
  }

  /** The start of the run of white space that ends just before index `j`. */
  function SpaceRunStart(s: string, j: nat): (n: nat)
    requires j <= |s|
    ensures n <= j
    ensures forall k :: n <= k < j ==> IsSpace(s[k])
    ensures 0 < n ==> !IsSpace(s[n - 1])
  {
    if j == 0 || !IsSpace(s[j - 1]) then j else SpaceRunStart(s, j - 1)
  }

  /** Number of white-space characters at the front of `s`. */
  function LeadingSpaces(s: string): (n: nat)
    ensures n <= |s|
    ensures forall k :: 0 <= k < n ==> IsSpace(s[k])
    ensures n < |s| ==> !IsSpace(s[n])
  {
    SpaceRunEnd(s, 0)
  }

  /** Number of white-space characters at the end of `s`. */
  function TrailingSpaces(s: string): (n: nat)
    ensures n <= |s|
    ensures forall k :: |s| - n <= k < |s| ==> IsSpace(s[k])
    ensures n < |s| ==> !IsSpace(s[|s| - n - 1])
  {
    |s| - SpaceRunStart(s, |s|)
  }

  /** True when `s` holds only white space (and `trim` leaves nothing). */
  predicate IsBlank(s: string) {
    forall k :: 0 <= k < |s| ==> IsSpace(s[k])
  }

  /** `s.trim()`: the longest infix that neither starts nor ends with white space. */
  function Trim(s: string): (r: string)
    ensures IsBlank(s) <==> r == []
    ensures r != [] ==> !IsSpace(r[0]) && !IsSpace(r[|r| - 1])
    ensures r != [] ==>
              (LeadingSpaces(s) <= |s| - TrailingSpaces(s)
               && r == s[LeadingSpaces(s)..|s| - TrailingSpaces(s)])
  {
    var lead := LeadingSpaces(s);
    if lead == |s| then
      []
    else
      var trail := TrailingSpaces(s);
      assert !IsSpace(s[lead]);
      s[lead..|s| - trail]
  }

  /** `s.toUpperCase()`, letter for letter. */
  function Upper(s: string): (r: string)
    ensures |r| == |s|
    ensures forall k :: 0 <= k < |r| ==> r[k] == UpperChar(s[k])
  {
    seq(|s|, k requires 0 <= k < |s| => UpperChar(s[k]))
  }

  /** The trim-then-upper-case normalisation applied to referral codes: never
      longer than the raw code, empty exactly for a blank code, with no lower-case
      letter and no white space at either end. */
  function NormalizeCode(code: string): (r: string)
    ensures |r| <= |code|
    ensures r == [] <==> IsBlank(code)
    ensures forall k :: 0 <= k < |r| ==> !IsLower(r[k])
    ensures r != [] ==> !IsSpace(r[0]) && !IsSpace(r[|r| - 1])
  {
    Upper(Trim(code))
  }

  /** Case-insensitive equality, as the store's case-insensitive match compares. */
  predicate SameIgnoringCase(a: string, b: string) {
    |a| == |b| && forall k :: 0 <= k < |a| ==> UpperChar(a[k]) == UpperChar(b[k])
  }

  /** Upper-casing is idempotent: a normalised code normalises to itself. */
  lemma UpperIdempotent(s: string)
    ensures Upper(Upper(s)) == Upper(s)
  {
  }

  /** Comparing case-insensitively is the same as comparing upper-cased forms. */
  lemma SameIgnoringCaseIffUpperEqual(a: string, b: string)
    ensures SameIgnoringCase(a, b) <==> Upper(a) == Upper(b)
  {
    if Upper(a) == Upper(b) {
      assert |a| == |Upper(a)| == |Upper(b)| == |b|;
      forall k | 0 <= k < |a|
        ensures UpperChar(a[k]) == UpperChar(b[k])
      {
        assert Upper(a)[k] == Upper(b)[k];
      }
    }
  }

  /** Trimming twice trims nothing more. */
  lemma TrimIdempotent(s: string)
    ensures Trim(Trim(s)) == Trim(s)
  {
    var t := Trim(s);
    if t != [] {
      assert LeadingSpaces(t) == 0;
      assert TrailingSpaces(t) == 0;
    }
  }

  /** Upper-casing maps white space to white space, so it commutes with trimming:
      `toUpperCase().trim()` and `trim().toUpperCase()` agree. */
  lemma {:induction false} TrimUpperCommute(s: string)
    ensures Trim(Upper(s)) == Upper(Trim(s))
  {
    LeadingSpacesUpper(s);
    if LeadingSpaces(s) < |s| {
      TrimUpperNonBlank(s);
    }
  }

  /** The non-blank case: both sides are the same slice of the upper-cased text. */
  lemma TrimUpperNonBlank(s: string)
    requires LeadingSpaces(s) < |s|
    ensures Trim(Upper(s)) == Upper(Trim(s))
  {
    LeadingSpacesUpper(s);
    TrailingSpacesUpper(s);
    TrimSlice(s);
    TrimSlice(Upper(s));
    UpperSlice(s, LeadingSpaces(s), |s| - TrailingSpaces(s));
  }

  /** A non-blank string trims to the text between its white-space runs. */
  lemma TrimSlice(s: string)
    requires LeadingSpaces(s) < |s|
    ensures LeadingSpaces(s) <= |s| - TrailingSpaces(s)
    ensures Trim(s) == s[LeadingSpaces(s)..|s| - TrailingSpaces(s)]
  {
    assert !IsSpace(s[LeadingSpaces(s)]);
  }

  lemma UpperSlice(s: string, a: nat, b: nat)
    requires a <= b <= |s|
    ensures Upper(s)[a..b] == Upper(s[a..b])
  {
  }

  lemma {:induction false} LeadingSpacesUpper(s: string)
    ensures LeadingSpaces(Upper(s)) == LeadingSpaces(s)
  {
  }

  lemma {:induction false} TrailingSpacesUpper(s: string)
    ensures TrailingSpaces(Upper(s)) == TrailingSpaces(s)
  {
  }

  /** A normalised code is empty exactly when the raw code was blank. */
  lemma NormalizeCodeEmptyIffBlank(code: string)
    ensures NormalizeCode(code) == [] <==> IsBlank(code)
  {
  }
}
