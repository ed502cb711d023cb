/**
  The string trimming the chat client applies to the name field and to the
  message box before it decides whether there is anything to send.
  JavaScript's `String.prototype.trim` removes every leading and trailing
  code point that ECMAScript classifies as WhiteSpace or LineTerminator.
 */
module Text {

  /** ECMAScript WhiteSpace (TAB, VT, FF, SP, NBSP, ZWNBSP and the Unicode
      space separators) together with LineTerminator (LF, CR, LS, PS). */
  predicate IsWhitespace(c: char) {
    var u := c as int;
    || u == 0x09 || u == 0x0A || u == 0x0B || u == 0x0C || u == 0x0D
    || u == 0x20 || u == 0xA0 || u == 0x1680
    || (0x2000 <= u <= 0x200A)
    || u == 0x2028 || u == 0x2029 || u == 0x202F || u == 0x205F
    || u == 0x3000 || u == 0xFEFF
  }

  /** Every character of `s` from index `lo` up to (not including) `hi` is whitespace. */
  predicate WhitespaceBetween(s: string, lo: int, hi: int)
    requires 0 <= lo <= hi <= |s|
  {
    forall k :: lo <= k < hi ==> IsWhitespace(s[k])
  }

  /** A string that is empty or made of whitespace only: what the client
      calls blank, since the empty string is falsy in JavaScript. */
  predicate AllWhitespace(s: string) {
    WhitespaceBetween(s, 0, |s|)
  }

  /** `r` sits at offset `i` of `s`, and everything around it is whitespace. */
  predicate StripsTo(s: string, i: int, r: string) {
    && 0 <= i && i + |r| <= |s|
    && s[i..i + |r|] == r
    && WhitespaceBetween(s, 0, i)
    && WhitespaceBetween(s, i + |r|, |s|)
  }

  /** Neither end of `r` is whitespace. */
  predicate TightEnds(r: string) {
    r != [] ==> !IsWhitespace(r[0]) && !IsWhitespace(r[|r| - 1])
  }

  /** Scans forward from `i` past whitespace: the index of the first
      non-whitespace character at or after `i`, or `|s|` if there is none. */
  function SkipForward(s: string, i: nat): (j: nat)
    requires i <= |s|
    ensures i <= j <= |s|
    ensures WhitespaceBetween(s, i, j)
    ensures j < |s| ==> !IsWhitespace(s[j])
    decreases |s| - i
  {
    if i < |s| && IsWhitespace(s[i]) then SkipForward(s, i + 1) else i
  }

  /** Scans backward from `j` past whitespace, not below `lo`: the index just
      after the last non-whitespace character in `s[lo..j]`, or `lo`. */
  function SkipBackward(s: string, lo: nat, j: nat): (i: nat)
    requires lo <= j <= |s|
    ensures lo <= i <= j
    ensures WhitespaceBetween(s, i, j)
    ensures lo < i ==> !IsWhitespace(s[i - 1])
    decreases j
  {
    if lo < j && IsWhitespace(s[j - 1]) then SkipBackward(s, lo, j - 1) else j
  }

  /** `String.prototype.trim`: the whitespace-free core of `s`. It is empty
      exactly when `s` is blank, and otherwise it is the infix of `s` whose
      ends are not whitespace and around which there is only whitespace. */
  function Trim(s: string): (r: string)
    ensures r == [] <==> AllWhitespace(s)
    ensures TightEnds(r)
    ensures exists i :: StripsTo(s, i, r)
  {
    var a := SkipForward(s, 0);
    var b := SkipBackward(s, a, |s|);
    assert StripsTo(s, a, s[a..b]);
    s[a..b]
  }

  /** There is only one way to strip whitespace from both ends of a string
      down to a core with tight ends, and `Trim` finds it. */
  lemma TrimIsUnique(s: string, i: int, r: string)
    requires StripsTo(s, i, r)
    requires TightEnds(r)
    ensures Trim(s) == r
  {
    // Whitespace-only prefix and suffix around tight ends pin down where
    // the first and the last non-whitespace characters are; the contracts
    // of SkipForward and SkipBackward say the same of their results.
  }

  /** Trimming a trimmed string changes nothing. */
  lemma TrimIdempotent(s: string)
    ensures Trim(Trim(s)) == Trim(s)
  {
    var r := Trim(s);
    assert r[0..0 + |r|] == r;
    TrimIsUnique(r, 0, r);
  }
}
