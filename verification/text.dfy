/** The string normalisation used when event ids are compared:
    JavaScript's `trim()` followed by `toLowerCase()`. */
module Text {

  /** The code points `String.prototype.trim` strips: the ECMAScript
      WhiteSpace set (TAB, VT, FF, SPACE, NO-BREAK SPACE, ZERO WIDTH NO-BREAK
      SPACE and every other Unicode "Zs" character) and the LineTerminator set
      (LF, CR, LINE SEPARATOR, PARAGRAPH SEPARATOR). */
  predicate IsSpace(c: char) {
    var n := c as int;
    || (0x09 <= n <= 0x0D) || n == 0x20 || n == 0xA0 || n == 0x1680
    || (0x2000 <= n <= 0x200A) || n == 0x2028 || n == 0x2029 || n == 0x202F
    || n == 0x205F || n == 0x3000 || n == 0xFEFF
  }

  /** Every character of `s` from position `lo` up to `hi` satisfies `sp`. */
  predicate SpaceBetween(s: string, lo: int, hi: int, sp: char -> bool) {
    forall i :: lo <= i < hi && 0 <= i < |s| ==> sp(s[i])
  }

  /** Neither end of `s` is a space character: what `trim()` leaves. */
  predicate Trimmed(s: string) {
    |s| == 0 || (!IsSpace(s[0]) && !IsSpace(s[|s| - 1]))
  }

  /** Skips the characters satisfying `sp` from position `i` on: the result
      is the first position at or after `i` holding a character outside `sp`,
      or `|s|` when there is none. */
  function SkipForward(s: string, i: nat, sp: char -> bool): (k: nat)
    requires i <= |s|
    ensures i <= k <= |s|
    ensures k == |s| || !sp(s[k])
    ensures SpaceBetween(s, i, k, sp)
    decreases |s| - i
  {
    if i < |s| && sp(s[i]) then SkipForward(s, i + 1, sp) else i
  }

  /** Skips the characters satisfying `sp` backwards from position `j`, not
      going below `lo`: the result is the last end position at or above `lo`
      whose preceding character is outside `sp`, or `lo` when there is none. */
  function SkipBackward(s: string, lo: nat, j: nat, sp: char -> bool): (k: nat)
    requires lo <= j <= |s|
    ensures lo <= k <= j
    ensures k == lo || !sp(s[k - 1])
    ensures SpaceBetween(s, k, j, sp)
    decreases j
  {
    if lo < j && sp(s[j - 1]) then SkipBackward(s, lo, j - 1, sp) else j
  }

  /** Where the trimmed string starts in `s`. */
  function TrimStartIndex(s: string): (a: nat)
    ensures a <= |s|
  {
    SkipForward(s, 0, IsSpace)
  }

  /** Where the trimmed string ends in `s`. */
  function TrimEndIndex(s: string): (b: nat)
    ensures TrimStartIndex(s) <= b <= |s|
  {
    SkipBackward(s, TrimStartIndex(s), |s|, IsSpace)
  }

  /** JavaScript `s.trim()`: neither end of the result is a space, and a
      string that is already trimmed comes back unchanged. */
  function Trim(s: string): (r: string)
    ensures Trimmed(r)
    ensures |r| <= |s|
    ensures Trimmed(s) ==> r == s
  {
    s[TrimStartIndex(s)..TrimEndIndex(s)]
  }

  /** What `trim()` removes is space and nothing else: `s` is the trimmed
      string with a run of space characters on either side. */
  lemma TrimRemovesOnlySpace(s: string)
    ensures Trim(s) == s[TrimStartIndex(s)..TrimEndIndex(s)]
    ensures SpaceBetween(s, 0, TrimStartIndex(s), IsSpace)
    ensures SpaceBetween(s, TrimEndIndex(s), |s|, IsSpace)
  {
  }

  predicate IsUpper(c: char) {
    'A' <= c <= 'Z'
  }

  /** `toLowerCase()` on a single character (letters A to Z only). */
  function LowerChar(c: char): (d: char)
    ensures !IsUpper(d)
    ensures IsUpper(c) ==> d as int == c as int + 32
    ensures !IsUpper(c) ==> d == c
    ensures IsSpace(d) <==> IsSpace(c)
  {
    if IsUpper(c) then (c as int + 32) as char else c
  }

  /** JavaScript `s.toLowerCase()` on the letters A to Z: the result has the
      same length, no upper-case letter, and differs from `s` only where `s`
      has an upper-case letter. */
  function Lower(s: string): (r: string)
    ensures |r| == |s|
    ensures forall i :: 0 <= i < |r| ==> !IsUpper(r[i])
    ensures forall i :: 0 <= i < |s| && !IsUpper(s[i]) ==> r[i] == s[i]
    ensures forall i :: 0 <= i < |s| && IsUpper(s[i]) ==> r[i] as int == s[i] as int + 32
  {
    seq(|s|, i requires 0 <= i < |s| => LowerChar(s[i]))
  }

  /** `s.trim().toLowerCase()`: the key under which event ids are compared. */
  function Normalise(s: string): (r: string)
    ensures Trimmed(r)
    ensures forall i :: 0 <= i < |r| ==> !IsUpper(r[i])
    ensures |r| <= |s|
  {
    var t := Trim(s);
    var r := Lower(t);
    assert |r| > 0 ==> r[0] == LowerChar(t[0]);
    assert |r| > 0 ==> r[|r| - 1] == LowerChar(t[|t| - 1]);
    r
  }

  /** Normalising twice is normalising once: the normal form of an id is its
      own normal form. */
  lemma NormaliseIdempotent(s: string)
    ensures Normalise(Normalise(s)) == Normalise(s)
  {
    var n := Normalise(s);
    assert Lower(n) == n;
  }
}
