/**
 * Character classes and string helpers that the scraper's date normaliser
 * relies on: JavaScript's white-space class (shared by `\s` and
 * `String.prototype.trim`), ASCII digits and letters, the lower-casing of the
 * characters the date patterns care about, and the decimal rendering of a
 * number inside a template literal.
 */
module Text {

  /** The characters JavaScript's `\s` and `trim()` treat as white space
      (WhiteSpace and LineTerminator of ECMA-262). */
  predicate IsSpace(c: char) {
    ('\t' <= c <= '\r') || c == ' ' || c == '\U{00A0}' || c == '\U{1680}'
    || ('\U{2000}' <= c <= '\U{200A}') || c == '\U{2028}' || c == '\U{2029}'
    || c == '\U{202F}' || c == '\U{205F}' || c == '\U{3000}' || c == '\U{FEFF}'
  }

  /** `\d`: an ASCII decimal digit. */
  predicate IsDigit(c: char) {
    '0' <= c <= '9'
  }

  /** `[a-z]` under the `i` flag. */
  predicate IsAsciiLetter(c: char) {
    'a' <= c <= 'z' || 'A' <= c <= 'Z'
  }

  /** Every character of `t[lo..hi]` is white space. */
  predicate AllSpace(t: string, lo: nat, hi: nat)
    requires lo <= hi <= |t|
  {
    forall k :: lo <= k < hi ==> IsSpace(t[k])
  }

  /** Every character of `t[lo..hi]` is a decimal digit. */
  predicate AllDigits(t: string, lo: nat, hi: nat)
    requires lo <= hi <= |t|
  {
    forall k :: lo <= k < hi ==> IsDigit(t[k])
  }

  /** The length of the white-space run that starts at index `i`: a greedy
      `\s*` scan. */
  function SpaceRun(t: string, i: nat): (n: nat)
    requires i <= |t|
    ensures i + n <= |t| && AllSpace(t, i, i + n)
    ensures i + n == |t| || !IsSpace(t[i + n])
    decreases |t| - i
  {
    if i < |t| && IsSpace(t[i]) then 1 + SpaceRun(t, i + 1) else 0
  }

  /** A white-space run that cannot be extended is exactly what the greedy
      scan finds. */
  lemma SpaceRunExact(t: string, i: nat, n: nat)
    requires i + n <= |t| && AllSpace(t, i, i + n)
    requires i + n == |t| || !IsSpace(t[i + n])
    ensures SpaceRun(t, i) == n
  {
  }

  /** The length of the white-space run at the end of `t`. */
  function TrailingSpaces(t: string): (n: nat)
    ensures n <= |t| && AllSpace(t, |t| - n, |t|)
    ensures n == |t| || !IsSpace(t[|t| - n - 1])
  {
    if |t| > 0 && IsSpace(t[|t| - 1]) then 1 + TrailingSpaces(t[..|t| - 1]) else 0
  }

  /** `String.prototype.trim`: drop leading and trailing white space. */
  function Trim(s: string): (r: string)
    ensures |r| <= |s|
    ensures r == "" || (!IsSpace(r[0]) && !IsSpace(r[|r| - 1]))
  {
    var lead := SpaceRun(s, 0);
    if lead == |s| then "" else s[lead..|s| - TrailingSpaces(s)]
  }

  /** `Trim` is determined by its result: whatever white space surrounds a
      core that neither starts nor ends with white space is exactly what
      `Trim` removes. */
  lemma {:induction false} TrimUnique(w1: string, core: string, w2: string)
    requires AllSpace(w1, 0, |w1|) && AllSpace(w2, 0, |w2|)
    requires core == "" || (!IsSpace(core[0]) && !IsSpace(core[|core| - 1]))
    ensures Trim(w1 + core + w2) == core
  {
    var s := w1 + core + w2;
    var lead := SpaceRun(s, 0);
    if core == "" {
      assert AllSpace(s, 0, |s|) by {
        forall k | 0 <= k < |s| ensures IsSpace(s[k]) {
          if k < |w1| { assert s[k] == w1[k]; } else { assert s[k] == w2[k - |w1|]; }
        }
      }
    } else {
      assert s[|w1|] == core[0];
      assert lead == |w1|;
      var trail := TrailingSpaces(s);
      assert s[|w1| + |core| - 1] == core[|core| - 1];
      assert trail == |w2|;
      assert s[lead..|s| - trail] == core;
    }
  }

  /** Trimming twice is trimming once. */
  lemma TrimIdempotent(s: string)
    ensures Trim(Trim(s)) == Trim(s)
  {
    assert "" + Trim(s) + "" == Trim(s);
    TrimUnique("", Trim(s), "");
  }

  /** `toLowerCase` on the characters the date patterns can match: ASCII
      capitals and `Á`. Other characters are left as they are. */
  function LowerChar(c: char): char {
    if 'A' <= c <= 'Z' then (c as int + 32) as char
    else if c == 'Á' then 'á'
    else c
  }

  function Lower(s: string): (r: string) {
    seq(|s|, i requires 0 <= i < |s| => LowerChar(s[i]))
  }

  /** Lower-casing is idempotent, never touches white space and commutes
      with trimming. */
  lemma LowerIdempotent(s: string)
    ensures Lower(Lower(s)) == Lower(s)
  {
  }

  /** No ASCII capital anywhere in `w`. */
  predicate NoCapital(w: string) {
    forall k :: 0 <= k < |w| ==> !('A' <= w[k] <= 'Z')
  }

  lemma LowerSliceNoCapital(s: string, lo: nat, hi: nat)
    requires lo <= hi <= |s|
    ensures NoCapital(Lower(s)[lo..hi])
  {
  }

  lemma LowerAppend(a: string, b: string)
    ensures Lower(a + b) == Lower(a) + Lower(b)
  {
  }

  lemma LowerKeepsSpace(w: string)
    requires AllSpace(w, 0, |w|)
    ensures AllSpace(Lower(w), 0, |w|)
  {
  }

  /** What `Trim` removes: white space before and after the result. */
  lemma TrimParts(s: string) returns (w1: string, w2: string)
    ensures s == w1 + Trim(s) + w2
    ensures AllSpace(w1, 0, |w1|) && AllSpace(w2, 0, |w2|)
  {
    var lead := SpaceRun(s, 0);
    if lead == |s| {
      w1, w2 := s, "";
    } else {
      w1, w2 := s[..lead], s[|s| - TrailingSpaces(s)..];
    }
    assert s == w1 + Trim(s) + w2;
  }

  lemma {:induction false} TrimLower(s: string)
    ensures Trim(Lower(s)) == Lower(Trim(s))
  {
    var core := Trim(s);
    var w1, w2 := TrimParts(s);
    LowerAppend(w1 + core, w2);
    LowerAppend(w1, core);
    LowerKeepsSpace(w1);
    LowerKeepsSpace(w2);
    TrimUnique(Lower(w1), Lower(core), Lower(w2));
  }

  /** The value of a string of decimal digits, most significant first. */
  function DigitValue(c: char): nat
    requires IsDigit(c)
  {
    c as int - '0' as int
  }

  function DigitChar(d: nat): (c: char)
    requires d < 10
    ensures IsDigit(c) && DigitValue(c) == d
  {
    ('0' as int + d) as char
  }

  function DecimalValue(s: string): nat
    requires AllDigits(s, 0, |s|)
  {
    if s == [] then 0 else 10 * DecimalValue(s[..|s| - 1]) + DigitValue(s[|s| - 1])
  }

  /** The decimal rendering of a natural number, as a template literal
      prints a Number: digits only, no leading zero, reading back as `n`. */
  function NatToString(n: nat): (r: string)
    ensures 1 <= |r| && AllDigits(r, 0, |r|)
    ensures |r| > 1 ==> r[0] != '0'
    ensures DecimalValue(r) == n
  {
    if n < 10 then [DigitChar(n)]
    else
      var r := NatToString(n / 10) + [DigitChar(n % 10)];
      assert r[..|r| - 1] == NatToString(n / 10);
      r
  }

  function Pow10(k: nat): (p: nat)
    ensures p >= 1
  {
    if k == 0 then 1 else 10 * Pow10(k - 1)
  }

  /** A number with `k + 1` decimal digits prints as `k + 1` characters. */
  lemma {:induction false} NatToStringLength(n: nat, k: nat)
    requires Pow10(k) <= n < Pow10(k + 1)
    ensures |NatToString(n)| == k + 1
  {
    if k > 0 {
      assert Pow10(k - 1) <= n / 10 < Pow10(k);
      NatToStringLength(n / 10, k - 1);
    }
  }

  /** A four-digit year prints as four characters. */
  lemma YearLength(y: nat)
    requires 1000 <= y <= 9999
    ensures |NatToString(y)| == 4
  {
    assert Pow10(3) == 1000 && Pow10(4) == 10000;
    NatToStringLength(y, 3);
  }
}
