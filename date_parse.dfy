/**
 * `parseDate` of the theatre scraper (web-scraping-playwright/scrape.js):
 * turn a scraped Spanish date fragment into `DD-MM-YYYY`, or report that
 * there is none.
 *
 * The two regular expressions of the source are modelled twice: once as the
 * set of substrings they match (`LongMatch`, `ShortMatch`, stated by the
 * lengths of their parts), and once as hand-written scanners (`LongAt`,
 * `ShortAt`, `FindLong`, `FindShort`) that pick the match JavaScript's
 * backtracking engine reports: the leftmost start and, at that start, the
 * greedy choice. The lemmas connect the two.
 */
module DateParse {
  import opened Text

  datatype Option<T> = None | Some(value: T)

  /** `longMonthNames` of the source: full month names, no `setiembre`. */
  const LongMonths: map<string, string> := map[
    "enero" := "01", "febrero" := "02", "marzo" := "03",
    "abril" := "04", "mayo" := "05", "junio" := "06",
    "julio" := "07", "agosto" := "08", "septiembre" := "09",
    "octubre" := "10", "noviembre" := "11", "diciembre" := "12"]

  /** `shortMonthNames` of the source: three-letter abbreviations, no `set`. */
  const ShortMonths: map<string, string> := map[
    "ene" := "01", "feb" := "02", "mar" := "03",
    "abr" := "04", "may" := "05", "jun" := "06",
    "jul" := "07", "ago" := "08", "sep" := "09",
    "oct" := "10", "nov" := "11", "dic" := "12"]

  const MonthNumbers: set<string> := {
    "01", "02", "03", "04", "05", "06", "07", "08", "09", "10", "11", "12"}

  /** What an object literal inherits from `Object.prototype`, with the text
      a template literal renders for each value. */
  const ObjectPrototype: map<string, string> := map[
    "constructor" := "function Object() { [native code] }",
    "hasOwnProperty" := "function hasOwnProperty() { [native code] }",
    "isPrototypeOf" := "function isPrototypeOf() { [native code] }",
    "propertyIsEnumerable" := "function propertyIsEnumerable() { [native code] }",
    "toLocaleString" := "function toLocaleString() { [native code] }",
    "toString" := "function toString() { [native code] }",
    "valueOf" := "function valueOf() { [native code] }",
    "__defineGetter__" := "function __defineGetter__() { [native code] }",
    "__defineSetter__" := "function __defineSetter__() { [native code] }",
    "__lookupGetter__" := "function __lookupGetter__() { [native code] }",
    "__lookupSetter__" := "function __lookupSetter__() { [native code] }",
    "__proto__" := "[object Object]"]

  /** `[a-zá]` under the `i` flag. */
  predicate IsMonthLetter(c: char) {
    IsAsciiLetter(c) || c == 'á' || c == 'Á'
  }

  /** Every character of `t[lo..hi]` is a letter of `[a-zá]` (flag `i`). */
  predicate AllMonthLetters(t: string, lo: nat, hi: nat)
    requires lo <= hi <= |t|
  {
    forall k :: lo <= k < hi ==> IsMonthLetter(t[k])
  }

  /** Every character of `t[lo..hi]` is a letter of `[a-z]` (flag `i`). */
  predicate AllAsciiLetters(t: string, lo: nat, hi: nat)
    requires lo <= hi <= |t|
  {
    forall k :: lo <= k < hi ==> IsAsciiLetter(t[k])
  }

  /** The greedy `[a-zá]*` scan at `i`. */
  function MonthLetterRun(t: string, i: nat): (n: nat)
    requires i <= |t|
    ensures i + n <= |t| && AllMonthLetters(t, i, i + n)
    ensures i + n == |t| || !IsMonthLetter(t[i + n])
    decreases |t| - i
  {
    if i < |t| && IsMonthLetter(t[i]) then 1 + MonthLetterRun(t, i + 1) else 0
  }

  /** The greedy scan covers every run of month letters starting at `i`. */
  lemma MonthLetterRunCovers(t: string, i: nat, n: nat)
    requires i + n <= |t| && AllMonthLetters(t, i, i + n)
    ensures n <= MonthLetterRun(t, i)
  {
  }

  /** Trimming and lower-casing, the first step of `parseDate`. */
  function Normalize(s: string): string {
    Lower(Trim(s))
  }

  /** `\d{1,2}` at `i`: greedy, so two digits whenever two are there. */
  function DayDigits(t: string, i: nat): (n: nat)
    requires i <= |t|
    ensures n <= 2 && i + n <= |t| && AllDigits(t, i, i + n)
    ensures n < 2 ==> i + n == |t| || !IsDigit(t[i + n])
  {
    if i < |t| && IsDigit(t[i]) then
      (if i + 1 < |t| && IsDigit(t[i + 1]) then 2 else 1)
    else 0
  }

  // ---------------------------------------------------------------------
  // Leftmost search: `String.prototype.match` without the `g` flag tries the
  // start positions from left to right and reports the first that matches.
  // ---------------------------------------------------------------------

  /** The first index from `i` on whose entry is present, with that entry. */
  function Leftmost<T>(hits: seq<Option<T>>, i: nat): (r: Option<(nat, T)>)
    requires i <= |hits|
    ensures r.Some? ==> i <= r.value.0 < |hits| && hits[r.value.0] == Some(r.value.1)
    decreases |hits| - i
  {
    if i == |hits| then None
    else match hits[i]
      case Some(x) => Some((i, x))
      case None => Leftmost(hits, i + 1)
  }

  /** The search passes over absent entries only. */
  lemma {:induction false} LeftmostSkips<T>(hits: seq<Option<T>>, i: nat)
    requires i <= |hits|
    ensures var r := Leftmost(hits, i);
      forall j :: i <= j < (if r.Some? then r.value.0 else |hits|) ==> hits[j].None?
    decreases |hits| - i
  {
    if i < |hits| && hits[i].None? {
      LeftmostSkips(hits, i + 1);
    }
  }

  /** The search stops at the first present entry. */
  lemma {:induction false} LeftmostStops<T>(hits: seq<Option<T>>, k: nat, i: nat)
    requires k <= i < |hits| && hits[i].Some?
    requires forall j :: k <= j < i ==> hits[j].None?
    ensures Leftmost(hits, k) == Some((i, hits[i].value))
    decreases i - k
  {
    if k < i {
      LeftmostStops(hits, k + 1, i);
    }
  }

  // ---------------------------------------------------------------------
  // Long form: /(\d{1,2})\s+de\s+([a-zá]+)/i
  // ---------------------------------------------------------------------

  /** The long pattern matches at `i` with a day of `dl` digits, `s1` blanks,
      the word "de", `s2` blanks and a month word of `ml` letters. */
  predicate LongMatch(t: string, i: nat, dl: nat, s1: nat, s2: nat, ml: nat) {
    var de := i + dl + s1;
    var word := de + 2 + s2;
    && word + ml <= |t|
    && 1 <= dl <= 2 && AllDigits(t, i, i + dl)
    && 1 <= s1 && AllSpace(t, i + dl, de)
    && IsDe(t, de)
    && 1 <= s2 && AllSpace(t, de + 2, word)
    && 1 <= ml && AllMonthLetters(t, word, word + ml)
  }

  ghost predicate LongMatchesAt(t: string, i: nat) {
    exists dl: nat, s1: nat, s2: nat, ml: nat :: LongMatch(t, i, dl, s1, s2, ml)
  }

  /** The match `rawDate.match(...)` reports: the leftmost start and, at
      that start, the longest month word. */
  ghost predicate LongFound(t: string, i: nat, dl: nat, s1: nat, s2: nat, ml: nat) {
    && LongMatch(t, i, dl, s1, s2, ml)
    && (forall j :: 0 <= j < i ==> !LongMatchesAt(t, j))
    && (forall ml': nat :: LongMatch(t, i, dl, s1, s2, ml') ==> ml' <= ml)
  }

  /** The lengths of the parts of a long-form match. */
  datatype LongSpan = LongSpan(dl: nat, s1: nat, s2: nat, ml: nat)

  /** The literal `de` of the long pattern, under the `i` flag, at index `k`. */
  predicate IsDe(t: string, k: nat) {
    k + 2 <= |t| && (t[k] == 'd' || t[k] == 'D') && (t[k + 1] == 'e' || t[k + 1] == 'E')
  }

  /** The greedy scan of the long pattern anchored at `i`. */
  function LongAt(t: string, i: nat): (r: Option<LongSpan>)
    requires i <= |t|
  {
    var dl := DayDigits(t, i);
    var s1 := SpaceRun(t, i + dl);
    var de := i + dl + s1;
    if dl > 0 && s1 > 0 && IsDe(t, de) then
      var s2 := SpaceRun(t, de + 2);
      var ml := MonthLetterRun(t, de + 2 + s2);
      if s2 > 0 && ml > 0 then Some(LongSpan(dl, s1, s2, ml)) else None
    else None
  }

  /** What the long scanner reports is a match of the pattern. */
  lemma LongAtSound(t: string, i: nat)
    requires i <= |t|
    ensures LongAt(t, i).Some? ==>
      var sp := LongAt(t, i).value;
      LongMatch(t, i, sp.dl, sp.s1, sp.s2, sp.ml)
  {
  }

  /** Every long match at `i` has the scanner's day and blanks, and a month
      word no longer than the scanner's. */
  lemma LongMatchAgrees(t: string, i: nat, dl: nat, s1: nat, s2: nat, ml: nat)
    requires LongMatch(t, i, dl, s1, s2, ml)
    ensures LongAt(t, i).Some?
    ensures LongAt(t, i).value == LongSpan(dl, s1, s2, LongAt(t, i).value.ml)
    ensures ml <= LongAt(t, i).value.ml
  {
    LongMatchDay(t, i, dl, s1, s2, ml);
    LongMatchBlanks(t, i, dl, s1, s2, ml);
    var word := i + dl + s1 + 2 + s2;
    MonthLetterRunCovers(t, word, ml);
    LongAtParts(t, i, dl, s1, s2, MonthLetterRun(t, word));
  }

  /** The scanner's answer, given what each of its greedy steps finds. */
  lemma LongAtParts(t: string, i: nat, dl: nat, s1: nat, s2: nat, n: nat)
    requires i <= |t| && DayDigits(t, i) == dl && SpaceRun(t, i + dl) == s1
    requires IsDe(t, i + dl + s1) && SpaceRun(t, i + dl + s1 + 2) == s2
    requires MonthLetterRun(t, i + dl + s1 + 2 + s2) == n
    requires dl > 0 && s1 > 0 && s2 > 0 && n > 0
    ensures LongAt(t, i) == Some(LongSpan(dl, s1, s2, n))
  {
  }

  lemma LongMatchDay(t: string, i: nat, dl: nat, s1: nat, s2: nat, ml: nat)
    requires LongMatch(t, i, dl, s1, s2, ml)
    ensures DayDigits(t, i) == dl
  {
    assert IsSpace(t[i + dl]);
  }

  lemma LongMatchBlanks(t: string, i: nat, dl: nat, s1: nat, s2: nat, ml: nat)
    requires LongMatch(t, i, dl, s1, s2, ml)
    ensures SpaceRun(t, i + dl) == s1
    ensures SpaceRun(t, i + dl + s1 + 2) == s2
  {
    var de := i + dl + s1;
    var word := de + 2 + s2;
    assert !IsSpace(t[de]);
    SpaceRunExact(t, i + dl, s1);
    assert IsMonthLetter(t[word]) && !IsSpace(t[word]);
    SpaceRunExact(t, de + 2, s2);
  }

  /** The scanner finds a long match at `i` exactly when the pattern matches
      there, and then it reports the regular expression's choice. */
  lemma LongAtCorrect(t: string, i: nat)
    requires i <= |t|
    ensures LongAt(t, i).Some? <==> LongMatchesAt(t, i)
    ensures LongAt(t, i).Some? ==>
      forall dl: nat, s1: nat, s2: nat, ml: nat :: LongMatch(t, i, dl, s1, s2, ml) ==>
        var sp := LongAt(t, i).value;
        dl == sp.dl && s1 == sp.s1 && s2 == sp.s2 && ml <= sp.ml
  {
    LongAtSound(t, i);
    if LongMatchesAt(t, i) {
      var dl, s1, s2, ml :| LongMatch(t, i, dl, s1, s2, ml);
      LongMatchAgrees(t, i, dl, s1, s2, ml);
    }
    forall dl: nat, s1: nat, s2: nat, ml: nat | LongMatch(t, i, dl, s1, s2, ml)
      ensures LongAt(t, i).Some?
      ensures var sp := LongAt(t, i).value;
              dl == sp.dl && s1 == sp.s1 && s2 == sp.s2 && ml <= sp.ml
    {
      LongMatchAgrees(t, i, dl, s1, s2, ml);
    }
  }

  /** The long scanner's result at every start position `0..|t|`. */
  function LongHits(t: string): (h: seq<Option<LongSpan>>)
    ensures |h| == |t| + 1
  {
    seq(|t| + 1, j requires 0 <= j <= |t| => LongAt(t, j))
  }

  /** The leftmost start where the long scanner succeeds. */
  function FindLong(t: string): (r: Option<(nat, LongSpan)>)
    ensures r.Some? ==> r.value.0 <= |t| && LongAt(t, r.value.0) == Some(r.value.1)
  {
    Leftmost(LongHits(t), 0)
  }

  /** No start before the one `FindLong` reports, and none at all when it
      reports nothing, lets the scanner succeed. */
  lemma FindLongFirst(t: string)
    ensures forall j :: 0 <= j < (if FindLong(t).Some? then FindLong(t).value.0 else |t| + 1) ==>
      LongAt(t, j).None?
  {
    var h := LongHits(t);
    LeftmostSkips(h, 0);
    forall j | 0 <= j <= |t| ensures h[j] == LongAt(t, j) { }
  }

  /** `FindLong` reports exactly the match the regular expression reports,
      and nothing when the pattern matches nowhere. */
  lemma FindLongCorrect(t: string)
    ensures FindLong(t).Some? ==>
      var (i, sp) := FindLong(t).value;
      LongFound(t, i, sp.dl, sp.s1, sp.s2, sp.ml)
    ensures FindLong(t).None? <==> forall j :: 0 <= j <= |t| ==> !LongMatchesAt(t, j)
  {
    FindLongNoEarlier(t);
    if FindLong(t).Some? {
      var (i, sp) := FindLong(t).value;
      FindLongMatch(t, i, sp);
    }
  }

  /** No start before the reported one, and none at all when nothing is
      reported, matches the pattern. */
  lemma FindLongNoEarlier(t: string)
    ensures forall j :: 0 <= j <= |t| && (FindLong(t).None? || j < FindLong(t).value.0) ==>
      !LongMatchesAt(t, j)
  {
    FindLongFirst(t);
    forall j | 0 <= j <= |t| && (FindLong(t).None? || j < FindLong(t).value.0)
      ensures !LongMatchesAt(t, j)
    {
      LongAtCorrect(t, j);
    }
  }

  /** At the reported start the pattern matches, with the longest month word. */
  lemma FindLongMatch(t: string, i: nat, sp: LongSpan)
    requires FindLong(t) == Some((i, sp))
    ensures LongMatch(t, i, sp.dl, sp.s1, sp.s2, sp.ml) && LongMatchesAt(t, i)
    ensures forall ml': nat :: LongMatch(t, i, sp.dl, sp.s1, sp.s2, ml') ==> ml' <= sp.ml
  {
    LongAtSound(t, i);
    LongAtCorrect(t, i);
  }

  /** Whatever match satisfies the regular expression's choice is the one
      `FindLong` returns. */
  lemma LongFoundIsFound(t: string, i: nat, dl: nat, s1: nat, s2: nat, ml: nat)
    requires LongFound(t, i, dl, s1, s2, ml)
    ensures FindLong(t) == Some((i, LongSpan(dl, s1, s2, ml)))
  {
    LongFoundScan(t, i, dl, s1, s2, ml);
    var h := LongHits(t);
    forall j | 0 <= j < i ensures h[j].None? {
      LongAtCorrect(t, j);
    }
    LeftmostStops(h, 0, i);
  }

  /** At the start the regular expression chooses, the scanner reports the
      regular expression's parts. */
  lemma LongFoundScan(t: string, i: nat, dl: nat, s1: nat, s2: nat, ml: nat)
    requires LongMatch(t, i, dl, s1, s2, ml)
    requires forall ml': nat :: LongMatch(t, i, dl, s1, s2, ml') ==> ml' <= ml
    ensures LongAt(t, i) == Some(LongSpan(dl, s1, s2, ml))
  {
    LongMatchAgrees(t, i, dl, s1, s2, ml);
    var sp := LongAt(t, i).value;
    LongAtSound(t, i);
    assert LongMatch(t, i, dl, s1, s2, sp.ml);
  }

  /** The month word of a long match. */
  function LongWord(t: string, i: nat, sp: LongSpan): (w: string)
    requires LongMatch(t, i, sp.dl, sp.s1, sp.s2, sp.ml)
    ensures |w| == sp.ml && AllMonthLetters(w, 0, |w|)
  {
    var word := i + sp.dl + sp.s1 + 2 + sp.s2;
    t[word..word + sp.ml]
  }

  // ---------------------------------------------------------------------
  // Short form: /(\d{1,2})\s+([a-z]{3})\.?\s+(\d{4})/i
  // ---------------------------------------------------------------------

  /** The short pattern matches at `i` with a day of `dl` digits, `s1` blanks,
      three letters, `dot` full stops (0 or 1), `s2` blanks and four digits. */
  predicate ShortMatch(t: string, i: nat, dl: nat, s1: nat, dot: nat, s2: nat) {
    var abbr := i + dl + s1;
    var after := abbr + 3 + dot;
    var year := after + s2;
    && year + 4 <= |t|
    && 1 <= dl <= 2 && AllDigits(t, i, i + dl)
    && 1 <= s1 && AllSpace(t, i + dl, abbr)
    && AllAsciiLetters(t, abbr, abbr + 3)
    && dot <= 1 && (dot == 1 ==> t[abbr + 3] == '.')
    && 1 <= s2 && AllSpace(t, after, year)
    && AllDigits(t, year, year + 4)
  }

  ghost predicate ShortMatchesAt(t: string, i: nat) {
    exists dl: nat, s1: nat, dot: nat, s2: nat :: ShortMatch(t, i, dl, s1, dot, s2)
  }

  /** The match `rawDate.match(...)` reports: the leftmost start. */
  ghost predicate ShortFound(t: string, i: nat, dl: nat, s1: nat, dot: nat, s2: nat) {
    && ShortMatch(t, i, dl, s1, dot, s2)
    && (forall j :: 0 <= j < i ==> !ShortMatchesAt(t, j))
  }

  /** The lengths of the parts of a short-form match. */
  datatype ShortSpan = ShortSpan(dl: nat, s1: nat, dot: nat, s2: nat)

  /** The greedy scan of the short pattern anchored at `i`. */
  function ShortAt(t: string, i: nat): (r: Option<ShortSpan>)
    requires i <= |t|
  {
    var dl := DayDigits(t, i);
    var s1 := SpaceRun(t, i + dl);
    var abbr := i + dl + s1;
    if dl == 0 || s1 == 0 || abbr + 3 > |t| || !AllAsciiLetters(t, abbr, abbr + 3) then None
    else
      var dot := if abbr + 3 < |t| && t[abbr + 3] == '.' then 1 else 0;
      var s2 := SpaceRun(t, abbr + 3 + dot);
      var year := abbr + 3 + dot + s2;
      if s2 == 0 || year + 4 > |t| || !AllDigits(t, year, year + 4) then None
      else Some(ShortSpan(dl, s1, dot, s2))
  }

  /** What the short scanner reports is a match of the pattern. */
  lemma ShortAtSound(t: string, i: nat)
    requires i <= |t|
    ensures ShortAt(t, i).Some? ==>
      var sp := ShortAt(t, i).value;
      ShortMatch(t, i, sp.dl, sp.s1, sp.dot, sp.s2)
  {
  }

  /** A short match at `i` is unique, and it is the scanner's. */
  lemma ShortMatchAgrees(t: string, i: nat, dl: nat, s1: nat, dot: nat, s2: nat)
    requires ShortMatch(t, i, dl, s1, dot, s2)
    ensures ShortAt(t, i) == Some(ShortSpan(dl, s1, dot, s2))
  {
    ShortMatchDay(t, i, dl, s1, dot, s2);
    ShortMatchBlanks(t, i, dl, s1, dot, s2);
  }

  lemma ShortMatchDay(t: string, i: nat, dl: nat, s1: nat, dot: nat, s2: nat)
    requires ShortMatch(t, i, dl, s1, dot, s2)
    ensures DayDigits(t, i) == dl
  {
    assert IsSpace(t[i + dl]);
  }

  lemma ShortMatchBlanks(t: string, i: nat, dl: nat, s1: nat, dot: nat, s2: nat)
    requires ShortMatch(t, i, dl, s1, dot, s2)
    ensures SpaceRun(t, i + dl) == s1
    ensures dot == if t[i + dl + s1 + 3] == '.' then 1 else 0
    ensures SpaceRun(t, i + dl + s1 + 3 + dot) == s2
  {
    var abbr := i + dl + s1;
    var after := abbr + 3 + dot;
    assert IsAsciiLetter(t[abbr]) && !IsSpace(t[abbr]);
    SpaceRunExact(t, i + dl, s1);
    assert dot == 0 ==> IsSpace(t[abbr + 3]);
    assert IsDigit(t[after + s2]) && !IsSpace(t[after + s2]);
    SpaceRunExact(t, after, s2);
  }

  lemma ShortAtCorrect(t: string, i: nat)
    requires i <= |t|
    ensures ShortAt(t, i).Some? <==> ShortMatchesAt(t, i)
  {
    if ShortMatchesAt(t, i) {
      var dl, s1, dot, s2 :| ShortMatch(t, i, dl, s1, dot, s2);
      ShortMatchAgrees(t, i, dl, s1, dot, s2);
    }
    if ShortAt(t, i).Some? {
      var sp := ShortAt(t, i).value;
      ShortAtSound(t, i);
      assert ShortMatch(t, i, sp.dl, sp.s1, sp.dot, sp.s2);
    }
  }

  /** The short scanner's result at every start position `0..|t|`. */
  function ShortHits(t: string): (h: seq<Option<ShortSpan>>)
    ensures |h| == |t| + 1
  {
    seq(|t| + 1, j requires 0 <= j <= |t| => ShortAt(t, j))
  }

  /** The leftmost start where the short scanner succeeds. */
  function FindShort(t: string): (r: Option<(nat, ShortSpan)>)
    ensures r.Some? ==> r.value.0 <= |t| && ShortAt(t, r.value.0) == Some(r.value.1)
  {
    Leftmost(ShortHits(t), 0)
  }

  /** No start before the one `FindShort` reports, and none at all when it
      reports nothing, lets the scanner succeed. */
  lemma FindShortFirst(t: string)
    ensures forall j :: 0 <= j < (if FindShort(t).Some? then FindShort(t).value.0 else |t| + 1) ==>
      ShortAt(t, j).None?
  {
    var h := ShortHits(t);
    LeftmostSkips(h, 0);
    forall j | 0 <= j <= |t| ensures h[j] == ShortAt(t, j) { }
  }

  lemma FindShortCorrect(t: string)
    ensures FindShort(t).Some? ==>
      var (i, sp) := FindShort(t).value;
      ShortFound(t, i, sp.dl, sp.s1, sp.dot, sp.s2)
    ensures FindShort(t).None? <==> forall j :: 0 <= j <= |t| ==> !ShortMatchesAt(t, j)
  {
    var r := FindShort(t);
    FindShortFirst(t);
    forall j | 0 <= j <= |t| && (r.None? || j < r.value.0)
      ensures !ShortMatchesAt(t, j)
    {
      ShortAtCorrect(t, j);
    }
    if r.Some? {
      var (i, sp) := r.value;
      ShortAtSound(t, i);
      assert ShortMatch(t, i, sp.dl, sp.s1, sp.dot, sp.s2);
      assert ShortMatchesAt(t, i);
    }
  }

  lemma ShortFoundIsFound(t: string, i: nat, dl: nat, s1: nat, dot: nat, s2: nat)
    requires ShortFound(t, i, dl, s1, dot, s2)
    ensures FindShort(t) == Some((i, ShortSpan(dl, s1, dot, s2)))
  {
    ShortMatchAgrees(t, i, dl, s1, dot, s2);
    var h := ShortHits(t);
    forall j | 0 <= j < i ensures h[j].None? {
      ShortAtCorrect(t, j);
    }
    LeftmostStops(h, 0, i);
  }


  /** The abbreviation and the year of a short match. */
  function ShortWord(t: string, i: nat, sp: ShortSpan): (w: string)
    requires ShortMatch(t, i, sp.dl, sp.s1, sp.dot, sp.s2)
    ensures |w| == 3 && AllAsciiLetters(w, 0, 3)
  {
    var abbr := i + sp.dl + sp.s1;
    t[abbr..abbr + 3]
  }

  function ShortYear(t: string, i: nat, sp: ShortSpan): (y: string)
    requires ShortMatch(t, i, sp.dl, sp.s1, sp.dot, sp.s2)
    ensures |y| == 4 && AllDigits(y, 0, 4)
  {
    var year := i + sp.dl + sp.s1 + 3 + sp.dot + sp.s2;
    t[year..year + 4]
  }

  // ---------------------------------------------------------------------
  // Month lookup and the assembled date
  // ---------------------------------------------------------------------

  /** A month-name lookup: the table and the captured word in, the month
      number (or whatever the table yields) out. */
  type Lookup = (map<string, string>, string) -> Option<string>

  /** Lookup among the table's own entries: what the source means. */
  function OwnLookup(table: map<string, string>, word: string): (r: Option<string>)
    ensures r.Some? <==> word in table
    ensures r.Some? ==> r.value == table[word]
  {
    if word in table then Some(table[word]) else None
  }

  /** `table[word]` as JavaScript evaluates it on an object literal: a word
      missing from the table still finds what `Object.prototype` holds. */
  function JsLookup(table: map<string, string>, word: string): (r: Option<string>)
    ensures word !in ObjectPrototype ==> r == OwnLookup(table, word)
    ensures word in ObjectPrototype && word !in table ==> r == Some(ObjectPrototype[word])
  {
    if word in table then Some(table[word])
    else if word in ObjectPrototype then Some(ObjectPrototype[word])
    else None
  }

  /** `day.padStart(2, '0')`. */
  function PadDay(day: string): (r: string)
    ensures |r| == if |day| < 2 then 2 else |day|
    ensures r[|r| - |day|..] == day
    ensures forall k :: 0 <= k < |r| - |day| ==> r[k] == '0'
  {
    if |day| >= 2 then day else seq(2 - |day|, _ => '0') + day
  }

  /** The groups of the long match, as `const [_, day, month]` takes them. */
  datatype LongGroups = LongGroups(day: string, month: string)

  function LongCapture(t: string): (r: Option<LongGroups>)
    ensures r.Some? ==> 1 <= |r.value.day| <= 2 && AllDigits(r.value.day, 0, |r.value.day|)
    ensures r.Some? ==> 1 <= |r.value.month| && AllMonthLetters(r.value.month, 0, |r.value.month|)
    ensures r.Some? <==> FindLong(t).Some?
  {
    match FindLong(t)
    case None => None
    case Some((i, sp)) =>
      LongAtSound(t, i);
      Some(LongGroups(t[i..i + sp.dl], LongWord(t, i, sp)))
  }

  /** The groups of the short match, as `const [_, day, month, year]` takes
      them. */
  datatype ShortGroups = ShortGroups(day: string, month: string, year: string)

  function ShortCapture(t: string): (r: Option<ShortGroups>)
    ensures r.Some? ==> 1 <= |r.value.day| <= 2 && AllDigits(r.value.day, 0, |r.value.day|)
    ensures r.Some? ==> |r.value.month| == 3 && AllAsciiLetters(r.value.month, 0, 3)
    ensures r.Some? ==> |r.value.year| == 4 && AllDigits(r.value.year, 0, 4)
    ensures r.Some? <==> FindShort(t).Some?
  {
    match FindShort(t)
    case None => None
    case Some((i, sp)) =>
      ShortAtSound(t, i);
      Some(ShortGroups(t[i..i + sp.dl], ShortWord(t, i, sp), ShortYear(t, i, sp)))
  }

  /** The groups of the match `FindLong` reports at `i`. */
  lemma LongCaptureAt(t: string, i: nat, sp: LongSpan)
    requires FindLong(t) == Some((i, sp))
    ensures LongMatch(t, i, sp.dl, sp.s1, sp.s2, sp.ml)
    ensures LongCapture(t) == Some(LongGroups(t[i..i + sp.dl], LongWord(t, i, sp)))
  {
    assert LongAt(t, i) == Some(sp);
    LongAtSound(t, i);
  }

  lemma ShortCaptureAt(t: string, i: nat, sp: ShortSpan)
    requires FindShort(t) == Some((i, sp))
    ensures ShortMatch(t, i, sp.dl, sp.s1, sp.dot, sp.s2)
    ensures ShortCapture(t) == Some(ShortGroups(t[i..i + sp.dl], ShortWord(t, i, sp), ShortYear(t, i, sp)))
  {
    assert ShortAt(t, i) == Some(sp);
    ShortAtSound(t, i);
  }

  /** The long-form branch: `${day}-${monthNum}-${year}` when the leftmost
      long match names a month, the year being the caller's current year. */
  function LongDate(t: string, year: nat, lookup: Lookup): Option<string> {
    match LongCapture(t)
    case None => None
    case Some(g) =>
      match lookup(LongMonths, g.month)
      case None => None
      case Some(num) => Some(PadDay(g.day) + "-" + num + "-" + NatToString(year))
  }

  /** The short-form branch: the year is the four digits captured. */
  function ShortDate(t: string, lookup: Lookup): Option<string> {
    match ShortCapture(t)
    case None => None
    case Some(g) =>
      match lookup(ShortMonths, g.month)
      case None => None
      case Some(num) => Some(PadDay(g.day) + "-" + num + "-" + g.year)
  }

  /** `parseDate` with the month lookup as a parameter; `raw` is `None` for
      `null`, `undefined` or any value that is not a string. */
  function ParseDateWith(raw: Option<string>, year: nat, lookup: Lookup): Option<string> {
    if raw.None? || raw.value == "" then None
    else
      var t := Normalize(raw.value);
      var long := LongDate(t, year, lookup);
      if long.Some? then long else ShortDate(t, lookup)
  }

  /** `parseDate(rawDate)` evaluated in a year `currentYear`, with month
      names looked up among the tables' own entries. */
  function ParseDate(raw: Option<string>, currentYear: nat): Option<string> {
    ParseDateWith(raw, currentYear, OwnLookup)
  }

  /** `parseDate` exactly as JavaScript runs it, inherited properties included. */
  function ParseDateAsWritten(raw: Option<string>, currentYear: nat): Option<string> {
    ParseDateWith(raw, currentYear, JsLookup)
  }

  /** The canonical `DD-MM-YYYY` shape. */
  predicate IsCanonicalDate(d: string) {
    && |d| == 10
    && d[2] == '-' && d[5] == '-'
    && IsDigit(d[0]) && IsDigit(d[1])
    && d[3..5] in MonthNumbers
    && AllDigits(d, 6, 10)
  }

  // ---------------------------------------------------------------------
  // Properties
  // ---------------------------------------------------------------------

  /** A missing, non-string or empty input has no date. */
  lemma MissingInputHasNoDate(year: nat)
    ensures ParseDate(None, year) == None
    ensures ParseDate(Some(""), year) == None
  {
  }

  /** Surrounding white space and letter case do not matter. */
  lemma ParseDateNormalizes(s: string, year: nat)
    ensures ParseDate(Some(s), year) == ParseDate(Some(Normalize(s)), year)
  {
    var t := Normalize(s);
    calc {
      Normalize(t);
      Lower(Trim(Lower(Trim(s))));
      { TrimLower(Trim(s)); }
      Lower(Lower(Trim(Trim(s))));
      { TrimIdempotent(s); LowerIdempotent(Trim(s)); }
      t;
    }
    if s != "" && t == "" {
      assert FindLong(t).None? && FindShort(t).None?;
    }
  }

  /** The long form wins: the regular expression's long match, when its
      month word is a full month name, decides the result, with the day
      padded to two digits and the caller's year. */
  lemma LongFormWins(s: string, year: nat, i: nat, dl: nat, s1: nat, s2: nat, ml: nat)
    requires s != ""
    requires LongFound(Normalize(s), i, dl, s1, s2, ml)
    requires LongWord(Normalize(s), i, LongSpan(dl, s1, s2, ml)) in LongMonths
    ensures var t := Normalize(s);
      ParseDate(Some(s), year) ==
        Some(PadDay(t[i..i + dl]) + "-" + LongMonths[LongWord(t, i, LongSpan(dl, s1, s2, ml))]
             + "-" + NatToString(year))
  {
    var t := Normalize(s);
    LongFoundCapture(t, i, dl, s1, s2, ml);
    LongDateKnown(t, year, LongGroups(t[i..i + dl], LongWord(t, i, LongSpan(dl, s1, s2, ml))));
  }

  /** The groups of the regular expression's long match. */
  lemma LongFoundCapture(t: string, i: nat, dl: nat, s1: nat, s2: nat, ml: nat)
    requires LongFound(t, i, dl, s1, s2, ml)
    ensures LongCapture(t) == Some(LongGroups(t[i..i + dl], LongWord(t, i, LongSpan(dl, s1, s2, ml))))
  {
    LongFoundIsFound(t, i, dl, s1, s2, ml);
    LongCaptureAt(t, i, LongSpan(dl, s1, s2, ml));
  }

  /** A captured month name gives the long-form date. */
  lemma LongDateKnown(t: string, year: nat, g: LongGroups)
    requires LongCapture(t) == Some(g) && g.month in LongMonths
    ensures LongDate(t, year, OwnLookup) ==
      Some(PadDay(g.day) + "-" + LongMonths[g.month] + "-" + NatToString(year))
  {
  }

  /** A captured word that is no month name gives no long-form date. */
  lemma LongDateUnknown(t: string, year: nat, g: LongGroups)
    requires LongCapture(t) == Some(g) && g.month !in LongMonths
    ensures LongDate(t, year, OwnLookup) == None
  {
  }

  /** Run as written, a captured inherited name that is no month name gives
      the inherited property's text as the month field. */
  lemma LongDateInherited(t: string, year: nat, g: LongGroups)
    requires LongCapture(t) == Some(g) && g.month !in LongMonths && g.month in ObjectPrototype
    ensures LongDate(t, year, JsLookup) ==
      Some(PadDay(g.day) + "-" + ObjectPrototype[g.month] + "-" + NatToString(year))
  {
  }

  /** No long match, or a long match whose word is not a month name, does
      not fail the parse: the short form decides. */
  lemma NoLongMatchFallsThrough(s: string, year: nat)
    requires s != ""
    requires forall j :: 0 <= j <= |Normalize(s)| ==> !LongMatchesAt(Normalize(s), j)
    ensures ParseDate(Some(s), year) == ShortDate(Normalize(s), OwnLookup)
  {
    FindLongCorrect(Normalize(s));
  }

  lemma UnknownLongMonthFallsThrough(s: string, year: nat, i: nat, dl: nat, s1: nat, s2: nat, ml: nat)
    requires s != ""
    requires LongFound(Normalize(s), i, dl, s1, s2, ml)
    requires LongWord(Normalize(s), i, LongSpan(dl, s1, s2, ml)) !in LongMonths
    ensures ParseDate(Some(s), year) == ShortDate(Normalize(s), OwnLookup)
  {
    var t := Normalize(s);
    LongFoundCapture(t, i, dl, s1, s2, ml);
    LongDateUnknown(t, year, LongGroups(t[i..i + dl], LongWord(t, i, LongSpan(dl, s1, s2, ml))));
  }

  /** The short form: the regular expression's short match with a known
      abbreviation gives the padded day, the month number and the captured
      year verbatim. */
  lemma ShortFormResult(t: string, i: nat, dl: nat, s1: nat, dot: nat, s2: nat)
    requires ShortFound(t, i, dl, s1, dot, s2)
    requires ShortWord(t, i, ShortSpan(dl, s1, dot, s2)) in ShortMonths
    ensures ShortDate(t, OwnLookup) ==
      Some(PadDay(t[i..i + dl]) + "-" + ShortMonths[ShortWord(t, i, ShortSpan(dl, s1, dot, s2))]
           + "-" + ShortYear(t, i, ShortSpan(dl, s1, dot, s2)))
  {
    var sp := ShortSpan(dl, s1, dot, s2);
    ShortFoundCapture(t, i, dl, s1, dot, s2);
    ShortDateKnown(t, ShortGroups(t[i..i + dl], ShortWord(t, i, sp), ShortYear(t, i, sp)));
  }

  /** The groups of the regular expression's short match. */
  lemma ShortFoundCapture(t: string, i: nat, dl: nat, s1: nat, dot: nat, s2: nat)
    requires ShortFound(t, i, dl, s1, dot, s2)
    ensures var sp := ShortSpan(dl, s1, dot, s2);
      ShortCapture(t) == Some(ShortGroups(t[i..i + dl], ShortWord(t, i, sp), ShortYear(t, i, sp)))
  {
    ShortFoundIsFound(t, i, dl, s1, dot, s2);
    ShortCaptureAt(t, i, ShortSpan(dl, s1, dot, s2));
  }

  /** A captured abbreviation gives the short-form date. */
  lemma ShortDateKnown(t: string, g: ShortGroups)
    requires ShortCapture(t) == Some(g) && g.month in ShortMonths
    ensures ShortDate(t, OwnLookup) == Some(PadDay(g.day) + "-" + ShortMonths[g.month] + "-" + g.year)
  {
  }

  /** A captured word that is no abbreviation gives no date. */
  lemma ShortDateUnknown(t: string, g: ShortGroups)
    requires ShortCapture(t) == Some(g) && g.month !in ShortMonths
    ensures ShortDate(t, OwnLookup) == None
  {
  }

  /** Neither a short match nor a short match with a known abbreviation:
      no date, and no error. */
  lemma NoShortMatchIsNone(t: string)
    requires forall j :: 0 <= j <= |t| ==> !ShortMatchesAt(t, j)
    ensures ShortDate(t, OwnLookup) == None
  {
    FindShortCorrect(t);
  }

  lemma UnknownShortMonthIsNone(t: string, i: nat, dl: nat, s1: nat, dot: nat, s2: nat)
    requires ShortFound(t, i, dl, s1, dot, s2)
    requires ShortWord(t, i, ShortSpan(dl, s1, dot, s2)) !in ShortMonths
    ensures ShortDate(t, OwnLookup) == None
  {
    var sp := ShortSpan(dl, s1, dot, s2);
    ShortFoundCapture(t, i, dl, s1, dot, s2);
    ShortDateUnknown(t, ShortGroups(t[i..i + dl], ShortWord(t, i, sp), ShortYear(t, i, sp)));
  }

  lemma MonthTablesValues()
    ensures forall w :: w in LongMonths ==> LongMonths[w] in MonthNumbers
    ensures forall w :: w in ShortMonths ==> ShortMonths[w] in MonthNumbers
  {
  }

  /** Day, month number and year put together the way both branches do
      form a canonical date. */
  lemma AssembledDateCanonical(day: string, num: string, y: string)
    requires 1 <= |day| <= 2 && AllDigits(day, 0, |day|)
    requires num in MonthNumbers
    requires |y| == 4 && AllDigits(y, 0, 4)
    ensures IsCanonicalDate(PadDay(day) + "-" + num + "-" + y)
  {
    var d := PadDay(day) + "-" + num + "-" + y;
    assert d[3..5] == num;
    assert forall k :: 6 <= k < 10 ==> d[k] == y[k - 6];
    assert |day| == 1 ==> d[0] == '0' && d[1] == day[0];
    assert |day| == 2 ==> d[0] == day[0] && d[1] == day[1];
  }

  lemma LongDateCanonical(t: string, year: nat)
    requires 1000 <= year <= 9999
    requires LongDate(t, year, OwnLookup).Some?
    ensures IsCanonicalDate(LongDate(t, year, OwnLookup).value)
  {
    var g := LongCapture(t).value;
    MonthTablesValues();
    YearLength(year);
    AssembledDateCanonical(g.day, LongMonths[g.month], NatToString(year));
  }

  lemma ShortDateCanonical(t: string)
    requires ShortDate(t, OwnLookup).Some?
    ensures IsCanonicalDate(ShortDate(t, OwnLookup).value)
  {
    var g := ShortCapture(t).value;
    MonthTablesValues();
    AssembledDateCanonical(g.day, ShortMonths[g.month], g.year);
  }

  /** Whatever the year, and whichever month lookup is used, a date
      `parseDate` returns opens with a two-digit day and a dash. */
  lemma ParsedDateOpensWithDay(raw: Option<string>, year: nat, lookup: Lookup)
    requires ParseDateWith(raw, year, lookup).Some?
    ensures OpensWithDay(ParseDateWith(raw, year, lookup).value)
  {
    var t := Normalize(raw.value);
    if LongDate(t, year, lookup).Some? {
      LongDateOpensWithDay(t, year, lookup);
    } else {
      ShortDateOpensWithDay(t, lookup);
    }
  }

  predicate OpensWithDay(d: string) {
    |d| >= 3 && IsDigit(d[0]) && IsDigit(d[1]) && d[2] == '-'
  }

  lemma LongDateOpensWithDay(t: string, year: nat, lookup: Lookup)
    requires LongDate(t, year, lookup).Some?
    ensures OpensWithDay(LongDate(t, year, lookup).value)
  {
    var g := LongCapture(t).value;
    AssembledDateOpensWithDay(g.day, lookup(LongMonths, g.month).value, NatToString(year));
  }

  lemma ShortDateOpensWithDay(t: string, lookup: Lookup)
    requires ShortDate(t, lookup).Some?
    ensures OpensWithDay(ShortDate(t, lookup).value)
  {
    var g := ShortCapture(t).value;
    AssembledDateOpensWithDay(g.day, lookup(ShortMonths, g.month).value, g.year);
  }

  lemma AssembledDateOpensWithDay(day: string, num: string, y: string)
    requires 1 <= |day| <= 2 && AllDigits(day, 0, |day|)
    ensures OpensWithDay(PadDay(day) + "-" + num + "-" + y)
  {
    assert |day| == 1 ==> PadDay(day) == "0" + day;
  }

  /** Every date `parseDate` produces in a four-digit year has the
      canonical `DD-MM-YYYY` shape. */
  lemma ParseDateFormat(raw: Option<string>, year: nat)
    requires 1000 <= year <= 9999
    requires ParseDate(raw, year).Some?
    ensures IsCanonicalDate(ParseDate(raw, year).value)
  {
    var t := Normalize(raw.value);
    if LongDate(t, year, OwnLookup).Some? {
      LongDateCanonical(t, year);
    } else {
      ShortDateCanonical(t);
    }
  }

  // ---------------------------------------------------------------------
  // The inherited-property lookup of the source, and where it differs
  // ---------------------------------------------------------------------

  /** Of the names `Object.prototype` provides, every one but
      `constructor` holds a capital or an underscore. */
  lemma InheritedNameHasCapital(w: string)
    requires w in ObjectPrototype && w != "constructor"
    ensures exists k :: 0 <= k < |w| && ('A' <= w[k] <= 'Z' || w[k] == '_')
  {
    if w == "hasOwnProperty" {
      assert 'A' <= w[3] <= 'Z';
    } else if w == "isPrototypeOf" || w == "toLocaleString" || w == "toString" {
      assert 'A' <= w[2] <= 'Z';
    } else if w == "propertyIsEnumerable" {
      assert 'A' <= w[8] <= 'Z';
    } else if w == "valueOf" {
      assert 'A' <= w[5] <= 'Z';
    } else {
      assert w[0] == '_';
    }
  }

  /** The long pattern, run on normalised text, can capture no other name
      `Object.prototype` provides than `constructor`. */
  lemma CapturedInheritedName(s: string)
    requires LongCapture(Normalize(s)).Some? && LongCapture(Normalize(s)).value.month in ObjectPrototype
    ensures LongCapture(Normalize(s)).value.month == "constructor"
  {
    var w := LongCapture(Normalize(s)).value.month;
    CapturedIsLowerCase(s);
    if w != "constructor" {
      InheritedNameHasCapital(w);
    }
  }

  /** What the long pattern captures in normalised text holds no capital. */
  lemma CapturedIsLowerCase(s: string)
    requires LongCapture(Normalize(s)).Some?
    ensures NoCapital(LongCapture(Normalize(s)).value.month)
  {
    var lo, hi := LongCaptureSlice(Normalize(s));
    LowerSliceNoCapital(Trim(s), lo, hi);
  }

  /** The captured month word is a slice of the text searched. */
  lemma LongCaptureSlice(t: string) returns (lo: nat, hi: nat)
    requires LongCapture(t).Some?
    ensures lo <= hi <= |t| && LongCapture(t).value.month == t[lo..hi]
  {
    var r := FindLong(t).value;
    var i, sp := r.0, r.1;
    LongCaptureAt(t, i, sp);
    lo := i + sp.dl + sp.s1 + 2 + sp.s2;
    hi := lo + sp.ml;
  }

  /** Three-letter words are never inherited names, so the short form
      looks up the same either way. */
  lemma ShortLookupsAgree(t: string)
    ensures ShortDate(t, JsLookup) == ShortDate(t, OwnLookup)
  {
    if ShortCapture(t).Some? {
      ThreeLetterLookup(ShortCapture(t).value.month);
    }
  }

  lemma ThreeLetterLookup(w: string)
    requires |w| == 3
    ensures JsLookup(ShortMonths, w) == OwnLookup(ShortMonths, w)
  {
  }

  /** The long form looks up differently only for a captured inherited name
      that is no month, and then yields that property's text. */
  lemma LongLookupsDiffer(t: string, year: nat)
    requires LongDate(t, year, JsLookup) != LongDate(t, year, OwnLookup)
    ensures LongCapture(t).Some?
    ensures var g := LongCapture(t).value; g.month in ObjectPrototype && g.month !in LongMonths
    ensures var g := LongCapture(t).value;
      LongDate(t, year, JsLookup) ==
        Some(PadDay(g.day) + "-" + ObjectPrototype[g.month] + "-" + NatToString(year))
  {
  }

  /** `parseDate` as written departs from the intended lookup only on a
      long-form capture of `constructor`, and what it then returns is not
      a date. */
  lemma AsWrittenDiffersOnlyOnConstructor(raw: Option<string>, year: nat)
    requires ParseDateAsWritten(raw, year) != ParseDate(raw, year)
    ensures raw.Some? && LongCapture(Normalize(raw.value)).Some?
    ensures LongCapture(Normalize(raw.value)).value.month == "constructor"
    ensures ParseDateAsWritten(raw, year).Some?
    ensures !IsCanonicalDate(ParseDateAsWritten(raw, year).value)
  {
    var t := Normalize(raw.value);
    AsWrittenDiffersInLongForm(raw, year);
    LongLookupsDiffer(t, year);
    CapturedInheritedName(raw.value);
    ConstructorDateNotCanonical(t, year);
  }

  /** A difference between the two lookups can only come from the long form. */
  lemma AsWrittenDiffersInLongForm(raw: Option<string>, year: nat)
    requires ParseDateAsWritten(raw, year) != ParseDate(raw, year)
    ensures raw.Some? && raw.value != ""
    ensures LongDate(Normalize(raw.value), year, JsLookup) != LongDate(Normalize(raw.value), year, OwnLookup)
    ensures ParseDateAsWritten(raw, year) == LongDate(Normalize(raw.value), year, JsLookup)
  {
    ShortLookupsAgree(Normalize(raw.value));
  }

  /** The long form with `constructor` captured yields no date. */
  lemma ConstructorDateNotCanonical(t: string, year: nat)
    requires LongDate(t, year, JsLookup) != LongDate(t, year, OwnLookup)
    requires LongCapture(t).Some? && LongCapture(t).value.month == "constructor"
    ensures LongDate(t, year, JsLookup).Some?
    ensures !IsCanonicalDate(LongDate(t, year, JsLookup).value)
  {
    LongLookupsDiffer(t, year);
    ConstructorInherited();
    var g := LongCapture(t).value;
    var d := LongDate(t, year, JsLookup).value;
    assert d == PadDay(g.day) + "-" + "function Object() { [native code] }" + "-" + NatToString(year);
  }

  /** The input that shows it. */
  const ConstructorInput: string := "1 de constructor"

  /** The input is already trimmed and lower-case. */
  lemma ConstructorNormalized()
    ensures Normalize(ConstructorInput) == ConstructorInput
  {
    ConstructorTrimmed();
    ConstructorLowered();
  }

  lemma ConstructorTrimmed()
    ensures Trim(ConstructorInput) == ConstructorInput
  {
    var s := ConstructorInput;
    assert "" + s + "" == s;
    TrimUnique("", s, "");
  }

  lemma ConstructorLowered()
    ensures Lower(ConstructorInput) == ConstructorInput
  {
  }

  /** The long pattern matches at the very start, with the eleven letters
      of `constructor` as its month word. */
  lemma ConstructorLongMatch()
    ensures FindLong(ConstructorInput) == Some((0, LongSpan(1, 1, 1, 11)))
  {
    var t := ConstructorInput;
    assert LongMatch(t, 0, 1, 1, 1, 11);
    LongFoundIsFound(t, 0, 1, 1, 1, 11);
  }

  /** The short pattern matches nowhere: there is a single digit. */
  lemma ConstructorNoShortMatch()
    ensures FindShort(ConstructorInput).None?
  {
    var t := ConstructorInput;
    ConstructorShortAtStart();
    ConstructorOneDigit();
    forall j | 1 <= j <= |t| ensures ShortAt(t, j).None? {
      assert DayDigits(t, j) == 0;
    }
  }

  lemma ConstructorShortAtStart()
    ensures ShortAt(ConstructorInput, 0).None?
  {
    var t := ConstructorInput;
    assert DayDigits(t, 0) == 1 && SpaceRun(t, 1) == 1;
    assert !IsAsciiLetter(t[4]);
  }

  lemma ConstructorOneDigit()
    ensures forall j :: 1 <= j < |ConstructorInput| ==> !IsDigit(ConstructorInput[j])
  {
  }

  lemma ConstructorGroups()
    ensures LongCapture(ConstructorInput) == Some(LongGroups("1", "constructor"))
    ensures ShortCapture(ConstructorInput).None?
  {
    ConstructorLongMatch();
    ConstructorNoShortMatch();
    LongCaptureAt(ConstructorInput, 0, LongSpan(1, 1, 1, 11));
    ConstructorSlices();
  }

  lemma ConstructorSlices()
    ensures ConstructorInput[0..1] == "1" && ConstructorInput[5..16] == "constructor"
  {
  }

  lemma ConstructorInherited()
    ensures "constructor" !in LongMonths && "constructor" in ObjectPrototype
    ensures ObjectPrototype["constructor"] == "function Object() { [native code] }"
  {
  }

  /** Whatever text the long pattern captures `1` and `constructor` from
      yields the inherited text as written, and no date as intended. */
  lemma ConstructorLongDate(t: string, year: nat)
    requires LongCapture(t) == Some(LongGroups("1", "constructor"))
    ensures LongDate(t, year, JsLookup)
      == Some("01" + "-" + "function Object() { [native code] }" + "-" + NatToString(year))
    ensures LongDate(t, year, OwnLookup) == None
  {
    var g := LongGroups("1", "constructor");
    ConstructorInherited();
    LongDateInherited(t, year, g);
    LongDateUnknown(t, year, g);
    assert PadDay("1") == "01";
  }

  /** `parseDate("1 de constructor")` as written returns the source text of
      `Object` in the month field; the intended lookup finds no date. */
  lemma ConstructorQuirk(year: nat)
    ensures ParseDateAsWritten(Some(ConstructorInput), year)
      == Some("01" + "-" + "function Object() { [native code] }" + "-" + NatToString(year))
    ensures ParseDate(Some(ConstructorInput), year) == None
  {
    ConstructorNormalized();
    ConstructorGroups();
    ConstructorLongDate(ConstructorInput, year);
  }
}
