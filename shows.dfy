/**
 * The pure post-processing of scraped rows in web-scraping-playwright/scrape.js:
 * the file-name sanitiser applied to a show's title before its poster is
 * saved, and the `filter`/`map` step both scrapers run on the rows the page
 * extraction returns.
 */
module Shows {
  import opened Text
  import opened DateParse

  // ---------------------------------------------------------------------
  // Title sanitiser: `show.title.replace(/[\\/:*?"<>|]/g, '_')`
  // ---------------------------------------------------------------------

  /** The characters the sanitiser's class `[\\/:*?"<>|]` names. */
  predicate IsReserved(c: char) {
    c == '\\' || c == '/' || c == ':' || c == '*' || c == '?'
    || c == '"' || c == '<' || c == '>' || c == '|'
  }

  /** Every reserved character becomes `_`; every other one stays. */
  function SanitizeTitle(title: string): (r: string)
    ensures |r| == |title|
    ensures forall k :: 0 <= k < |r| ==> !IsReserved(r[k])
    ensures forall k :: 0 <= k < |r| ==> if IsReserved(title[k]) then r[k] == '_' else r[k] == title[k]
  {
    seq(|title|, k requires 0 <= k < |title| => if IsReserved(title[k]) then '_' else title[k])
  }

  /** A title free of reserved characters is left exactly as it is. */
  lemma SanitizeKeepsSafeTitle(title: string)
    requires forall k :: 0 <= k < |title| ==> !IsReserved(title[k])
    ensures SanitizeTitle(title) == title
  {
  }

  /** Sanitising a sanitised title changes nothing. */
  lemma SanitizeIdempotent(title: string)
    ensures SanitizeTitle(SanitizeTitle(title)) == SanitizeTitle(title)
  {
    SanitizeKeepsSafeTitle(SanitizeTitle(title));
  }

  /** The sanitiser works character by character, so it distributes over
      concatenation. */
  lemma SanitizeAppend(a: string, b: string)
    ensures SanitizeTitle(a + b) == SanitizeTitle(a) + SanitizeTitle(b)
  {
    var l, r := SanitizeTitle(a + b), SanitizeTitle(a) + SanitizeTitle(b);
    forall k | 0 <= k < |l| ensures l[k] == r[k] {
      if k < |a| {
        assert (a + b)[k] == a[k];
      } else {
        assert (a + b)[k] == b[k - |a|];
      }
    }
  }

  // ---------------------------------------------------------------------
  // Rows and the filter/map pipeline
  // ---------------------------------------------------------------------

  /** A row as the page extraction returns it: the title is already trimmed
      (or `''`), the raw date is a string (or `''`), the time and image may
      be `null`. */
  datatype RawShow = RawShow(
    title: string, rawDate: string, time: Option<string>, venue: string, image: Option<string>)

  /** A row after the `map`: `{ ...show, date }`. */
  datatype Show = Show(
    title: string, rawDate: string, time: Option<string>, venue: string, image: Option<string>,
    date: string)

  const NoDate := "Sin fecha"

  /** `value || 'Sin fecha'` on what `parseDate` returns: a falsy value
      (`null` or the empty string) gives way to the default. */
  function DateOrDefault(d: Option<string>): string {
    if d.Some? && d.value != "" then d.value else NoDate
  }

  /** The `map` callback: the row spread into a new object plus its date,
      computed by `parseDate` as the program runs it. */
  function Dated(s: RawShow, year: nat): (r: Show)
    ensures r.title == s.title && r.rawDate == s.rawDate && r.time == s.time
    ensures r.venue == s.venue && r.image == s.image
  {
    Show(s.title, s.rawDate, s.time, s.venue, s.image,
         DateOrDefault(ParseDateAsWritten(Some(s.rawDate), year)))
  }

  /** The date a row gets: the parsed date when there is one, `Sin fecha`
      exactly when `parseDate` finds none. */
  lemma DatedDate(s: RawShow, year: nat)
    ensures ParseDateAsWritten(Some(s.rawDate), year).Some? ==>
      Dated(s, year).date == ParseDateAsWritten(Some(s.rawDate), year).value
    ensures Dated(s, year).date == NoDate <==> ParseDateAsWritten(Some(s.rawDate), year).None?
  {
    var d := ParseDateAsWritten(Some(s.rawDate), year);
    if d.Some? {
      ParsedDateOpensWithDay(Some(s.rawDate), year, JsLookup);
    }
    DefaultOnlyWhenMissing(d);
  }

  /** In a four-digit year every row's date is `Sin fecha` or `DD-MM-YYYY`,
      except when the long form captures `constructor`, the one word the
      month table inherits. */
  lemma DatedDateShape(s: RawShow, year: nat)
    requires 1000 <= year <= 9999
    ensures || Dated(s, year).date == NoDate
            || IsCanonicalDate(Dated(s, year).date)
            || (LongCapture(Normalize(s.rawDate)).Some? &&
                LongCapture(Normalize(s.rawDate)).value.month == "constructor")
  {
    var raw := Some(s.rawDate);
    DatedDate(s, year);
    if ParseDateAsWritten(raw, year) != ParseDate(raw, year) {
      AsWrittenDiffersOnlyOnConstructor(raw, year);
    } else if ParseDate(raw, year).Some? {
      ParseDateFormat(raw, year);
    }
  }

  /** On values shaped like a parsed date, `||` falls back to `Sin fecha`
      exactly when there is no value. */
  lemma DefaultOnlyWhenMissing(d: Option<string>)
    requires d.Some? ==> OpensWithDay(d.value)
    ensures d.Some? ==> DateOrDefault(d) == d.value
    ensures DateOrDefault(d) == NoDate <==> d.None?
  {
    assert NoDate[2] == 'n';
  }

  /** `.filter(show => show.title)`: the rows with a non-empty title. */
  function KeepTitled(raws: seq<RawShow>): (r: seq<RawShow>)
    ensures |r| <= |raws|
    ensures forall s :: s in r <==> s in raws && s.title != ""
  {
    if raws == [] then []
    else (if raws[0].title != "" then [raws[0]] else []) + KeepTitled(raws[1..])
  }

  /** The filter keeps the order of the rows: filtering a concatenation is
      concatenating the filtered parts. */
  lemma {:induction false} KeepTitledAppend(a: seq<RawShow>, b: seq<RawShow>)
    ensures KeepTitled(a + b) == KeepTitled(a) + KeepTitled(b)
  {
    if a != [] {
      assert (a + b)[0] == a[0];
      assert (a + b)[1..] == a[1..] + b;
      KeepTitledAppend(a[1..], b);
    } else {
      assert a + b == b;
    }
  }

  /** Rows that all have titles pass unchanged; a row without one is
      dropped. */
  lemma {:induction false} KeepTitledAll(raws: seq<RawShow>)
    requires forall k :: 0 <= k < |raws| ==> raws[k].title != ""
    ensures KeepTitled(raws) == raws
  {
    if raws != [] {
      KeepTitledAll(raws[1..]);
    }
  }

  /** The `map`: one dated show per row, in the same order. */
  function AttachDates(rows: seq<RawShow>, year: nat): (r: seq<Show>)
    ensures |r| == |rows|
    ensures forall k :: 0 <= k < |r| ==> r[k] == Dated(rows[k], year)
  {
    seq(|rows|, k requires 0 <= k < |rows| => Dated(rows[k], year))
  }

  /** What both scrapers do with the extracted rows in a given year. */
  function Pipeline(raws: seq<RawShow>, year: nat): seq<Show> {
    AttachDates(KeepTitled(raws), year)
  }

  /** The pipeline keeps exactly the titled rows, in order, each with its
      fields and its date: a concatenation of row lists (as the two
      scrapers' results are joined) goes through it piece by piece. */
  lemma PipelineAppend(a: seq<RawShow>, b: seq<RawShow>, year: nat)
    ensures Pipeline(a + b, year) == Pipeline(a, year) + Pipeline(b, year)
  {
    KeepTitledAppend(a, b);
    AttachDatesAppend(KeepTitled(a), KeepTitled(b), year);
  }

  lemma AttachDatesAppend(x: seq<RawShow>, y: seq<RawShow>, year: nat)
    ensures AttachDates(x + y, year) == AttachDates(x, year) + AttachDates(y, year)
  {
    var l, r := AttachDates(x + y, year), AttachDates(x, year) + AttachDates(y, year);
    forall k | 0 <= k < |l| ensures l[k] == r[k] {
      if k < |x| {
        assert (x + y)[k] == x[k];
      } else {
        assert (x + y)[k] == y[k - |x|];
      }
    }
  }

  /** One row goes through as one dated show or not at all. */
  lemma PipelineOneRow(s: RawShow, year: nat)
    ensures s.title != "" ==> Pipeline([s], year) == [Dated(s, year)]
    ensures s.title == "" ==> Pipeline([s], year) == []
  {
    assert [s][1..] == [];
  }

  /** Every show the pipeline returns has a title, carries the fields of a
      titled input row and a date that is `Sin fecha` exactly when that
      row's raw date does not parse. */
  lemma PipelineShows(raws: seq<RawShow>, year: nat)
    ensures forall sh :: sh in Pipeline(raws, year) ==>
      sh.title != "" &&
      exists s :: s in raws && s.title != "" && sh == Dated(s, year)
    ensures forall sh :: sh in Pipeline(raws, year) ==>
      (sh.date == NoDate <==> ParseDateAsWritten(Some(sh.rawDate), year).None?)
  {
    var kept := KeepTitled(raws);
    forall sh | sh in Pipeline(raws, year)
      ensures sh.title != "" && exists s :: s in raws && s.title != "" && sh == Dated(s, year)
      ensures sh.date == NoDate <==> ParseDateAsWritten(Some(sh.rawDate), year).None?
    {
      var k :| 0 <= k < |kept| && Pipeline(raws, year)[k] == sh;
      assert kept[k] in kept;
      DatedDate(kept[k], year);
    }
  }
}
