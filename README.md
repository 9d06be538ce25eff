# Theatre scraper date normaliser and browser mini-games, in Dafny

This project models four small pieces of a JavaScript repository and proves
what each promises.

- **`parseDate` and the row post-processing of the theatre scraper**
  (`web-scraping-playwright/scrape.js`), in `text.dfy`, `date_parse.dfy` and
  `shows.dfy`.
  - `parseDate` trims and lower-cases a scraped Spanish date fragment. It then
    looks for a long form (`6 de agosto`, dated in the current year) and, failing
    that, a short form (`19 sep. 2025`, which carries its year). It answers
    `DD-MM-YYYY` or `null`.
  - Each regular expression is modelled twice:
    - as the set of substrings it matches (`LongMatch`, `ShortMatch`);
    - as a hand-written scanner that picks the match JavaScript reports, namely
      the leftmost start and, at that start, the greedy choice (`LongAt`,
      `FindLong`, `ShortAt`, `FindShort`).
    Lemmas prove that the two descriptions agree.
  - The capture groups are the values `LongGroups`/`ShortGroups`, taken the way
    `const [_, day, month] = …` takes them.
  - The month lookup is a parameter. `ParseDate` looks up only the tables' own
    keys. `ParseDateAsWritten` also sees what an object literal inherits from
    `Object.prototype` (see Findings).
  - The title sanitiser and the `filter`/`map` step of both scrapers are
    sequence functions over rows.
- **Tic-tac-toe** (`javascript/tres-en-raya/tresenraya.js`), in
  `tres_en_raya.dfy`.
  - The class `Tablero` holds the nine cells as an `array<Mark>`, plus the turn,
    both scores, the winner, and the two flags the handlers set.
  - Each source function is a method.
  - The methods are proved against board functions: `Wins`, `HasWinningLine`,
    `LinesWon`, `LastWinner`, `HasEmpty`, `MarkCell` and `NextTurn`.
- **Timed click game with sessions** (`javascript/game-2D/2Dgame.js`), in
  `click_game.dfy`.
  - The class `Game` holds the countdown, total and session points, the session
    counter, the timer flag, the difficulty with the piece size, and the score
    history.
  - A timer tick is a call of `Countdown`.
- **Earlier click game** (`javascript/juego-2D/juego2D.js`), in `juego2d.dfy`.
  - The class `Juego` holds the countdown, the points, the piece's width and
    height, and the level label.
  - The size steps are the functions `Shrink` and `Grow`.

The current year, which the source reads from the clock, is a parameter
(`currentYear`). `rawDate` is an `Option<string>`: `None` stands for `null`,
`undefined` or a value that is not a string.

Where the code and its surrounding description differ, the model follows the
code:
- The month tables have no `setiembre` or `set` entry, so those words give no
  date.
- `parseDate` returns `null` where its doc comment promises `undefined`.

## Model

| member | source | states |
|---|---|---|
| Text.SpaceRun | web-scraping-playwright/scrape.js:56 | the greedy `\s+` scan: every character it covers is JavaScript white space, and the next one is not |
| Text.SpaceRunExact | web-scraping-playwright/scrape.js:56 | any white-space run that cannot be extended is exactly what the scan finds |
| Text.Trim | web-scraping-playwright/scrape.js:27 | `trim()` leaves no white space at either end and never lengthens the text |
| Text.TrimUnique | web-scraping-playwright/scrape.js:27 | white space around a core that neither starts nor ends with white space is exactly what `trim()` removes |
| Text.TrimIdempotent | web-scraping-playwright/scrape.js:27 | trimming twice is trimming once |
| Text.TrimParts | web-scraping-playwright/scrape.js:27 | a string is its trimmed text with white space before and after |
| Text.TrimLower | web-scraping-playwright/scrape.js:27 | `trim()` and `toLowerCase()` commute, so normalising is idempotent |
| Text.Lower | web-scraping-playwright/scrape.js:27 | `toLowerCase()` on ASCII capitals and `Á`, other characters kept; `LowerIdempotent`, `LowerAppend` and `LowerSliceNoCapital` state its properties |
| Text.LowerIdempotent | web-scraping-playwright/scrape.js:27 | lower-casing twice is lower-casing once |
| Text.LowerSliceNoCapital | web-scraping-playwright/scrape.js:27 | no part of lower-cased text holds an ASCII capital |
| Text.LowerAppend | web-scraping-playwright/scrape.js:27 | lower-casing works character by character over a concatenation |
| Text.LowerKeepsSpace | web-scraping-playwright/scrape.js:27 | lower-casing leaves white space white space |
| Text.NatToString | web-scraping-playwright/scrape.js:63 | `${year}` prints digits only, with no leading zero, and they read back as the year |
| Text.NatToStringLength | web-scraping-playwright/scrape.js:63 | a number with k+1 digits prints as k+1 characters |
| Text.YearLength | web-scraping-playwright/scrape.js:62-63 | a four-digit year prints as four characters |
| DateParse.MonthLetterRun | web-scraping-playwright/scrape.js:52-56 | the greedy `[a-zá]+` scan covers only month letters and stops before one that is not |
| DateParse.MonthLetterRunCovers | web-scraping-playwright/scrape.js:52-56 | every run of month letters from a start is within the greedy scan |
| DateParse.DayDigits | web-scraping-playwright/scrape.js:48-56 | `\d{1,2}` takes at most two digits, and two whenever two are there |
| DateParse.Leftmost | web-scraping-playwright/scrape.js:56 | the search for the first start where a scanner succeeds reports a start at or after the first one tried, and that scanner's success there |
| DateParse.LeftmostSkips | web-scraping-playwright/scrape.js:56 | every start before the reported one, or every start at all when nothing is reported, fails |
| DateParse.LeftmostStops | web-scraping-playwright/scrape.js:56 | the search stops at the first start that succeeds |
| DateParse.Normalize | web-scraping-playwright/scrape.js:27 | `rawDate.trim().toLowerCase()`; `ParseDateNormalizes` and `Text.TrimLower` prove that normalising twice changes nothing |
| DateParse.LongAt | web-scraping-playwright/scrape.js:56 | the greedy scan of the long pattern anchored at one start; `LongAtSound` and `LongAtCorrect` prove it finds exactly the regular expression's match there |
| DateParse.LongAtSound | web-scraping-playwright/scrape.js:56 | what the long scanner reports at a start is a match of `(\d{1,2})\s+de\s+([a-zá]+)` there |
| DateParse.LongMatchAgrees | web-scraping-playwright/scrape.js:56 | every long match at a start has the scanner's day and blanks, and a month word no longer than the scanner's |
| DateParse.LongMatchDay | web-scraping-playwright/scrape.js:56 | in any long match the day is the greedy `\d{1,2}` |
| DateParse.LongMatchBlanks | web-scraping-playwright/scrape.js:56 | in any long match both blank runs are the greedy `\s+` |
| DateParse.LongAtCorrect | web-scraping-playwright/scrape.js:56 | the long scanner succeeds at a start exactly when the pattern matches there, and then it reports the regular expression's choice |
| DateParse.LongHits | web-scraping-playwright/scrape.js:56 | there is one scanner result per start position, the end of the text included |
| DateParse.FindLong | web-scraping-playwright/scrape.js:56 | the reported start lies within the text and the scanner succeeds there |
| DateParse.FindLongFirst | web-scraping-playwright/scrape.js:56 | the scanner fails at every start before the reported one |
| DateParse.FindLongCorrect | web-scraping-playwright/scrape.js:56 | `FindLong` reports exactly the leftmost, greedy match of `match(…)`, and nothing when the pattern matches nowhere |
| DateParse.FindLongNoEarlier | web-scraping-playwright/scrape.js:56 | no start before the reported one matches the pattern |
| DateParse.FindLongMatch | web-scraping-playwright/scrape.js:56 | at the reported start the pattern matches, with the longest month word |
| DateParse.LongFoundIsFound | web-scraping-playwright/scrape.js:56 | whatever match satisfies the regular expression's choice is the one `FindLong` returns |
| DateParse.LongFoundScan | web-scraping-playwright/scrape.js:56 | at the regular expression's start, the scanner reports its parts |
| DateParse.LongWord | web-scraping-playwright/scrape.js:58 | the captured month word is made of month letters only |
| DateParse.ShortAt | web-scraping-playwright/scrape.js:81 | the greedy scan of the short pattern anchored at one start; `ShortAtSound` and `ShortAtCorrect` prove it finds exactly the regular expression's match there |
| DateParse.ShortAtSound | web-scraping-playwright/scrape.js:81 | what the short scanner reports is a match of `(\d{1,2})\s+([a-z]{3})\.?\s+(\d{4})` |
| DateParse.ShortMatchAgrees | web-scraping-playwright/scrape.js:81 | a short match at a start is unique, and it is the scanner's |
| DateParse.ShortMatchDay | web-scraping-playwright/scrape.js:81 | in any short match the day is the greedy `\d{1,2}` |
| DateParse.ShortMatchBlanks | web-scraping-playwright/scrape.js:81 | in any short match the blank runs are greedy, and the dot is taken when present |
| DateParse.ShortAtCorrect | web-scraping-playwright/scrape.js:81 | the short scanner succeeds at a start exactly when the pattern matches there |
| DateParse.ShortHits | web-scraping-playwright/scrape.js:81 | there is one scanner result per start position |
| DateParse.FindShort | web-scraping-playwright/scrape.js:81 | the reported start lies within the text and the scanner succeeds there |
| DateParse.FindShortFirst | web-scraping-playwright/scrape.js:81 | the scanner fails at every start before the reported one |
| DateParse.FindShortCorrect | web-scraping-playwright/scrape.js:81 | `FindShort` reports exactly the leftmost match, and nothing when the pattern matches nowhere |
| DateParse.ShortFoundIsFound | web-scraping-playwright/scrape.js:81 | the regular expression's match is the one `FindShort` returns |
| DateParse.ShortWord | web-scraping-playwright/scrape.js:83 | the captured abbreviation is three letters |
| DateParse.ShortYear | web-scraping-playwright/scrape.js:83 | the captured year is four digits |
| DateParse.JsLookup | web-scraping-playwright/scrape.js:59-60 | the lookup as JavaScript runs it agrees with the intended one except on names `Object.prototype` provides, where it yields the inherited value |
| DateParse.PadDay | web-scraping-playwright/scrape.js:63 | `padStart(2, '0')` gives two characters for a one-digit day, ending with the day and preceded by zeros |
| DateParse.LongCapture | web-scraping-playwright/scrape.js:56-58 | the groups exist exactly when the long pattern matches: a day of one or two digits, a month word of month letters |
| DateParse.ShortCapture | web-scraping-playwright/scrape.js:81-83 | the groups exist exactly when the short pattern matches: a day of one or two digits, three letters, four digits |
| DateParse.LongCaptureAt | web-scraping-playwright/scrape.js:58 | the groups are the day and word of the match `FindLong` reports |
| DateParse.ShortCaptureAt | web-scraping-playwright/scrape.js:83 | the groups are the day, abbreviation and year of the match `FindShort` reports |
| DateParse.LongDate | web-scraping-playwright/scrape.js:56-64 | the long-form branch: the captured day padded, the looked-up month and the caller's year, or nothing when there is no match or the lookup fails; `LongFormWins` states its result for the regular expression's match |
| DateParse.ShortDate | web-scraping-playwright/scrape.js:81-87 | the short-form branch: the captured day padded, the looked-up month and the captured year; `ShortFormResult` states its result |
| DateParse.ParseDateWith | web-scraping-playwright/scrape.js:24-91 | `parseDate` with the month lookup as a parameter: no date for a missing or empty input, then the long form, then the short form |
| DateParse.ParseDate | web-scraping-playwright/scrape.js:24-91 | `parseDate` with month names looked up among the tables' own keys; `ParseDateFormat` proves every result is `DD-MM-YYYY` |
| DateParse.ParseDateAsWritten | web-scraping-playwright/scrape.js:24-91 | `parseDate` as JavaScript runs it, inherited properties included; `AsWrittenDiffersOnlyOnConstructor` proves where it departs from `ParseDate` |
| DateParse.MissingInputHasNoDate | web-scraping-playwright/scrape.js:25 | a missing, non-string or empty input yields no date |
| DateParse.ParseDateNormalizes | web-scraping-playwright/scrape.js:27 | the result equals that of the trimmed, lower-cased input |
| DateParse.LongFormWins | web-scraping-playwright/scrape.js:56-64 | when the leftmost greedy long match names a month, the result is the padded day, the month number and the caller's year, joined by `-` |
| DateParse.LongFoundCapture | web-scraping-playwright/scrape.js:56-58 | the groups are those of the regular expression's long match |
| DateParse.NoLongMatchFallsThrough | web-scraping-playwright/scrape.js:56-88 | with no long match anywhere, the short form decides |
| DateParse.UnknownLongMonthFallsThrough | web-scraping-playwright/scrape.js:57-65 | a long match whose word is no month name does not fail the parse, and the short form decides |
| DateParse.ShortFormResult | web-scraping-playwright/scrape.js:81-87 | a short match with a known abbreviation gives the padded day, the month number and the captured year verbatim |
| DateParse.ShortFoundCapture | web-scraping-playwright/scrape.js:81-83 | the groups are those of the regular expression's short match |
| DateParse.NoShortMatchIsNone | web-scraping-playwright/scrape.js:81-90 | with no short match anywhere, the short form yields no date, never an error |
| DateParse.UnknownShortMonthIsNone | web-scraping-playwright/scrape.js:84-90 | a short match with an unknown abbreviation yields no date |
| DateParse.MonthTablesValues | web-scraping-playwright/scrape.js:29-41 | every value of both tables is a month number `01`..`12` |
| DateParse.AssembledDateCanonical | web-scraping-playwright/scrape.js:63-86 | a padded day, a month number and four year digits joined by `-` form `DD-MM-YYYY` |
| DateParse.LongDateCanonical | web-scraping-playwright/scrape.js:63 | a long-form date in a four-digit year is `DD-MM-YYYY` |
| DateParse.ShortDateCanonical | web-scraping-playwright/scrape.js:86 | a short-form date is `DD-MM-YYYY` |
| DateParse.ParsedDateOpensWithDay | web-scraping-playwright/scrape.js:63-86 | in any year and with either month lookup, the intended one or the one as written, a parsed date opens with two digits and a dash |
| DateParse.LongDateOpensWithDay | web-scraping-playwright/scrape.js:63 | with either lookup, a long-form date opens with two digits and a dash |
| DateParse.ShortDateOpensWithDay | web-scraping-playwright/scrape.js:86 | with either lookup, a short-form date opens with two digits and a dash |
| DateParse.AssembledDateOpensWithDay | web-scraping-playwright/scrape.js:63 | a padded day followed by `-` opens any assembled date |
| DateParse.ParseDateFormat | web-scraping-playwright/scrape.js:24-91 | given a four-digit year, every result has length 10, `-` at indices 2 and 5, two day digits, a month `01`..`12` and four year digits |
| DateParse.InheritedNameHasCapital | web-scraping-playwright/scrape.js:59 | every name `Object.prototype` provides except `constructor` holds a capital or an underscore |
| DateParse.CapturedInheritedName | web-scraping-playwright/scrape.js:56-59 | on normalised text, the only inherited name the long pattern can capture is `constructor` |
| DateParse.CapturedIsLowerCase | web-scraping-playwright/scrape.js:27-58 | the month word captured from normalised text holds no capital |
| DateParse.LongCaptureSlice | web-scraping-playwright/scrape.js:58 | the captured month word is a slice of the searched text |
| DateParse.ShortLookupsAgree | web-scraping-playwright/scrape.js:84 | the short form looks up the same either way, since three-letter words are never inherited names |
| DateParse.ThreeLetterLookup | web-scraping-playwright/scrape.js:84 | a three-letter word looks up the same either way |
| DateParse.LongLookupsDiffer | web-scraping-playwright/scrape.js:59 | the long form differs only for a captured inherited name that is no month, and it then yields that property's text |
| DateParse.AsWrittenDiffersOnlyOnConstructor | web-scraping-playwright/scrape.js:56-63 | `parseDate` as written departs from the intended one only on a long-form capture of `constructor`, and what it then returns is not `DD-MM-YYYY` |
| DateParse.AsWrittenDiffersInLongForm | web-scraping-playwright/scrape.js:56-88 | any difference between the two lookups comes from the long form |
| DateParse.ConstructorDateNotCanonical | web-scraping-playwright/scrape.js:59-63 | the long form with `constructor` captured yields a value that is not `DD-MM-YYYY` |
| DateParse.ConstructorNormalized | web-scraping-playwright/scrape.js:27 | `1 de constructor` is already trimmed and lower-case |
| DateParse.ConstructorTrimmed | web-scraping-playwright/scrape.js:27 | `1 de constructor` has no white space to trim |
| DateParse.ConstructorLowered | web-scraping-playwright/scrape.js:27 | `1 de constructor` has no capital to lower |
| DateParse.ConstructorLongMatch | web-scraping-playwright/scrape.js:56 | in `1 de constructor` the long pattern matches at the start, with an eleven-letter word |
| DateParse.ConstructorNoShortMatch | web-scraping-playwright/scrape.js:81 | in `1 de constructor` the short pattern matches nowhere |
| DateParse.ConstructorShortAtStart | web-scraping-playwright/scrape.js:81 | at the start of `1 de constructor` the short pattern fails |
| DateParse.ConstructorGroups | web-scraping-playwright/scrape.js:58-83 | `1 de constructor` captures day `1` and month `constructor`, and no short-form groups |
| DateParse.ConstructorInherited | web-scraping-playwright/scrape.js:29-34 | `constructor` is not a month name but is inherited, with the text of `Object` |
| DateParse.ConstructorLongDate | web-scraping-playwright/scrape.js:59-63 | a capture of `1` and `constructor` yields `01-function Object() { [native code] }-<year>` as written, and no date as intended |
| DateParse.ConstructorQuirk | web-scraping-playwright/scrape.js:24-63 | `parseDate("1 de constructor")` as written returns the source text of `Object` as its month, while the intended lookup returns no date |
| Shows.SanitizeTitle | web-scraping-playwright/scrape.js:123 | the sanitiser keeps the length, turns each of `\ / : * ? " < > \|` into `_`, keeps every other character, and leaves no reserved character |
| Shows.SanitizeKeepsSafeTitle | web-scraping-playwright/scrape.js:123 | a title without reserved characters is unchanged |
| Shows.SanitizeIdempotent | web-scraping-playwright/scrape.js:123 | sanitising twice is sanitising once |
| Shows.SanitizeAppend | web-scraping-playwright/scrape.js:123 | the sanitiser distributes over concatenation |
| Shows.DateOrDefault | web-scraping-playwright/scrape.js:168 | `value \|\| 'Sin fecha'` on what `parseDate` returns; `DefaultOnlyWhenMissing` proves it falls back exactly when there is no date |
| Shows.Dated | web-scraping-playwright/scrape.js:166-169 | `{ ...show, date }` keeps every field of the row; the date comes from `parseDate` as the program runs it, inherited month names included |
| Shows.DatedDate | web-scraping-playwright/scrape.js:168 | a row's date is what `parseDate(rawDate)` returns as written, when it returns something, and `Sin fecha` exactly when it returns `null` |
| Shows.DatedDateShape | web-scraping-playwright/scrape.js:168 | in a four-digit year a row's date is `Sin fecha` or `DD-MM-YYYY`, unless its raw date's long form captures `constructor` |
| Shows.DefaultOnlyWhenMissing | web-scraping-playwright/scrape.js:168 | `\|\| 'Sin fecha'` falls back exactly when there is no parsed date |
| Shows.KeepTitled | web-scraping-playwright/scrape.js:165 | `filter(show => show.title)` keeps exactly the rows with a non-empty title |
| Shows.KeepTitledAppend | web-scraping-playwright/scrape.js:165 | the filter keeps the rows' order |
| Shows.KeepTitledAll | web-scraping-playwright/scrape.js:165 | rows that all have titles pass unchanged |
| Shows.Pipeline | web-scraping-playwright/scrape.js:164-169 | the `filter` then `map` step both scrapers run; `PipelineShows`, `PipelineOneRow` and `PipelineAppend` state what it keeps and in what order |
| Shows.PipelineAppend | web-scraping-playwright/scrape.js:164-169 | the filter/map step of either scraper handles a list piece by piece, in order |
| Shows.AttachDatesAppend | web-scraping-playwright/scrape.js:166-169 | the `map` distributes over concatenation |
| Shows.PipelineOneRow | web-scraping-playwright/scrape.js:198-203 | one row gives one dated show when titled, and none otherwise |
| Shows.PipelineShows | web-scraping-playwright/scrape.js:198-203 | each resulting show has a title and is a titled input row with its date attached; the date is `Sin fecha` exactly when `parseDate`, as written, returns `null` for the row's raw date |
| TresEnRaya.Wins | javascript/tres-en-raya/tresenraya.js:100-108 | one line holds three equal marks that are not empty, the test each block of `verificarJugada` makes |
| TresEnRaya.LinesWon | javascript/tres-en-raya/tresenraya.js:100-178 | a mark's points from the first n line checks; `WinnerScores` and `TwoLinesScoreTwo` state its properties |
| TresEnRaya.LastWinner | javascript/tres-en-raya/tresenraya.js:100-178 | `ganador` after the first n line checks; `LastWinnerWon` proves it is the mark of a complete line |
| TresEnRaya.MarkCell | javascript/tres-en-raya/tresenraya.js:57-64 | the board after `marcar`; `MarkCellChanges` and `MarkCellEmptyCount` state what changes |
| TresEnRaya.NextTurn | javascript/tres-en-raya/tresenraya.js:70-77 | the turn switch always gives a turn that is not empty and differs from the current one |
| TresEnRaya.NextTurnTwice | javascript/tres-en-raya/tresenraya.js:70-77 | two switches restore the turn |
| TresEnRaya.MarkCellChanges | javascript/tres-en-raya/tresenraya.js:57-64 | marking writes the turn only into an empty cell; an occupied cell and every other cell are unchanged |
| TresEnRaya.MarkCellEmptyCount | javascript/tres-en-raya/tresenraya.js:57-64 | marking an empty cell uses up exactly one empty cell, and clicking an occupied one uses up none |
| TresEnRaya.UpdateEmptyCount | javascript/tres-en-raya/tresenraya.js:61 | writing a mark into an empty cell lowers the count of empty cells by one |
| TresEnRaya.HasEmptyCount | javascript/tres-en-raya/tresenraya.js:231-243 | some cell is empty exactly when the count of empty cells is positive |
| TresEnRaya.LinesWonPositive | javascript/tres-en-raya/tresenraya.js:100-178 | among the lines checked, some is complete exactly when X or O scores a line |
| TresEnRaya.WinnerScores | javascript/tres-en-raya/tresenraya.js:86-185 | there is a winner exactly when the check scores at least one point |
| TresEnRaya.LastWinnerWon | javascript/tres-en-raya/tresenraya.js:100-178 | when a line is complete, `ganador` is the mark of a complete line |
| TresEnRaya.LinesWonMonotone | javascript/tres-en-raya/tresenraya.js:100-178 | checking more lines never lowers a mark's score |
| TresEnRaya.TwoLinesScoreTwo | javascript/tres-en-raya/tresenraya.js:100-178 | on any board, a mark that completes two of the eight lines scores at least two points in one check |
| TresEnRaya.WinningLineCases | javascript/tres-en-raya/tresenraya.js:100-180 | a winning line exists exactly when one of the eight checks succeeds |
| TresEnRaya.ClearedBoardOpen | javascript/tres-en-raya/tresenraya.js:215-223 | a cleared board has no winner and an empty cell, so it is no draw |
| TresEnRaya.Tablero.constructor | javascript/tres-en-raya/tresenraya.js:8-14 | the page starts with empty cells, `X` to play and no points |
| TresEnRaya.Tablero.Marcar | javascript/tres-en-raya/tresenraya.js:57-64 | the board becomes the marked board, with the current turn's mark going into the clicked cell only if it was empty |
| TresEnRaya.Tablero.CambiarTurno | javascript/tres-en-raya/tresenraya.js:70-77 | `X` and `O` alternate |
| TresEnRaya.Tablero.ActualizarMarcador | javascript/tres-en-raya/tresenraya.js:251-265 | one point goes to `X` for an `X`, otherwise to `O`, and the other score is unchanged |
| TresEnRaya.Tablero.GanadorEncontrado | javascript/tres-en-raya/tresenraya.js:198-208 | the mark of the line's first cell scores one point |
| TresEnRaya.Tablero.VerificarLinea | javascript/tres-en-raya/tresenraya.js:100-108 | one more line is checked: if it is complete, its mark scores and becomes `ganador`, and the flag is raised |
| TresEnRaya.Tablero.VerificarJugada | javascript/tres-en-raya/tresenraya.js:86-185 | the result is true exactly when one of the eight lines holds three equal non-empty marks; each complete line adds a point to its mark; `ganador` is the last complete line's mark; no cell changes |
| TresEnRaya.Tablero.VaciarTablero | javascript/tres-en-raya/tresenraya.js:215-223 | every cell is empty and `X` is to play |
| TresEnRaya.Tablero.EstaVacioElTablero | javascript/tres-en-raya/tresenraya.js:231-243 | the result is true exactly when at least one cell is empty |
| TresEnRaya.Tablero.Click | javascript/tres-en-raya/tresenraya.js:24-43 | a click marks the cell if it was empty and scores the complete lines; `ganador` is the last complete line's mark, the win flag says whether a line is complete, and the empty flag whether a cell is empty; a draw is declared exactly when no line is complete and no cell is empty; the turn always switches, even after a click on an occupied cell |
| ClickGame.SizeOf | javascript/game-2D/2Dgame.js:17-30 | `DIFFICULTY_LEVELS[level].size`; `SizeByRank` states it |
| ClickGame.Harder | javascript/game-2D/2Dgame.js:240-252 | the level `increaseDifficulty` moves to; `LadderSteps`, `LadderRoundTrip` and `LadderEnds` state its properties |
| ClickGame.Easier | javascript/game-2D/2Dgame.js:257-269 | the level `decreaseDifficulty` moves to; `LadderSteps`, `LadderRoundTrip` and `LadderEnds` state its properties |
| ClickGame.LadderSteps | javascript/game-2D/2Dgame.js:240-269 | increasing climbs one level and stays at `hard`; decreasing goes down one level and stays at `easy` |
| ClickGame.SizeByRank | javascript/game-2D/2Dgame.js:17-30 | the piece is 70, 50 or 30 pixels for easy, normal or hard |
| ClickGame.LadderRoundTrip | javascript/game-2D/2Dgame.js:240-269 | a step up is undone by a step down, and the other way round, except at the ends |
| ClickGame.LadderEnds | javascript/game-2D/2Dgame.js:240-269 | two steps up from anywhere reach `hard`, and two steps down reach `easy` |
| ClickGame.Game.constructor | javascript/game-2D/2Dgame.js:34-40 | the game starts with no time, no points, no session, the timer off, `normal` at 50 pixels and an empty history |
| ClickGame.Game.SetDifficulty | javascript/game-2D/2Dgame.js:154-158 | the level is set and the piece takes that level's size |
| ClickGame.Game.IncreaseDifficulty | javascript/game-2D/2Dgame.js:240-252 | the level steps easy to normal to hard, and hard stays hard; the size follows |
| ClickGame.Game.DecreaseDifficulty | javascript/game-2D/2Dgame.js:257-269 | the level steps hard to normal to easy, and easy stays easy; the size follows |
| ClickGame.Game.HandleDifficultyIncrease | javascript/game-2D/2Dgame.js:214-220 | while the timer is on the level does not change; otherwise it steps up |
| ClickGame.Game.HandleDifficultyDecrease | javascript/game-2D/2Dgame.js:222-228 | while the timer is on the level does not change; otherwise it steps down |
| ClickGame.Game.StartNewSession | javascript/game-2D/2Dgame.js:74-93 | the session counter grows by one, session points are zero, the time is 20 and the timer is on |
| ClickGame.Game.HandleSession | javascript/game-2D/2Dgame.js:66-72 | a new session starts only when the timer is off; otherwise nothing changes |
| ClickGame.Game.AddToScoreHistory | javascript/game-2D/2Dgame.js:121-131 | the new record (score, difficulty, session) goes to the front of the history |
| ClickGame.Game.EndSession | javascript/game-2D/2Dgame.js:108-116 | the timer stops and the session's points, level and number go to the front of the history, which stays newest first |
| ClickGame.Game.Countdown | javascript/game-2D/2Dgame.js:95-106 | a positive time drops by one; at zero the timer stops and the session is recorded; time never goes negative |
| ClickGame.Game.PieceClick | javascript/game-2D/2Dgame.js:196-212 | the time left is added to both scores; with time left the countdown restarts at 20 and the level steps up; with none a new session starts |
| Juego2D.Shrink | javascript/juego-2D/juego2D.js:101-110 | the size `subirDificultad` leaves; `StepsKeepStandard`, `GrowAfterShrink` and `ShrinkFloor` state its properties |
| Juego2D.Grow | javascript/juego-2D/juego2D.js:142-151 | the size `bajarDificultad` leaves; `StepsKeepStandard` and `ShrinkAfterGrow` state its properties |
| Juego2D.ShrunkLabel | javascript/juego-2D/juego2D.js:112-122 | the label after shrinking: `normal` at width 50, `difícil` otherwise |
| Juego2D.GrownLabel | javascript/juego-2D/juego2D.js:152-162 | the label after growing: `normal` at width 50, `fácil` otherwise |
| Juego2D.StepsKeepStandard | javascript/juego-2D/juego2D.js:94-166 | starting square at 30, 50 or 70, both steps stay square and in that set |
| Juego2D.GrowAfterShrink | javascript/juego-2D/juego2D.js:101-166 | growing undoes shrinking for any size whose sides are between 30 and 90, so from 50 and from 70 |
| Juego2D.ShrinkAfterGrow | javascript/juego-2D/juego2D.js:101-166 | shrinking undoes growing for any size whose sides are between 10 and 70 |
| Juego2D.StandardRoundTrip | javascript/juego-2D/juego2D.js:101-166 | from a standard size above 30, lowering after raising the difficulty restores the size; at 30, raising changes nothing |
| Juego2D.ShrinkFloor | javascript/juego-2D/juego2D.js:101-110 | shrinking never takes a side to 10 pixels or less, and never below 30 from a standard size |
| Juego2D.Juego.constructor | javascript/juego-2D/juego2D.js:14-15 | the countdown starts at 20 and the points at 0 |
| Juego2D.Juego.CuentaAtras | javascript/juego-2D/juego2D.js:60-67 | a positive time drops by one, otherwise it is left alone, so it never goes negative |
| Juego2D.Juego.SubirDificultad | javascript/juego-2D/juego2D.js:101-126 | both sides shrink by 20 only when both exceed 30; the label is then `normal` if the new width is 50 and `difícil` otherwise |
| Juego2D.Juego.BajarDificultad | javascript/juego-2D/juego2D.js:142-166 | both sides grow by 20 only when both are below 70; the label is then `normal` if the new width is 50 and `fácil` otherwise |
| Juego2D.Juego.FichaClick | javascript/juego-2D/juego2D.js:75-85 | the time left is added to the points, the time is reset to 20, the piece shrinks, and the label follows the new width when it shrank |

## Left out

- Browser automation and page extraction are left out: the browser launch, navigation, `$$eval` and waits (web-scraping-playwright/scrape.js:138-162, 175-196, 209-227). They are calls into a library and I/O. The rows they produce are inputs of `Shows.Pipeline`.
- Image download, directory creation and the JSON file written at the end are left out (web-scraping-playwright/scrape.js:95-135, 220). They are network and file I/O. The file extension from `new URL(...)`/`path.extname` is a library call. Only the sanitised title of `processImages` is modelled.
- `new Date().getFullYear()` is a clock read. It becomes the `currentYear` parameter.
- Full Unicode `toLowerCase` is left out. `Text.Lower` lowers only ASCII capitals and `Á`. Characters such as the Kelvin sign or a dotted capital I, which lower-case to ASCII letters or to two characters, are not modelled.
- Every character class of both patterns is modelled exactly, but no general regular-expression engine is.
- `DateParse.LongCapture` and `DateParse.ShortCapture`: these model the groups only for the two fixed patterns, not `String.prototype.match` in general.
- Tic-tac-toe: rendering is left out. That covers the colours, `alert`, `console.log` and the score text written into the page.
- Tic-tac-toe: the two-second delayed `vaciarTablero` after a win or a draw is not part of `Click`. It is a separate call of `VaciarTablero`.
- Tic-tac-toe: the page's markup is not part of this model. The nine cells are taken to be the page's only `div` elements, in the order `c1`..`c9`.
- Click games: `changePosition` and `cambiarUbicacion` are left out. They use `Math.random` and only move the piece on the screen.
- Click games: `setInterval` and `setTimeout` scheduling is left out. A tick is an explicit call. So is the three-second difficulty message, `updateScoreDisplay` and the colours.
- Click games: the score record's `toLocaleTimeString` timestamp is a clock read and is dropped.
- ClickGame.Game.Countdown: clearing the interval is not modelled. The interval runs exactly while `isTimerOn` holds, and `Countdown` does what the source's function does whenever it is called.
- Juego2D.Juego.FichaClick: `fichaClick` writes the score into `marcador`, a name the script never declares. It reaches the page element with id `marcador` only through the browser's named access to elements. The model assumes that element exists. Without it the handler stops with an error after adding the points, and the time, the size and the label stay as they were; that case is not modelled.
- Juego2D.Juego.constructor: the piece's initial size and label come from the page's style sheet and markup, which are not part of this model, so they are parameters. `offsetWidth` is taken to equal the width set in the style, with no border or padding.

## Findings

| source | as written | input that shows it | evidently intended | confidence | as-written member | corrected member |
|---|---|---|---|---|---|---|
| web-scraping-playwright/scrape.js:59 | `longMonthNames[month]` looks the captured word up on an object literal, which also finds the properties it inherits from `Object.prototype` | `parseDate("1 de constructor")` returns `01-function Object() { [native code] }-<year>` instead of falling through to the short form and returning `null` | only the twelve month names are keys, so every other word gives no long-form date | high; not executed | DateParse.ConstructorQuirk | DateParse.ParseDateFormat |

Other inherited names cannot be reached, because every other one holds a capital
or an underscore and the input is lower-cased first
(`DateParse.CapturedInheritedName`). The short form cannot be affected either,
because no inherited name has three letters (`DateParse.ShortLookupsAgree`).
`DateParse.AsWrittenDiffersOnlyOnConstructor` proves that this one input shape is
the only difference between `DateParse.ParseDate`, which uses the corrected
lookup, and the code as written. The scrapers' rows (`Shows.Dated`) keep the
lookup as written, as the program does; `Shows.DatedDateShape` proves that this
is the only way a row's date can be neither `Sin fecha` nor `DD-MM-YYYY`.
