# Training-block grid codec in Dafny

A model of the grid codec of the training-block planner. A training plan lives in a
spreadsheet exported as CSV. After CSV parsing, the grid is a sequence of rows of
cells. Rows 0-8 are a preamble, row 9 is the header and the weeks start at row 10.

The codec has three parts:

- **Layout detection.** A header row with 15 cells or more selects the *Shifted*
  layout, which has two spacer columns (7 and 10). Any other grid uses the
  *Standard* layout. The reader and the writer each carry a column table, and
  the model proves that the two agree.
- **`extractDistance`.** It turns a workout description ("400m + 3k",
  "13 Ez", "3 x 2k") into kilometres:
  - meters are rewritten as kilometres;
  - run types such as "13 Ez" are rewritten as "13k";
  - the text is cut at every '+';
  - each segment counts its multiplications, or its plain distances when it
    has no multiplication;
  - the total is rounded to a tenth.
- **`getWeeksFromRaw` and `updateRawData`.**
  - `getWeeksFromRaw` projects the data rows into training weeks. It skips short
    rows and drops the blank week.
  - `updateRawData(rows, weekIndex, week)` writes five fields of `week` into
    row 10 + weekIndex of a copy of the grid. When neither that row nor any
    data row before it was skipped or left out, this is the row the
    `weekIndex`-th projected week came from. A caller that passes a week's position in the list returned by
    `getWeeksFromRaw` gets the matching row only in that case. This is the
    precondition of `Updater.UpdateThenProject`. A row skipped for having fewer
    than five cells comes back padded to 13 or 15 cells
    (`Updater.EditRowConsidered`), so the projection of the updated grid can
    gain a week.

Module by module:

- `Layout` (layout.dfy) holds the layouts and their column maps.
- `Text` (text.dfy) holds the character classes, greedy runs, the value
  `parseFloat` gives a literal, and `String(n / 1000)`.
- `Regexes` (regexes.dfy) holds the four regular expressions, as "match at
  position i" functions.
- `Scan` (scan.dfy) holds the leftmost-first scans of a global regular
  expression: `replace`, the `exec` loop and `split`.
- `Patterns` (patterns.dfy) dispatches the four patterns by name and proves what
  their rewrites preserve.
- `Extraction` (distance.dfy) holds `extractDistance` as a function and as the
  source's loops.
- `Projection` (weeks.dfy) holds `getWeeksFromRaw`.
- `Updater` (update.dfy) holds `updateRawData` and the update-then-project
  theorem.
- `Worked` (worked.dfy) holds the description shapes and the worked values.

Where the source runs a loop, the model has a `method` with the same loop,
proved equal to a specification function. The properties are proved about that
function. This applies to:

- the `exec` loops, `for (const segment of segments)` and `extractDistance`;
- the row loop of `getWeeksFromRaw`;
- the padding loop of `updateRawData`.

A week whose weeks-until-race is 0 and whose first workout is blank is left out
of the projection. The loop goes on after it, and a later row still yields its
week (`Projection.BlankWeekDoesNotStop`).

## Model

| member | source | states |
|---|---|---|
| Options.Option | src/lib/parser.ts:5-17 | A value that may be `undefined`: the optional `actualMileage` and `difference` of a week, and what `getNum` returns for a missing, empty or unparsable cell |
| Options.GetOr | src/lib/parser.ts:134-146 | The value, or the default when there is none. With `parseFloat`'s NaN read as none, this is the `getNum(idx)` with a 0 default of those lines: JavaScript's logical-or default differs from the number itself only at NaN, and at 0 and -0, which it maps to 0 |
| Layout.Row | src/lib/parser.ts:20-27 | One row of the `string[][]` grid: a sequence of cells |
| Layout.Grid | src/lib/parser.ts:82 | The `string[][]` grid that `getWeeksFromRaw` and `updateRawData` take |
| Layout.HeaderRow | src/lib/parser.ts:85 | The header row `rawRows[9]`, whose length picks the layout |
| Layout.Variant | src/lib/parser.ts:86-87 | `isShiftedLayout`: the Standard or the Shifted layout |
| Layout.ColumnMap | src/lib/parser.ts:89-114 | The reader's `IDX` object: one column per field of a week |
| Layout.Indices | src/lib/parser.ts:89-114 | The ten columns of an `IDX` table in field order; Layout.Columns states that they are distinct and inside the layout's width |
| Layout.Written | src/lib/parser.ts:166-178 | The five columns the updater writes; Layout.Columns states that none of the five read-only columns is among them |
| Layout.Detect | src/lib/parser.ts:85-87 | The layout is Shifted exactly when row 9 exists and has at least 15 cells; a grid without row 9 is Standard |
| Layout.Columns | src/lib/parser.ts:89-114 | The ten columns of each layout are distinct, all lie in 3..MinCols-1, the Shifted map skips spacer columns 7 and 10, and the five read-only columns are not among the written ones |
| Layout.MinCols | src/lib/parser.ts:185 | `minCols`: 13 cells for the Standard layout and 15 for the Shifted one; the widths `Updater.EditRow` and `Updater.EditRowConsidered` promise |
| Updater.Show | src/lib/parser.ts:189-195 | `String(number)`, taken as a parameter |
| Updater.WriteMap | src/lib/parser.ts:166-178 | The updater's `IDX` object: its five columns |
| Updater.RoundTrips | src/lib/parser.ts:189-195 | The hypothesis of the read-back theorems: `parseFloat` reads nothing from "" and reads back what `String` writes for the week's actual mileage and difference |
| Updater.WithEdits | src/lib/parser.ts:189-195 | A week with the five fields the updater writes taken from the edited week: actual mileage, difference, notes and the two workout notes |
| Updater.SameColumns | src/lib/parser.ts:163-178 | The updater's own column table equals the reader's table on the five fields it writes, for the layout detected from the same header row |
| Text.IsDigit | src/lib/parser.ts:36-48 | `\d`: the characters '0' to '9' |
| Text.IsWordChar | src/lib/parser.ts:36-42 | The `\w` behind `\b` in a non-unicode pattern: ASCII letters, ASCII digits and '_' |
| Text.SameLetter | src/lib/parser.ts:36-48 | The case folding of a non-unicode `/i` pattern for the ASCII letters the patterns name: the letter or its ASCII upper-case form, and no other character |
| Text.IsTimes | src/lib/parser.ts:45 | `[x×*]` under `/i`: 'x', 'X', '×' or '*' |
| Text.IsDecimal | src/lib/parser.ts:42-48 | A whole `\d+(?:\.\d+)?` literal: non-empty and read to its end by Text.Number |
| Text.NatValue | src/lib/parser.ts:37 | `parseFloat` of a digit string: its base-ten value, leading zeros allowed; Text.NatToString states that it reads back `String(n)` as n |
| Text.FractionValue | src/lib/parser.ts:63-74 | The value of the digits after the decimal point of a captured literal |
| Text.NatAt | src/lib/parser.ts:37 | `parseFloat` of the `(\d+)` capture, and of the `([0-9]+)` capture at line 63, read in place: the base-ten value of the digits between two positions |
| Text.Kilometres | src/lib/parser.ts:37 | The `/ 1000` that turns meters into kilometres |
| Text.IsSpace | src/lib/parser.ts:36-48 | The `\s` class of JavaScript: the ASCII white space, no-break space, the Unicode space separators, the line and paragraph separators and the byte-order mark |
| Text.WordEnd | src/lib/parser.ts:36-42 | `\b` after a word character: the end of the text or a character that is not an ASCII letter, ASCII digit or '_' |
| Text.Digits | src/lib/parser.ts:36-48 | The greedy `\d+` run: it stays inside the text and stops before a character that is not a digit |
| Text.Spaces | src/lib/parser.ts:36-48 | The greedy `\s*` run: it stays inside the text and stops before a character that is not white space |
| Text.Number | src/lib/parser.ts:42 | `\d+(?:\.\d+)?` is empty exactly when no digit starts there, and is never followed by a digit |
| Text.NatToString | src/lib/parser.ts:37 | `String(n)` of a natural number is a non-empty digit string whose value is n |
| Text.Thousandths | src/lib/parser.ts:37 | `String(n / 1000)` is a decimal literal whose `parseFloat` value is exactly n / 1000 |
| Text.DecimalValue | src/lib/parser.ts:63-74 | `parseFloat` of a decimal literal (also of the digits at line 37): its whole part plus its fraction, never negative; `Text.Thousandths` and `Worked.PlainDistance` state its value on the literals the rewrites produce |
| Text.DecimalAt | src/lib/parser.ts:63-74 | `parseFloat` of the literal captured between two positions of the text, never negative; equal to `Text.DecimalValue` of that slice (`Worked.ValueOfLiteral`) |
| Regexes.Token | src/lib/parser.ts:36-48 | One match as the scans use it: its length and the kilometres it stands for |
| Regexes.LetterAt | src/lib/parser.ts:36-48 | One letter of a pattern under `/i` at a position inside the text |
| Regexes.MetersToken | src/lib/parser.ts:36 | The meters match: present when at least one digit is followed by the unit, spanning up to the unit and worth Text.Kilometres of the digits |
| Regexes.RunTypeToken | src/lib/parser.ts:42 | The run-type match: present when a number is followed by a keyword, spanning up to the keyword's end and worth the number |
| Regexes.MeterUnit | src/lib/parser.ts:36 | The `m\b` of the meters pattern: an 'm' or 'M' that ends a word; `Worked.NoMeters` uses it to show a run type holds no meter distance |
| Regexes.MetersAt | src/lib/parser.ts:36 | A `(\d+)\s*m\b` match is non-empty, inside the text, starts with a digit and is worth at least 0 km |
| Regexes.RunTypeAt | src/lib/parser.ts:42 | A run-type match is non-empty, inside the text, starts with a digit and is worth at least 0 km |
| Regexes.PlainAt | src/lib/parser.ts:48 | A `(\d+(?:\.\d+)?)\s*k` match is non-empty, inside the text, starts with a digit and is worth at least 0 km |
| Regexes.MultiplicandAt | src/lib/parser.ts:45 | The `\s*\(?(\d+(?:\.\d+)?)\s*k` tail of Multiply is non-empty, inside the text and worth at least 0 km |
| Regexes.MultiplyAt | src/lib/parser.ts:45 | A Multiply match is non-empty, inside the text, starts with a digit and is worth at least 0 km |
| Regexes.Times | src/lib/parser.ts:63-65 | `reps * dist` exists exactly when the multiplicand matched, spans the times part and the multiplicand, and is non-negative |
| Regexes.Keyword | src/lib/parser.ts:42 | The run-type keyword (Ez, Mp, Thr, I or R, then `\b`) is at most three letters long, lies inside the text, and a match ends at a word boundary |
| Regexes.Opening | src/lib/parser.ts:45 | `\s*\(?` ends inside the text, at or after where it starts |
| Regexes.MetersText | src/lib/parser.ts:36-38 | The replacement of a meters match, `String(n / 1000) + 'k'`; that it is worth n/1000 km is the contract of Patterns.MetersKeepsValue |
| Regexes.RunTypeText | src/lib/parser.ts:42 | The replacement `'$1k'`: the matched number, then 'k'; that it is worth the number is the contract of Patterns.RunTypeKeepsValue |
| Scan.Matcher | src/lib/parser.ts:36-48 | A global regular expression, as the match it finds at each position of a text |
| Scan.Rewriter | src/lib/parser.ts:36-42 | The replacement argument of `replace`, as the text it puts in place of a match |
| Scan.Sound | src/lib/parser.ts:36-48 | What the scans need of a matcher: a match is non-empty, inside the text, starts with a digit and is worth at least 0 km; Patterns.Lex states it for the four patterns |
| Scan.Hit | src/lib/parser.ts:62 | The non-null result of `exec`: where the match starts, and the match |
| Scan.Join | src/lib/parser.ts:53 | Joining pieces with '+': the inverse Scan.Split is proved against |
| Scan.Replace | src/lib/parser.ts:36-42 | `String.replace` with a global regular expression: each leftmost match is replaced and every other character is copied; its behaviour is stated by Scan.NoMatchFrom, Scan.TakeMatch and Scan.FirstMatchOnly |
| Scan.Total | src/lib/parser.ts:62-67 | The kilometres of all successive leftmost matches are non-negative |
| Scan.Exec | src/lib/parser.ts:62 | `re.exec` from `lastIndex` returns a match that starts at or after `lastIndex` and ends inside the text |
| Scan.ExecIsLeftmost | src/lib/parser.ts:62 | No match starts between `lastIndex` and the hit, nor anywhere after `lastIndex` when `exec` returns null |
| Scan.ExecFound | src/lib/parser.ts:62-67 | A hit of `exec` is the first of the counted matches; the rest are counted from where it ends |
| Scan.ExecDone | src/lib/parser.ts:62 | When `exec` returns null, nothing is left to count |
| Scan.NoMatchFrom | src/lib/parser.ts:36-42 | Text where no match starts is copied unchanged by `replace` and counts 0 km |
| Scan.TakeMatch | src/lib/parser.ts:36-42 | A match at i is replaced, counted and returned by `exec` from i |
| Scan.SkipNoDigit | src/lib/parser.ts:73-75 | A stretch without digits adds nothing to a scan's total |
| Scan.OnlyMatch | src/lib/parser.ts:73-75 | Text whose digits all lie in one match is worth exactly that match |
| Scan.FirstMatchOnly | src/lib/parser.ts:36-38 | A single match at the start is replaced and the rest of the text is kept |
| Scan.NoDigitNoMatch | src/lib/parser.ts:36-42 | Text without digits is left unchanged by `replace` and holds 0 km |
| Scan.Split | src/lib/parser.ts:53 | `split('+')` gives at least one piece, no piece contains '+', and joining the pieces with '+' restores the text |
| Scan.SplitWithoutSeparator | src/lib/parser.ts:53 | Text without '+' splits into itself alone |
| Scan.SplitNoDigit | src/lib/parser.ts:53 | Every piece of digit-free text is digit-free |
| Patterns.Pattern | src/lib/parser.ts:36-48 | The four regular expressions of the extractor: meters, run type, multiply and plain |
| Patterns.Rewrites | src/lib/parser.ts:36-42 | The two patterns used to rewrite the text, meters and run type; the other two only count |
| Patterns.RewriteAt | src/lib/parser.ts:36-42 | The replacement of a match: Regexes.MetersText for meters and Regexes.RunTypeText for run types; Patterns.RewriteKeepsValue states its value |
| Patterns.Rewrite | src/lib/parser.ts:36-42 | The replacement callback of each `replace` pass, as Scan.Replace takes it |
| Patterns.At | src/lib/parser.ts:36-48 | Each of the four patterns matches only non-empty text that starts with a digit and is worth at least 0 km |
| Patterns.Lex | src/lib/parser.ts:36-48 | Every pattern's matcher satisfies the soundness conditions the scans rely on |
| Patterns.RewriteKeepsValue | src/lib/parser.ts:36-42 | Each rewrite replaces a match by a plain "<literal>k" worth exactly what the match stands for |
| Patterns.MetersKeepsValue | src/lib/parser.ts:36-38 | "<n>m" is replaced by `String(n/1000)+'k'`, worth n/1000 km |
| Patterns.RunTypeKeepsValue | src/lib/parser.ts:42 | "<x> Ez" and the like are replaced by "$1k", worth x km |
| Patterns.LexNeedsMarker | src/lib/parser.ts:36-48 | A pattern cannot match text from i on that lacks its marker character ('m', a run-type letter, a times sign, 'k') |
| Patterns.MetersNeedsMarker | src/lib/parser.ts:36 | A meters match needs an 'm' |
| Patterns.RunTypeNeedsMarker | src/lib/parser.ts:42 | A run-type match needs one of the letters e, m, t, i, r |
| Patterns.MultiplyNeedsMarker | src/lib/parser.ts:45 | A multiplication needs one of x, ×, * |
| Patterns.PlainNeedsMarker | src/lib/parser.ts:48 | A plain distance needs a 'k' |
| Patterns.NoMarkerNoMatch | src/lib/parser.ts:36-48 | Text without a pattern's marker is left unchanged by its `replace`, counts 0 km and gives `exec` nothing |
| Extraction.IsTenth | src/lib/parser.ts:79 | A whole number of tenths, which `Math.round(total * 10) / 10` always is; stated by Extraction.Round1 and Extraction.Distance |
| Extraction.SegmentsKmNext | src/lib/parser.ts:55-77 | Each turn of `for (const segment of segments)` adds the kilometres of that segment |
| Extraction.Normalize | src/lib/parser.ts:34-42 | The meter rewrite, then the run-type rewrite; what it yields is stated by Worked.MetersNormal, Worked.RunTypeMeters, Worked.RunTypeRewrite and Worked.QuietNormal |
| Extraction.SegmentKm | src/lib/parser.ts:56-76 | A segment's kilometres are non-negative |
| Extraction.SegmentsKm | src/lib/parser.ts:55-77 | The running total over segments is non-negative |
| Extraction.TotalKm | src/lib/parser.ts:50-77 | The unrounded total of a description is non-negative |
| Extraction.Round1 | src/lib/parser.ts:79 | `Math.round(x*10)/10` is a whole number of tenths, within (x-0.05, x+0.05], and non-negative for non-negative x |
| Extraction.Distance | src/lib/parser.ts:31-80 | `extractDistance` is a non-negative whole number of tenths, 0 for "", and otherwise within 0.05 of the unrounded total |
| Extraction.AddMatches | src/lib/parser.ts:59-75 | The `exec` loop adds the scan's total to `total`, and sets `matched` exactly when `exec` finds a first match |
| Extraction.AddSegment | src/lib/parser.ts:56-76 | The loop body adds the segment's kilometres to the running total |
| Extraction.ExtractDistance | src/lib/parser.ts:31-80 | The imperative `extractDistance` returns `Distance(text)` |
| Extraction.SegmentRule | src/lib/parser.ts:58-76 | A segment with any multiplication is worth its multiplications only; a segment with none is worth its plain distances |
| Extraction.Round1OfTenth | src/lib/parser.ts:79 | Rounding a whole number of tenths leaves it unchanged |
| Extraction.Round1Idempotent | src/lib/parser.ts:79 | Rounding to a tenth twice is rounding once |
| Extraction.SegmentsWithoutDigits | src/lib/parser.ts:55-77 | Segments without digits are worth 0 km together |
| Extraction.NoDigitNoDistance | src/lib/parser.ts:31-80 | A description without digits, such as "Rest", has distance 0 |
| Worked.RunTypeWord | src/lib/parser.ts:42 | The keyword alternatives as spelled in the pattern: Ez, Mp, Thr, I and R |
| Worked.PlainMatch | src/lib/parser.ts:48 | A number directly followed by 'k' is a plain match worth that number |
| Worked.MetersMatch | src/lib/parser.ts:36 | Digits directly followed by a lone 'm' are a meters match worth n/1000 km |
| Worked.RunTypeMatch | src/lib/parser.ts:42 | A number, white space and a keyword that end the text are one run-type match, rewritten to "<number>k" |
| Worked.MultiplicandMatch | src/lib/parser.ts:45 | Spaces, a number and 'k' after the times sign are the multiplicand |
| Worked.QuietNormal | src/lib/parser.ts:36-42 | Text made only of digits, '.', 'k', ' ' and '+' is unchanged by both rewrites |
| Worked.OneSegment | src/lib/parser.ts:53-77 | Text without '+' is a single segment |
| Worked.SplitAroundOne | src/lib/parser.ts:53 | Splitting at the only '+' gives the text before it and the text after it |
| Worked.TwoSegments | src/lib/parser.ts:55-77 | Two segments are worth the sum of the two |
| Worked.PlainSegment | src/lib/parser.ts:69-76 | A segment with one plain distance, no other digit and no times sign is worth that distance |
| Worked.PlainLiteralSegment | src/lib/parser.ts:69-76 | The segment "<lit>k" is worth `parseFloat(lit)` |
| Worked.PlainNormal | src/lib/parser.ts:50-77 | A description that normalizes to one plain distance totals that distance |
| Worked.PlainDistance | src/lib/parser.ts:31-80 | `extractDistance("<lit>k")` is `parseFloat(lit)` rounded to a tenth |
| Worked.MetersOnly | src/lib/parser.ts:36-38 | "<digits>m" is rewritten to `String(n/1000) + 'k'` |
| Worked.MetersRewrite | src/lib/parser.ts:36-38 | The meter rewrite turns `String(n) + "m"` into `String(n/1000) + "k"` |
| Worked.MetersNormal | src/lib/parser.ts:36-42 | Both rewrites together turn `String(n) + "m"` into `String(n/1000) + "k"` |
| Worked.IntegerMeters | src/lib/parser.ts:31-80 | `extractDistance(String(n) + "m")` is n/1000 rounded to a tenth, for every n |
| Worked.KeywordAtEnd | src/lib/parser.ts:42 | Ez, Mp, Thr, I or R at the end of the text is a whole keyword match |
| Worked.NoMeters | src/lib/parser.ts:36 | No meters match starts anywhere in "<lit><white space><run type>": its only 'm', the M of Mp, is followed by a word character |
| Worked.RunTypeMeters | src/lib/parser.ts:36-38 | The meter rewrite leaves "<lit><white space><run type>" unchanged |
| Worked.RunTypeWhole | src/lib/parser.ts:42 | "<lit><white space><run type>" is one run-type match covering the whole text, worth `lit`, and replaced by "<lit>k" |
| Worked.RunTypeRewrite | src/lib/parser.ts:42 | The run-type rewrite turns "<lit><white space><run type>" into "<lit>k" |
| Worked.RunTypeDistance | src/lib/parser.ts:31-80 | `extractDistance` of "<lit><white space><run type>" is `parseFloat(lit)` rounded to a tenth, for every decimal literal, every run of white space and each of Ez, Mp, Thr, I, R |
| Worked.EzNormal | src/lib/parser.ts:36-42 | The rewrites turn "13 Ez" into "13k" |
| Worked.RunTypeExample | src/lib/parser.ts:31-80 | `extractDistance("13 Ez") == 13` |
| Worked.TimesToken | src/lib/parser.ts:45 | "3 x 2k" is a single Multiply match worth 3 * 2 km |
| Worked.TimesNormal | src/lib/parser.ts:36-53 | Neither rewrite changes "3 x 2k", and it contains no '+' |
| Worked.MultiplySegment | src/lib/parser.ts:58-67 | A segment that is one whole multiplication is worth its product |
| Worked.OneNormalSegment | src/lib/parser.ts:31-80 | A non-empty description that is its own normal form and has no '+' has distance equal to its segment's value, rounded |
| Worked.MultiplyExample | src/lib/parser.ts:31-80 | `extractDistance("3 x 2k") == 6` |
| Worked.MetersToken400 | src/lib/parser.ts:36 | "400m" at the start of "400m + 3k" is a meters match worth 0.4 km |
| Worked.Normal400 | src/lib/parser.ts:36-42 | The rewrites turn "400m + 3k" into `String(0.4) + "k + 3k"` |
| Worked.SpacedPlain | src/lib/parser.ts:69-76 | A plain distance surrounded only by white space is worth that distance |
| Worked.Split400 | src/lib/parser.ts:53 | The normalized "400m + 3k" splits into the segment before the '+' and the segment after it |
| Worked.TotalKm400 | src/lib/parser.ts:50-77 | The unrounded total of "400m + 3k" is 0.4 + 3 = 3.4 |
| Worked.SegmentsExample | src/lib/parser.ts:31-80 | `extractDistance("400m + 3k") == 3.4` |
| Projection.Workout | src/lib/parser.ts:3-7 | The `Workout` interface. The optional `notes` is a string, "" when missing: the reader always sets it with `getStr`, and the updater writes "" for a missing note. The optional `targetDistance` is a number, because the reader always sets it |
| Projection.TrainingWeek | src/lib/parser.ts:9-18 | The `TrainingWeek` interface. `actualMileage` and `difference` stay optional; `notes` is a string, "" when missing, for the same reasons as in `Workout` |
| Projection.Parse | src/lib/parser.ts:122-127 | `parseFloat` of a cell, with NaN as none |
| Projection.FirstDataRow | src/lib/parser.ts:118 | The row loop starts at row 10; the updater's target row is 10 + weekIndex |
| Projection.MinCells | src/lib/parser.ts:120 | A row with fewer than 5 cells is skipped |
| Projection.GetNum | src/lib/parser.ts:122-127 | `getNum`: nothing for a missing or empty cell, otherwise `parseFloat` of the cell; its contract is that of Projection.ReadNumber |
| Projection.NumOrZero | src/lib/parser.ts:134-146 | `getNum(idx)` with 0 for nothing, as weeks, fraction and easy mileage are read; stated by Projection.ReadNumber and Projection.Defaults |
| Projection.ReadWeek | src/lib/parser.ts:133-150 | The week a row holds through a column map; its fields are stated by Projection.Defaults, Projection.WeekTargets and Updater.EditRowReadsBack |
| Projection.Projected | src/lib/parser.ts:116-156 | The weeks of the rows before k; stated by Projection.ProjectedRows, Projection.SourcesExact and Projection.ProjectedLength |
| Projection.Weeks | src/lib/parser.ts:82-157 | `getWeeksFromRaw` as a function: the rows projected through the grid's detected layout; stated by Projection.GetWeeksFromRaw and Projection.WeeksLength |
| Projection.Cell | src/lib/parser.ts:128 | `getStr` is the cell when it exists and "" past the end of the row |
| Projection.ReadWorkout | src/lib/parser.ts:130-145 | A workout's description and note are its cells, and its target distance is `extractDistance` of its description |
| Projection.Emit | src/lib/parser.ts:120-154 | A row adds at most one week, and adds one exactly when it has at least five cells and is not the blank week |
| Projection.GetWeeksFromRaw | src/lib/parser.ts:82-157 | The imperative `getWeeksFromRaw` returns the projection of the grid through its detected layout |
| Projection.ProjectRows | src/lib/parser.ts:116-156 | The row loop from index 10 returns the projection of all the rows |
| Projection.ProjectedRows | src/lib/parser.ts:116-156 | The j-th week is the week read from the j-th contributing row, which lies at index 10 or later |
| Projection.SourcesIncrease | src/lib/parser.ts:118-155 | Weeks come out in increasing row order |
| Projection.SourcesExact | src/lib/parser.ts:118-155 | A data row is a source of the projection exactly when it contributes |
| Projection.ProjectedLength | src/lib/parser.ts:118-155 | At most one week per data row |
| Projection.WeeksLength | src/lib/parser.ts:82-157 | `getWeeksFromRaw` returns at most (number of rows - 10) weeks, and none for a grid of ten rows or fewer |
| Projection.ProjectedPrefix | src/lib/parser.ts:116-156 | Reading more rows only appends weeks |
| Projection.ProjectedSameRows | src/lib/parser.ts:118-155 | The weeks read from the rows before k depend only on those rows |
| Projection.ProjectedDense | src/lib/parser.ts:118-155 | When every data row contributes, row 10 + j yields the j-th week |
| Projection.ProjectedReplaceRow | src/lib/parser.ts:118-155 | Replacing one contributing row by another changes only the week read from it |
| Projection.ProjectedReplaceDense | src/lib/parser.ts:118-155 | With every row up to t contributing, replacing row t = 10 + pos changes only week pos |
| Projection.WeekTargets | src/lib/parser.ts:130-145 | Every projected week's targets are `extractDistance` of its descriptions, and those descriptions are the source row's description cells |
| Projection.Considered | src/lib/parser.ts:120 | A row is read only when it has at least five cells |
| Projection.Kept | src/lib/parser.ts:152 | A week is pushed unless its weeks-until-race is 0 and its first workout is blank |
| Projection.Contributes | src/lib/parser.ts:120-154 | A row yields a week exactly when it is read and its week is kept; stated by `Projection.ContributesExactly` and `Projection.Emit` |
| Projection.ContributesExactly | src/lib/parser.ts:120-154 | A row yields a week exactly when it has at least five cells and not (weeksUntilRace == 0 and q1 description == "") |
| Projection.Defaults | src/lib/parser.ts:122-150 | A missing, empty or unparsable cell gives 0 for weeks, fraction and easy mileage, nothing for actual and difference, and "" for missing text cells |
| Projection.ReadNumber | src/lib/parser.ts:122-127 | `getNum` is undefined exactly for a missing, empty or unparsable cell, and otherwise is `parseFloat` of the cell; the zero default turns undefined into 0 |
| Projection.BlankWeekDoesNotStop | src/lib/parser.ts:152-155 | An excluded blank week is not projected, and a later contributing row still is |
| Updater.WriteColumns | src/lib/parser.ts:166-178 | The updater's own column table; its agreement with the reader's is Updater.SameColumns |
| Updater.Shown | src/lib/parser.ts:189-195 | `String(x)` for a number and "" for undefined; read back by Updater.ShownReadsBack |
| Updater.RoundTripsExist | src/lib/parser.ts:189-195 | For every week some `parseFloat`/`String` pair reads back its actual mileage and difference, so the round-trip hypothesis of the read-back theorems can be met |
| Updater.Pad | src/lib/parser.ts:184-186 | Padding keeps every cell and adds "" up to the minimum width |
| Updater.EditRow | src/lib/parser.ts:180-195 | The edited row has the layout's minimum width or more, holds the five written fields, and keeps every other cell (or "" for added cells) |
| Updater.Update | src/lib/parser.ts:159-198 | The row count is unchanged and every other row is kept; an out-of-range week index returns the grid unchanged; otherwise row 10 + weekIndex is the edited row |
| Updater.UpdateRawData | src/lib/parser.ts:159-199 | The imperative `updateRawData`, including its padding loop, returns `Update` |
| Updater.ShownReadsBack | src/lib/parser.ts:189-195 | A cell written as `String(x)`, or as "" for undefined, reads back as x, or as undefined |
| Updater.EditRowConsidered | src/lib/parser.ts:184-186 | The edited row always has at least five cells, the width line 120 asks for, and a row too short to be read comes back exactly 13 or 15 cells wide |
| Updater.EditRowKeepsRead | src/lib/parser.ts:180-195 | The edited row keeps the week-count, fraction, easy-mileage and both workout-description cells, and holds the week's notes and its two workout notes |
| Updater.EditRowReadsBack | src/lib/parser.ts:180-195 | Reading the edited row gives the old week with actual, difference, notes and the two workout notes replaced, and everything else kept |
| Updater.ReaderReadsBack | src/lib/parser.ts:180-195 | The same, stated for the layout's reader |
| Updater.UpdateKeepsLayout | src/lib/parser.ts:163-164 | An update does not change the detected layout |
| Updater.UpdateThenRead | src/lib/parser.ts:159-199 | For any reader that reads the edited row back as the edited week, the projection after the update differs from the old one only at weekIndex, which holds the edited week |
| Updater.UpdateThenProject | src/lib/parser.ts:159-199 | When every data row up to the target contributes, `getWeeksFromRaw(updateRawData(rows, i, w))` equals `getWeeksFromRaw(rows)` with week i's five written fields taken from w, and every other week unchanged |

Members without a row are proof devices and model nothing by themselves:
- the digit helpers `Text.DigitValue`, `Text.DigitChar`, `Text.Pow10`, `Text.Pad3` and `Text.TrimZeros`;
- the predicates `Text.AllDigits`, `Text.AllSpaces`, `Text.NoDigit`, `Patterns.Worth`, `Patterns.Marker`, `Patterns.NoMarkerFrom`, `Worked.Quiet` and `Worked.AllQuiet`;
- the step lemmas of `Text` about runs and values of slices, concatenations and shifts;
- the step lemmas of `Worked` behind the shapes and worked descriptions;
- `Projection.Reader`, `Projection.ReaderOf` and `Projection.Sources`.

## Left out

- `parseRawCsv` and `rawToCSV` are CSV parsing and serialisation through Papa Parse and are not part of this model. The model starts from the grid of cells.
- `parseFloat` and `String` on numbers are parameters (`Parse`, `Show`).
  - The read-back theorems assume `parse("") == None`, and that `parse(show(x)) == Some(x)` for the actual mileage and the difference of the week written. `Updater.RoundTripsExist` shows that this can be met for every week.
  - Only the `parseFloat` of the literals that the extractor's regular expressions match is modelled concretely (`Text.DecimalValue`).
- Numbers are exact reals, not IEEE-754 doubles.
  - `Math.round` and `String(n / 1000)` are modelled on exact values.
  - Binary rounding error, for example in `0.4 + 3`, is not modelled.
- `NaN` is `None`, and JavaScript's zero default (`getNum(idx) or 0`) is modelled only where it applies: a missing number becomes 0. In JavaScript, a cell that parses to 0 also gives 0 under that default, so the two agree.
- Sparse arrays and `null` rows are not modelled. A row is always a sequence of strings, so the `!row` test and the empty-row fallback of `updateRawData` have no counterpart.
- Notes fields that are `undefined` are modelled as "". The empty-string default of `updatedWeek.notes` is therefore the notes string itself.
- That `updateRawData` does not change its input grid holds by value semantics. Aliasing between the returned and the input arrays is not modelled.
- Text.Thousandths: states the value of `String(n / 1000)` and that it is a decimal literal. It does not state that the literal is the shortest one.
- Worked.RunTypeDistance: covers the five keywords as written (Ez, Mp, Thr, I, R), not their other upper- and lower-case spellings, which the `/i` flag also accepts.
- Worked.MultiplyExample: the multiply shape is proved for the concrete description "3 x 2k" only, not for every "<r> x <d>k".
- Regular expressions are modelled as deterministic greedy matchers. Their contracts state only what the scans rely on: a match is non-empty, starts with a digit and is worth at least 0 km. That a greedy pass finds what the backtracking engine finds is argued in regexes.dfy, not proved. Case-insensitivity is ASCII case folding, as in a non-unicode `/i` pattern. No general regular-expression engine is modelled.
- The other files of the repository (the React components, storage and the other helpers) are not part of this model.
