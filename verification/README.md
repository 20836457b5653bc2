# Inspection transcript and checklist core, in Dafny

This project models the two pure pieces of the inspection backend:

- **Transcript → records** (`backend/transcription.cjs`).
  - `normalizeUnits` is a case-insensitive lookup in a fixed synonym table that passes unknown names through.
  - After the speech-to-text call, `transcribeAndParse` trims the transcript and collects every `part <id>` and every `dimension <number>` match.
  - It pairs the i-th part with the i-th dimension and looks for a unit word in the 50 characters that start at the dimension keyword.
- **Checklist building and annotation** (`backend/checklist.cjs`).
  - `createChecklist` writes a header row and one row per record.
  - `annotateChecklist` appends "Recorded Value" and "Recorded Unit" columns to a template sheet.
  - For each record, it writes into the first data row whose part cell matches the record's part, compared trimmed and lower-cased.

Modules, leaf first:

- `Options`: the option type.
- `Text`:
  - the JavaScript white-space set shared by `trim` and `\s`;
  - ASCII lower-casing;
  - maximal character runs;
  - `trim`.
- `Units`: the synonym table and `normalizeUnits`.
- `Scan`: a generic left-to-right, non-overlapping scanner over a "match at position p" function. This is what `matchAll` with the `g` flag does, and its first hit is what a non-global `match` does. `Leftmost` states what such a match list is, independently of how it is computed, and `LeftmostUnique` shows the scanner's list is the only one.
- `Patterns`:
  - the two case-insensitive patterns `part\s+([a-zA-Z0-9\-\.]+)` and `dimension\s+(\d+(\.\d+)?)`;
  - `MatchAt` is the greedy matcher;
  - `Matches` is what a match means;
  - `AllHits` is the match list.
- `UnitToken`: the `\b(mm|millimeter(?:s)?|…|newton(?:s)?)\b` alternation. Alternatives are tried in source order, with an optional suffix tried before its absence.
- `Transcription`: the unit window, the unit lookup and `Extract`, the record list.
- `Sheets`: an abstract worksheet.
  - Rows and cells are numbered from 1; each cell is empty or holds text.
  - `rowCount`, `columnCount`, and reading and writing a cell behave as ExcelJS does: `columnCount` is the widest row that holds a value, and writing a cell grows the sheet.
- `Checklist`: `createChecklist` and `annotateChecklist`.
- `Pipeline`: trim, extract and build a checklist.

What the code does, in the cases a reader might expect otherwise:

- `normalizeUnits` maps "pound", "pounds", "lbs" and "lb" all to "lb" (backend/transcription.cjs:20).
- `normalizeUnits` lower-cases its argument but does not trim it (backend/transcription.cjs:28).
- The measured value is the captured digit string (backend/transcription.cjs:52), not a number.
- The dimension pattern needs digits after the keyword (backend/transcription.cjs:48). A spelled-out number ("dimension is three point two", "dimension five") gives no dimension match.
- Records pair the i-th part match with the i-th dimension match (backend/transcription.cjs:50-52). A dimension that does not match therefore shifts the pairing of every later part. In "part A dimension five part B dimension 7", part A gets the value 7 and part B gets no record (`Transcription.SpelledNumberShiftsPairs`).
- The part group is one token (backend/transcription.cjs:45): "part number AB-1" gives the part "number" (`Patterns.PartTakesFirstWord`).
- Unit alternatives are tried in the order written, and each must end at a word boundary. "5 min" gives "min", not "m", and "5 inches" gives "inches", not "in" (`UnitToken.MinutesNotMetres`, `UnitToken.InchesNotIn`).

One behaviour of the unit pattern is worth knowing (`UnitToken.SymbolNeedsWordNeighbours`). The alternatives "°" and "%" are not word characters, so the `\b` on each side holds only between two word characters. The symbols are found inside "5°C" but never after a blank or at the end of the window. "percent" and "degrees" are found normally.

## Model

| member | source | states |
|---|---|---|
| Units.Lookup | backend/transcription.cjs:12-26 | the synonym table: exactly its listed keys, and every value it gives is one of the thirteen canonical codes |
| Units.Normalize | backend/transcription.cjs:11-29 | when the lower-cased input is a key of the table the result is the table's value for it, a canonical code; otherwise the input comes back unchanged (no trimming, no failure) |
| Units.CanonicalFixed | backend/transcription.cjs:12-28 | every canonical code ("mm", "cm", "m", "in", "ft", "kg", "g", "lb", "°", "s", "min", "N", "%") normalises to itself |
| Units.NormalizeIdempotent | backend/transcription.cjs:11-29 | normalising twice is the same as normalising once |
| Units.NormalizeCaseInsensitive | backend/transcription.cjs:28 | two spellings that differ only in letter case reach the same canonical code |
| Units.NormalizeExamples | backend/transcription.cjs:13-28 | "MILLIMETERS", "mm" and "Millimeter" give "mm"; "Pounds" and "lbs" give "lb" |
| Units.NormalizePassThroughExamples | backend/transcription.cjs:28 | " mm" is not trimmed and stays " mm"; "furlong" and "Furlong" come back as given |
| Text.Trim | backend/transcription.cjs:39 | the trimmed text is a slice of the input with only white space cut from each end, and it neither starts nor ends with white space |
| Text.TrimFixed | backend/transcription.cjs:39 | a text that neither starts nor ends with white space is its own trim |
| Text.TrimIdempotent | backend/transcription.cjs:39 | trimming twice is the same as trimming once |
| Scan.FirstHit | backend/transcription.cjs:58-60 | a non-global match: the hit at the first position at or after the start where the pattern matches, and none means no position matches |
| Scan.ScanFrom | backend/transcription.cjs:45-48 | `matchAll`: hits lie inside the text and come in order without overlapping |
| Scan.ScanLeftmost | backend/transcription.cjs:45-48 | the scanner's hits are the leftmost non-overlapping matches: each is the first match after the previous one ends, and nothing matches after the last |
| Scan.LeftmostUnique | backend/transcription.cjs:45-48 | any list of leftmost non-overlapping matches is exactly the scanner's list |
| Patterns.MatchAt | backend/transcription.cjs:45-48 | a match at position p starts at p and ends inside the text |
| Patterns.MatchAtCorrect | backend/transcription.cjs:45-48 | a hit at p is a match of the pattern whose capture is the group text; no match at p is longer or starts its group elsewhere; none means the pattern does not match at p at all |
| Patterns.MatchAtLongest | backend/transcription.cjs:45-48 | every match of the pattern at p is found, with the same group start and an end no later than the greedy one |
| Patterns.AllHits | backend/transcription.cjs:45-48 | the match list of one pattern over the text, in order and non-overlapping |
| Patterns.AllHitsLeftmost | backend/transcription.cjs:45-48 | the match list is the leftmost non-overlapping one, and is the only such list |
| Patterns.AllHitsMatch | backend/transcription.cjs:45-52 | each hit is a match of its pattern, and its capture is an identifier of `[A-Za-z0-9.-]` or a number `\d+(\.\d+)?` |
| Patterns.SpelledNumberNoDimension | backend/transcription.cjs:48 | "dimension is 5" has no dimension match at the keyword |
| Patterns.TrailingDotCaptured | backend/transcription.cjs:45 | "Part AB-314.01." matches case-insensitively and the trailing dot is part of the identifier |
| Patterns.PartTakesFirstWord | backend/transcription.cjs:45 | "part number AB-1" matches with the part "number": the group stops at the first blank |
| UnitToken.FirstAlt | backend/transcription.cjs:59 | the first alternative, in source order, that matches at a position as a whole word; none means no alternative does |
| UnitToken.UnitAt | backend/transcription.cjs:59 | the pattern matches at p exactly when some alternative fits there as a whole word; the match starts at p, spans the first such alternative in source order, and its text is the window's text there |
| UnitToken.FindUnit | backend/transcription.cjs:58-60 | `match` without `g`: nothing exactly when no position of the window matches, and otherwise the text matched at the first position where the pattern matches |
| UnitToken.UnitFirstHit | backend/transcription.cjs:58-60 | the first hit of the search is the match at the first matching position, and there is none exactly when no position matches |
| UnitToken.FindUnitSpelling | backend/transcription.cjs:58-60 | the matched text is, up to letter case, one of the pattern's alternatives |
| UnitToken.MinutesNotMetres | backend/transcription.cjs:59 | in "5 min" the search finds "min", though "m" is written earlier, since "m" is not followed by a word boundary |
| UnitToken.InchesNotIn | backend/transcription.cjs:59 | in "5 inches" the search finds "inches", though "in" is written earlier |
| UnitToken.SymbolNeedsWordNeighbours | backend/transcription.cjs:59 | "°" or "%" matches only with a word character directly on both sides |
| Transcription.Window | backend/transcription.cjs:55-56 | the slice of at most 50 characters starting at the dimension keyword, clamped at the end of the text |
| Transcription.MatchedUnitCanonical | backend/transcription.cjs:59-62 | any spelling the unit pattern accepts normalises to a canonical code |
| Transcription.FoundUnitCanonical | backend/transcription.cjs:58-62 | a found unit word normalises to a non-empty canonical code |
| Transcription.UnitNear | backend/transcription.cjs:55-62 | the unit is "" exactly when no position of the window matches the unit pattern; otherwise it is `normalizeUnits` of the text matched at the first matching position of the window, a canonical code |
| Transcription.CapturesWellFormed | backend/transcription.cjs:45-52 | every part capture is an identifier and every dimension capture a decimal number |
| Transcription.Extract | backend/transcription.cjs:50-68 | every record has an identifier part, a decimal `measured` and a canonical or empty unit |
| Transcription.ExtractPairing | backend/transcription.cjs:50-68 | for the leftmost part matches and dimension matches, there are min(#parts, #dimensions) records, and record i takes its part from the i-th part match and its value and unit from the i-th dimension match |
| Transcription.SpelledNumberShiftsPairs | backend/transcription.cjs:45-52 | "part A dimension five part B dimension 7" gives one record, part "A" with the value "7": part B loses its record |
| Pipeline.ParseTranscript | backend/transcription.cjs:39-69 | the records parsed from the trimmed transcript are well formed, with canonical or empty units |
| Pipeline.TranscribeAndParse | backend/transcription.cjs:39-73 | the generated checklist has one row per parsed record below the header, each holding an identifier, a decimal number and a canonical or empty unit |
| Pipeline.TranscribeAndParseRecords | backend/transcription.cjs:64-73 | reading the generated checklist back gives exactly the parsed records, in transcript order |
| Sheets.MaxWidth | backend/checklist.cjs:34 | `columnCount` is the cell count of the widest row that holds a value |
| Sheets.ColumnCount | backend/checklist.cjs:34 | no cell to the right of `columnCount` holds a value, so the new columns start empty; it is 0 exactly when the sheet holds no value |
| Sheets.RowCount | backend/checklist.cjs:39 | no cell below `rowCount` holds a value, so the scan up to `rowCount` sees every filled row |
| Sheets.Get | backend/checklist.cjs:40 | a cell that holds a value lies inside the sheet, at row and column 1 or more |
| Sheets.Set | backend/checklist.cjs:35-36 | writing a cell sets that cell, leaves every other cell as it was, and grows the row count to the written row if needed |
| Checklist.CreateChecklist | backend/checklist.cjs:8-16 | the three headers in row 1, then row i + 2 holds part, measured value and unit of record i |
| Checklist.CreateReadRoundTrip | backend/checklist.cjs:8-16 | reading a new checklist back gives the records it was built from, in order |
| Checklist.ReadEntryRows | backend/checklist.cjs:14-16 | reading back the rows `addRow` writes for a list of records gives that list |
| Checklist.Key | backend/checklist.cjs:43-44 | the comparison key of a part, `String(x).trim().toLowerCase()`: it neither starts nor ends with white space and holds no upper-case letter |
| Checklist.KeyIdempotent | backend/checklist.cjs:43-44 | a key is its own key |
| Checklist.KeyMatches | backend/checklist.cjs:40-44 | a matching first cell is truthy (present and non-empty), and a cell holding exactly a non-empty part matches it |
| Checklist.KeyMatchesKey | backend/checklist.cjs:43-44 | matching against a part or against its key is the same test |
| Checklist.FindRowFrom | backend/checklist.cjs:39-49 | the scan from a row on returns the first row whose first cell matches and stops there; none means no row up to `rowCount` matches |
| Checklist.FirstMatchingRow | backend/checklist.cjs:39-45 | the match is a data row (never row 1) with a truthy first cell whose trimmed, lower-cased text equals the part's, and no earlier data row matches; none means no data row matches |
| Checklist.FirstMatchingRowByKey | backend/checklist.cjs:43-44 | parts with the same trimmed, lower-cased key find the same row, and two parts that find the same row have the same key |
| Checklist.FindRowFromSameKeys | backend/checklist.cjs:39-45 | the row found depends only on the first cells of the data rows |
| Checklist.AnnotateEntry | backend/checklist.cjs:38-50 | with no matching row the sheet is unchanged; otherwise value and unit are written into the two new columns of the first matching row and no other cell changes |
| Checklist.LastWriter | backend/checklist.cjs:38-51 | the last entry whose part finds a given row, or none when no entry does |
| Checklist.AnnotateEntryKeys | backend/checklist.cjs:38-48 | writing an entry keeps the first cells of the data rows, so later entries find the same rows |
| Checklist.AnnotateAll | backend/checklist.cjs:38-51 | applying the entries in order changes no cell of row 1, no cell outside the two new columns, and not the row count |
| Checklist.AnnotateAllKeys | backend/checklist.cjs:38-51 | applying entries keeps the first cells of the data rows, so every entry matches rows as it would in the original sheet |
| Checklist.AnnotateAllColumns | backend/checklist.cjs:38-51 | after applying the entries in order, each data row holds, in each new column, that field of its last matching entry, or its old content |
| Checklist.Headed | backend/checklist.cjs:34-36 | "Recorded Value" and "Recorded Unit" land in row 1 at `columnCount + 1` and `columnCount + 2`; no other cell changes; the sheet gets a first row if it had none |
| Checklist.HeadedFacts | backend/checklist.cjs:34-36 | the header cells go right of the existing columns, leave the part cells alone, and the new columns are empty below row 1 |
| Checklist.AnnotateChecklist | backend/checklist.cjs:28-51 | the headers are in row 1 at `columnCount + 1` and `columnCount + 2`; every cell outside those two columns keeps its value; no data row is added |
| Checklist.AnnotateChecklistColumns | backend/checklist.cjs:38-48 | each data row's new columns hold the value and unit of its last matching entry, or nothing |
| Checklist.AnnotateChecklistSpec | backend/checklist.cjs:32-51 | the whole of `annotateChecklist` on the sheet: headers, frame, and last-matching-entry contents of the two new columns |
| Checklist.SamePartLastWins | backend/checklist.cjs:38-48 | when several entries share a part key, the row that part finds ends up with the value and unit of the last of them |
| Checklist.AnnotateAllSkip | backend/checklist.cjs:38-50 | applying the entries with or without one that matches no row gives the same sheet |
| Checklist.UnmatchedEntryDropped | backend/checklist.cjs:38-50 | an entry whose part matches no data row is dropped without trace: the annotated sheet is the same as without it |

## Left out

- The speech-to-text call, the file stream and console logging (backend/transcription.cjs:32-38, 40, 71). The model takes the transcript text as input.
- Writing the checklist with ExcelJS and naming the output file after the clock or date (backend/checklist.cjs:5-6, 18-30, 53-63). The sheet is an abstract grid of text cells.
- `transcribeAndParse` writing its records to a checklist file and returning the file name (backend/transcription.cjs:73-74). `Pipeline.TranscribeAndParse` returns the sheet instead.
- Cell values other than text (numbers, dates, rich text, formulas), and `String(cell)` of them. In particular a numeric 0, which JavaScript treats as falsy, is not modelled: a cell is empty or holds text, and only the empty text is falsy.
- Column widths and keys of `sheet.columns` (backend/checklist.cjs:9-11), which affect only the file's layout.
- Case mapping outside ASCII. `toLowerCase` maps every Unicode letter, but the model lower-cases A-Z only. The regex `/i` flag without `u` compares characters after `toUpperCase`, so it folds letters across the Basic Multilingual Plane too. It never maps a character at or above U+0080 onto an ASCII one, though. Every letter in the three patterns is ASCII, so comparing with ASCII lower-casing gives the same matches.
- Text is modelled as a sequence of code points, while JavaScript counts UTF-16 code units. The 50-character window and match indices agree for text in the Basic Multilingual Plane only.
- Property lookups on the synonym object that reach the JavaScript prototype (an input such as "constructor"). The table is modelled as exactly its listed keys.
- `transcribeAndParse` has a single parameter, so the images a caller passes are never read. The `transcribeAndAnnotate` name that another backend file imports is not exported by backend/transcription.cjs and so has no behaviour to model.
- HTTP routing, storage uploads and the SQLite layer (backend/index.cjs, backend/db.cjs, backend/index.js), and the whole frontend.
- Unit conversion, spelled-out number parsing, photo association and tolerance checks. None of the backend files implements them.
