# COMP3380 hockey database: a Dafny model of its text and data shaping

The repository is a course project. It loads NHL game data into a SQL
Server database and queries it from a Java console program. This project
models, in Dafny, the parts of that system that are plain string and
sequence logic, and proves what they promise:

- **TablePrinter** (`table_printer.dfy`): the generic table renderer of
  `interface/TablePrinter.java`. It computes column widths over the first
  `maxRows` rows, pads every field to its width plus 3, draws a dash line,
  and in the ranked variant puts "1", "2", … in front of the shown rows.
- **HockeyDB** (`hockey_db.dfy`): the fixed-spacing formatters of
  `interface/HockeyDB.java`. It covers title and dash lines, the boxed
  caption, the stat-code whitelists, `getMins`, the two rank loops and the
  goal total.
- **Populator** (`populator.dfy`): the statement reader of
  `interface/Populator.java`. It trims lines, skips blank ones, cuts a
  statement at every line ending in `;`, and executes the statements in
  batches of 50.
- **SqlText** (`sql_text.dfy`): the string rewriting shared by both SQL
  generators. It covers Python's `str.replace`, apostrophe doubling, the
  removal of double spaces from venue names, the New York city rename, the
  game-time clean-up, value rendering, `fix_apostrophes` and the INSERT
  lines.
- **WriteSql** (`write_sql.dfy`): the newer generator
  `populate_data/writeSQL.py`. It covers `split_chunks`, `create_inserts`
  with NULL substitution and the PRINT trailer, the season format, the game
  filter, the period split of shift times and the team stints of
  `create_playsOn_df`.
- **WriteSqlV1** (`write_sql_v1.dfy`): the older generator `writeSQL.py`.
  It covers its `create_inserts` and its game filter.
- **Text** and **Chunking** (`text.dfy`, `chunking.dfy`): the library
  behaviour the code relies on, and cutting a sequence into fixed-size
  pieces:
  - Java's `%-Ns` padding, `trim` and truncating `%`;
  - Python's slices, string comparison and `join`;
  - decimal text of numbers.

Console output is modelled as the sequence of printed lines. A `ResultSet`
or a pandas data frame is modelled as a sequence of rows. Reading the
statement file is modelled as the sequence of its lines, and executing a
batch as the batch appearing in the output sequence. A value of a data frame
is either a Python string (`Str`) or any other value given by its `str()`
text (`Other`).

Facts about the code that the model keeps:

- `printRow` and `printDashes` pad every column, the last one included, and
  the dash line always uses the computed widths.
- The code checks no row width. A row with fewer cells than there are
  headers prints only its own cells; a wider row would make `getColumnSpaces`
  index past its width list, so rows are required to be no wider than the
  headers. Rows past `numRows` are never read.
- A `null` cell is not turned into an empty string. Cells are strings.
- The batch loader of `Populator` is modelled because its loop is part of
  the code.

## Model

| member | source | states |
|---|---|---|
| Text.PadRight | interface/TablePrinter.java:111 | `%-Ns` of `s` is exactly `max(len(s), N)` long |
| Text.PadRightSpaces | interface/TablePrinter.java:111 | `%-Ns` is the text followed by `N - len(s)` spaces; it never truncates |
| Text.PadRightContents | interface/HockeyDB.java:452 | a padded field begins with the whole text and holds only spaces after it |
| Text.Trim | interface/Populator.java:25 | `trim` gives the empty text or a text with no character `<= ' '` at either end |
| Text.TrimCutsEnds | interface/Populator.java:25 | `trim` returns a contiguous part of the text; everything cut before and after it is a character `<= ' '` |
| Text.TrimOfTrimmed | interface/Populator.java:36 | trimming a trimmed text changes nothing |
| Text.TrimDropsTrailingSpace | interface/Populator.java:36 | trimming a trimmed text plus one space gives the text back |
| Text.NatToString | interface/TablePrinter.java:34 | `"" + n` is a non-empty run of digits with no leading zero |
| Text.ParseNatToString | interface/TablePrinter.java:34 | reading `"" + n` back gives `n`, so distinct ranks have distinct texts |
| Text.NatToStringInjective | interface/HockeyDB.java:161 | two ranks with the same text are equal |
| Text.JavaRem | interface/HockeyDB.java:503 | Java's `%` keeps the sign of the dividend and is smaller than the divisor in size |
| Text.JavaDivRem | interface/HockeyDB.java:504 | Java's truncating `/` and `%` recombine to the dividend |
| Text.LexLessDigits | populate_data/writeSQL.py:225 | Python's `<` on equal-length digit strings is `<` on their numbers |
| Text.DigitsEqual | populate_data/writeSQL.py:225 | equal-length digit strings are equal exactly when their numbers are |
| Text.LexTotal | populate_data/writeSQL.py:225 | different strings of equal length are ordered one way or the other |
| Text.Take | populate_data/writeSQL.py:225 | `s[:n]` is the first `min(n, len(s))` characters |
| Text.Slice | populate_data/writeSQL.py:225 | `s[i:j]` holds `min(j, len(s)) - min(i, len(s))` characters, character `k` of it being `s[i + k]` |
| Text.Drop | populate_data/writeSQL.py:222 | `s[:n] + s[n:]` is `s` |
| Text.JoinSnoc | populate_data/writeSQL.py:483 | one more word adds the separator and the word at the end |
| Text.JoinAvoids | populate_data/writeSQL.py:495 | a character in neither the words nor the separator is not in their join |
| Chunking.ChunksOfIsChunking | populate_data/writeSQL.py:533-542 | taking pieces of `n` from the front lays end to end to the input, with every piece but the last exactly `n` long and none empty |
| Chunking.ChunkingUnique | interface/Populator.java:40-54 | there is only one way to cut a sequence into pieces of `n`, so the batches are determined by the statements |
| Chunking.ChunkingCount | populate_data/writeSQL.py:533-542 | a cut into pieces of `n` has `ceil(len(s) / n)` pieces, none for empty input |
| Chunking.ChunkingHead | interface/Populator.java:43-46 | the first piece is the first `min(n, len(s))` elements |
| Chunking.FillingFlush | interface/Populator.java:43-46 | a buffer that fills up to `n` becomes a new full piece and is emptied |
| Chunking.FillingAdd | interface/Populator.java:39-40 | an element added to a buffer that stays short of `n` keeps everything seen in order |
| Chunking.FillingDone | interface/Populator.java:51-54 | flushing a non-empty rest, and only a non-empty one, completes the cut |
| Chunking.FlattenElement | interface/Populator.java:39 | every batched statement is one of the statements read |
| TablePrinter.Shown | interface/TablePrinter.java:33 | the loops bounded by `i < size && i < numRows` visit `min(size, numRows)` rows, none for `numRows <= 0` |
| TablePrinter.MaxWidthsIsMaximum | interface/TablePrinter.java:89-99 | width `j` is at least the header and every scanned cell of column `j`, and equals one of them |
| TablePrinter.GetColumnSpaces | interface/TablePrinter.java:80-105 | one width per header, computed over the first `min(maxRows, len(rows))` rows only; only those rows must be no wider than the headers, and a shorter row widens only its own columns |
| TablePrinter.RankedWidthsIgnoreLaterRows | interface/TablePrinter.java:28 | rows appended past `numRows`, of any width, never change a width |
| TablePrinter.PrintRow | interface/TablePrinter.java:107-114 | the line is every cell padded to its width plus 3, the last column included |
| TablePrinter.RowLineLength | interface/TablePrinter.java:107-114 | when the cells fit, a row line is `Σ(w + 3)` long |
| TablePrinter.RowLineField | interface/TablePrinter.java:111 | field `j` starts at the sum of the earlier fields and holds cell `j` untruncated, padded with spaces |
| TablePrinter.CellAtOffset | interface/TablePrinter.java:111 | every cell appears whole at the start of its field |
| TablePrinter.PrintDashes | interface/TablePrinter.java:116-123 | the dash line is `Σ(w + 3)` long |
| TablePrinter.DashLineLength | interface/TablePrinter.java:116-123 | the dash line has the length of all the fields together |
| TablePrinter.DashLineField | interface/TablePrinter.java:120 | field `j` of the dash line is `w_j` dashes and 3 spaces |
| TablePrinter.PrintRows | interface/TablePrinter.java:46-50 | exactly `min(len(rows), numRows)` lines, row `i` printed as line `i` with the widths of its own columns; later rows are never read |
| TablePrinter.PrintResultSet | interface/TablePrinter.java:11-23 | header line, dash line, then every row in order, each with the widths of its own columns; `2 + len(rows)` lines, all of the same length when every row is as wide as the headers |
| TablePrinter.ResultLinesAligned | interface/TablePrinter.java:14-22 | since the widths cover every row, every printed line has length `Σ(w + 3)` |
| TablePrinter.AddRanks | interface/TablePrinter.java:30-37 | the ranking loop gives exactly the ranked rows of the specification function |
| TablePrinter.RankRowsShape | interface/TablePrinter.java:33-37 | the first `min(len(rows), numRows)` rows get "1", "2", … in front in order; the others are unchanged |
| TablePrinter.RankedWidths | interface/TablePrinter.java:28-40 | one width per header, the rank column first |
| TablePrinter.NatToStringLengthMonotone | interface/TablePrinter.java:34 | a larger rank never has a shorter text |
| TablePrinter.RankedHeaderFits | interface/TablePrinter.java:40 | every header fits its ranked width, the rank header in `len + 1` |
| TablePrinter.RankedRowFits | interface/TablePrinter.java:34-40 | a full-width shown row with its rank fits the ranked widths when the rank fits the rank column |
| TablePrinter.PrintResultSetWithRank | interface/TablePrinter.java:25-52 | widths from `headers[1..]` over the first `numRows` rows; rank column `len(headers[0]) + 1`; header, dashes, then `min(len(rows), numRows)` ranked rows; rows past `numRows` are never read and may have any width; equal line lengths when the shown rows are full width and the largest rank fits |
| TablePrinter.RankedLinesAligned | interface/TablePrinter.java:42-50 | when the shown rows are full width and the largest rank fits its column, every line of the ranked table is equally long |
| HockeyDB.PrintTitles | interface/HockeyDB.java:448-458 | every title but the last padded to its spacing, the last appended unpadded |
| HockeyDB.TitlesLineLayout | interface/HockeyDB.java:448-458 | the padded columns take the sum of their spacings, then the last title ends the line |
| HockeyDB.PaddedFieldsLength | interface/HockeyDB.java:452 | titles that fit their spacings take exactly the sum of the spacings |
| HockeyDB.PaddedFieldsSplit | interface/HockeyDB.java:450-452 | the padded line splits wherever its columns do |
| HockeyDB.PaddedFieldsColumn | interface/HockeyDB.java:452 | column `j` starts at the sum of the earlier spacings and holds title `j` untruncated and padded |
| HockeyDB.PaddedFieldsPrefix | interface/HockeyDB.java:452 | a padded line starts with its first cell |
| HockeyDB.PrintDashes | interface/HockeyDB.java:461-472 | `COL_SPACES[i] - 2` dashes padded to `COL_SPACES[i]`, then as many dashes as the last title is long |
| HockeyDB.DashFieldsLength | interface/HockeyDB.java:466 | every padded dash column is exactly its spacing wide |
| HockeyDB.DashFieldsSplit | interface/HockeyDB.java:463-466 | the dash columns split wherever the spacings do |
| HockeyDB.DashFieldsColumn | interface/HockeyDB.java:466 | dash column `j` starts where title column `j` starts |
| HockeyDB.PaddedDashRun | interface/HockeyDB.java:466 | a padded dash run is its dashes followed by two spaces |
| HockeyDB.DashesAsLongAsTitles | interface/HockeyDB.java:461-471 | when the titles fit, the dash line is exactly as long as the title line |
| HockeyDB.DashesColumn | interface/HockeyDB.java:466 | every dash column lies under its title column and is `spacing - 2` dashes and two spaces |
| HockeyDB.PrintBorder | interface/HockeyDB.java:437-442 | exactly `width` dashes, none for a width that is not positive |
| HockeyDB.PrintBoxedText | interface/HockeyDB.java:428-435 | five lines: blank, border, the text framed by a bar and a space on each side, the same border, blank; each border is `len(text) + 4` long like the framed line |
| HockeyDB.GetStat | interface/HockeyDB.java:474-486 | the label is "unknown" exactly for codes other than g, a, p and + |
| HockeyDB.GetStatSQL | interface/HockeyDB.java:488-500 | the column is always one of four names, numPoints for an unknown code |
| HockeyDB.OrderByWhitelisted | interface/HockeyDB.java:143 | the appended ORDER BY clause is one of four fixed texts, whatever the input |
| HockeyDB.StatTablesAgree | interface/HockeyDB.java:474-500 | each known code's label goes with its column: Goals with numGoals, Assists with numAssists, Points with numPoints, Plus-Minus with plusMinus; distinct codes give distinct labels and columns; an unknown code is ordered by points |
| HockeyDB.GetMins | interface/HockeyDB.java:502-506 | with Java's `%` and `/`, the result is `"0:"` and the signed remainder mod 60 |
| HockeyDB.GetMinsNonNegative | interface/HockeyDB.java:502-506 | for `s >= 0` the text is `"0:" + (s mod 60)`, unpadded, 3 or 4 characters |
| HockeyDB.RankAllRows | interface/HockeyDB.java:159-168 | every returned row printed, ranked 1, 2, … without gaps |
| HockeyDB.RankFirstRows | interface/HockeyDB.java:407-417 | `min(len(rows), numRows)` rows printed (none for `numRows <= 0`), ranked 1, 2, … |
| HockeyDB.RankedLineStartsWithRank | interface/HockeyDB.java:161-166 | a ranked line begins with its rank |
| HockeyDB.PrintTeamGoals | interface/HockeyDB.java:211-216 | one line per team in order, and the total is the sum of their goals |
| HockeyDB.SumGoalsSplit | interface/HockeyDB.java:215 | the total splits over any cut of the rows |
| HockeyDB.SumGoalsBound | interface/HockeyDB.java:215 | no team's goals exceed the total |
| HockeyDB.TotalGoalsByTeam | interface/HockeyDB.java:200-223 | no rows: only the boxed error; otherwise the box, titles, dashes, the teams, a second dash line, "Total:" with the sum, and a blank line |
| Populator.RepopulateDB | interface/Populator.java:20-54 | the batches, laid end to end, are the statements of the file in order; each but the last has 50, none is empty; every statement is trimmed and ends with `;` |
| Populator.StatementsSent | interface/Populator.java:35-39 | every statement sent is trimmed and ends with `;` |
| Populator.ReadLine | interface/Populator.java:24-37 | a blank line changes nothing, another is appended with a space, and a line ending with `;` cuts the trimmed builder and empties it |
| Populator.QueryText | interface/Populator.java:32-36 | the cut statement is the lines since the last cut joined by single spaces |
| Populator.BuiltIsJoinPlusSpace | interface/Populator.java:32 | the builder holds the lines joined by single spaces, plus one space |
| Populator.BuiltSnoc | interface/Populator.java:32 | appending a line and a space to the builder |
| Populator.JoinTrimmed | interface/Populator.java:36 | trimmed lines joined by spaces form a trimmed text ending as the last line does |
| Populator.ScanLinesInvariant | interface/Populator.java:24-49 | every statement is trimmed and ends with `;`, and there is one per non-blank trimmed line ending with `;` |
| Populator.ScanLineInvariant | interface/Populator.java:25-37 | one line keeps the reader's state well formed and adds a statement exactly when it closes one |
| Populator.ScanLinesKeepsText | interface/Populator.java:25-37 | the statements and the open lines, joined, are the clean lines joined: nothing is lost or reordered |
| Populator.ScanLineKeepsText | interface/Populator.java:25-37 | one line keeps that text in step |
| Populator.JoinCollapse | interface/Populator.java:36 | joining a statement's lines first and then the rest gives the same text |
| Populator.UnterminatedTailIgnored | interface/Populator.java:24-54 | lines after the last `;` never reach a batch, whatever they hold |
| Populator.ClosingLinesTrimmed | interface/Populator.java:25-35 | the lines of a statement about to close are all trimmed |
| SqlText.DoubleApostrophesLength | populate_data/writeSQL.py:515 | doubling grows the text by the number of apostrophes |
| SqlText.UndoubleDouble | writeSQL.py:288 | replacing `''` by `'` in the escaped text gives the original back |
| SqlText.DoubleApostrophesInjective | populate_data/writeSQL.py:515 | different texts stay different once escaped |
| SqlText.DoubleApostrophesEmpty | writeSQL.py:288 | only the empty text escapes to the empty text |
| SqlText.CountAbsent | populate_data/writeSQL.py:496 | a character that does not occur in a text is counted zero times |
| SqlText.CountConcat | populate_data/writeSQL.py:515 | counts of a character add over concatenation |
| SqlText.RemoveDoubleSpacesRun | writeSQL.py:152 | a run of `k` spaces becomes `k mod 2` spaces |
| SqlText.RemoveDoubleSpacesSplit | populate_data/writeSQL.py:198 | a part that does not end in a space is rewritten on its own, independently of what follows |
| SqlText.RemoveDoubleSpacesRunBefore | populate_data/writeSQL.py:198 | `k` spaces before a text that does not start with a space leave `k mod 2` spaces |
| SqlText.RemoveDoubleSpacesBetween | populate_data/writeSQL.py:198 | `k` spaces between two words become `k mod 2` spaces, so an even run glues the words and an odd run leaves one space; each side is rewritten on its own |
| SqlText.RemoveDoubleSpacesKeepsText | writeSQL.py:152 | the characters other than spaces are kept, in order |
| SqlText.RemoveDoubleSpacesLeavesNone | populate_data/writeSQL.py:198 | no two adjacent spaces remain |
| SqlText.RemoveDoubleSpacesIdentity | populate_data/writeSQL.py:198 | a name without two adjacent spaces is unchanged |
| SqlText.RemoveDoubleSpacesIdempotent | populate_data/writeSQL.py:198 | removing double spaces twice is removing them once |
| SqlText.RemoveDoubleSpacesHead | writeSQL.py:152 | a name starting with a non-space keeps its first character |
| SqlText.FixCity | writeSQL.py:136 | "NY Rangers" and "NY Islanders" become "New York"; every other city is unchanged |
| SqlText.NormalizeDateTimeClean | populate_data/writeSQL.py:218-219 | the cleaned time holds no "T" and no "Z" |
| SqlText.NormalizeDateTimeKeepsDate | writeSQL.py:171-172 | a date part without "T" or "Z" stays in place, so the filter reads the raw year and month |
| SqlText.ReplaceCharRemoves | populate_data/writeSQL.py:218-219 | a one-character replacement leaves no occurrence behind |
| SqlText.ReplaceCharKeepsPrefix | populate_data/writeSQL.py:218-219 | characters before the first occurrence do not move |
| SqlText.RenderValue | populate_data/writeSQL.py:491 | a string is wrapped in single quotes around its unchanged text; any other value is its `str()` text |
| SqlText.FixValueRoundTrip | populate_data/writeSQL.py:510-515 | a string cell stays a string, and un-doubling it gives the cell back; any other cell of a text column, missing or not, becomes NaN ("nan") |
| SqlText.FixColumn | populate_data/writeSQL.py:515 | exactly the cells of one column are fixed |
| SqlText.FixApostrophes | populate_data/writeSQL.py:510-515 | every cell of a text column fixed (strings escaped, other values NaN), every other cell unchanged, table shape kept |
| SqlText.RenderValues | writeSQL.py:264-266 | one rendering per value, value `k` rendered in place `k` |
| SqlText.CollectValues | writeSQL.py:264-266 | the value loop renders every value of the row in column order |
| SqlText.InsertHeadOneLine | populate_data/writeSQL.py:483-484 | the `INSERT INTO t (c1, ..., cn) VALUES ` head has no line break when the names have none |
| SqlText.InsertLinesSnoc | writeSQL.py:263-270 | one more row appends one more line |
| SqlText.InsertLinesInOrder | writeSQL.py:263-270 | one INSERT line per row, in row order, all with the same column list |
| SqlText.InsertLineOneLine | populate_data/writeSQL.py:496 | an INSERT line holds exactly one line break, at its end |
| SqlText.InsertLinesCount | populate_data/writeSQL.py:498 | `n` INSERT lines hold `n` line breaks |
| WriteSql.ChunkSize | populate_data/writeSQL.py:536 | the effective chunk size is `max_lines`, and 1 for a bound below 1 |
| WriteSql.SplitChunks | populate_data/writeSQL.py:528-544 | the chunks are the front-first pieces of `max_lines` lines, each joined by "\n" |
| WriteSql.SplitChunksShape | populate_data/writeSQL.py:533-542 | the pieces give back the lines; each but the last has `max_lines`, the last 1 to `max_lines`; `ceil(len(lines) / max_lines)` pieces, none for no lines |
| WriteSql.MissingAsNull | populate_data/writeSQL.py:493 | one output per rendered value; an output is NULL exactly when the value is "nan", "<NA>" or "NULL", and any other output is the value unchanged |
| WriteSql.CellTextNull | populate_data/writeSQL.py:491-493 | a cell renders as NULL exactly when it is a non-string with text "nan", "<NA>" or "NULL"; a string stays quoted, even "nan" |
| WriteSql.FixedCellText | populate_data/writeSQL.py:491-493 | after `fix_apostrophes`, a text-column cell is written as its escaped string in quotes, or as NULL when it was not a string |
| WriteSql.CreateInserts | populate_data/writeSQL.py:481-501 | "\n\n", the INSERT lines of the rows in order with NULL substitution, then the PRINT trailer |
| WriteSql.InsertsTextLines | populate_data/writeSQL.py:498-500 | with no line break in names or values the script holds `len(rows) + 4` line breaks: two in front, one per row, two in the trailer |
| WriteSql.TrailerLines | populate_data/writeSQL.py:500 | the trailer is a blank line and the PRINT line |
| WriteSql.PrintDoneOneLine | populate_data/writeSQL.py:500 | the PRINT statement is one line |
| WriteSql.CellTextsOneLine | populate_data/writeSQL.py:491-493 | rendered cells hold no line break when the values hold none |
| WriteSql.SeasonText | populate_data/writeSQL.py:222 | a dash goes in after the fourth character; removing it gives the season back |
| WriteSql.SeasonTextYears | populate_data/writeSQL.py:222 | "YYYYZZZZ" becomes "YYYY-ZZZZ", so "20122013" becomes "2012-2013" |
| WriteSql.KeepFromNumeric | populate_data/writeSQL.py:225 | the string comparisons keep a game exactly when its year is later, or the same and the month is 9 or later |
| WriteSql.GameFilter | populate_data/writeSQL.py:225-232 | a game is kept exactly when its type is not "A" and it is played after 2012, or in 2012 from September on |
| WriteSql.ParseNine | populate_data/writeSQL.py:225 | the month bound "09" is the number 9 |
| WriteSql.ParseFirstSeason | populate_data/writeSQL.py:14 | the first season "2012" is the number 2012 |
| WriteSql.PeriodNumber | populate_data/writeSQL.py:393 | `t // 1200 + 1` is the period whose 1200 seconds contain `t` |
| WriteSql.SplitShiftAsWritten | populate_data/writeSQL.py:390-395 | `(periodNumber - 1) * 1200 + shiftStart` is the start, `0 <= shiftStart < 1200`, and the end is reduced mod 1200 |
| WriteSql.ShiftEndWraps | populate_data/writeSQL.py:395 | a shift lasting to the end of its period is given the end 0 and loses its length |
| WriteSql.SplitShift | populate_data/writeSQL.py:390-395 | the same start split, with the end measured from its period's start, so the shift keeps its length |
| WriteSql.SplitShiftInPeriod | populate_data/writeSQL.py:393-395 | a shift within its period gets times within `0..1200` and agrees with the code unless it ends at the period's end |
| WriteSql.CreatePlaysOn | populate_data/writeSQL.py:304-322 | the stints of every player in turn, as the per-player walk over the games defines them |
| WriteSql.Step | populate_data/writeSQL.py:316-322 | defines one game of the loop; it never leaves the stint list empty, and what it does to the stints is stated by StepChained and StepTeams |
| WriteSql.Walk | populate_data/writeSQL.py:315-322 | reading games never leaves the stints empty |
| WriteSql.StintsChain | populate_data/writeSQL.py:309-322 | the first stint has the first game's team and starts "2012-09-01"; each stint ends on the date the next starts; consecutive teams differ; only the last is open; all belong to the player (which date that is: StintDates) |
| WriteSql.StintsTeams | populate_data/writeSQL.py:314-322 | the stint teams, in order, are the game teams with every run collapsed |
| WriteSql.Compress | populate_data/writeSQL.py:316 | collapsing runs keeps the first and last value and leaves no two adjacent values equal |
| WriteSql.CompressRepeatedHead | populate_data/writeSQL.py:309 | the first game repeats the first stint's team without opening a stint |
| WriteSql.StepChained | populate_data/writeSQL.py:316-322 | a step keeps the stints a chain; the same team changes nothing, a new team closes the open stint on `dateTime[:10]` of the game and opens one with the game's team on that date |
| WriteSql.Changes | populate_data/writeSQL.py:317 | the positions of the games whose team differs from the one before, all of them, in increasing order |
| WriteSql.WalkDates | populate_data/writeSQL.py:316-322 | reading the games opens one stint per team change, in order, each with the changing game's team and starting on its date |
| WriteSql.StintDates | populate_data/writeSQL.py:309-322 | after the first stint, which starts "2012-09-01", there is exactly one stint per game whose team differs from the previous game's; it starts on that game's `dateTime[:10]` and the stint before it ends on that date |
| WriteSql.WalkChained | populate_data/writeSQL.py:315-322 | reading the games keeps the stints a chain and keeps the first stint's start |
| WriteSql.StepTeams | populate_data/writeSQL.py:316-322 | a step adds the game's team exactly when the team changes |
| WriteSql.WalkTeams | populate_data/writeSQL.py:315-322 | the stint teams after reading are the collapsed team sequence |
| WriteSql.StepAppends | populate_data/writeSQL.py:319-322 | changing the table's last row and appending one is the step on the player's own stints |
| WriteSqlV1.CreateInserts | writeSQL.py:257-274 | "\n\n", then the INSERT lines of the rows in order, with no NULL substitution and no trailer |
| WriteSqlV1.InsertsTextLines | writeSQL.py:270-272 | the script holds `len(rows) + 2` line breaks and no PRINT line |
| WriteSqlV1.SameLinesWithoutMissing | writeSQL.py:264-270 | without "nan" or "<NA>" renderings both copies write the same INSERT lines |
| WriteSqlV1.NewerAddsTrailer | writeSQL.py:272 | the newer script is the older one followed by the PRINT trailer |
| WriteSqlV1.KeepGameAsWrittenNumeric | writeSQL.py:175 | the filter keeps a game exactly when its year is 2018 or later and, separately, its month is 9 or later |
| WriteSqlV1.FilterDropsSpringGames | writeSQL.py:175 | the filter keeps only games the intended one keeps, and drops "2019-01-15 00:00:00", which the intended one keeps |
| WriteSqlV1.KeepGameNumeric | writeSQL.py:174-175 | the intended filter keeps every game after 2018, and those of 2018 from September on |
| WriteSqlV1.ParseFirstSeason | writeSQL.py:5 | the first season "2018" is the number 2018 |

## Left out

- Database access is not modelled. This covers JDBC connections, credentials, `executeQuery`, `addBatch`, `executeBatch` and `commit`. Query results are input sequences, and executed batches are the output sequence.
- What the SQL queries mean and return is not modelled.
- The console REPL (`HockeyDBInterface.java`) and `DBExample.java` are not part of this model. They are prompts, menu dispatch and ASCII art.
- `getTableData` is not modelled. The rows it would read from a `ResultSet` are given as a sequence.
- pandas file input and output are not modelled: `read_csv`, `to_csv`, file writing, `create_bulk_insert` and `create_meta_script`.
- The pandas relational operations are not modelled: merges, `drop_duplicates`, `dropna`, `fillna` and `convert_column_int`.
- The grouping of `players_game` by player and its `sort_values` are not modelled. Each player's games are given already grouped and sorted by time.
- Python's `str()` of floats and integers is not modelled. A non-string value is its already rendered text.
- The `.astype(int)` of the shift end is not modelled. Shift times are integers.
- `sql_str.splitlines()` is not modelled. `split_chunks` takes the lines as its input.
- The `dtype == "object"` test of `fix_apostrophes` is given as one flag per column. Every string in a text column is a `Str` value; pandas turns every other value of such a column into NaN, which the model writes as `Other("nan")`.
- `null` cells in the Java renderer are not modelled. Cells are strings, on which `getColumnSpaces` would not throw.
- Java `int` overflow is not modelled. This covers the rank counter, `batchCount`, `totalGoals` and the widths, which stay far below 2^31.
- TablePrinter.AddRanks: the ranked rows are a new sequence, not the in-place `add(0, rank)` on the shared row lists. The lists are local to `printResultSetWithRank`, so no caller can see the difference.
- TablePrinter.PrintResultSetWithRank: equal line lengths are promised only when the largest rank fits the rank column. A longer rank pushes its row to the right, as in the code.
- A row wider than the headers, on which `getColumnSpaces` and `printRow` would throw `IndexOutOfBoundsException`, is excluded by the preconditions of the TablePrinter operations rather than modelled as an error. Equal line lengths are proved only for rows as wide as the headers.
- Text lengths are counted in characters (Unicode scalar values). Java's `length()` and `%-Ns` count UTF-16 code units, so for text outside the Basic Multilingual Plane the widths and padding of the Java renderers (TablePrinter, HockeyDB) would differ from the model. The Python generators count code points, as the model does.
- The goal count of a team row is one natural number, printed as its decimal text and added to the total. The code prints `getString("numGoals")` and adds `getInt("numGoals")`; the model assumes the two agree, as they do for an integer column.
- HockeyDB.PrintTitles and HockeyDB.PrintDashes require spacings of at least 1 and 2 for the padded columns. Java throws on `%-0s` and on a negative repeat count.

## Findings

| source | as written | input that shows it | evidently intended | confidence | as-written member | corrected member |
|---|---|---|---|---|---|---|
| populate_data/writeSQL.py:395 | `shiftEnd % PERIOD_DURATION` reduces the end on its own, not relative to the start's period | shiftStart 1100, shiftEnd 1200 gives periodNumber 1, shiftStart 1100, shiftEnd 0 | the end measured from the start of the shift's period (1200 here), so that the end is not before the start and the length is kept | medium; not executed | WriteSql.ShiftEndWraps | WriteSql.SplitShift |
| writeSQL.py:175 | `(year >= FIRST_SEASON) & (month >= "09")` tests year and month separately | "2019-01-15 00:00:00" is dropped | every game from September 2018 on, as the newer copy's filter at populate_data/writeSQL.py:225 does | high; not executed | WriteSqlV1.FilterDropsSpringGames | WriteSqlV1.KeepGameNumeric |
