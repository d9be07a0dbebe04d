/**
 * The data shaping of the SQL generator populate_data/writeSQL.py: cutting
 * the generated script into chunks of lines, writing one INSERT line per
 * data frame row, the game filter and season format, the team stints of
 * each player and the split of shift times into periods. Data frames are
 * sequences of rows; pandas itself is not modelled.
 */
module WriteSql {
  import opened Text
  import opened Chunking
  import opened SqlText

  // ---------------------------------------------------------------------
  // split_chunks
  // ---------------------------------------------------------------------

  /**
   * The size of the chunks `split_chunks(sql_str, max_lines)` cuts: a chunk
   * is closed as soon as it holds `max_lines` lines, and always holds at
   * least one, so a bound below 1 acts as 1.
   */
  function ChunkSize(maxLines: int): (n: nat)
    ensures n >= 1 && (maxLines >= 1 ==> n == maxLines)
  {
    if maxLines < 1 then 1 else maxLines
  }

  /**
   * split_chunks over the lines of the script: each chunk is the lines of
   * one piece of `ChunksOf(lines, ChunkSize(maxLines))` joined by "\n".
   */
  method SplitChunks(lines: seq<string>, maxLines: int) returns (chunks: seq<string>)
    ensures |chunks| == |ChunksOf(lines, ChunkSize(maxLines))|
    ensures forall k :: 0 <= k < |chunks| ==> chunks[k] == Join(ChunksOf(lines, ChunkSize(maxLines))[k], "\n")
  {
    var n := ChunkSize(maxLines);
    ghost var pieces: seq<seq<string>> := [];
    chunks := [];
    var currentChunk: seq<string> := [];
    for i := 0 to |lines|
      invariant Filling(pieces, currentChunk, lines[..i], n)
      invariant |chunks| == |pieces|
      invariant forall k :: 0 <= k < |chunks| ==> chunks[k] == Join(pieces[k], "\n")
    {
      assert lines[..i + 1] == lines[..i] + [lines[i]];
      ghost var before := currentChunk;
      currentChunk := currentChunk + [lines[i]];
      if |currentChunk| >= maxLines {
        FillingFlush(pieces, before, lines[..i], n, lines[i]);
        chunks := chunks + [Join(currentChunk, "\n")];
        pieces := pieces + [currentChunk];
        currentChunk := [];
      } else {
        FillingAdd(pieces, before, lines[..i], n, lines[i]);
      }
    }
    assert lines[..|lines|] == lines;
    FillingDone(pieces, currentChunk, lines, n);
    if currentChunk != [] {
      chunks := chunks + [Join(currentChunk, "\n")];
      pieces := pieces + [currentChunk];
    }
    ChunksOfIsChunking(lines, n);
    ChunkingUnique(pieces, ChunksOf(lines, n), lines, n);
  }

  /**
   * The chunks hold the lines in order, every chunk but the last holds
   * exactly `max_lines` lines, the last between 1 and `max_lines`, and
   * there are `ceil(|lines| / max_lines)` of them (none for no lines).
   */
  lemma SplitChunksShape(lines: seq<string>, maxLines: int)
    requires maxLines >= 1
    ensures Flatten(ChunksOf(lines, maxLines)) == lines
    ensures forall k :: 0 <= k < |ChunksOf(lines, maxLines)| ==> 1 <= |ChunksOf(lines, maxLines)[k]| <= maxLines
    ensures forall k :: 0 <= k < |ChunksOf(lines, maxLines)| - 1 ==> |ChunksOf(lines, maxLines)[k]| == maxLines
    ensures |ChunksOf(lines, maxLines)| * maxLines - maxLines < |lines| <= |ChunksOf(lines, maxLines)| * maxLines
  {
    ChunksOfIsChunking(lines, maxLines);
    ChunkingCount(ChunksOf(lines, maxLines), lines, maxLines);
  }

  // ---------------------------------------------------------------------
  // create_inserts
  // ---------------------------------------------------------------------

  /** `'NULL' if (x == 'nan' or x == '<NA>') else x`: the rendering of a missing value. */
  function NullIfMissing(x: string): string
  {
    if x == "nan" || x == "<NA>" then "NULL" else x
  }

  /** The list comprehension replacing the missing values of a row by NULL. */
  function MissingAsNull(values: seq<string>): (r: seq<string>)
    ensures |r| == |values|
    ensures forall k :: 0 <= k < |r| ==> (r[k] == "NULL" <==> values[k] in {"nan", "<NA>", "NULL"})
    ensures forall k :: 0 <= k < |r| && r[k] != "NULL" ==> r[k] == values[k]
  {
    seq(|values|, k requires 0 <= k < |values| => NullIfMissing(values[k]))
  }

  /** The values of a row as they appear in its INSERT line. */
  function CellTexts(row: seq<Value>): seq<string>
  {
    MissingAsNull(RenderValues(row))
  }

  /**
   * Only a non-string value whose text is "nan", "<NA>" (or "NULL" itself)
   * comes out as NULL; a string, even the string "nan", stays quoted.
   */
  lemma CellTextNull(v: Value)
    ensures NullIfMissing(RenderValue(v)) == "NULL" <==> v.Other? && v.text in {"nan", "<NA>", "NULL"}
    ensures v.Str? ==> NullIfMissing(RenderValue(v)) == "'" + v.s + "'"
  {
    if v.Str? {
      assert RenderValue(v)[0] == '\'';
      assert "NULL"[0] != '\'' && "nan"[0] != '\'' && "<NA>"[0] != '\'';
    }
  }

  /**
   * After fix_apostrophes, a cell of a text column is written either as its
   * string with doubled quotes, quoted, or as NULL: a number or a missing
   * value that sat in a text column is NaN by then.
   */
  lemma FixedCellText(v: Value)
    ensures v.Str? ==> NullIfMissing(RenderValue(FixValue(v))) == "'" + DoubleApostrophes(v.s) + "'"
    ensures v.Other? ==> NullIfMissing(RenderValue(FixValue(v))) == "NULL"
  {
    CellTextNull(FixValue(v));
  }

  /** The PRINT statement announcing that a table is filled. */
  function PrintDone(table: string): string
  {
    "PRINT('Table: " + table + " done inserting')"
  }

  lemma PrintDoneOneLine(table: string)
    requires '\n' !in table
    ensures '\n' !in PrintDone(table)
  {
    var a, b := "PRINT('Table: ", " done inserting')";
    assert forall k :: 0 <= k < |a| ==> a[k] != '\n';
    assert forall k :: 0 <= k < |b| ==> b[k] != '\n';
  }

  /** `f"\nPRINT('Table: {table_name} done inserting')\n"`. */
  function Trailer(table: string): string
  {
    "\n" + PrintDone(table) + "\n"
  }

  /** The whole text create_inserts returns. */
  function InsertsText(table: string, cols: seq<string>, rows: seq<seq<Value>>): string
  {
    "\n\n" + Join(InsertLines(table, cols, CellTexts, rows), "") + Trailer(table)
  }

  /**
   * create_inserts: the values of every row are rendered one by one, the
   * missing ones replaced by NULL, and the INSERT lines of all rows
   * concatenated between two line breaks and the PRINT trailer.
   */
  method CreateInserts(table: string, cols: seq<string>, rows: seq<seq<Value>>) returns (sql: string)
    ensures sql == InsertsText(table, cols, rows)
  {
    var colNames := Join(cols, ", ");
    var insertString := "INSERT INTO " + table + " (" + colNames + ") VALUES ";
    assert insertString == InsertHead(table, cols);
    var individualInserts: seq<string> := [];
    for r := 0 to |rows|
      invariant individualInserts == InsertLines(table, cols, CellTexts, rows[..r])
    {
      var values := CollectValues(rows[r]);
      values := MissingAsNull(values);
      InsertLinesSnoc(table, cols, CellTexts, rows, r);
      individualInserts := individualInserts + [insertString + "(" + Join(values, ", ") + ");\n"];
    }
    assert rows[..|rows|] == rows;
    sql := "\n\n" + Join(individualInserts, "");
    sql := sql + "\n" + "PRINT('Table: " + table + " done inserting')" + "\n";
  }

  /** The trailer is one empty line and the PRINT line. */
  lemma TrailerLines(table: string)
    requires '\n' !in table
    ensures Count(Trailer(table), '\n') == 2
  {
    var nl := "\n";
    assert Count(nl, '\n') == 1 by {
      assert nl[1..] == [];
    }
    PrintDoneOneLine(table);
    CountAbsent(PrintDone(table), '\n');
    CountConcat(nl, PrintDone(table), '\n');
    CountConcat(nl + PrintDone(table), nl, '\n');
  }

  /** NULL and the quoted or plain text of a value hold no line break when the value holds none. */
  lemma CellTextsOneLine(rows: seq<seq<Value>>)
    requires forall i, k :: 0 <= i < |rows| && 0 <= k < |rows[i]| ==> OneLine(rows[i][k])
    ensures RendersOneLine(CellTexts, rows)
  {
    forall i, k | 0 <= i < |rows| && 0 <= k < |CellTexts(rows[i])|
      ensures '\n' !in CellTexts(rows[i])[k]
    {
      assert '\n' !in RenderValue(rows[i][k]);
      assert '\n' !in "NULL";
    }
  }

  /**
   * The script of a table is its rows' INSERT lines, one per row, between
   * two line breaks in front and the PRINT line at the end: `|rows| + 4`
   * line breaks in all.
   */
  lemma InsertsTextLines(table: string, cols: seq<string>, rows: seq<seq<Value>>)
    requires OneLineTable(table, cols, rows)
    ensures Count(InsertsText(table, cols, rows), '\n') == |rows| + 4
  {
    var body := Join(InsertLines(table, cols, CellTexts, rows), "");
    var nl := "\n";
    assert Count(nl, '\n') == 1 by {
      assert nl[1..] == [];
    }
    CellTextsOneLine(rows);
    InsertLinesCount(table, cols, CellTexts, rows);
    TrailerLines(table);
    var twoNl := "\n\n";
    assert twoNl == nl + nl;
    CountConcat(nl, nl, '\n');
    CountConcat(twoNl, body, '\n');
    CountConcat(twoNl + body, Trailer(table), '\n');
  }

  // ---------------------------------------------------------------------
  // create_games_df: the season format and the game filter
  // ---------------------------------------------------------------------

  /** The first season the database holds. */
  const FIRST_SEASON: string := "2012"

  /**
   * `s[:4] + "-" + s[4:]` on the text of the season number: a dash goes in
   * after the fourth character and nothing else changes.
   */
  function SeasonText(season: string): (r: string)
    ensures |r| == |season| + 1
    ensures r[Min(4, |season|)] == '-'
    ensures r[..Min(4, |season|)] + r[Min(4, |season|) + 1..] == season
  {
    Take(season, 4) + "-" + Drop(season, 4)
  }

  /** The season of two four-digit years, such as "20122013", reads "2012-2013". */
  lemma SeasonTextYears(first: string, second: string)
    requires |first| == 4
    ensures SeasonText(first + second) == first + "-" + second
    ensures SeasonText("20122013") == "2012-2013"
  {
    assert (first + second)[..4] == first && (first + second)[4..] == second;
  }

  /** `dateTime[:4]`. */
  function Year(dateTime: string): string { Take(dateTime, 4) }

  /** `dateTime[5:7]`. */
  function Month(dateTime: string): string { Slice(dateTime, 5, 7) }

  /** A game time that begins "YYYY-MM". */
  predicate IsDateTime(dateTime: string)
  {
    |dateTime| >= 7 && AllDigits(dateTime[..4]) && dateTime[4] == '-' && AllDigits(dateTime[5..7])
  }

  /**
   * The date condition of the game filter, comparing strings as Python
   * does: a year after `first`, or the year `first` from September on.
   */
  predicate KeepFrom(first: string, dateTime: string)
  {
    LexLess(first, Year(dateTime)) || (Year(dateTime) == first && LexAtLeast(Month(dateTime), "09"))
  }

  /** The rows create_games_df keeps: from September of the first season on, and not of type "A". */
  predicate KeepGame(dateTime: string, gameType: string)
  {
    KeepFrom(FIRST_SEASON, dateTime) && gameType != "A"
  }

  lemma ParseNine()
    ensures AllDigits("09") && ParseNat("09") == 9
  {
    assert "09"[..1] == "0" && "0"[..0] == "";
  }

  /**
   * On well-formed times the string comparisons are the comparisons of the
   * numbers: a later year, or the same year and month 9 or later.
   */
  lemma {:induction false} KeepFromNumeric(first: string, dateTime: string)
    requires |first| == 4 && AllDigits(first) && IsDateTime(dateTime)
    ensures KeepFrom(first, dateTime) <==>
      ParseNat(dateTime[..4]) > ParseNat(first)
      || (ParseNat(dateTime[..4]) == ParseNat(first) && ParseNat(dateTime[5..7]) >= 9)
  {
    var year, month := dateTime[..4], dateTime[5..7];
    assert Year(dateTime) == year && Month(dateTime) == month;
    LexLessDigits(first, year);
    DigitsEqual(first, year);
    ParseNine();
    LexLessDigits("09", month);
    DigitsEqual("09", month);
  }

  lemma ParseFirstSeason()
    ensures AllDigits(FIRST_SEASON) && ParseNat(FIRST_SEASON) == 2012
  {
    assert "2"[..0] == "" && ParseNat("2") == 2;
    assert "20"[..1] == "2" && ParseNat("20") == 20;
    assert "201"[..2] == "20" && ParseNat("201") == 201;
    assert FIRST_SEASON[..3] == "201";
  }

  /**
   * A game is kept exactly when its type is not "A" and it is played in
   * 2013 or later, or in 2012 from September on.
   */
  lemma GameFilter(dateTime: string, gameType: string)
    requires IsDateTime(dateTime)
    ensures KeepGame(dateTime, gameType) <==>
      gameType != "A"
      && (ParseNat(dateTime[..4]) > 2012 || (ParseNat(dateTime[..4]) == 2012 && ParseNat(dateTime[5..7]) >= 9))
  {
    ParseFirstSeason();
    KeepFromNumeric(FIRST_SEASON, dateTime);
  }

  // ---------------------------------------------------------------------
  // create_shifts_df: shift times relative to their period
  // ---------------------------------------------------------------------

  /** The length of a period in seconds. */
  const PERIOD_DURATION: int := 1200

  /** A shift with its period and its start and end within the period. */
  datatype Shift = Shift(periodNumber: int, shiftStart: int, shiftEnd: int)

  /** `t // PERIOD_DURATION + 1`: the period a game time falls in. */
  function PeriodNumber(t: int): (p: int)
    ensures (p - 1) * PERIOD_DURATION <= t < p * PERIOD_DURATION
  {
    t / PERIOD_DURATION + 1
  }

  /**
   * The period split as written: the period of the start, the start modulo
   * the period length, and the end modulo the period length.
   */
  function SplitShiftAsWritten(start: int, end: int): (r: Shift)
    ensures (r.periodNumber - 1) * PERIOD_DURATION + r.shiftStart == start
    ensures 0 <= r.shiftStart < PERIOD_DURATION && 0 <= r.shiftEnd < PERIOD_DURATION
    ensures (end - r.shiftEnd) % PERIOD_DURATION == 0
  {
    Shift(PeriodNumber(start), start % PERIOD_DURATION, end % PERIOD_DURATION)
  }

  /**
   * A shift that lasts to the end of its period, such as one from 1100 to
   * 1200, is given the end 0: before its own start, and its length lost.
   */
  lemma ShiftEndWraps(start: int)
    ensures SplitShiftAsWritten(start, PeriodNumber(start) * PERIOD_DURATION).shiftEnd == 0
    ensures SplitShiftAsWritten(start, PeriodNumber(start) * PERIOD_DURATION).shiftEnd
      - SplitShiftAsWritten(start, PeriodNumber(start) * PERIOD_DURATION).shiftStart
      != PeriodNumber(start) * PERIOD_DURATION - start
    ensures SplitShiftAsWritten(1100, 1200) == Shift(1, 1100, 0)
  {
    var p := PeriodNumber(start);
    assert (p * PERIOD_DURATION) % PERIOD_DURATION == 0;
  }

  /** The period split measuring the end from the start of the shift's own period. */
  function SplitShift(start: int, end: int): (r: Shift)
    ensures (r.periodNumber - 1) * PERIOD_DURATION + r.shiftStart == start
    ensures 0 <= r.shiftStart < PERIOD_DURATION
    ensures r.shiftEnd - r.shiftStart == end - start
  {
    var p := PeriodNumber(start);
    Shift(p, start % PERIOD_DURATION, end - (p - 1) * PERIOD_DURATION)
  }

  /**
   * For a shift that ends within its period, or at its end, the split
   * gives times within the period, and it agrees with the code as written
   * except when the shift ends exactly at the end of the period.
   */
  lemma SplitShiftInPeriod(start: int, end: int)
    requires start <= end <= PeriodNumber(start) * PERIOD_DURATION
    ensures 0 <= SplitShift(start, end).shiftStart <= SplitShift(start, end).shiftEnd <= PERIOD_DURATION
    ensures end < PeriodNumber(start) * PERIOD_DURATION ==> SplitShift(start, end) == SplitShiftAsWritten(start, end)
    ensures end == PeriodNumber(start) * PERIOD_DURATION ==> SplitShift(start, end).shiftEnd == PERIOD_DURATION
  {
    var p := PeriodNumber(start);
    if end < p * PERIOD_DURATION {
      assert end / PERIOD_DURATION == p - 1;
    }
  }

  // ---------------------------------------------------------------------
  // create_playsOn_df: the team stints of each player
  // ---------------------------------------------------------------------

  datatype Option<T> = None | Some(value: T)

  /** One game of a player: the team played for and the game time. */
  datatype PlayerGame = PlayerGame(teamID: int, dateTime: string)

  /** A row of playsOn: a player's time with one team, the end missing for the current team. */
  datatype Stint = Stint(teamID: int, playerID: int, startDate: string, endDate: Option<string>)

  /** A player with the player's games, sorted by time. */
  datatype PlayerGames = PlayerGames(playerID: int, games: seq<PlayerGame>)

  /** `f"{FIRST_SEASON}-09-01"`: the start of every player's first stint. */
  const SEASON_START: string := FIRST_SEASON + "-09-01"

  /** `dateTime[:10]`: the date of a game. */
  function GameDate(g: PlayerGame): string { Take(g.dateTime, 10) }

  /**
   * One game read by the loop: on a team change the open stint is closed
   * on the game's date and a stint with the new team opens on it.
   */
  function Step(playerID: int, stints: seq<Stint>, g: PlayerGame): (r: seq<Stint>)
    requires stints != []
    ensures r != []
  {
    var last := stints[|stints| - 1];
    if g.teamID == last.teamID then stints
    else stints[..|stints| - 1] + [last.(endDate := Some(GameDate(g))), Stint(g.teamID, playerID, GameDate(g), None)]
  }

  /** The stints after reading the games in order, starting from `start`. */
  function Walk(playerID: int, start: seq<Stint>, games: seq<PlayerGame>): (r: seq<Stint>)
    requires start != []
    ensures r != []
  {
    if games == [] then start
    else Step(playerID, Walk(playerID, start, games[..|games| - 1]), games[|games| - 1])
  }

  /** The stints of one player: a first stint with the team of the first game, then every game read. */
  function StintsOf(playerID: int, games: seq<PlayerGame>): seq<Stint>
  {
    if games == [] then []
    else Walk(playerID, [Stint(games[0].teamID, playerID, SEASON_START, None)], games)
  }

  /** The playsOn table: the stints of every player, player after player. */
  function AllStints(players: seq<PlayerGames>): seq<Stint>
  {
    if players == [] then []
    else AllStints(players[..|players| - 1]) + StintsOf(players[|players| - 1].playerID, players[|players| - 1].games)
  }

  /**
   * create_playsOn_df: for every player a first stint is appended, then
   * the player's games are read in order; on a team change the last row's
   * endDate is set and a new row appended.
   */
  method CreatePlaysOn(players: seq<PlayerGames>) returns (playsOn: seq<Stint>)
    requires forall pg :: pg in players ==> pg.games != []
    ensures playsOn == AllStints(players)
  {
    playsOn := [];
    for p := 0 to |players|
      invariant playsOn == AllStints(players[..p])
    {
      var playerID := players[p].playerID;
      var games := players[p].games;
      var currTeam := games[0].teamID;
      ghost var done := playsOn;
      ghost var first := [Stint(currTeam, playerID, SEASON_START, None)];
      playsOn := playsOn + [Stint(currTeam, playerID, SEASON_START, None)];
      for k := 0 to |games|
        invariant playsOn == done + Walk(playerID, first, games[..k])
        invariant currTeam == playsOn[|playsOn| - 1].teamID
      {
        ghost var w := Walk(playerID, first, games[..k]);
        WalkSnoc(playerID, first, games, k);
        if games[k].teamID != currTeam {
          currTeam := games[k].teamID;
          var newTeamDate := Take(games[k].dateTime, 10);
          StepAppends(done, playerID, w, games[k]);
          playsOn := playsOn[|playsOn| - 1 := playsOn[|playsOn| - 1].(endDate := Some(newTeamDate))];
          playsOn := playsOn + [Stint(currTeam, playerID, newTeamDate, None)];
        }
      }
      assert games[..|games|] == games;
      AllStintsSnoc(players, p);
    }
    assert players[..|players|] == players;
  }

  lemma WalkSnoc(playerID: int, start: seq<Stint>, games: seq<PlayerGame>, k: nat)
    requires start != [] && k < |games|
    ensures Walk(playerID, start, games[..k + 1]) == Step(playerID, Walk(playerID, start, games[..k]), games[k])
  {
    assert games[..k + 1][..k] == games[..k];
  }

  lemma AllStintsSnoc(players: seq<PlayerGames>, p: nat)
    requires p < |players|
    ensures AllStints(players[..p + 1]) == AllStints(players[..p]) + StintsOf(players[p].playerID, players[p].games)
  {
    assert players[..p + 1][..p] == players[..p];
  }

  /** A team change seen on the whole table is the step on the player's own stints. */
  lemma StepAppends(done: seq<Stint>, playerID: int, w: seq<Stint>, g: PlayerGame)
    requires w != [] && g.teamID != w[|w| - 1].teamID
    ensures var all := done + w;
      all[|all| - 1 := all[|all| - 1].(endDate := Some(GameDate(g)))] + [Stint(g.teamID, playerID, GameDate(g), None)]
      == done + Step(playerID, w, g)
  {
    var all := done + w;
    var closed := w[|w| - 1].(endDate := Some(GameDate(g)));
    assert all[|all| - 1 := closed] == done + (w[..|w| - 1] + [closed]);
  }

  /**
   * The stints of a player form a chain: all of the player, each closed on
   * the day the next opens, consecutive ones with different teams, and only
   * the last one open.
   */
  ghost predicate Chained(playerID: int, stints: seq<Stint>)
  {
    && stints != []
    && (forall i :: 0 <= i < |stints| ==> stints[i].playerID == playerID)
    && (forall i :: 0 <= i < |stints| - 1 ==>
          stints[i].endDate == Some(stints[i + 1].startDate) && stints[i].teamID != stints[i + 1].teamID)
    && stints[|stints| - 1].endDate == None
  }

  lemma StepChained(playerID: int, stints: seq<Stint>, g: PlayerGame)
    requires Chained(playerID, stints)
    ensures Chained(playerID, Step(playerID, stints, g))
    ensures Step(playerID, stints, g)[0].startDate == stints[0].startDate
    ensures Step(playerID, stints, g)[0].teamID == stints[0].teamID
    ensures g.teamID == stints[|stints| - 1].teamID ==> Step(playerID, stints, g) == stints
    ensures g.teamID != stints[|stints| - 1].teamID ==>
      var r := Step(playerID, stints, g);
      |r| == |stints| + 1 && r[|r| - 1] == Stint(g.teamID, playerID, GameDate(g), None)
      && r[|r| - 2].endDate == Some(GameDate(g))
  {
    var n := |stints|;
    if g.teamID != stints[n - 1].teamID {
      var r := Step(playerID, stints, g);
      assert |r| == n + 1;
      assert forall i :: 0 <= i < n - 1 ==> r[i] == stints[i];
      assert r[n - 1] == stints[n - 1].(endDate := Some(GameDate(g)));
    }
  }

  lemma {:induction false} WalkChained(playerID: int, start: seq<Stint>, games: seq<PlayerGame>)
    requires Chained(playerID, start)
    ensures Chained(playerID, Walk(playerID, start, games))
    ensures Walk(playerID, start, games)[0].startDate == start[0].startDate
    ensures Walk(playerID, start, games)[0].teamID == start[0].teamID
  {
    if games != [] {
      WalkChained(playerID, start, games[..|games| - 1]);
      StepChained(playerID, Walk(playerID, start, games[..|games| - 1]), games[|games| - 1]);
    }
  }

  /**
   * A player's stints form a chain whose first stint, with the team of the
   * first game, starts on September 1 of the first season.
   */
  lemma StintsChain(playerID: int, games: seq<PlayerGame>)
    requires games != []
    ensures Chained(playerID, StintsOf(playerID, games))
    ensures StintsOf(playerID, games)[0] == Stint(games[0].teamID, playerID, SEASON_START, StintsOf(playerID, games)[0].endDate)
  {
    WalkChained(playerID, [Stint(games[0].teamID, playerID, SEASON_START, None)], games);
  }

  /**
   * Game `j` changes the team: its team differs from the one before it,
   * which for the first game is `t0`, the team already open.
   */
  predicate IsChange(t0: int, games: seq<PlayerGame>, j: nat)
    requires j < |games|
  {
    games[j].teamID != (if j == 0 then t0 else games[j - 1].teamID)
  }

  /** The positions of the games that change the team, in increasing order. */
  function Changes(t0: int, games: seq<PlayerGame>): (c: seq<nat>)
    ensures forall k :: 0 <= k < |c| ==> c[k] < |games| && IsChange(t0, games, c[k])
    ensures forall k, l :: 0 <= k < l < |c| ==> c[k] < c[l]
    ensures forall j :: 0 <= j < |games| && IsChange(t0, games, j) ==> j in c
  {
    if games == [] then []
    else
      var front := games[..|games| - 1];
      var c := Changes(t0, front);
      assert forall j :: 0 <= j < |front| ==> IsChange(t0, games, j) == IsChange(t0, front, j);
      if IsChange(t0, games, |games| - 1) then c + [|games| - 1] else c
  }

  /** The team of the open stint after reading `games`: that of the last game, or `t0` before any. */
  function LastTeam(t0: int, games: seq<PlayerGame>): int
  {
    if games == [] then t0 else games[|games| - 1].teamID
  }

  /**
   * Reading the games opens one stint per team change: stint `k + 1` has the
   * team of the `k`-th changing game and starts on that game's date.
   */
  lemma {:induction false} WalkDates(playerID: int, s0: Stint, games: seq<PlayerGame>)
    ensures var w, c := Walk(playerID, [s0], games), Changes(s0.teamID, games);
      && |w| == |c| + 1
      && w[0].startDate == s0.startDate
      && w[|w| - 1].teamID == LastTeam(s0.teamID, games)
      && forall k :: 0 <= k < |c| ==>
           w[k + 1].startDate == GameDate(games[c[k]]) && w[k + 1].teamID == games[c[k]].teamID
  {
    if games != [] {
      var front, g := games[..|games| - 1], games[|games| - 1];
      var w0, c0 := Walk(playerID, [s0], front), Changes(s0.teamID, front);
      var w, c := Walk(playerID, [s0], games), Changes(s0.teamID, games);
      WalkDates(playerID, s0, front);
      ChangesSnoc(s0.teamID, games);
      StepKeepsOpened(playerID, w0, g);
      assert w == Step(playerID, w0, g);
      forall k | 0 <= k < |c|
        ensures w[k + 1].startDate == GameDate(games[c[k]]) && w[k + 1].teamID == games[c[k]].teamID
      {
        if k < |c0| {
          assert c[k] == c0[k] && games[c0[k]] == front[c0[k]];
        }
      }
    }
  }

  /** Reading one more game adds its position to the changes exactly when its team differs from the open one. */
  lemma ChangesSnoc(t0: int, games: seq<PlayerGame>)
    requires games != []
    ensures var front := games[..|games| - 1];
      Changes(t0, games) == Changes(t0, front)
        + (if games[|games| - 1].teamID != LastTeam(t0, front) then [|games| - 1] else [])
  {
  }

  /** A step leaves the team and the start of every stint already there as they were. */
  lemma StepKeepsOpened(playerID: int, w: seq<Stint>, g: PlayerGame)
    requires w != []
    ensures |Step(playerID, w, g)| >= |w|
    ensures forall i :: 0 <= i < |w| ==>
      Step(playerID, w, g)[i].startDate == w[i].startDate && Step(playerID, w, g)[i].teamID == w[i].teamID
  {
    if g.teamID != w[|w| - 1].teamID {
      var r := Step(playerID, w, g);
      assert forall i :: 0 <= i < |w| - 1 ==> r[i] == w[i];
    }
  }

  /**
   * The dates of a player's stints: after the first, which starts on
   * September 1 of the first season, there is exactly one stint per game
   * whose team differs from the previous game's, in order; it starts on
   * `dateTime[:10]` of that game, and the stint before it ends on that date.
   */
  lemma StintDates(playerID: int, games: seq<PlayerGame>)
    requires games != []
    ensures var s, c := StintsOf(playerID, games), Changes(games[0].teamID, games);
      && |s| == |c| + 1
      && s[0].startDate == SEASON_START
      && forall k :: 0 <= k < |c| ==>
           && 0 < c[k] && games[c[k] - 1].teamID != games[c[k]].teamID
           && s[k + 1].teamID == games[c[k]].teamID
           && s[k + 1].startDate == GameDate(games[c[k]])
           && s[k].endDate == Some(GameDate(games[c[k]]))
  {
    var s0 := Stint(games[0].teamID, playerID, SEASON_START, None);
    var s, c := StintsOf(playerID, games), Changes(games[0].teamID, games);
    assert s == Walk(playerID, [s0], games);
    WalkDates(playerID, s0, games);
    StintsChain(playerID, games);
    forall k | 0 <= k < |c|
      ensures 0 < c[k] && games[c[k] - 1].teamID != games[c[k]].teamID
      ensures s[k].endDate == Some(GameDate(games[c[k]]))
    {
      assert IsChange(games[0].teamID, games, c[k]);
      assert s[k].endDate == Some(s[k + 1].startDate);
    }
  }

  /** Runs of equal values collapsed to one value each. */
  function Compress(xs: seq<int>): (r: seq<int>)
    ensures |r| <= |xs|
    ensures xs != [] ==> r != [] && r[0] == xs[0] && r[|r| - 1] == xs[|xs| - 1]
    ensures forall i :: 0 <= i < |r| - 1 ==> r[i] != r[i + 1]
  {
    if |xs| <= 1 then xs
    else
      var c := Compress(xs[..|xs| - 1]);
      if xs[|xs| - 1] == xs[|xs| - 2] then c else c + [xs[|xs| - 1]]
  }

  /** A value appended after an equal one collapses into its run; any other starts a new run. */
  lemma CompressSnoc(xs: seq<int>, y: int)
    requires xs != []
    ensures Compress(xs + [y]) == if y == xs[|xs| - 1] then Compress(xs) else Compress(xs) + [y]
  {
    var ys := xs + [y];
    assert ys[..|ys| - 1] == xs;
    assert ys[|ys| - 2] == xs[|xs| - 1];
  }

  /** A value repeated at the front of a run collapses into it. */
  lemma {:induction false} CompressRepeatedHead(x: int, xs: seq<int>)
    requires xs != [] && xs[0] == x
    ensures Compress([x] + xs) == Compress(xs)
  {
    if |xs| == 1 {
      assert [x] + xs == [x] + [x];
      CompressSnoc([x], x);
    } else {
      var front, y := xs[..|xs| - 1], xs[|xs| - 1];
      assert xs == front + [y];
      assert [x] + xs == ([x] + front) + [y];
      CompressRepeatedHead(x, front);
      CompressSnoc([x] + front, y);
      CompressSnoc(front, y);
    }
  }

  /** The team of each game of a player, in order. */
  function Teams(games: seq<PlayerGame>): (r: seq<int>)
    ensures |r| == |games|
  {
    seq(|games|, i requires 0 <= i < |games| => games[i].teamID)
  }

  lemma TeamsSnoc(games: seq<PlayerGame>)
    requires games != []
    ensures Teams(games) == Teams(games[..|games| - 1]) + [games[|games| - 1].teamID]
  {
  }

  /**
   * The team of each stint, in order. It is the same projection as Teams,
   * taken over the output rows rather than the input games (`Stint` and
   * `PlayerGame` are different record types), so that the two team lists
   * can be compared.
   */
  function StintTeams(stints: seq<Stint>): (r: seq<int>)
    ensures |r| == |stints|
  {
    seq(|stints|, i requires 0 <= i < |stints| => stints[i].teamID)
  }

  /** A step adds the team of the game exactly when the team changes. */
  lemma StepTeams(playerID: int, w: seq<Stint>, g: PlayerGame)
    requires w != []
    ensures StintTeams(Step(playerID, w, g)) ==
      if g.teamID == w[|w| - 1].teamID then StintTeams(w) else StintTeams(w) + [g.teamID]
  {
    if g.teamID != w[|w| - 1].teamID {
      var r := Step(playerID, w, g);
      assert forall i :: 0 <= i < |w| ==> r[i].teamID == w[i].teamID;
    }
  }

  lemma {:induction false} WalkTeams(playerID: int, s0: Stint, games: seq<PlayerGame>)
    ensures StintTeams(Walk(playerID, [s0], games)) == Compress([s0.teamID] + Teams(games))
  {
    if games == [] {
      assert [s0.teamID] + Teams(games) == [s0.teamID];
    } else {
      var front := games[..|games| - 1];
      var g := games[|games| - 1];
      var w := Walk(playerID, [s0], front);
      var xs := [s0.teamID] + Teams(front);
      WalkTeams(playerID, s0, front);
      TeamsSnoc(games);
      assert [s0.teamID] + Teams(games) == xs + [g.teamID];
      assert StintTeams(w)[|w| - 1] == w[|w| - 1].teamID;
      StepTeams(playerID, w, g);
      CompressSnoc(xs, g.teamID);
    }
  }

  /**
   * The teams of a player's stints, in order, are the teams of the
   * player's games with every run of games for one team collapsed.
   */
  lemma StintsTeams(playerID: int, games: seq<PlayerGame>)
    requires games != []
    ensures StintTeams(StintsOf(playerID, games)) == Compress(Teams(games))
  {
    WalkTeams(playerID, Stint(games[0].teamID, playerID, SEASON_START, None), games);
    CompressRepeatedHead(games[0].teamID, Teams(games));
  }
}
