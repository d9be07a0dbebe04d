/**
 * The older SQL generator writeSQL.py: INSERT lines without NULL
 * substitution or trailer, and its game filter, which compares year and
 * month separately. The apostrophe escape, the city rename and the venue
 * clean-up it shares with the newer copy are in SqlText.
 */
module WriteSqlV1 {
  import opened Text
  import opened SqlText
  import WriteSql

  // ---------------------------------------------------------------------
  // create_inserts
  // ---------------------------------------------------------------------

  /** The whole text create_inserts returns: two line breaks, then the INSERT lines. */
  function InsertsText(table: string, cols: seq<string>, rows: seq<seq<Value>>): string
  {
    "\n\n" + Join(InsertLines(table, cols, RenderValues, rows), "")
  }

  /**
   * create_inserts: the values of every row are rendered one by one and
   * joined into the row's INSERT line; the lines are concatenated after
   * two line breaks.
   */
  method CreateInserts(table: string, cols: seq<string>, rows: seq<seq<Value>>) returns (sql: string)
    ensures sql == InsertsText(table, cols, rows)
  {
    var colNames := Join(cols, ", ");
    var insertString := "INSERT INTO " + table + " (" + colNames + ") VALUES ";
    assert insertString == InsertHead(table, cols);
    var individualInserts: seq<string> := [];
    for r := 0 to |rows|
      invariant individualInserts == InsertLines(table, cols, RenderValues, rows[..r])
    {
      var values := CollectValues(rows[r]);
      InsertLinesSnoc(table, cols, RenderValues, rows, r);
      individualInserts := individualInserts + [insertString + "(" + Join(values, ", ") + ");\n"];
    }
    assert rows[..|rows|] == rows;
    sql := "\n\n" + Join(individualInserts, "");
  }

  /**
   * The script of a table is its rows' INSERT lines, one per row, after two
   * line breaks: `|rows| + 2` line breaks in all, and no PRINT line.
   */
  lemma InsertsTextLines(table: string, cols: seq<string>, rows: seq<seq<Value>>)
    requires OneLineTable(table, cols, rows)
    ensures Count(InsertsText(table, cols, rows), '\n') == |rows| + 2
  {
    var body := Join(InsertLines(table, cols, RenderValues, rows), "");
    var nl := "\n";
    assert Count(nl, '\n') == 1 by {
      assert nl[1..] == [];
    }
    assert RendersOneLine(RenderValues, rows);
    InsertLinesCount(table, cols, RenderValues, rows);
    var twoNl := "\n\n";
    assert twoNl == nl + nl;
    CountConcat(nl, nl, '\n');
    CountConcat(twoNl, body, '\n');
  }

  /** Where no value renders as "nan" or "<NA>", a row's INSERT line is the same in both copies. */
  lemma {:induction false} SameLinesWithoutMissing(table: string, cols: seq<string>, rows: seq<seq<Value>>)
    requires forall i, k :: 0 <= i < |rows| && 0 <= k < |rows[i]| ==> RenderValue(rows[i][k]) !in {"nan", "<NA>"}
    ensures InsertLines(table, cols, WriteSql.CellTexts, rows) == InsertLines(table, cols, RenderValues, rows)
  {
    if rows != [] {
      var front := rows[..|rows| - 1];
      var row := rows[|rows| - 1];
      SameLinesWithoutMissing(table, cols, front);
      assert WriteSql.CellTexts(row) == RenderValues(row);
    }
  }

  /**
   * The newer copy's script of a table without missing values is this
   * copy's script followed by the PRINT trailer.
   */
  lemma NewerAddsTrailer(table: string, cols: seq<string>, rows: seq<seq<Value>>)
    requires forall i, k :: 0 <= i < |rows| && 0 <= k < |rows[i]| ==> RenderValue(rows[i][k]) !in {"nan", "<NA>"}
    ensures WriteSql.InsertsText(table, cols, rows) == InsertsText(table, cols, rows) + WriteSql.Trailer(table)
  {
    SameLinesWithoutMissing(table, cols, rows);
  }

  // ---------------------------------------------------------------------
  // create_games_df: the game filter
  // ---------------------------------------------------------------------

  /** The first season this copy keeps. */
  const FIRST_SEASON: string := "2018"

  /** The filter as written: the year at least the first season and, separately, the month at least "09". */
  predicate KeepGameAsWritten(dateTime: string)
  {
    LexAtLeast(WriteSql.Year(dateTime), FIRST_SEASON) && LexAtLeast(WriteSql.Month(dateTime), "09")
  }

  /** The filter as intended: every game from September of the first season on. */
  predicate KeepGame(dateTime: string)
  {
    WriteSql.KeepFrom(FIRST_SEASON, dateTime)
  }

  lemma ParseFirstSeason()
    ensures AllDigits(FIRST_SEASON) && ParseNat(FIRST_SEASON) == 2018
  {
    assert "2"[..0] == "" && ParseNat("2") == 2;
    assert "20"[..1] == "2" && ParseNat("20") == 20;
    assert "201"[..2] == "20" && ParseNat("201") == 201;
    assert FIRST_SEASON[..3] == "201";
  }

  /**
   * The filter as written keeps a game exactly when its year is 2018 or
   * later and its month is September or later: the games of January to
   * August are dropped in every year.
   */
  lemma KeepGameAsWrittenNumeric(dateTime: string)
    requires WriteSql.IsDateTime(dateTime)
    ensures KeepGameAsWritten(dateTime) <==>
      ParseNat(dateTime[..4]) >= 2018 && ParseNat(dateTime[5..7]) >= 9
  {
    var year, month := dateTime[..4], dateTime[5..7];
    assert WriteSql.Year(dateTime) == year && WriteSql.Month(dateTime) == month;
    ParseFirstSeason();
    LexLessDigits(FIRST_SEASON, year);
    DigitsEqual(FIRST_SEASON, year);
    WriteSql.ParseNine();
    LexLessDigits("09", month);
    DigitsEqual("09", month);
  }

  /**
   * The intended filter keeps a game exactly when it is played after 2018,
   * or in 2018 from September on.
   */
  lemma KeepGameNumeric(dateTime: string)
    requires WriteSql.IsDateTime(dateTime)
    ensures KeepGame(dateTime) <==>
      ParseNat(dateTime[..4]) > 2018 || (ParseNat(dateTime[..4]) == 2018 && ParseNat(dateTime[5..7]) >= 9)
  {
    ParseFirstSeason();
    WriteSql.KeepFromNumeric(FIRST_SEASON, dateTime);
  }

  /**
   * The filter as written keeps only games the intended one keeps, and
   * drops a game of January 2019, which the intended one keeps.
   */
  lemma FilterDropsSpringGames(dateTime: string)
    requires WriteSql.IsDateTime(dateTime)
    ensures KeepGameAsWritten(dateTime) ==> KeepGame(dateTime)
    ensures !KeepGameAsWritten("2019-01-15 00:00:00") && KeepGame("2019-01-15 00:00:00")
  {
    KeepGameAsWrittenNumeric(dateTime);
    KeepGameNumeric(dateTime);
    var spring := "2019-01-15 00:00:00";
    assert WriteSql.Year(spring) == "2019" && WriteSql.Month(spring) == "01";
    assert LexLess(FIRST_SEASON, "2019");
    assert LexLess("01", "09");
  }
}
