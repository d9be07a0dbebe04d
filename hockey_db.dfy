/**
 * The fixed-spacing report helpers of the console client
 * (interface/HockeyDB.java). Unlike the generic table renderer, these take
 * column spacings from the caller, pad every column but the last to its
 * spacing, and print the last one as it is. Around them: the boxed report
 * title, the whitelists that turn a stat code into a label and an ORDER BY
 * column, the seconds formatter, and the per-row loops that number the rows
 * of a ranking and total the goals of a player.
 *
 * Printing is modelled by returning the printed lines, one string per
 * `System.out.println`, without the line terminator. The rows of a query
 * result are given as a sequence.
 */
module HockeyDB {
  import opened Text

  // ---------------------------------------------------------------------
  // printTitles / printDashes
  // ---------------------------------------------------------------------

  /** Each cell left-justified in its spacing, laid end to end. */
  function PaddedFields(cells: seq<string>, spacings: seq<int>): string
    requires |cells| == |spacings|
  {
    if cells == [] then ""
    else PaddedFields(cells[..|cells| - 1], spacings[..|spacings| - 1])
         + PadRight(cells[|cells| - 1], spacings[|spacings| - 1])
  }

  /** The line printTitles prints: every title but the last padded to its spacing, the last as it is. */
  function TitlesLine(titles: seq<string>, spacings: seq<int>): string
    requires |titles| <= |spacings| + 1
  {
    if titles == [] then ""
    else PaddedFields(titles[..|titles| - 1], spacings[..|titles| - 1]) + titles[|titles| - 1]
  }

  /** The dash run of a padded column: two short of its spacing (printDashes needs a spacing of at least 2). */
  function DashRun(spacing: int): string
  {
    Repeat('-', if spacing >= 2 then spacing - 2 else 0)
  }

  /** The padded columns of printDashes: each dash run padded to its spacing. */
  function DashFields(spacings: seq<int>): string
  {
    if spacings == [] then ""
    else DashFields(spacings[..|spacings| - 1])
         + PadRight(DashRun(spacings[|spacings| - 1]), spacings[|spacings| - 1])
  }

  /** The line printDashes prints: the padded dash columns, then as many dashes as the last title. */
  function DashesLine(titles: seq<string>, spacings: seq<int>): string
    requires |titles| <= |spacings| + 1
    requires forall i :: 0 <= i < |titles| - 1 ==> spacings[i] >= 2
  {
    if titles == [] then ""
    else DashFields(spacings[..|titles| - 1]) + Repeat('-', |titles[|titles| - 1]|)
  }

  /** Sum of the spacings. */
  function Total(spacings: seq<int>): int
  {
    if spacings == [] then 0 else Total(spacings[..|spacings| - 1]) + spacings[|spacings| - 1]
  }

  /** Every padded cell fits its spacing. */
  predicate FitsSpacings(cells: seq<string>, spacings: seq<int>)
    requires |cells| <= |spacings|
  {
    forall i :: 0 <= i < |cells| ==> |cells[i]| <= spacings[i]
  }

  /** Cells that fit their spacings take exactly the sum of the spacings. */
  lemma {:induction false} PaddedFieldsLength(cells: seq<string>, spacings: seq<int>)
    requires |cells| == |spacings| && FitsSpacings(cells, spacings)
    ensures |PaddedFields(cells, spacings)| == Total(spacings)
  {
    if cells != [] {
      PaddedFieldsLength(cells[..|cells| - 1], spacings[..|spacings| - 1]);
    }
  }

  /** A padded line splits wherever its cells do. */
  lemma {:induction false} PaddedFieldsSplit(c1: seq<string>, s1: seq<int>, c2: seq<string>, s2: seq<int>)
    requires |c1| == |s1| && |c2| == |s2|
    ensures PaddedFields(c1 + c2, s1 + s2) == PaddedFields(c1, s1) + PaddedFields(c2, s2)
    decreases |c2|
  {
    if c2 == [] {
      assert c1 + c2 == c1 && s1 + s2 == s1;
    } else {
      var n := |c2|;
      var ci, si := c2[..n - 1], s2[..n - 1];
      var cs, ss := c1 + c2, s1 + s2;
      assert cs[..|cs| - 1] == c1 + ci && cs[|cs| - 1] == c2[n - 1];
      assert ss[..|ss| - 1] == s1 + si && ss[|ss| - 1] == s2[n - 1];
      assert PaddedFields(cs, ss) == PaddedFields(cs[..|cs| - 1], ss[..|ss| - 1]) + PadRight(cs[|cs| - 1], ss[|ss| - 1]);
      PaddedFieldsSplit(c1, s1, ci, si);
      var a, b, c := PaddedFields(c1, s1), PaddedFields(ci, si), PadRight(c2[n - 1], s2[n - 1]);
      calc {
        PaddedFields(c1 + c2, s1 + s2);
        PaddedFields(c1 + ci, s1 + si) + c;
        (a + b) + c;
        a + (b + c);
        a + PaddedFields(c2, s2);
      }
    }
  }

  /**
   * Column j of a padded line starts at the sum of the spacings before it
   * and holds cell j padded to its spacing, whatever the other cells hold.
   */
  lemma PaddedFieldsColumn(cells: seq<string>, spacings: seq<int>, j: nat)
    requires |cells| == |spacings| && FitsSpacings(cells, spacings) && j < |cells|
    ensures Total(spacings[..j]) == |PaddedFields(cells[..j], spacings[..j])|
    ensures Total(spacings[..j]) + spacings[j] <= |PaddedFields(cells, spacings)|
    ensures PaddedFields(cells, spacings)[Total(spacings[..j])..Total(spacings[..j]) + spacings[j]]
            == PadRight(cells[j], spacings[j])
  {
    var c1, c2, c3 := cells[..j], [cells[j]], cells[j + 1..];
    var s1, s2, s3 := spacings[..j], [spacings[j]], spacings[j + 1..];
    assert cells == (c1 + c2) + c3 && spacings == (s1 + s2) + s3;
    PaddedFieldsSplit(c1 + c2, s1 + s2, c3, s3);
    PaddedFieldsSplit(c1, s1, c2, s2);
    assert c2[..0] == [] && s2[..0] == [];
    var front, field := PaddedFields(c1, s1), PaddedFields(c2, s2);
    assert field == PadRight(cells[j], spacings[j]);
    PaddedFieldsLength(c1, s1);
    var line := PaddedFields(cells, spacings);
    assert line == front + field + PaddedFields(c3, s3);
    assert line[|front|..|front| + |field|] == field;
  }

  /** Every dash column is exactly its spacing wide. */
  lemma {:induction false} DashFieldsLength(spacings: seq<int>)
    requires forall i :: 0 <= i < |spacings| ==> spacings[i] >= 2
    ensures |DashFields(spacings)| == Total(spacings)
  {
    if spacings != [] {
      DashFieldsLength(spacings[..|spacings| - 1]);
    }
  }

  /** The dash columns split wherever the spacings do. */
  lemma {:induction false} DashFieldsSplit(s1: seq<int>, s2: seq<int>)
    ensures DashFields(s1 + s2) == DashFields(s1) + DashFields(s2)
    decreases |s2|
  {
    if s2 == [] {
      assert s1 + s2 == s1;
    } else {
      var n := |s2|;
      var init, w := s2[..n - 1], s2[n - 1];
      var all := s1 + s2;
      assert all[..|all| - 1] == s1 + init && all[|all| - 1] == w;
      assert DashFields(all) == DashFields(all[..|all| - 1]) + PadRight(DashRun(all[|all| - 1]), all[|all| - 1]);
      DashFieldsSplit(s1, init);
      var a, b, c := DashFields(s1), DashFields(init), PadRight(DashRun(w), w);
      calc {
        DashFields(s1 + s2);
        DashFields(s1 + init) + c;
        (a + b) + c;
        a + (b + c);
        a + DashFields(s2);
      }
    }
  }

  /** Dash column j starts where title column j starts and is two short of its spacing in dashes. */
  lemma DashFieldsColumn(spacings: seq<int>, j: nat)
    requires forall i :: 0 <= i < |spacings| ==> spacings[i] >= 2
    requires j < |spacings|
    ensures Total(spacings[..j]) == |DashFields(spacings[..j])|
    ensures Total(spacings[..j]) + spacings[j] <= |DashFields(spacings)|
    ensures DashFields(spacings)[Total(spacings[..j])..Total(spacings[..j]) + spacings[j]]
            == PadRight(DashRun(spacings[j]), spacings[j])
  {
    var s1, s2, s3 := spacings[..j], [spacings[j]], spacings[j + 1..];
    assert spacings == (s1 + s2) + s3;
    DashFieldsSplit(s1 + s2, s3);
    DashFieldsSplit(s1, s2);
    assert s2[..0] == [];
    var front, field := DashFields(s1), DashFields(s2);
    assert field == PadRight(DashRun(spacings[j]), spacings[j]);
    assert |DashRun(spacings[j])| == spacings[j] - 2;
    DashFieldsLength(s1);
    var line := DashFields(spacings);
    assert line == front + field + DashFields(s3);
    assert line[|front|..|front| + |field|] == field;
  }

  /**
   * When every title but the last fits its spacing, the title line is the
   * spacings of the padded columns plus the last title, which ends the line.
   */
  lemma TitlesLineLayout(titles: seq<string>, spacings: seq<int>)
    requires 1 <= |titles| <= |spacings| + 1
    requires FitsSpacings(titles[..|titles| - 1], spacings)
    ensures Total(spacings[..|titles| - 1]) == |PaddedFields(titles[..|titles| - 1], spacings[..|titles| - 1])|
    ensures |TitlesLine(titles, spacings)| == Total(spacings[..|titles| - 1]) + |titles[|titles| - 1]|
    ensures TitlesLine(titles, spacings)[Total(spacings[..|titles| - 1])..] == titles[|titles| - 1]
  {
    var n := |titles|;
    PaddedFieldsLength(titles[..n - 1], spacings[..n - 1]);
  }

  /** When the titles fit their spacings, the dash line is exactly as long as the title line. */
  lemma DashesAsLongAsTitles(titles: seq<string>, spacings: seq<int>)
    requires 1 <= |titles| <= |spacings| + 1
    requires forall i :: 0 <= i < |titles| - 1 ==> spacings[i] >= 2
    requires FitsSpacings(titles[..|titles| - 1], spacings)
    ensures |DashesLine(titles, spacings)| == |TitlesLine(titles, spacings)|
  {
    var n := |titles|;
    var s := spacings[..n - 1];
    TitlesLineLayout(titles, spacings);
    DashFieldsLength(s);
    assert DashesLine(titles, spacings) == DashFields(s) + Repeat('-', |titles[n - 1]|);
  }

  /**
   * Every padded column of the dash line lies under the title column of the
   * same index and is its spacing less two dashes, followed by two spaces.
   */
  lemma DashesColumn(titles: seq<string>, spacings: seq<int>, j: nat)
    requires 1 <= |titles| <= |spacings| + 1
    requires forall i :: 0 <= i < |titles| - 1 ==> spacings[i] >= 2
    requires j < |titles| - 1
    ensures 0 <= Total(spacings[..j])
    ensures Total(spacings[..j]) + spacings[j] <= |DashesLine(titles, spacings)|
    ensures DashesLine(titles, spacings)[Total(spacings[..j])..Total(spacings[..j]) + spacings[j]]
            == Repeat('-', spacings[j] - 2) + "  "
  {
    var n := |titles|;
    var s := spacings[..n - 1];
    var front := DashFields(s);
    var dashes := DashesLine(titles, spacings);
    assert dashes == front + Repeat('-', |titles[n - 1]|);
    DashFieldsColumn(s, j);
    assert s[..j] == spacings[..j] && s[j] == spacings[j];
    PaddedDashRun(spacings[j]);
    var o, e := Total(s[..j]), Total(s[..j]) + s[j];
    assert dashes[o..e] == front[o..e];
  }

  /** A padded dash run is its dashes followed by two spaces. */
  lemma PaddedDashRun(spacing: int)
    requires spacing >= 2
    ensures PadRight(DashRun(spacing), spacing) == Repeat('-', spacing - 2) + "  "
  {
    PadRightSpaces(DashRun(spacing), spacing);
    assert Repeat(' ', 2) == "  ";
  }

  /** printTitles. */
  method PrintTitles(titles: seq<string>, spacings: seq<int>) returns (title: string)
    requires |titles| <= |spacings| + 1
    requires forall i :: 0 <= i < |titles| - 1 ==> spacings[i] >= 1
    ensures title == TitlesLine(titles, spacings)
  {
    title := "";
    for i := 0 to |titles|
      invariant i == 0 ==> title == ""
      invariant i < |titles| ==> title == PaddedFields(titles[..i], spacings[..i])
      invariant 0 < i == |titles| ==> title == TitlesLine(titles, spacings)
    {
      if i < |titles| - 1 {
        title := title + PadRight(titles[i], spacings[i]);
        assert titles[..i + 1][..i] == titles[..i];
        assert spacings[..i + 1][..i] == spacings[..i];
      } else {
        title := title + titles[i];
      }
    }
  }

  /** printDashes. */
  method PrintDashes(titles: seq<string>, spacings: seq<int>) returns (title: string)
    requires |titles| <= |spacings| + 1
    requires forall i :: 0 <= i < |titles| - 1 ==> spacings[i] >= 2
    ensures title == DashesLine(titles, spacings)
  {
    title := "";
    for i := 0 to |titles|
      invariant i < |titles| ==> title == DashFields(spacings[..i])
      invariant 0 < i == |titles| ==> title == DashesLine(titles, spacings)
      invariant i == 0 ==> title == ""
    {
      if i < |titles| - 1 {
        title := title + PadRight(Repeat('-', spacings[i] - 2), spacings[i]);
        assert Repeat('-', spacings[i] - 2) == DashRun(spacings[i]);
        assert spacings[..i + 1][..i] == spacings[..i];
      } else {
        title := title + Repeat('-', |titles[i]|);
      }
    }
  }

  // ---------------------------------------------------------------------
  // printBoxedText / printBorder
  // ---------------------------------------------------------------------

  /** printBorder: `width` dashes (none when `width` is not positive). */
  method PrintBorder(width: int) returns (line: string)
    ensures |line| == Max(width, 0)
    ensures forall k :: 0 <= k < |line| ==> line[k] == '-'
  {
    line := "";
    var i := 0;
    while i < width
      invariant 0 <= i && |line| == i
      invariant width >= 0 ==> i <= width
      invariant width < 0 ==> i == 0
      invariant forall k :: 0 <= k < |line| ==> line[k] == '-'
    {
      line := line + "-";
      i := i + 1;
    }
  }

  /** The five lines of a boxed text: blank, border, framed text, border, blank. */
  function BoxedLines(text: string): seq<string>
  {
    ["", Repeat('-', |text| + 4), "| " + text + " |", Repeat('-', |text| + 4), ""]
  }

  /**
   * printBoxedText: an empty line, a border, the text framed by "| " and
   * " |", the same border, an empty line. The borders are exactly as long as
   * the framed line.
   */
  method PrintBoxedText(text: string) returns (lines: seq<string>)
    ensures lines == BoxedLines(text)
    ensures |lines| == 5 && lines[0] == "" && lines[4] == ""
    ensures lines[2] == "| " + text + " |"
    ensures lines[1] == lines[3] && |lines[1]| == |lines[2]|
    ensures forall k :: 0 <= k < |lines[1]| ==> lines[1][k] == '-'
  {
    var width := |text| + 4;
    var border := PrintBorder(width);
    var border2 := PrintBorder(width);
    lines := ["", border, "| " + text + " |", border2, ""];
    assert border == Repeat('-', width) == border2;
  }

  // ---------------------------------------------------------------------
  // getStat / getStatSQL
  // ---------------------------------------------------------------------

  /** The stat codes the menu accepts. */
  predicate KnownStat(code: string)
  {
    code == "g" || code == "a" || code == "p" || code == "+"
  }

  /** getStat: the label of a stat code, "unknown" for any other input. */
  function GetStat(code: string): (r: string)
    ensures r == "unknown" <==> !KnownStat(code)
    ensures r in {"Goals", "Assists", "Points", "Plus-Minus", "unknown"}
  {
    if code == "g" then "Goals"
    else if code == "a" then "Assists"
    else if code == "p" then "Points"
    else if code == "+" then "Plus-Minus"
    else "unknown"
  }

  /** getStatSQL: the column a stat code orders by, points for any other input. */
  function GetStatSQL(code: string): (r: string)
    ensures r in {"numGoals", "numAssists", "numPoints", "plusMinus"}
    ensures !KnownStat(code) ==> r == "numPoints"
  {
    if code == "g" then "numGoals"
    else if code == "a" then "numAssists"
    else if code == "p" then "numPoints"
    else if code == "+" then "plusMinus"
    else "numPoints"
  }

  /** The clause top25byStat appends to its query. */
  function OrderByClause(code: string): string
  {
    "ORDER BY " + GetStatSQL(code) + " DESC;"
  }

  /**
   * Whatever the user typed, the ORDER BY clause is one of four fixed texts:
   * the input never reaches the SQL.
   */
  lemma OrderByWhitelisted(code: string)
    ensures OrderByClause(code) in {"ORDER BY numGoals DESC;", "ORDER BY numAssists DESC;",
                                    "ORDER BY numPoints DESC;", "ORDER BY plusMinus DESC;"}
  {
    var c := GetStatSQL(code);
    if c == "numGoals" {
      assert OrderByClause(code) == "ORDER BY numGoals DESC;";
    } else if c == "numAssists" {
      assert OrderByClause(code) == "ORDER BY numAssists DESC;";
    } else if c == "numPoints" {
      assert OrderByClause(code) == "ORDER BY numPoints DESC;";
    } else {
      assert OrderByClause(code) == "ORDER BY plusMinus DESC;";
    }
  }

  /**
   * The two whitelists agree on the known codes: each code's label goes
   * with the column of the same stat, and different codes name different
   * stats; an unknown code is titled "unknown" but ordered by points.
   */
  lemma {:induction false} StatTablesAgree(c1: string, c2: string)
    ensures KnownStat(c1) ==>
      (GetStat(c1), GetStatSQL(c1)) in {("Goals", "numGoals"), ("Assists", "numAssists"),
                                        ("Points", "numPoints"), ("Plus-Minus", "plusMinus")}
    ensures KnownStat(c1) && KnownStat(c2) ==>
      (GetStat(c1) == GetStat(c2) <==> c1 == c2) && (GetStatSQL(c1) == GetStatSQL(c2) <==> c1 == c2)
    ensures GetStat(c1) == "unknown" ==> GetStatSQL(c1) == GetStatSQL("p")
  {
    if KnownStat(c1) && KnownStat(c2) && c1 != c2 {
      assert c1 == "g" || c1 == "a" || c1 == "p" || c1 == "+";
      assert GetStat(c1) != GetStat(c2) && GetStatSQL(c1) != GetStatSQL(c2);
    }
  }

  // ---------------------------------------------------------------------
  // getMins
  // ---------------------------------------------------------------------

  /**
   * getMins, with Java's truncating `%` and `/`: the seconds are reduced
   * modulo 60 first, so the minutes are always 0.
   */
  function GetMins(seconds: int): (r: string)
    ensures r == "0:" + IntToString(JavaRem(seconds, 60))
  {
    var s := JavaRem(seconds, 60);
    var minutes := JavaRem(JavaDiv(s, 60), 60);
    IntToString(minutes) + ":" + IntToString(s)
  }

  /** For a non-negative count the text is "0:" and the seconds past the minute, unpadded. */
  lemma GetMinsNonNegative(seconds: int)
    requires seconds >= 0
    ensures GetMins(seconds) == "0:" + NatToString(seconds % 60)
    ensures 3 <= |GetMins(seconds)| <= 4
  {
    var s := seconds % 60;
    if s >= 10 {
      assert NatToString(s) == NatToString(s / 10) + [DigitChar(s % 10)];
    }
  }

  // ---------------------------------------------------------------------
  // The row loops of the reports
  // ---------------------------------------------------------------------

  /** A ranked line: the rank "1", "2", ... in the first column, then the row. */
  function RankedLine(rank: nat, row: seq<string>, spacings: seq<int>): string
    requires |row| <= |spacings|
  {
    TitlesLine([NatToString(rank)] + row, spacings)
  }

  /** A ranked line starts with its rank when the rank fits the rank column. */
  lemma RankedLineStartsWithRank(rank: nat, row: seq<string>, spacings: seq<int>)
    requires |row| <= |spacings|
    ensures |NatToString(rank)| <= |RankedLine(rank, row, spacings)|
    ensures RankedLine(rank, row, spacings)[..|NatToString(rank)|] == NatToString(rank)
  {
    var cells := [NatToString(rank)] + row;
    var n := |cells|;
    if n > 1 {
      var c, s := cells[..n - 1], spacings[..n - 1];
      PaddedFieldsPrefix(c, s);
    }
  }

  /** A padded line starts with its first cell. */
  lemma {:induction false} PaddedFieldsPrefix(cells: seq<string>, spacings: seq<int>)
    requires |cells| == |spacings| && |cells| >= 1
    ensures |cells[0]| <= |PaddedFields(cells, spacings)|
    ensures PaddedFields(cells, spacings)[..|cells[0]|] == cells[0]
  {
    var n := |cells|;
    if n > 1 {
      PaddedFieldsPrefix(cells[..n - 1], spacings[..n - 1]);
      var front := PaddedFields(cells[..n - 1], spacings[..n - 1]);
      assert PaddedFields(cells, spacings)[..|cells[0]|] == front[..|cells[0]|];
    } else {
      assert PaddedFields(cells, spacings) == PadRight(cells[0], spacings[0]);
      PadRightContents(cells[0], spacings[0]);
    }
  }

  /** Every row has one cell per title after the rank. */
  predicate RowsFit(rows: seq<seq<string>>, spacings: seq<int>)
  {
    forall i :: 0 <= i < |rows| ==> |rows[i]| <= |spacings|
  }

  /** The rank loop of top25byStat: every returned row, ranked from 1 without gaps. */
  method RankAllRows(rows: seq<seq<string>>, spacings: seq<int>) returns (lines: seq<string>)
    requires RowsFit(rows, spacings)
    requires forall i :: 0 <= i < |spacings| ==> spacings[i] >= 1
    ensures |lines| == |rows|
    ensures forall i :: 0 <= i < |rows| ==> lines[i] == RankedLine(i + 1, rows[i], spacings)
  {
    lines := [];
    var rank := 1;
    var i := 0;
    while i < |rows|
      invariant 0 <= i <= |rows| && rank == i + 1
      invariant |lines| == i
      invariant forall m :: 0 <= m < i ==> lines[m] == RankedLine(m + 1, rows[m], spacings)
    {
      var columns := [NatToString(rank)] + rows[i];
      var line := PrintTitles(columns, spacings);
      lines := lines + [line];
      rank := rank + 1;
      i := i + 1;
    }
  }

  /**
   * The rank loop of topNOfficialPenalties: the loop stops at the end of the
   * rows or once `numRows` rows are printed, so it prints
   * min(|rows|, numRows) rows (none for `numRows <= 0`), ranked from 1.
   */
  method RankFirstRows(rows: seq<seq<string>>, spacings: seq<int>, numRows: int) returns (lines: seq<string>)
    requires RowsFit(rows, spacings)
    requires forall i :: 0 <= i < |spacings| ==> spacings[i] >= 1
    ensures |lines| == (if numRows <= 0 then 0 else Min(numRows, |rows|))
    ensures forall i :: 0 <= i < |lines| ==> lines[i] == RankedLine(i + 1, rows[i], spacings)
  {
    lines := [];
    var rank := 1;
    var i := 0;
    while i < |rows| && rank <= numRows
      invariant 0 <= i <= |rows| && rank == i + 1
      invariant numRows >= 0 ==> i <= numRows
      invariant numRows < 0 ==> i == 0
      invariant |lines| == i
      invariant forall m :: 0 <= m < i ==> lines[m] == RankedLine(m + 1, rows[m], spacings)
    {
      var columns := [NatToString(rank)] + rows[i];
      var line := PrintTitles(columns, spacings);
      lines := lines + [line];
      rank := rank + 1;
      i := i + 1;
    }
  }

  // ---------------------------------------------------------------------
  // totalGoalsByTeam
  // ---------------------------------------------------------------------

  /** One row of the goals-per-team query. */
  datatype TeamGoals = TeamGoals(teamName: string, numGoals: nat)

  /** The goals of all the rows. */
  function SumGoals(rows: seq<TeamGoals>): nat
  {
    if rows == [] then 0 else SumGoals(rows[..|rows| - 1]) + rows[|rows| - 1].numGoals
  }

  /** The total counts every row: it splits over any cut of the rows. */
  lemma {:induction false} SumGoalsSplit(a: seq<TeamGoals>, b: seq<TeamGoals>)
    ensures SumGoals(a + b) == SumGoals(a) + SumGoals(b)
    decreases |b|
  {
    if b != [] {
      var n := |b|;
      assert (a + b)[..|a + b| - 1] == a + b[..n - 1];
      SumGoalsSplit(a, b[..n - 1]);
    } else {
      assert a + b == a;
    }
  }

  /** No team's goals exceed the total. */
  lemma SumGoalsBound(rows: seq<TeamGoals>, i: nat)
    requires i < |rows|
    ensures rows[i].numGoals <= SumGoals(rows)
  {
    assert rows == rows[..i] + [rows[i]] + rows[i + 1..];
    SumGoalsSplit(rows[..i] + [rows[i]], rows[i + 1..]);
    SumGoalsSplit(rows[..i], [rows[i]]);
    assert [rows[i]][..0] == [];
  }

  const GoalsTitles: seq<string> := ["Team Name", "Goals Scored"]
  const GoalsSpacings: seq<int> := [16]

  /** The line printed for one team. */
  function GoalsLine(row: TeamGoals): string
  {
    TitlesLine([row.teamName, NatToString(row.numGoals)], GoalsSpacings)
  }

  /**
   * The do-while loop of totalGoalsByTeam: one line per team, in order,
   * while the goals are added up.
   */
  method PrintTeamGoals(rows: seq<TeamGoals>) returns (lines: seq<string>, totalGoals: nat)
    ensures |lines| == |rows|
    ensures forall i :: 0 <= i < |rows| ==> lines[i] == GoalsLine(rows[i])
    ensures totalGoals == SumGoals(rows)
  {
    lines := [];
    totalGoals := 0;
    var i := 0;
    while i < |rows|
      invariant 0 <= i <= |rows|
      invariant |lines| == i
      invariant forall m :: 0 <= m < i ==> lines[m] == GoalsLine(rows[m])
      invariant totalGoals == SumGoals(rows[..i])
    {
      var columns := [rows[i].teamName, NatToString(rows[i].numGoals)];
      var line := PrintTitles(columns, GoalsSpacings);
      lines := lines + [line];
      totalGoals := totalGoals + rows[i].numGoals;
      assert rows[..i + 1][..i] == rows[..i];
      i := i + 1;
    }
    assert rows[..|rows|] == rows;
  }

  /**
   * totalGoalsByTeam, given the query's rows: when there are none, only the
   * boxed error naming the player; otherwise the boxed title, the titles,
   * a dash line, one line per team in order, a second dash line, the
   * "Total:" line with the sum of the goals of every printed row, and an
   * empty line.
   */
  method TotalGoalsByTeam(first: string, last: string, rows: seq<TeamGoals>) returns (lines: seq<string>)
    ensures rows == [] ==> lines == BoxedLines("Error: '" + first + " " + last + "' was not found.")
    ensures rows != [] ==> |lines| == 10 + |rows|
    ensures rows != [] ==> lines[..5] == BoxedLines("Goals against each team for " + first + " " + last)
    ensures rows != [] ==> lines[5] == TitlesLine(GoalsTitles, GoalsSpacings)
    ensures rows != [] ==> lines[6] == DashesLine(GoalsTitles, GoalsSpacings)
    ensures rows != [] ==> forall i :: 0 <= i < |rows| ==> lines[7 + i] == GoalsLine(rows[i])
    ensures rows != [] ==> lines[7 + |rows|] == DashesLine(GoalsTitles, GoalsSpacings)
    ensures rows != [] ==> lines[8 + |rows|] == TitlesLine(["Total:", NatToString(SumGoals(rows))], GoalsSpacings)
    ensures rows != [] ==> lines[9 + |rows|] == ""
  {
    if rows == [] {
      lines := PrintBoxedText("Error: '" + first + " " + last + "' was not found.");
    } else {
      lines := PrintBoxedText("Goals against each team for " + first + " " + last);
      var header := PrintTitles(GoalsTitles, GoalsSpacings);
      var dashes := PrintDashes(GoalsTitles, GoalsSpacings);
      var body, totalGoals := PrintTeamGoals(rows);
      lines := lines + [header, dashes] + body;
      var dashes2 := PrintDashes(GoalsTitles, GoalsSpacings);
      var totals := PrintTitles(["Total:", NatToString(totalGoals)], GoalsSpacings);
      lines := lines + [dashes2, totals, ""];
    }
  }
}
