/**
 * The generic text-table renderer of the console client
 * (interface/TablePrinter.java). A query result arrives as rows of cell
 * texts; the renderer stores the rows, computes one width per column from
 * the headers and a bounded prefix of the rows, and prints a header line, a
 * dash line and one line per shown row, every column left-justified in a
 * field of its width plus a gap of PADDING spaces.
 *
 * Printing is modelled by returning the printed lines, one string per
 * `System.out.println`, without the line terminator.
 */
module TablePrinter {
  import opened Text

  /** The gap after every column, the last one included. */
  const PADDING: nat := 3

  /** How many rows of `count` a cap of `cap` lets through (none for `cap <= 0`). */
  function Shown(cap: int, count: nat): (k: nat)
    ensures k <= count
    ensures cap <= 0 ==> k == 0
    ensures cap >= count ==> k == count
    ensures 0 <= cap <= count ==> k == cap
  {
    if cap <= 0 then 0 else Min(cap, count)
  }

  /** Every row has exactly one cell per header. */
  predicate Rectangular(rows: seq<seq<string>>, columns: nat)
  {
    forall i :: 0 <= i < |rows| ==> |rows[i]| == columns
  }

  /**
   * No row has more cells than there are headers: what getColumnSpaces and
   * printRow need of the rows they read, since both look up the width of
   * every cell of the row.
   */
  predicate NoWider(rows: seq<seq<string>>, columns: nat)
  {
    forall i :: 0 <= i < |rows| ==> |rows[i]| <= columns
  }

  // ---------------------------------------------------------------------
  // Column widths
  // ---------------------------------------------------------------------

  function HeaderWidths(headers: seq<string>): (w: seq<nat>)
    ensures |w| == |headers|
    ensures forall j :: 0 <= j < |w| ==> w[j] == |headers[j]|
  {
    seq(|headers|, j requires 0 <= j < |headers| => |headers[j]|)
  }

  /**
   * Grows every width to the length of the row's cell in that column; the
   * columns after the row's last cell keep their width.
   */
  function Widen(widths: seq<nat>, row: seq<string>): (w: seq<nat>)
    requires |row| <= |widths|
    ensures |w| == |widths|
    ensures forall j :: 0 <= j < |w| ==> w[j] == if j < |row| then Max(widths[j], |row[j]|) else widths[j]
  {
    seq(|widths|, j requires 0 <= j < |widths| => if j < |row| then Max(widths[j], |row[j]|) as nat else widths[j])
  }

  /** The widths after scanning `rows` in order, starting from the header lengths. */
  function MaxWidths(rows: seq<seq<string>>, headers: seq<string>): (w: seq<nat>)
    requires NoWider(rows, |headers|)
    ensures |w| == |headers|
  {
    if rows == [] then HeaderWidths(headers)
    else Widen(MaxWidths(rows[..|rows| - 1], headers), rows[|rows| - 1])
  }

  /**
   * Width j is the largest of the header's length and the lengths of the
   * cells in column j: at least each of them, and equal to one of them.
   */
  lemma {:induction false} MaxWidthsIsMaximum(rows: seq<seq<string>>, headers: seq<string>)
    requires NoWider(rows, |headers|)
    ensures forall j :: 0 <= j < |headers| ==> |headers[j]| <= MaxWidths(rows, headers)[j]
    ensures forall i, j :: 0 <= i < |rows| && 0 <= j < |rows[i]| ==> |rows[i][j]| <= MaxWidths(rows, headers)[j]
    ensures forall j :: 0 <= j < |headers| ==>
      MaxWidths(rows, headers)[j] == |headers[j]| ||
      exists i :: 0 <= i < |rows| && j < |rows[i]| && MaxWidths(rows, headers)[j] == |rows[i][j]|
  {
    if rows != [] {
      var init := rows[..|rows| - 1];
      var last := rows[|rows| - 1];
      MaxWidthsIsMaximum(init, headers);
      var w := MaxWidths(rows, headers);
      forall j | 0 <= j < |headers|
        ensures w[j] == |headers[j]| || exists i :: 0 <= i < |rows| && j < |rows[i]| && w[j] == |rows[i][j]|
      {
        if !(j < |last| && w[j] == |last[j]|) && w[j] != |headers[j]| {
          var i :| 0 <= i < |init| && j < |init[i]| && MaxWidths(init, headers)[j] == |init[i][j]|;
          assert w[j] == |rows[i][j]|;
        }
      }
    }
  }

  // ---------------------------------------------------------------------
  // Lines
  // ---------------------------------------------------------------------

  /** The field a cell occupies: its column width plus the gap. */
  function Field(cell: string, width: nat): string
  {
    PadRight(cell, width + PADDING)
  }

  /** The line printRow prints: every cell in its field, the last column included. */
  function RowLine(cells: seq<string>, widths: seq<nat>): string
    requires |cells| == |widths|
  {
    if cells == [] then ""
    else RowLine(cells[..|cells| - 1], widths[..|widths| - 1]) + Field(cells[|cells| - 1], widths[|widths| - 1])
  }

  /** The dash runs printDashes draws, one per column, as long as the column. */
  function DashCells(widths: seq<nat>): (d: seq<string>)
    ensures |d| == |widths|
    ensures forall j :: 0 <= j < |d| ==> d[j] == Repeat('-', widths[j])
  {
    seq(|widths|, j requires 0 <= j < |widths| => Repeat('-', widths[j]))
  }

  function DashLine(widths: seq<nat>): string
  {
    RowLine(DashCells(widths), widths)
  }

  /** Total width of the fields of `widths`. */
  function FieldsWidth(widths: seq<nat>): nat
  {
    if widths == [] then 0 else FieldsWidth(widths[..|widths| - 1]) + widths[|widths| - 1] + PADDING
  }

  /** The column at which field `j` starts. */
  function Offset(widths: seq<nat>, j: nat): nat
    requires j <= |widths|
  {
    FieldsWidth(widths[..j])
  }

  /** Every cell fits in its column. */
  predicate Fits(cells: seq<string>, widths: seq<nat>)
    requires |cells| == |widths|
  {
    forall j :: 0 <= j < |cells| ==> |cells[j]| <= widths[j]
  }

  /** A printed line whose cells fit their columns is as wide as all the fields together. */
  lemma {:induction false} RowLineLength(cells: seq<string>, widths: seq<nat>)
    requires |cells| == |widths| && Fits(cells, widths)
    ensures |RowLine(cells, widths)| == FieldsWidth(widths)
  {
    if cells != [] {
      RowLineLength(cells[..|cells| - 1], widths[..|widths| - 1]);
    }
  }

  /**
   * Alignment: in a printed line whose cells fit their columns, field j
   * starts at Offset(widths, j), whatever the other cells hold, and holds
   * cell j, untruncated, padded with spaces to widths[j] + PADDING.
   */
  lemma {:induction false} RowLineField(cells: seq<string>, widths: seq<nat>, j: nat)
    requires |cells| == |widths| && Fits(cells, widths) && j < |cells|
    ensures Offset(widths, j) + widths[j] + PADDING <= |RowLine(cells, widths)|
    ensures RowLine(cells, widths)[Offset(widths, j)..Offset(widths, j) + widths[j] + PADDING]
            == Field(cells[j], widths[j])
  {
    var n := |cells|;
    var c, w := cells[..n - 1], widths[..n - 1];
    RowLineLength(c, w);
    var front, last := RowLine(c, w), Field(cells[n - 1], widths[n - 1]);
    var line := RowLine(cells, widths);
    assert line == front + last;
    var o, e := Offset(widths, j), Offset(widths, j) + widths[j] + PADDING;
    if j < n - 1 {
      RowLineField(c, w, j);
      assert w[..j] == widths[..j];
      assert e <= |front|;
      assert line[o..e] == front[o..e];
    } else {
      assert widths[..j] == w;
      assert o == |front|;
      assert line[o..e] == last;
    }
  }

  /** A cell is printed whole at the start of its field. */
  lemma CellAtOffset(cells: seq<string>, widths: seq<nat>, j: nat)
    requires |cells| == |widths| && Fits(cells, widths) && j < |cells|
    ensures Offset(widths, j) + |cells[j]| <= |RowLine(cells, widths)|
    ensures RowLine(cells, widths)[Offset(widths, j)..Offset(widths, j) + |cells[j]|] == cells[j]
  {
    RowLineField(cells, widths, j);
    PadRightContents(cells[j], widths[j] + PADDING);
    var line := RowLine(cells, widths);
    var o := Offset(widths, j);
    assert line[o..o + widths[j] + PADDING][..|cells[j]|] == line[o..o + |cells[j]|];
  }

  /** The dash line is as wide as all the fields. */
  lemma DashLineLength(widths: seq<nat>)
    ensures |DashLine(widths)| == FieldsWidth(widths)
  {
    RowLineLength(DashCells(widths), widths);
  }

  /** Field j of the dash line is exactly widths[j] dashes followed by PADDING spaces. */
  lemma DashLineField(widths: seq<nat>, j: nat)
    requires j < |widths|
    ensures Offset(widths, j) + widths[j] + PADDING <= |DashLine(widths)|
    ensures DashLine(widths)[Offset(widths, j)..Offset(widths, j) + widths[j] + PADDING]
            == Repeat('-', widths[j]) + Repeat(' ', PADDING)
  {
    var d := DashCells(widths);
    RowLineField(d, widths, j);
    PadRightSpaces(d[j], widths[j] + PADDING);
  }

  // ---------------------------------------------------------------------
  // The operations of TablePrinter
  // ---------------------------------------------------------------------

  /**
   * getColumnSpaces: one width per header, starting at the header's length
   * and grown by the cells of the first `maxRows` rows only.
   */
  method GetColumnSpaces(tableData: seq<seq<string>>, headers: seq<string>, maxRows: int)
    returns (colSpaces: seq<nat>)
    requires NoWider(tableData[..Shown(maxRows, |tableData|)], |headers|)
    ensures colSpaces == MaxWidths(tableData[..Shown(maxRows, |tableData|)], headers)
    ensures |colSpaces| == |headers|
  {
    colSpaces := [];
    for i := 0 to |headers|
      invariant colSpaces == HeaderWidths(headers[..i])
    {
      colSpaces := colSpaces + [|headers[i]|];
    }
    assert headers[..|headers|] == headers;

    var i := 0;
    while i < maxRows && i < |tableData|
      invariant 0 <= i <= Shown(maxRows, |tableData|)
      invariant colSpaces == MaxWidths(tableData[..i], headers)
    {
      var curRow := tableData[i];
      assert tableData[..Shown(maxRows, |tableData|)][i] == curRow;
      ghost var before := colSpaces;
      for j := 0 to |curRow|
        invariant |colSpaces| == |headers|
        invariant forall k :: 0 <= k < j ==> colSpaces[k] == Max(before[k], |curRow[k]|)
        invariant forall k :: j <= k < |headers| ==> colSpaces[k] == before[k]
      {
        var colMax := Max(colSpaces[j], |curRow[j]|);
        colSpaces := colSpaces[j := colMax];
      }
      assert tableData[..i + 1][..i] == tableData[..i];
      i := i + 1;
    }
  }

  /** printRow: each cell left-justified in its column width plus PADDING. */
  method PrintRow(currRow: seq<string>, colSpaces: seq<nat>) returns (title: string)
    requires |currRow| <= |colSpaces|
    ensures title == RowLine(currRow, colSpaces[..|currRow|])
  {
    title := "";
    for i := 0 to |currRow|
      invariant title == RowLine(currRow[..i], colSpaces[..i])
    {
      var spacing := colSpaces[i] + PADDING;
      title := title + PadRight(currRow[i], spacing);
      assert currRow[..i + 1][..i] == currRow[..i];
      assert colSpaces[..i + 1][..i] == colSpaces[..i];
    }
    assert currRow[..|currRow|] == currRow;
  }

  /** printDashes: a run of `width` dashes in every column's field. */
  method PrintDashes(colSpaces: seq<nat>) returns (title: string)
    ensures title == DashLine(colSpaces)
    ensures |title| == FieldsWidth(colSpaces)
  {
    title := "";
    for i := 0 to |colSpaces|
      invariant title == RowLine(DashCells(colSpaces[..i]), colSpaces[..i])
    {
      var spacing := colSpaces[i] + PADDING;
      title := title + PadRight(Repeat('-', colSpaces[i]), spacing);
      assert colSpaces[..i + 1][..i] == colSpaces[..i];
      assert DashCells(colSpaces[..i + 1])[..i] == DashCells(colSpaces[..i]);
    }
    assert colSpaces[..|colSpaces|] == colSpaces;
    DashLineLength(colSpaces);
  }

  /**
   * The printing loops of printResultSet and printResultSetWithRank: the
   * first `numRows` stored rows, in order, one printRow line each.
   */
  method PrintRows(tableData: seq<seq<string>>, colSpaces: seq<nat>, numRows: int) returns (lines: seq<string>)
    requires NoWider(tableData[..Shown(numRows, |tableData|)], |colSpaces|)
    ensures |lines| == Shown(numRows, |tableData|)
    ensures forall i :: 0 <= i < |lines| ==>
      |tableData[i]| <= |colSpaces| && lines[i] == RowLine(tableData[i], colSpaces[..|tableData[i]|])
  {
    lines := [];
    var i := 0;
    while i < |tableData| && i < numRows
      invariant 0 <= i <= Shown(numRows, |tableData|)
      invariant |lines| == i
      invariant forall m :: 0 <= m < i ==>
        |tableData[m]| <= |colSpaces| && lines[m] == RowLine(tableData[m], colSpaces[..|tableData[m]|])
    {
      assert tableData[..Shown(numRows, |tableData|)][i] == tableData[i];
      var line := PrintRow(tableData[i], colSpaces);
      lines := lines + [line];
      i := i + 1;
    }
  }

  /**
   * printResultSet: the header line, the dash line, then every stored row in
   * order, all laid out with the widths of the headers and of all the rows.
   * A row with fewer cells than headers prints only its own cells; when
   * every row is as wide as the headers, every printed line has the same
   * length.
   */
  method PrintResultSet(rs: seq<seq<string>>, headers: seq<string>) returns (lines: seq<string>)
    requires NoWider(rs, |headers|)
    ensures |lines| == 2 + |rs|
    ensures lines[0] == RowLine(headers, MaxWidths(rs, headers))
    ensures lines[1] == DashLine(MaxWidths(rs, headers))
    ensures forall i :: 0 <= i < |rs| ==> lines[2 + i] == RowLine(rs[i], MaxWidths(rs, headers)[..|rs[i]|])
    ensures Rectangular(rs, |headers|) ==>
      forall l :: 0 <= l < |lines| ==> |lines[l]| == FieldsWidth(MaxWidths(rs, headers))
  {
    var tableData := rs;
    var colSpaces := GetColumnSpaces(tableData, headers, |tableData|);
    assert tableData[..|tableData|] == tableData;
    ghost var widths := MaxWidths(rs, headers);
    assert colSpaces == widths;

    var header := PrintRow(headers, colSpaces);
    var dashes := PrintDashes(colSpaces);
    assert colSpaces[..|headers|] == colSpaces;
    var body := PrintRows(tableData, colSpaces, |tableData|);
    lines := [header, dashes] + body;
    LinesAfterTitles(header, dashes, body, tableData, colSpaces);

    if Rectangular(rs, |headers|) {
      forall i | 0 <= i < |rs| ensures lines[2 + i] == RowLine(rs[i], widths) {
        assert widths[..|rs[i]|] == widths;
      }
      ResultLinesAligned(rs, headers, lines);
    }
  }

  /** The printed rows follow the header line and the dash line, in order. */
  lemma LinesAfterTitles(title: string, dashes: string, body: seq<string>, rows: seq<seq<string>>, widths: seq<nat>)
    requires |body| == |rows|
    requires forall i :: 0 <= i < |body| ==>
      |rows[i]| <= |widths| && body[i] == RowLine(rows[i], widths[..|rows[i]|])
    ensures forall i :: 0 <= i < |rows| ==> ([title, dashes] + body)[2 + i] == RowLine(rows[i], widths[..|rows[i]|])
  {
  }

  /** Every line printResultSet prints has the same length. */
  lemma ResultLinesAligned(rs: seq<seq<string>>, headers: seq<string>, lines: seq<string>)
    requires Rectangular(rs, |headers|)
    requires |lines| == 2 + |rs|
    requires lines[0] == RowLine(headers, MaxWidths(rs, headers))
    requires lines[1] == DashLine(MaxWidths(rs, headers))
    requires forall i :: 0 <= i < |rs| ==> lines[2 + i] == RowLine(rs[i], MaxWidths(rs, headers))
    ensures forall l :: 0 <= l < |lines| ==> |lines[l]| == FieldsWidth(MaxWidths(rs, headers))
  {
    var widths := MaxWidths(rs, headers);
    MaxWidthsIsMaximum(rs, headers);
    forall l | 0 <= l < |lines| ensures |lines[l]| == FieldsWidth(widths) {
      if l == 0 {
        RowLineLength(headers, widths);
      } else if l == 1 {
        DashLineLength(widths);
      } else {
        RowLineLength(rs[l - 2], widths);
      }
    }
  }

  /** The widths of the ranked table: the rank column, then the data columns. */
  function RankedWidths(rs: seq<seq<string>>, headers: seq<string>, numRows: int): (w: seq<nat>)
    requires |headers| >= 1 && NoWider(rs[..Shown(numRows, |rs|)], |headers| - 1)
    ensures |w| == |headers|
  {
    [|headers[0]| + 1] + MaxWidths(rs[..Shown(numRows, |rs|)], headers[1..])
  }

  /**
   * The ranking loop of printResultSetWithRank over its local list of rows:
   * the first `numRows` rows get their 1-based rank as a new first cell; the
   * rest are left as they were.
   */
  method AddRanks(tableData: seq<seq<string>>, numRows: int) returns (ranked: seq<seq<string>>)
    ensures ranked == RankRows(tableData, numRows)
  {
    ranked := tableData;
    var rank := 1;
    var i := 0;
    while i < |ranked| && i < numRows
      invariant 0 <= i <= Shown(numRows, |tableData|)
      invariant |ranked| == |tableData| && rank == i + 1
      invariant forall k :: 0 <= k < i ==> ranked[k] == [NatToString(k + 1)] + tableData[k]
      invariant forall k :: i <= k < |ranked| ==> ranked[k] == tableData[k]
    {
      ranked := ranked[i := [NatToString(rank)] + ranked[i]];
      rank := rank + 1;
      i := i + 1;
    }
  }

  /** The rows after ranking: the first `numRows` with their rank in front, the rest unchanged. */
  function RankRows(rows: seq<seq<string>>, numRows: int): (r: seq<seq<string>>)
    ensures |r| == |rows|
  {
    seq(|rows|, i requires 0 <= i < |rows| =>
      if i < Shown(numRows, |rows|) then [NatToString(i + 1)] + rows[i] else rows[i])
  }

  /** Ranking keeps every row's cells and adds one column to the shown rows only. */
  lemma RankRowsShape(rows: seq<seq<string>>, numRows: int, columns: nat)
    requires NoWider(rows[..Shown(numRows, |rows|)], columns)
    ensures NoWider(RankRows(rows, numRows)[..Shown(numRows, |rows|)], columns + 1)
    ensures forall i :: 0 <= i < Shown(numRows, |rows|) ==>
      RankRows(rows, numRows)[i] == [NatToString(i + 1)] + rows[i]
    ensures forall i :: Shown(numRows, |rows|) <= i < |rows| ==> RankRows(rows, numRows)[i] == rows[i]
  {
  }

  /** Longer numbers never have shorter decimal texts. */
  lemma {:induction false} NatToStringLengthMonotone(m: nat, n: nat)
    requires m <= n
    ensures |NatToString(m)| <= |NatToString(n)|
  {
    if m >= 10 {
      NatToStringLengthMonotone(m / 10, n / 10);
    }
  }

  /** The header line of the ranked table fits its widths. */
  lemma RankedHeaderFits(rs: seq<seq<string>>, headers: seq<string>, numRows: int)
    requires |headers| >= 1 && NoWider(rs[..Shown(numRows, |rs|)], |headers| - 1)
    ensures Fits(headers, RankedWidths(rs, headers, numRows))
  {
    var w := RankedWidths(rs, headers, numRows);
    MaxWidthsIsMaximum(rs[..Shown(numRows, |rs|)], headers[1..]);
    forall j | 1 <= j < |headers| ensures |headers[j]| <= w[j] {
      assert headers[j] == headers[1..][j - 1];
    }
  }

  /** A shown row of the ranked table fits its widths when its rank fits the rank column. */
  lemma RankedRowFits(rs: seq<seq<string>>, headers: seq<string>, numRows: int, i: nat)
    requires |headers| >= 1 && Rectangular(rs[..Shown(numRows, |rs|)], |headers| - 1)
    requires i < Shown(numRows, |rs|) && |NatToString(i + 1)| <= |headers[0]| + 1
    ensures |rs[i]| == |headers| - 1
    ensures Fits([NatToString(i + 1)] + rs[i], RankedWidths(rs, headers, numRows))
  {
    var k := Shown(numRows, |rs|);
    var w := RankedWidths(rs, headers, numRows);
    var cells := [NatToString(i + 1)] + rs[i];
    MaxWidthsIsMaximum(rs[..k], headers[1..]);
    forall j | 1 <= j < |cells| ensures |cells[j]| <= w[j] {
      assert cells[j] == rs[..k][i][j - 1];
    }
  }

  /**
   * printResultSetWithRank: the widths come from headers[1..] and the first
   * `numRows` rows before any rank is added; the rank column is as wide as
   * its header plus one; then the header line, the dash line, and the first
   * min(|rs|, numRows) rows, each preceded by its rank "1", "2", ... in
   * order. Rows after the first `numRows` are never read. When the shown
   * rows are as wide as the data headers and the largest rank fits its
   * column, every line has the same length.
   */
  method PrintResultSetWithRank(rs: seq<seq<string>>, headers: seq<string>, numRows: int)
    returns (lines: seq<string>)
    requires |headers| >= 1 && NoWider(rs[..Shown(numRows, |rs|)], |headers| - 1)
    ensures |lines| == 2 + Shown(numRows, |rs|)
    ensures lines[0] == RowLine(headers, RankedWidths(rs, headers, numRows))
    ensures lines[1] == DashLine(RankedWidths(rs, headers, numRows))
    ensures forall i :: 0 <= i < Shown(numRows, |rs|) ==>
      |rs[i]| < |headers| &&
      lines[2 + i] == RowLine([NatToString(i + 1)] + rs[i], RankedWidths(rs, headers, numRows)[..|rs[i]| + 1])
    ensures (Rectangular(rs[..Shown(numRows, |rs|)], |headers| - 1) &&
             |NatToString(Shown(numRows, |rs|))| <= |headers[0]| + 1) ==>
      forall l :: 0 <= l < |lines| ==> |lines[l]| == FieldsWidth(RankedWidths(rs, headers, numRows))
  {
    var tableData := rs;
    var colSpaces := GetColumnSpaces(tableData, headers[1..], numRows);
    ghost var k := Shown(numRows, |rs|);

    tableData := AddRanks(tableData, numRows);
    RankRowsShape(rs, numRows, |headers| - 1);
    assert Shown(numRows, |tableData|) == k;

    colSpaces := [|headers[0]| + 1] + colSpaces;
    ghost var widths := RankedWidths(rs, headers, numRows);
    assert colSpaces == widths;
    assert |colSpaces| == |headers|;

    var header := PrintRow(headers, colSpaces);
    var dashes := PrintDashes(colSpaces);
    assert colSpaces[..|headers|] == colSpaces;
    var body := PrintRows(tableData, colSpaces, numRows);
    lines := [header, dashes] + body;
    assert lines[2..] == body;
    RankedBodyRows(rs, numRows, colSpaces, body, lines);

    if Rectangular(rs[..k], |headers| - 1) && |NatToString(k)| <= |headers[0]| + 1 {
      RankedLinesAligned(rs, headers, numRows, colSpaces, lines);
    }
  }

  /** The lines printed for the ranked rows are the shown rows with their rank in front. */
  lemma RankedBodyRows(rs: seq<seq<string>>, numRows: int, widths: seq<nat>, body: seq<string>, lines: seq<string>)
    requires |body| == Shown(numRows, |rs|) && |lines| == 2 + |body| && lines[2..] == body
    requires forall i :: 0 <= i < |body| ==>
      |RankRows(rs, numRows)[i]| <= |widths| &&
      body[i] == RowLine(RankRows(rs, numRows)[i], widths[..|RankRows(rs, numRows)[i]|])
    ensures forall i :: 0 <= i < |body| ==>
      |rs[i]| < |widths| && lines[2 + i] == RowLine([NatToString(i + 1)] + rs[i], widths[..|rs[i]| + 1])
  {
    forall i | 0 <= i < |body|
      ensures |rs[i]| < |widths|
      ensures lines[2 + i] == RowLine([NatToString(i + 1)] + rs[i], widths[..|rs[i]| + 1])
    {
      assert RankRows(rs, numRows)[i] == [NatToString(i + 1)] + rs[i];
      assert lines[2 + i] == lines[2..][i];
    }
  }

  /** When the largest rank fits the rank column, every line of the ranked table is equally long. */
  lemma RankedLinesAligned(rs: seq<seq<string>>, headers: seq<string>, numRows: int, widths: seq<nat>, lines: seq<string>)
    requires |headers| >= 1 && Rectangular(rs[..Shown(numRows, |rs|)], |headers| - 1)
    requires widths == RankedWidths(rs, headers, numRows)
    requires |NatToString(Shown(numRows, |rs|))| <= |headers[0]| + 1
    requires |lines| == 2 + Shown(numRows, |rs|)
    requires lines[0] == RowLine(headers, widths)
    requires lines[1] == DashLine(widths)
    requires forall i :: 0 <= i < Shown(numRows, |rs|) ==>
      |rs[i]| < |widths| && lines[2 + i] == RowLine([NatToString(i + 1)] + rs[i], widths[..|rs[i]| + 1])
    ensures forall l :: 0 <= l < |lines| ==> |lines[l]| == FieldsWidth(widths)
  {
    var k := Shown(numRows, |rs|);
    forall l | 0 <= l < |lines| ensures |lines[l]| == FieldsWidth(widths) {
      if l == 0 {
        RankedHeaderFits(rs, headers, numRows);
        RowLineLength(headers, widths);
      } else if l == 1 {
        DashLineLength(widths);
      } else {
        NatToStringLengthMonotone(l - 1, k);
        RankedRowFits(rs, headers, numRows, l - 2);
        assert widths[..|rs[l - 2]| + 1] == widths;
        RowLineLength([NatToString(l - 1)] + rs[l - 2], widths);
      }
    }
  }

  /**
   * The bounded width scan: rows after the first `numRows` never change the
   * widths, so appending them changes neither the header line nor the dash
   * line.
   */
  lemma RankedWidthsIgnoreLaterRows(rs: seq<seq<string>>, extra: seq<seq<string>>, headers: seq<string>, numRows: int)
    requires |headers| >= 1 && NoWider(rs[..Shown(numRows, |rs|)], |headers| - 1)
    requires numRows <= |rs|
    ensures NoWider((rs + extra)[..Shown(numRows, |rs + extra|)], |headers| - 1)
    ensures RankedWidths(rs + extra, headers, numRows) == RankedWidths(rs, headers, numRows)
  {
    var k := Shown(numRows, |rs|);
    assert Shown(numRows, |rs + extra|) == k;
    assert (rs + extra)[..k] == rs[..k];
  }
}
