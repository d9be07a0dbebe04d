/**
 * The string rewriting the two SQL generators (populate_data/writeSQL.py and
 * the older writeSQL.py) apply to data before it is written into INSERT
 * statements: Python's `str.replace`, apostrophe doubling, the removal of
 * double spaces from venue names, the city rename and the clean-up of game
 * times.
 */
module SqlText {
  import opened Text

  /** Python's `s.replace(pat, rep)`: every occurrence of `pat`, scanning left to right without overlaps. */
  function Replace(s: string, pat: string, rep: string): string
    requires pat != []
    decreases |s|
  {
    if |s| < |pat| then s
    else if s[..|pat|] == pat then rep + Replace(s[|pat|..], pat, rep)
    else [s[0]] + Replace(s[1..], pat, rep)
  }

  /** How many times `c` occurs in `s`. */
  function Count(s: string, c: char): nat
  {
    if s == [] then 0 else (if s[0] == c then 1 else 0) + Count(s[1..], c)
  }

  lemma {:induction false} CountConcat(a: string, b: string, c: char)
    ensures Count(a + b, c) == Count(a, c) + Count(b, c)
  {
    if a != [] {
      assert (a + b)[1..] == a[1..] + b;
      CountConcat(a[1..], b, c);
    } else {
      assert a + b == b;
    }
  }

  lemma {:induction false} CountAbsent(s: string, c: char)
    requires c !in s
    ensures Count(s, c) == 0
  {
    if s != [] {
      assert s[0] in s;
      CountAbsent(s[1..], c);
    }
  }

  // ---------------------------------------------------------------------
  // Apostrophes (fix_apostrophes)
  // ---------------------------------------------------------------------

  /** `s.replace("'", "''")`: the SQL escape of a quote inside a quoted string. */
  function DoubleApostrophes(s: string): string
  {
    Replace(s, "'", "''")
  }

  /** `t.replace("''", "'")`: reading an escaped SQL string back. */
  function UndoubleApostrophes(t: string): string
  {
    Replace(t, "''", "'")
  }

  /** Doubling adds one character per apostrophe. */
  lemma {:induction false} DoubleApostrophesLength(s: string)
    ensures |DoubleApostrophes(s)| == |s| + Count(s, '\'')
    decreases |s|
  {
    if s != [] {
      DoubleApostrophesLength(s[1..]);
      assert s[..1] == [s[0]];
    }
  }

  /** Reading the escaped text back gives the original text. */
  lemma {:induction false} UndoubleDouble(s: string)
    ensures UndoubleApostrophes(DoubleApostrophes(s)) == s
    decreases |s|
  {
    if s != [] {
      var rest := DoubleApostrophes(s[1..]);
      UndoubleDouble(s[1..]);
      assert s[..1] == [s[0]];
      if s[0] == '\'' {
        var t := "''" + rest;
        assert DoubleApostrophes(s) == t;
        assert t[..2] == "''" && t[2..] == rest;
        assert s == "'" + s[1..];
      } else {
        var t := [s[0]] + rest;
        assert DoubleApostrophes(s) == t;
        if |t| >= 2 {
          assert t[..2] != "''";
          assert t[1..] == rest;
        } else {
          assert rest == [];
          DoubleApostrophesEmpty(s[1..]);
        }
        assert s == [s[0]] + s[1..];
      }
    }
  }

  lemma DoubleApostrophesEmpty(s: string)
    requires DoubleApostrophes(s) == []
    ensures s == []
  {
    DoubleApostrophesLength(s);
  }

  /** Doubling is one-to-one: different texts stay different once escaped. */
  lemma DoubleApostrophesInjective(s: string, t: string)
    requires DoubleApostrophes(s) == DoubleApostrophes(t)
    ensures s == t
  {
    UndoubleDouble(s);
    UndoubleDouble(t);
  }

  // ---------------------------------------------------------------------
  // Venue names: replace("  ", "")
  // ---------------------------------------------------------------------

  /** `s.replace("  ", "")`, applied to venue names. */
  function RemoveDoubleSpaces(s: string): string
  {
    Replace(s, "  ", "")
  }

  /** No two spaces stand next to each other. */
  predicate NoDoubleSpace(s: string)
  {
    forall k :: 0 <= k < |s| - 1 ==> !(s[k] == ' ' && s[k + 1] == ' ')
  }

  /** The characters of `s` other than spaces, in order. */
  function NonSpaces(s: string): string
  {
    if s == [] then "" else (if s[0] == ' ' then "" else [s[0]]) + NonSpaces(s[1..])
  }

  /** A text that does not start with a space keeps its first character. */
  lemma RemoveDoubleSpacesHead(s: string)
    requires s != [] && s[0] != ' '
    ensures RemoveDoubleSpaces(s) != [] && RemoveDoubleSpaces(s)[0] == s[0]
  {
    if |s| >= 2 {
      assert s[..2] != "  ";
    }
  }

  /** After the rewrite no double space is left. */
  lemma {:induction false} RemoveDoubleSpacesLeavesNone(s: string)
    ensures NoDoubleSpace(RemoveDoubleSpaces(s))
    decreases |s|
  {
    if |s| >= 2 {
      if s[..2] == "  " {
        RemoveDoubleSpacesLeavesNone(s[2..]);
        assert RemoveDoubleSpaces(s) == RemoveDoubleSpaces(s[2..]);
      } else {
        var r := RemoveDoubleSpaces(s[1..]);
        RemoveDoubleSpacesLeavesNone(s[1..]);
        assert RemoveDoubleSpaces(s) == [s[0]] + r;
        if s[0] == ' ' {
          RemoveDoubleSpacesHead(s[1..]);
        }
      }
    }
  }

  /** Every character other than a space is kept, in order. */
  lemma {:induction false} RemoveDoubleSpacesKeepsText(s: string)
    ensures NonSpaces(RemoveDoubleSpaces(s)) == NonSpaces(s)
    decreases |s|
  {
    if |s| >= 2 {
      if s[..2] == "  " {
        RemoveDoubleSpacesKeepsText(s[2..]);
        assert s[0] == s[..2][0] == ' ' && s[1] == s[..2][1] == ' ';
        assert s[1..][1..] == s[2..];
        assert NonSpaces(s) == NonSpaces(s[1..]) == NonSpaces(s[2..]);
        assert RemoveDoubleSpaces(s) == RemoveDoubleSpaces(s[2..]);
      } else {
        RemoveDoubleSpacesKeepsText(s[1..]);
        var r := RemoveDoubleSpaces(s[1..]);
        assert ([s[0]] + r)[1..] == r;
      }
    } else if |s| == 1 {
      assert s[1..] == [];
    }
  }

  /** A run of `k` spaces becomes `k mod 2` spaces. */
  lemma {:induction false} RemoveDoubleSpacesRun(k: nat)
    ensures RemoveDoubleSpaces(Repeat(' ', k)) == Repeat(' ', k % 2)
  {
    var s := Repeat(' ', k);
    if k >= 2 {
      assert s[..2] == "  ";
      assert s[2..] == Repeat(' ', k - 2);
      RemoveDoubleSpacesRun(k - 2);
    }
  }

  /** A text that does not end in a space is rewritten on its own: no pair of spaces straddles its end. */
  lemma {:induction false} RemoveDoubleSpacesSplit(a: string, rest: string)
    requires a == [] || a[|a| - 1] != ' '
    ensures RemoveDoubleSpaces(a + rest) == RemoveDoubleSpaces(a) + RemoveDoubleSpaces(rest)
    decreases |a|
  {
    var s := a + rest;
    if a == [] {
      assert s == rest;
    } else if |s| < 2 {
      assert rest == [] && s == a;
    } else if s[..2] == "  " {
      assert s[..2][0] == s[0] == a[0];
      assert |a| >= 2 && a[..2] == s[..2];
      assert s[2..] == a[2..] + rest;
      RemoveDoubleSpacesSplit(a[2..], rest);
    } else {
      assert s[1..] == a[1..] + rest;
      RemoveDoubleSpacesSplit(a[1..], rest);
      if |a| >= 2 {
        assert a[..2] == s[..2];
      }
    }
  }

  /** A run of `k` spaces in front of a text that does not start with a space leaves `k mod 2` of them. */
  lemma {:induction false} RemoveDoubleSpacesRunBefore(k: nat, b: string)
    requires b == [] || b[0] != ' '
    ensures RemoveDoubleSpaces(Repeat(' ', k) + b) == Repeat(' ', k % 2) + RemoveDoubleSpaces(b)
  {
    var s := Repeat(' ', k) + b;
    if k >= 2 {
      assert s[..2] == "  ";
      assert s[2..] == Repeat(' ', k - 2) + b;
      RemoveDoubleSpacesRunBefore(k - 2, b);
    } else if k == 1 {
      if b == [] {
        assert s == " ";
      } else {
        assert s[1] == b[0] == s[..2][1];
        assert s[1..] == b;
      }
    } else {
      assert s == b;
    }
  }

  /**
   * Between two words, a run of `k` spaces becomes `k mod 2` spaces, and the
   * text on either side is rewritten on its own: an even run glues the
   * words together, an odd run leaves a single space.
   */
  lemma RemoveDoubleSpacesBetween(a: string, k: nat, b: string)
    requires a == [] || a[|a| - 1] != ' '
    requires b == [] || b[0] != ' '
    ensures RemoveDoubleSpaces(a + Repeat(' ', k) + b)
         == RemoveDoubleSpaces(a) + Repeat(' ', k % 2) + RemoveDoubleSpaces(b)
  {
    assert a + Repeat(' ', k) + b == a + (Repeat(' ', k) + b);
    RemoveDoubleSpacesSplit(a, Repeat(' ', k) + b);
    RemoveDoubleSpacesRunBefore(k, b);
  }

  /** Text without double spaces is left alone, so the rewrite is idempotent. */
  lemma {:induction false} RemoveDoubleSpacesIdentity(s: string)
    requires NoDoubleSpace(s)
    ensures RemoveDoubleSpaces(s) == s
    decreases |s|
  {
    if |s| >= 2 {
      assert !(s[0] == ' ' && s[1] == ' ');
      assert s[..2] == [s[0], s[1]];
      RemoveDoubleSpacesIdentity(s[1..]);
      assert s == [s[0]] + s[1..];
    }
  }

  lemma RemoveDoubleSpacesIdempotent(s: string)
    ensures RemoveDoubleSpaces(RemoveDoubleSpaces(s)) == RemoveDoubleSpaces(s)
  {
    RemoveDoubleSpacesLeavesNone(s);
    RemoveDoubleSpacesIdentity(RemoveDoubleSpaces(s));
  }

  // ---------------------------------------------------------------------
  // Teams: the city rename
  // ---------------------------------------------------------------------

  /** Both New York teams are listed under the city "New York"; every other city is kept. */
  function FixCity(city: string): (r: string)
    ensures r == "New York" <==> city in {"NY Rangers", "NY Islanders", "New York"}
    ensures r != city ==> city in {"NY Rangers", "NY Islanders"}
  {
    if city in {"NY Rangers", "NY Islanders"} then "New York" else city
  }

  // ---------------------------------------------------------------------
  // Games: date_time_GMT with "T" replaced by a space and "Z" dropped
  // ---------------------------------------------------------------------

  /** `dt.replace("T", " ").replace("Z", "")`. */
  function NormalizeDateTime(dt: string): string
  {
    Replace(Replace(dt, "T", " "), "Z", "")
  }

  /** A one-character replacement leaves no occurrence behind when the replacement does not hold it. */
  lemma {:induction false} ReplaceCharRemoves(s: string, c: char, rep: string, d: char)
    requires d !in rep && (d == c || d !in s)
    ensures d !in Replace(s, [c], rep)
    decreases |s|
  {
    if s != [] {
      ReplaceCharRemoves(s[1..], c, rep, d);
      assert s[..1] == [s[0]];
      assert s[0] in s;
    }
  }

  /** The normalized time holds no "T" and no "Z". */
  lemma NormalizeDateTimeClean(dt: string)
    ensures 'T' !in NormalizeDateTime(dt) && 'Z' !in NormalizeDateTime(dt)
  {
    ReplaceCharRemoves(dt, 'T', " ", 'T');
    ReplaceCharRemoves(Replace(dt, "T", " "), 'Z', "", 'T');
    ReplaceCharRemoves(Replace(dt, "T", " "), 'Z', "", 'Z');
  }

  /** A one-character replacement does not move the characters in front of the first occurrence. */
  lemma {:induction false} ReplaceCharKeepsPrefix(s: string, c: char, rep: string, n: nat)
    requires n <= |s| && forall k :: 0 <= k < n ==> s[k] != c
    ensures |Replace(s, [c], rep)| >= n && Replace(s, [c], rep)[..n] == s[..n]
    decreases n
  {
    if n > 0 {
      assert s[..1] == [s[0]] != [c];
      ReplaceCharKeepsPrefix(s[1..], c, rep, n - 1);
      var r := Replace(s[1..], [c], rep);
      assert Replace(s, [c], rep) == [s[0]] + r;
      assert ([s[0]] + r)[..n] == [s[0]] + r[..n - 1];
      assert s[..n] == [s[0]] + s[1..][..n - 1];
    }
  }

  /**
   * When the date part holds no "T" or "Z" (as in "2012-09-19T23:00:00Z"),
   * normalizing keeps it in place, so the year and month the game filter
   * reads at positions 0-3 and 5-6 are those of the raw time.
   */
  lemma NormalizeDateTimeKeepsDate(dt: string, n: nat)
    requires n <= |dt| && forall k :: 0 <= k < n ==> dt[k] != 'T' && dt[k] != 'Z'
    ensures |NormalizeDateTime(dt)| >= n && NormalizeDateTime(dt)[..n] == dt[..n]
  {
    ReplaceCharKeepsPrefix(dt, 'T', " ", n);
    var t := Replace(dt, "T", " ");
    assert forall k :: 0 <= k < n ==> t[k] == t[..n][k] == dt[k];
    ReplaceCharKeepsPrefix(t, 'Z', "", n);
  }

  // ---------------------------------------------------------------------
  // Data frame cells
  // ---------------------------------------------------------------------

  /** A cell of a data frame: a Python string, or any other value as its `str()` text ("nan" for a missing float, "<NA>" for a missing integer). */
  datatype Value = Str(s: string) | Other(text: string)

  /** `f"'{val}'" if isinstance(val, str) else str(val)`: strings are quoted, everything else is its text. */
  function RenderValue(v: Value): (r: string)
    ensures v.Str? ==> |r| == |v.s| + 2 && r[0] == '\'' && r[|r| - 1] == '\'' && r[1..|r| - 1] == v.s
    ensures v.Other? ==> r == v.text
  {
    match v
    case Str(s) => "'" + s + "'"
    case Other(text) => text
  }

  /** `f"INSERT INTO {table_name} ({', '.join(df.columns)}) VALUES "`: the text every INSERT line of a table starts with. */
  function InsertHead(table: string, cols: seq<string>): string
  {
    "INSERT INTO " + table + " (" + Join(cols, ", ") + ") VALUES "
  }

  /** The text of a value holds no line break. */
  predicate OneLine(v: Value)
  {
    match v
    case Str(s) => '\n' !in s
    case Other(text) => '\n' !in text
  }

  /** A table name, its columns and its cells that hold no line break. */
  predicate OneLineTable(table: string, cols: seq<string>, rows: seq<seq<Value>>)
  {
    && '\n' !in table
    && (forall k :: 0 <= k < |cols| ==> '\n' !in cols[k])
    && (forall i, k :: 0 <= i < |rows| && 0 <= k < |rows[i]| ==> OneLine(rows[i][k]))
  }

  /** The head of an INSERT line has no line break. */
  lemma InsertHeadOneLine(table: string, cols: seq<string>)
    requires '\n' !in table && forall k :: 0 <= k < |cols| ==> '\n' !in cols[k]
    ensures '\n' !in InsertHead(table, cols)
  {
    JoinAvoids(cols, ", ", '\n');
  }

  /**
   * What `.str.replace("'", "''")` does to one cell of a text column:
   * strings are escaped; any other value, missing or not, has no string
   * to replace in and comes back as NaN, whose text is "nan".
   */
  function FixValue(v: Value): Value
  {
    match v
    case Str(s) => Str(DoubleApostrophes(s))
    case Other(_) => Other("nan")
  }

  /** Undoing the escape on a fixed string gives the string back; every other cell becomes NaN. */
  lemma FixValueRoundTrip(v: Value)
    ensures FixValue(v).Str? <==> v.Str?
    ensures match FixValue(v)
      case Str(t) => v == Str(UndoubleApostrophes(t))
      case Other(t) => t == "nan"
  {
    if v.Str? {
      UndoubleDouble(v.s);
    }
  }

  /** The table with every cell of column `c` fixed. */
  function FixColumn(rows: seq<seq<Value>>, c: nat): (r: seq<seq<Value>>)
    ensures |r| == |rows|
    ensures forall i :: 0 <= i < |r| ==> |r[i]| == |rows[i]|
    ensures forall i, d :: 0 <= i < |r| && 0 <= d < |r[i]| ==>
      r[i][d] == if d == c then FixValue(rows[i][d]) else rows[i][d]
  {
    seq(|rows|, i requires 0 <= i < |rows| => if c < |rows[i]| then rows[i][c := FixValue(rows[i][c])] else rows[i])
  }

  /**
   * fix_apostrophes: every column whose type is text (`dtype == "object"`)
   * has the quotes of its strings doubled and its other values turned to
   * NaN, in place; the other columns are untouched.
   */
  method FixApostrophes(table: seq<seq<Value>>, isText: seq<bool>) returns (fixed: seq<seq<Value>>)
    requires forall i :: 0 <= i < |table| ==> |table[i]| == |isText|
    ensures |fixed| == |table|
    ensures forall i :: 0 <= i < |fixed| ==> |fixed[i]| == |isText|
    ensures forall i, c :: 0 <= i < |fixed| && 0 <= c < |isText| ==>
      fixed[i][c] == if isText[c] then FixValue(table[i][c]) else table[i][c]
  {
    fixed := table;
    for c := 0 to |isText|
      invariant |fixed| == |table|
      invariant forall i :: 0 <= i < |fixed| ==> |fixed[i]| == |isText|
      invariant forall i, d {:trigger fixed[i][d]} :: 0 <= i < |fixed| && 0 <= d < |isText| ==>
        fixed[i][d] == if d < c && isText[d] then FixValue(table[i][d]) else table[i][d]
    {
      if isText[c] {
        fixed := FixColumn(fixed, c);
      }
    }
  }

  // ---------------------------------------------------------------------
  // INSERT lines (create_inserts, both copies)
  // ---------------------------------------------------------------------

  /** The values of a row as `f"'{val}'" if isinstance(val, str) else str(val)` renders them, in column order. */
  function RenderValues(row: seq<Value>): (r: seq<string>)
    ensures |r| == |row|
    ensures forall k :: 0 <= k < |r| ==> r[k] == RenderValue(row[k])
  {
    seq(|row|, k requires 0 <= k < |row| => RenderValue(row[k]))
  }

  /** The inner loop of create_inserts: each value of the row rendered and appended. */
  method CollectValues(row: seq<Value>) returns (values: seq<string>)
    ensures values == RenderValues(row)
  {
    values := [];
    for k := 0 to |row|
      invariant |values| == k
      invariant forall j :: 0 <= j < k ==> values[j] == RenderValue(row[j])
    {
      values := values + [RenderValue(row[k])];
    }
  }

  /** `f"{insert_string}({values});\n"` with the rendered values joined by ", ". */
  function InsertLine(table: string, cols: seq<string>, cells: seq<string>): string
  {
    InsertHead(table, cols) + "(" + Join(cells, ", ") + ");\n"
  }

  /** The INSERT lines of the rows in row order, each row's values rendered by `render`. */
  function InsertLines(table: string, cols: seq<string>, render: seq<Value> -> seq<string>, rows: seq<seq<Value>>): seq<string>
  {
    if rows == [] then []
    else InsertLines(table, cols, render, rows[..|rows| - 1]) + [InsertLine(table, cols, render(rows[|rows| - 1]))]
  }

  /** The lines of one more row: one more line at the end. */
  lemma InsertLinesSnoc(table: string, cols: seq<string>, render: seq<Value> -> seq<string>, rows: seq<seq<Value>>, r: nat)
    requires r < |rows|
    ensures InsertLines(table, cols, render, rows[..r + 1])
      == InsertLines(table, cols, render, rows[..r]) + [InsertLine(table, cols, render(rows[r]))]
  {
    assert rows[..r + 1][..r] == rows[..r];
  }

  /** There is one INSERT line per row, in row order. */
  lemma {:induction false} InsertLinesInOrder(table: string, cols: seq<string>, render: seq<Value> -> seq<string>, rows: seq<seq<Value>>)
    ensures |InsertLines(table, cols, render, rows)| == |rows|
    ensures forall i :: 0 <= i < |rows| ==>
      InsertLines(table, cols, render, rows)[i] == InsertLine(table, cols, render(rows[i]))
  {
    if rows != [] {
      var front := rows[..|rows| - 1];
      InsertLinesInOrder(table, cols, render, front);
      forall i | 0 <= i < |front|
        ensures InsertLines(table, cols, render, rows)[i] == InsertLine(table, cols, render(rows[i]))
      {
        assert rows[i] == front[i];
      }
    }
  }

  /** When no name or value holds a line break, an INSERT line holds exactly one, at its end. */
  lemma InsertLineOneLine(table: string, cols: seq<string>, cells: seq<string>)
    requires '\n' !in table && forall k :: 0 <= k < |cols| ==> '\n' !in cols[k]
    requires forall k :: 0 <= k < |cells| ==> '\n' !in cells[k]
    ensures Count(InsertLine(table, cols, cells), '\n') == 1
    ensures InsertLine(table, cols, cells)[|InsertLine(table, cols, cells)| - 1] == '\n'
  {
    InsertHeadOneLine(table, cols);
    JoinAvoids(cells, ", ", '\n');
    var body := InsertHead(table, cols) + "(" + Join(cells, ", ") + ");";
    assert '\n' !in body;
    CountAbsent(body, '\n');
    CountConcat(body, "\n", '\n');
    assert InsertLine(table, cols, cells) == body + "\n";
  }

  /** `render` puts no line break into the values of the rows. */
  predicate RendersOneLine(render: seq<Value> -> seq<string>, rows: seq<seq<Value>>)
  {
    forall i, k :: 0 <= i < |rows| && 0 <= k < |render(rows[i])| ==> '\n' !in render(rows[i])[k]
  }

  /** The INSERT lines of `n` rows hold `n` line breaks in all. */
  lemma {:induction false} InsertLinesCount(table: string, cols: seq<string>, render: seq<Value> -> seq<string>, rows: seq<seq<Value>>)
    requires '\n' !in table && forall k :: 0 <= k < |cols| ==> '\n' !in cols[k]
    requires RendersOneLine(render, rows)
    ensures Count(Join(InsertLines(table, cols, render, rows), ""), '\n') == |rows|
  {
    if rows != [] {
      var front := rows[..|rows| - 1];
      assert RendersOneLine(render, front) by {
        assert forall i :: 0 <= i < |front| ==> front[i] == rows[i];
      }
      InsertLinesCount(table, cols, render, front);
      var line := InsertLine(table, cols, render(rows[|rows| - 1]));
      InsertLineOneLine(table, cols, render(rows[|rows| - 1]));
      var lines := InsertLines(table, cols, render, front);
      JoinSnoc(lines, line, "");
      if front == [] {
        assert Count(Join(InsertLines(table, cols, render, rows), ""), '\n') == 1;
      } else {
        assert Join(lines, "") + "" == Join(lines, "");
        CountConcat(Join(lines, ""), line, '\n');
      }
    }
  }
}
