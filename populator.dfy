/**
 * The statement loader of the console client (interface/Populator.java):
 * it reads a SQL file line by line, trims every line, skips blank ones,
 * accumulates the rest in a builder (each followed by one space), cuts a
 * statement whenever a line ends with ';', and sends the statements to the
 * database in batches of BATCH_SIZE, the last batch possibly smaller.
 *
 * The file is given as its sequence of lines; the result is the sequence of
 * batches in the order they are executed.
 */
module Populator {
  import opened Text
  import opened Chunking

  /** The batch size after which the loader executes its batch. */
  const BATCH_SIZE: nat := 50

  /** A trimmed line that closes a statement. */
  predicate EndsStatement(t: string)
  {
    |t| > 0 && t[|t| - 1] == ';'
  }

  /** What the builder holds after appending each line and a space. */
  function Built(p: seq<string>): string
  {
    if p == [] then "" else Built(p[..|p| - 1]) + p[|p| - 1] + " "
  }

  /** The builder is the lines joined by single spaces, with one trailing space. */
  lemma {:induction false} BuiltIsJoinPlusSpace(p: seq<string>)
    requires p != []
    ensures Built(p) == Join(p, " ") + " "
  {
    if |p| > 1 {
      BuiltIsJoinPlusSpace(p[..|p| - 1]);
    } else {
      assert p[..0] == [];
    }
  }

  /** Joining trimmed lines gives a trimmed text: it starts with the first line and ends with the last. */
  lemma {:induction false} JoinTrimmed(p: seq<string>)
    requires p != [] && forall k :: 0 <= k < |p| ==> Trimmed(p[k])
    ensures Trimmed(Join(p, " "))
    ensures EndsStatement(Join(p, " ")) == EndsStatement(p[|p| - 1])
  {
    if |p| > 1 {
      var init := p[..|p| - 1];
      JoinTrimmed(init);
      assert Trimmed(init[0]);
      assert Join(p, " ") == Join(init, " ") + " " + p[|p| - 1];
    } else {
      assert Trimmed(p[0]);
    }
  }

  /** Appending a line and a space to the builder. */
  lemma BuiltSnoc(p: seq<string>, w: string)
    ensures Built(p + [w]) == Built(p) + w + " "
  {
    assert (p + [w])[..|p|] == p;
  }

  /**
   * The query the loader cuts when line `w` closes a statement whose earlier
   * lines are `p`: the builder, trimmed, is the lines joined by single spaces.
   */
  lemma QueryText(p: seq<string>, w: string)
    requires forall k :: 0 <= k < |p + [w]| ==> Trimmed((p + [w])[k])
    ensures Trim(Built(p) + w + " ") == Join(p + [w], " ")
  {
    var q := p + [w];
    BuiltSnoc(p, w);
    BuiltIsJoinPlusSpace(q);
    JoinTrimmed(q);
    TrimDropsTrailingSpace(Join(q, " "));
    calc {
      Trim(Built(p) + w + " ");
      Trim(Built(q));
      Trim(Join(q, " ") + " ");
      Join(q, " ");
    }
  }

  // ---------------------------------------------------------------------
  // The statements a file holds
  // ---------------------------------------------------------------------

  /** The reader's state between lines: the statements cut so far and the lines of the open one. */
  datatype Scan = Scan(statements: seq<string>, pending: seq<string>)

  /** One line of input: trimmed, skipped when blank, appended, and a statement cut at ';'. */
  function ScanLine(s: Scan, raw: string): Scan
  {
    var line := Trim(raw);
    if line == "" then s
    else if EndsStatement(line) then Scan(s.statements + [Join(s.pending + [line], " ")], [])
    else Scan(s.statements, s.pending + [line])
  }

  /** The state after reading `lines` in order. */
  function ScanLines(lines: seq<string>): Scan
  {
    if lines == [] then Scan([], []) else ScanLine(ScanLines(lines[..|lines| - 1]), lines[|lines| - 1])
  }

  /** The statements of a file: the text of an unterminated last statement is never sent. */
  function Statements(lines: seq<string>): seq<string>
  {
    ScanLines(lines).statements
  }

  /** A raw line as it reaches the builder: nothing when blank, else its trimmed text. */
  function Cleaned(raw: string): seq<string>
  {
    if Trim(raw) == "" then [] else [Trim(raw)]
  }

  /** The non-blank lines, trimmed. */
  function CleanLines(lines: seq<string>): seq<string>
  {
    if lines == [] then [] else CleanLines(lines[..|lines| - 1]) + Cleaned(lines[|lines| - 1])
  }

  /** How many lines close a statement. */
  function Terminators(lines: seq<string>): nat
  {
    if lines == [] then 0
    else Terminators(lines[..|lines| - 1]) + (if EndsStatement(Trim(lines[|lines| - 1])) then 1 else 0)
  }

  /** Complete statements: each trimmed and ending with ';'. */
  ghost predicate AllStatements(ts: seq<string>)
  {
    forall k :: 0 <= k < |ts| ==> Trimmed(ts[k]) && EndsStatement(ts[k])
  }

  /** Lines of an open statement: each trimmed and not ending with ';'. */
  ghost predicate AllOpenLines(ts: seq<string>)
  {
    forall k :: 0 <= k < |ts| ==> Trimmed(ts[k]) && !EndsStatement(ts[k])
  }

  /** Whether the reader's state is one it can reach. */
  ghost predicate WellFormedScan(s: Scan)
  {
    AllStatements(s.statements) && AllOpenLines(s.pending)
  }

  lemma AllStatementsSnoc(ts: seq<string>, t: string)
    requires AllStatements(ts) && Trimmed(t) && EndsStatement(t)
    ensures AllStatements(ts + [t])
  {
    var r := ts + [t];
    assert forall k :: 0 <= k < |r| ==> r[k] == if k < |ts| then ts[k] else t;
  }

  lemma AllOpenLinesSnoc(ts: seq<string>, t: string)
    requires AllOpenLines(ts) && Trimmed(t) && !EndsStatement(t)
    ensures AllOpenLines(ts + [t])
  {
    var r := ts + [t];
    assert forall k :: 0 <= k < |r| ==> r[k] == if k < |ts| then ts[k] else t;
  }

  /** The lines of a statement about to close are all trimmed. */
  lemma ClosingLinesTrimmed(ts: seq<string>, t: string)
    requires AllOpenLines(ts) && Trimmed(t)
    ensures forall k :: 0 <= k < |ts + [t]| ==> Trimmed((ts + [t])[k])
  {
    var r := ts + [t];
    assert forall k :: 0 <= k < |r| ==> r[k] == if k < |ts| then ts[k] else t;
  }

  /**
   * Every statement is trimmed and ends with ';'; the open statement holds
   * only trimmed lines that do not; there is one statement per closing line.
   */
  lemma {:induction false} ScanLinesInvariant(lines: seq<string>)
    ensures WellFormedScan(ScanLines(lines))
    ensures |ScanLines(lines).statements| == Terminators(lines)
  {
    if lines != [] {
      var init := lines[..|lines| - 1];
      ScanLinesInvariant(init);
      ScanLineInvariant(ScanLines(init), lines[|lines| - 1]);
    }
  }

  /** One line keeps the reader's state well formed, and adds a statement exactly when it closes one. */
  lemma ScanLineInvariant(s: Scan, raw: string)
    requires WellFormedScan(s)
    ensures WellFormedScan(ScanLine(s, raw))
    ensures |ScanLine(s, raw).statements| == |s.statements| + (if EndsStatement(Trim(raw)) then 1 else 0)
  {
    var line := Trim(raw);
    if line != "" {
      if EndsStatement(line) {
        ClosingLinesTrimmed(s.pending, line);
        JoinTrimmed(s.pending + [line]);
        AllStatementsSnoc(s.statements, Join(s.pending + [line], " "));
      } else {
        AllOpenLinesSnoc(s.pending, line);
      }
    }
  }

  /**
   * What reading line `i` does to the builder and to the statements: a blank
   * line changes nothing, another line is appended with a space, and a line
   * ending with ';' cuts the trimmed builder as a statement and empties it.
   */
  lemma ReadLine(lines: seq<string>, i: nat)
    requires i < |lines|
    ensures var s, s', line := ScanLines(lines[..i]), ScanLines(lines[..i + 1]), Trim(lines[i]);
      && (line == "" ==> s' == s)
      && (line != "" && !EndsStatement(line) ==>
            s'.statements == s.statements && Built(s'.pending) == Built(s.pending) + line + " ")
      && (line != "" && EndsStatement(line) ==>
            s'.pending == [] && s'.statements == s.statements + [Trim(Built(s.pending) + line + " ")])
  {
    var s := ScanLines(lines[..i]);
    var line := Trim(lines[i]);
    ScanLinesInvariant(lines[..i]);
    ScanLinesStep(lines, i);
    if line != "" {
      BuiltSnoc(s.pending, line);
      if EndsStatement(line) {
        ClosingLinesTrimmed(s.pending, line);
        QueryText(s.pending, line);
      }
    }
  }

  /** Reading every line of the file. */
  lemma ScanWholeFile(lines: seq<string>)
    ensures Statements(lines[..|lines|]) == Statements(lines)
  {
    assert lines[..|lines|] == lines;
  }

  /** Reading one more line of the file is one more step of the reader. */
  lemma ScanLinesStep(lines: seq<string>, i: nat)
    requires i < |lines|
    ensures ScanLines(lines[..i + 1]) == ScanLine(ScanLines(lines[..i]), lines[i])
  {
    assert lines[..i + 1][..i] == lines[..i];
  }

  /**
   * Nothing is lost or reordered: the statements, then the open lines,
   * joined by single spaces, are the clean lines joined by single spaces
   * (and there are some exactly when the file has a non-blank line).
   */
  lemma {:induction false} ScanLinesKeepsText(lines: seq<string>)
    ensures Join(ScanLines(lines).statements + ScanLines(lines).pending, " ") == Join(CleanLines(lines), " ")
    ensures ScanLines(lines).statements + ScanLines(lines).pending == [] <==> CleanLines(lines) == []
  {
    if lines != [] {
      var init, raw := lines[..|lines| - 1], lines[|lines| - 1];
      ScanLinesKeepsText(init);
      var s := ScanLines(init);
      ScanLineKeepsText(s, raw);
      JoinAppendSame(s.statements + s.pending, CleanLines(init), Cleaned(raw));
    }
  }

  /** One line keeps the text of the reader's state in step with the clean lines. */
  lemma ScanLineKeepsText(s: Scan, raw: string)
    ensures Join(ScanLine(s, raw).statements + ScanLine(s, raw).pending, " ") == Join(s.statements + s.pending + Cleaned(raw), " ")
    ensures ScanLine(s, raw).statements + ScanLine(s, raw).pending == [] <==> s.statements + s.pending + Cleaned(raw) == []
  {
    var line := Trim(raw);
    if line == "" {
      assert s.statements + s.pending + [] == s.statements + s.pending;
    } else if EndsStatement(line) {
      JoinCollapse(s.statements, s.pending + [line]);
      assert s.statements + [Join(s.pending + [line], " ")] + [] == s.statements + [Join(s.pending + [line], " ")];
      assert s.statements + (s.pending + [line]) == s.statements + s.pending + [line];
    } else {
      assert s.statements + (s.pending + [line]) == s.statements + s.pending + [line];
    }
  }

  /** Two word lists with the same non-empty-or-empty join stay alike when the same words follow. */
  lemma JoinAppendSame(x: seq<string>, y: seq<string>, c: seq<string>)
    requires Join(x, " ") == Join(y, " ") && (x == [] <==> y == [])
    requires |c| <= 1
    ensures Join(x + c, " ") == Join(y + c, " ")
  {
    if c == [] {
      assert x + c == x && y + c == y;
    } else {
      JoinSnoc(x, c[0], " ");
      JoinSnoc(y, c[0], " ");
      assert c == [c[0]];
    }
  }

  /** Joining a group first and then the rest gives the same text as joining everything. */
  lemma {:induction false} JoinCollapse(a: seq<string>, g: seq<string>)
    requires g != []
    ensures Join(a + [Join(g, " ")], " ") == Join(a + g, " ")
    decreases |g|
  {
    if |g| == 1 {
      assert [Join(g, " ")] == g;
    } else if a == [] {
      assert a + [Join(g, " ")] == [Join(g, " ")];
      assert a + g == g;
    } else {
      var init, w := g[..|g| - 1], g[|g| - 1];
      assert g == init + [w];
      assert a + g == (a + init) + [w];
      JoinCollapse(a, init);
      JoinSnoc(a, Join(g, " "), " ");
      JoinSnoc(init, w, " ");
      JoinSnoc(a, Join(init, " "), " ");
      JoinSnoc(a + init, w, " ");
      ConcatAssoc(Join(a, " "), Join(init, " "), w);
    }
  }

  lemma ConcatAssoc(x: string, y: string, w: string)
    ensures x + " " + (y + " " + w) == (x + " " + y) + " " + w
  {
  }

  /** Lines after the last ';' never reach the database, whatever they hold. */
  lemma {:induction false} UnterminatedTailIgnored(lines: seq<string>, tail: seq<string>)
    requires forall k :: 0 <= k < |tail| ==> !EndsStatement(Trim(tail[k]))
    ensures Statements(lines + tail) == Statements(lines)
    decreases |tail|
  {
    if tail == [] {
      assert lines + tail == lines;
    } else {
      var n := |tail|;
      assert (lines + tail)[..|lines + tail| - 1] == lines + tail[..n - 1];
      UnterminatedTailIgnored(lines, tail[..n - 1]);
    }
  }

  // ---------------------------------------------------------------------
  // repopulateDB
  // ---------------------------------------------------------------------

  /**
   * The reading and batching loop of repopulateDB: the batches executed,
   * in order, cut the file's statements into pieces of BATCH_SIZE, and
   * every statement sent is trimmed and ends with ';'.
   */
  method RepopulateDB(lines: seq<string>) returns (batches: seq<seq<string>>)
    ensures IsChunking(batches, Statements(lines), BATCH_SIZE)
    ensures forall b, k :: 0 <= b < |batches| && 0 <= k < |batches[b]| ==>
      Trimmed(batches[b][k]) && EndsStatement(batches[b][k])
  {
    batches := [];
    var batch: seq<string> := [];
    var queryBuilder := "";
    var batchCount := 0;

    for i := 0 to |lines|
      invariant queryBuilder == Built(ScanLines(lines[..i]).pending)
      invariant Filling(batches, batch, Statements(lines[..i]), BATCH_SIZE)
      invariant batchCount == |batch|
    {
      ghost var s := ScanLines(lines[..i]);
      ReadLine(lines, i);
      var line := Trim(lines[i]);
      if line != "" {
        queryBuilder := queryBuilder + line + " ";
        if line[|line| - 1] == ';' {
          var query := Trim(queryBuilder);
          queryBuilder := "";
          ghost var before := batch;
          batch := batch + [query];
          batchCount := batchCount + 1;
          if batchCount >= BATCH_SIZE {
            FillingFlush(batches, before, s.statements, BATCH_SIZE, query);
            batches := batches + [batch];
            batch := [];
            batchCount := 0;
          } else {
            FillingAdd(batches, before, s.statements, BATCH_SIZE, query);
          }
        }
      }
    }
    ScanWholeFile(lines);
    FillingDone(batches, batch, Statements(lines), BATCH_SIZE);
    if batchCount > 0 {
      batches := batches + [batch];
    }
    StatementsSent(lines, batches);
  }

  /** Whatever way the statements are batched, each one sent is trimmed and ends with ';'. */
  lemma StatementsSent(lines: seq<string>, batches: seq<seq<string>>)
    requires Flatten(batches) == Statements(lines)
    ensures forall b, k :: 0 <= b < |batches| && 0 <= k < |batches[b]| ==>
      Trimmed(batches[b][k]) && EndsStatement(batches[b][k])
  {
    ScanLinesInvariant(lines);
    forall b, k | 0 <= b < |batches| && 0 <= k < |batches[b]|
      ensures Trimmed(batches[b][k]) && EndsStatement(batches[b][k])
    {
      FlattenElement(batches, b, k);
    }
  }
}
