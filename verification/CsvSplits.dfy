/** When the older line-at-a-time reader agrees with the one-pass parser, exactly: the parser keeps
    the quoted line ends as data and drops the others; the line reader keeps every CR and no LF. */
module CsvSplits {
  import opened Prelude
  import opened CsvParser
  import opened CsvLaws
  import opened CsvLines

  function Count(ch: char, s: string): nat {
    if s == "" then 0 else Count(ch, s[..|s| - 1]) + if s[|s| - 1] == ch then 1 else 0
  }

  function CountRow(ch: char, row: Row): nat {
    if row == [] then 0 else CountRow(ch, row[..|row| - 1]) + Count(ch, row[|row| - 1])
  }

  function CountRows(ch: char, rows: seq<Row>): nat {
    if rows == [] then 0 else CountRows(ch, rows[..|rows| - 1]) + CountRow(ch, rows[|rows| - 1])
  }

  function CountLines(ch: char, lines: seq<string>): nat {
    CountRow(ch, lines)
  }

  /** The occurrences inside quotes. */
  function Quoted(ch: char, s: string): nat {
    if s == "" then 0
    else
      var p := s[..|s| - 1];
      Quoted(ch, p) + if s[|s| - 1] == ch && !Balanced(p) then 1 else 0
  }

  lemma CountSnoc(ch: char, s: string, c: char)
    ensures Count(ch, s + [c]) == Count(ch, s) + if c == ch then 1 else 0
  {
    assert (s + [c])[..|s|] == s;
  }

  lemma RowSnoc(ch: char, row: Row, cell: string)
    ensures CountRow(ch, row + [cell]) == CountRow(ch, row) + Count(ch, cell)
  {
    assert (row + [cell])[..|row|] == row;
  }

  lemma RowsSnoc(ch: char, rows: seq<Row>, row: Row)
    ensures CountRows(ch, rows + [row]) == CountRows(ch, rows) + CountRow(ch, row)
  {
    assert (rows + [row])[..|rows|] == rows;
  }

  lemma {:induction false} BlankRowsCountNothing(ch: char, row: Row)
    requires AllBlank(row)
    ensures CountRow(ch, row) == 0
  {
    if row != [] {
      BlankRowsCountNothing(ch, row[..|row| - 1]);
    }
  }

  lemma KeptCounts(ch: char, rows: seq<Row>, row: Row)
    ensures CountRows(ch, rows + Kept(row)) == CountRows(ch, rows) + CountRow(ch, row)
  {
    if AllBlank(row) {
      BlankRowsCountNothing(ch, row);
      assert rows + [] == rows;
    } else {
      RowsSnoc(ch, rows, row);
    }
  }

  lemma {:induction false} NonBlankCounts(ch: char, rows: seq<Row>)
    ensures CountRows(ch, NonBlank(rows)) == CountRows(ch, rows)
  {
    if rows != [] {
      NonBlankCounts(ch, rows[..|rows| - 1]);
      KeptCounts(ch, NonBlank(rows[..|rows| - 1]), rows[|rows| - 1]);
    }
  }

  // ---------- What each reader keeps ----------

  function CountMachine(ch: char, m: Machine): nat {
    CountRows(ch, m.rows) + CountRow(ch, m.row) + Count(ch, m.cell)
  }

  lemma StepCounts(ch: char, m: Machine, c: char)
    requires IsEol(ch)
    ensures CountMachine(ch, Step(m, c)) == CountMachine(ch, m) + if c == ch && m.quoted then 1 else 0
  {
    if c == QUOTE {
      CountSnoc(ch, m.cell, QUOTE);
    } else if c == COMMA && !m.quoted {
      RowSnoc(ch, m.row, m.cell);
    } else if IsEol(c) && !m.quoted {
      EndRowCounts(ch, m);
    } else {
      CountSnoc(ch, m.cell, c);
    }
  }

  lemma EndRowCounts(ch: char, m: Machine)
    ensures CountMachine(ch, EndRow(m)) == CountMachine(ch, m)
  {
    RowSnoc(ch, m.row, m.cell);
    KeptCounts(ch, m.rows, m.row + [m.cell]);
  }

  /** The parser keeps exactly the quoted line ends. */
  lemma {:induction false} ParserKeepsQuoted(ch: char, s: string)
    requires IsEol(ch)
    ensures CountMachine(ch, Run(START, s)) == Quoted(ch, s)
  {
    if s != "" {
      var p := s[..|s| - 1];
      ParserKeepsQuoted(ch, p);
      QuoteFlagIsParity(p);
      StepCounts(ch, Run(START, p), s[|s| - 1]);
    }
  }

  lemma ParsedCounts(ch: char, s: string)
    requires IsEol(ch) && Parse(s).Ok?
    ensures CountRows(ch, Parse(s).value) == Quoted(ch, s)
  {
    ParserKeepsQuoted(ch, s);
    EndRowCounts(ch, Run(START, s));
  }

  lemma LineStepCounts(ch: char, m: LineMachine, c: char)
    requires IsEol(ch)
    ensures var n := LineStep(m, c);
            CountRow(ch, n.out) + Count(ch, n.cur)
            == CountRow(ch, m.out) + Count(ch, m.cur) + if c == ch then 1 else 0
  {
    CountSnoc(ch, m.cur, c);
    CountSnoc(ch, m.cur, QUOTE);
    RowSnoc(ch, m.out, m.cur);
  }

  /** The line reader keeps every line end that is left in its line. */
  lemma {:induction false} LineReaderKeepsAll(ch: char, line: string)
    requires IsEol(ch)
    ensures CountRow(ch, LineCells(line)) == Count(ch, line)
  {
    var m := RunLine(line);
    RowSnoc(ch, m.out, m.cur);
    if line != "" {
      var p := line[..|line| - 1];
      LineReaderKeepsAll(ch, p);
      RowSnoc(ch, RunLine(p).out, RunLine(p).cur);
      LineStepCounts(ch, RunLine(p), line[|line| - 1]);
    }
  }

  lemma {:induction false} CellsKeepAll(ch: char, lines: seq<string>)
    requires IsEol(ch)
    ensures CountRows(ch, CellsOfLines(lines)) == CountLines(ch, lines)
  {
    if lines != [] {
      var init, last := lines[..|lines| - 1], lines[|lines| - 1];
      CellsKeepAll(ch, init);
      CellsOfLastLine(init, last);
      assert lines == init + [last];
      RowsSnoc(ch, CellsOfLines(init), LineCells(last));
      LineReaderKeepsAll(ch, last);
    }
  }

  lemma LinesKeepAll(ch: char, lines: seq<string>)
    requires IsEol(ch)
    ensures CountRows(ch, NonBlank(CellsOfLines(lines))) == CountLines(ch, lines)
  {
    CellsKeepAll(ch, lines);
    NonBlankCounts(ch, CellsOfLines(lines));
  }

  // ---------- Counting through a text ----------

  /** Quoted occurrences after a balanced text are those of the rest. */
  lemma {:induction false} QuotedAfterBalanced(ch: char, a: string, b: string)
    requires Balanced(a)
    ensures Quoted(ch, a + b) == Quoted(ch, a) + Quoted(ch, b)
  {
    if b == "" {
      assert a + b == a;
    } else {
      var p := b[..|b| - 1];
      QuotedAfterBalanced(ch, a, p);
      BalancedConcat(a, p);
      assert (a + b)[..|a + b| - 1] == a + p;
    }
  }

  lemma {:induction false} QuotedAtLeast(ch: char, s: string, k: nat)
    requires k < |s| && s[k] == ch && !Balanced(s[..k])
    ensures Quoted(ch, s) > 0
  {
    var n := |s| - 1;
    if k < n {
      assert s[..n][..k] == s[..k];
      QuotedAtLeast(ch, s[..n], k);
    }
  }

  /** All CRs of a line are quoted exactly when as many are quoted as there are. */
  lemma {:induction false} CrsQuotedIffAllCounted(line: string)
    ensures Quoted(CR, line) <= Count(CR, line)
    ensures Quoted(CR, line) == Count(CR, line) <==> CrsQuoted(line)
  {
    if line != "" {
      var n := |line| - 1;
      CrsQuotedIffAllCounted(line[..n]);
      forall k | 0 <= k < n ensures line[..n][..k] == line[..k] && line[..n][k] == line[k] {
      }
      if CrsQuoted(line[..n]) && (line[n] == CR ==> !Balanced(line[..n])) {
        forall k | 0 <= k < |line| && line[k] == CR ensures !Balanced(line[..k]) {
          if k < n {
            assert line[..n][k] == CR && line[..n][..k] == line[..k];
          }
        }
      }
      if CrsQuoted(line) {
        forall k | 0 <= k < n && line[..n][k] == CR ensures !Balanced(line[..n][..k]) {
          assert line[k] == CR && line[..n][..k] == line[..k];
        }
      }
    }
  }

  lemma {:induction false} CountNone(ch: char, s: string)
    requires ch !in s
    ensures Count(ch, s) == 0
  {
    if s != "" {
      CountNone(ch, s[..|s| - 1]);
    }
  }

  lemma {:induction false} LinesHoldNoLf(lines: seq<string>)
    requires forall k :: 0 <= k < |lines| ==> LF !in lines[k]
    ensures CountLines(LF, lines) == 0
  {
    if lines != [] {
      LinesHoldNoLf(lines[..|lines| - 1]);
      CountNone(LF, lines[|lines| - 1]);
    }
  }

  lemma {:induction false} CountLinesCons(ch: char, line: string, rest: seq<string>)
    ensures CountLines(ch, [line] + rest) == Count(ch, line) + CountLines(ch, rest)
  {
    if rest == [] {
      assert [line] + rest == [line] && [line][..0] == [];
    } else {
      var n := |rest| - 1;
      CountLinesCons(ch, line, rest[..n]);
      assert ([line] + rest)[..|rest|] == [line] + rest[..n];
    }
  }

  lemma EolIsUnquoted(ch: char, eol: Eol)
    ensures Quoted(ch, EolText(eol)) == 0 && Balanced(EolText(eol))
  {
    assert [LF][..0] == "" && Quoted(ch, [LF]) == 0 && Quotes([LF]) == 0;
    assert [CR][..0] == "" && Quoted(ch, [CR]) == 0 && Quotes([CR]) == 0;
    assert [CR, LF][..1] == [CR];
  }

  /** The first LF stands outside quotes, so the line before it is balanced. */
  lemma FirstLineIsBalanced(s: string)
    requires IndexOf(LF, s) < |s| && Quoted(LF, s) == 0
    ensures Balanced(DropTrailingCr(s[..IndexOf(LF, s)]))
  {
    var i := IndexOf(LF, s);
    if !Balanced(s[..i]) {
      QuotedAtLeast(LF, s, i);
    }
    var line := DropTrailingCr(s[..i]);
    if line != s[..i] {
      assert s[..i] == line + [CR];
      QuotesConcat(line, [CR]);
      assert [CR][..0] == "";
    }
  }

  lemma BalancedConcat(a: string, b: string)
    requires Balanced(a)
    ensures Balanced(a + b) <==> Balanced(b)
  {
    QuotesConcat(a, b);
  }

  lemma CountsAround(ch: char, line: string, middle: string, rest: string)
    requires Balanced(line) && Balanced(middle) && Quoted(ch, middle) == 0
    ensures Quoted(ch, line + middle + rest) == Quoted(ch, line) + Quoted(ch, rest)
    ensures Balanced(line + middle + rest) <==> Balanced(rest)
  {
    var head := line + middle;
    BalancedConcat(line, middle);
    BalancedConcat(head, rest);
    QuotedAfterBalanced(ch, line, middle);
    QuotedAfterBalanced(ch, head, rest);
  }

  lemma FirstLineCounts(ch: char, s: string)
    requires IndexOf(LF, s) < |s| && Quoted(LF, s) == 0
    ensures var i := IndexOf(LF, s);
            && Quoted(ch, s) == Quoted(ch, DropTrailingCr(s[..i])) + Quoted(ch, s[i + 1..])
            && (Balanced(s) <==> Balanced(s[i + 1..]))
  {
    var i := IndexOf(LF, s);
    PhysicalSplit(s);
    FirstLineIsBalanced(s);
    EolIsUnquoted(ch, FirstEol(s));
    CountsAround(ch, DropTrailingCr(s[..i]), EolText(FirstEol(s)), s[i + 1..]);
  }

  /** If no LF is quoted, the lines hold at least the quoted CRs, and no others exactly when the
      text is splittable. */
  lemma {:induction false} SplittableIffCrsCounted(s: string)
    requires Balanced(s) && Quoted(LF, s) == 0
    ensures Quoted(CR, s) <= CountLines(CR, PhysicalLines(s))
    ensures Quoted(CR, s) == CountLines(CR, PhysicalLines(s)) <==> Splittable(s)
    decreases |s|
  {
    var i := IndexOf(LF, s);
    if i == |s| {
      CrsQuotedIffAllCounted(s);
      CountLinesCons(CR, s, []);
      assert [s] + [] == [s];
    } else {
      var line, rest := DropTrailingCr(s[..i]), s[i + 1..];
      FirstLineIsBalanced(s);
      FirstLineCounts(CR, s);
      FirstLineCounts(LF, s);
      SplittableIffCrsCounted(rest);
      CrsQuotedIffAllCounted(line);
      CountLinesCons(CR, line, PhysicalLines(rest));
      SplittableCons(s, line, rest);
    }
  }

  // ---------- The refinement with its exact condition ----------

  /** Parser refinement: splitting at line ends, reading each line and dropping the all-blank rows
      gives what the one-pass parser gives exactly on the splittable texts. */
  lemma {:induction false} ParserRefinesLineReaderIff(s: string)
    ensures Parse(s) == Ok(NonBlank(CellsOfLines(PhysicalLines(s)))) <==> Splittable(s)
  {
    if Splittable(s) {
      SplittableTextAgrees(s);
    }
    if Parse(s) == Ok(NonBlank(CellsOfLines(PhysicalLines(s)))) {
      var lines := PhysicalLines(s);
      ParseFailsIffOdd(s);
      ParsedCounts(LF, s);
      ParsedCounts(CR, s);
      LinesKeepAll(LF, lines);
      LinesKeepAll(CR, lines);
      PhysicalLinesHaveNoLf(s);
      LinesHoldNoLf(lines);
      SplittableIffCrsCounted(s);
    }
  }

  lemma {:induction false} CellCounts(ch: char, cell: string)
    requires ch in cell
    ensures Count(ch, cell) > 0
  {
    var n := |cell| - 1;
    if cell[n] != ch {
      CellCounts(ch, cell[..n]);
    }
  }

  lemma {:induction false} RowCounts(ch: char, row: Row, j: nat)
    requires j < |row| && ch in row[j]
    ensures CountRow(ch, row) > 0
  {
    var n := |row| - 1;
    if j < n {
      RowCounts(ch, row[..n], j);
    } else {
      CellCounts(ch, row[n]);
    }
  }

  lemma {:induction false} RowsCount(ch: char, rows: seq<Row>, i: nat, j: nat)
    requires i < |rows| && j < |rows[i]| && ch in rows[i][j]
    ensures CountRows(ch, rows) > 0
  {
    var n := |rows| - 1;
    if i < n {
      RowsCount(ch, rows[..n], i, j);
    } else {
      RowCounts(ch, rows[n], j);
    }
  }

  /** An LF inside quotes is data to the parser; the line reader never returns one. */
  lemma {:induction false} QuotedLfSeparatesTheReaders(raw: string, rows: seq<Row>, i: nat, j: nat)
    requires Parse(raw) == Ok(rows)
    requires i < |rows| && j < |rows[i]| && LF in rows[i][j]
    ensures NonBlank(CellsOfLines(PhysicalLines(raw))) != rows
    ensures !Splittable(raw)
  {
    var lines := PhysicalLines(raw);
    RowsCount(LF, rows, i, j);
    LinesKeepAll(LF, lines);
    PhysicalLinesHaveNoLf(raw);
    LinesHoldNoLf(lines);
    ParserRefinesLineReaderIff(raw);
  }

  /** A CR outside quotes, after a first line without LF, cuts a row for the parser and is data to
      the line reader, whatever follows on the line. */
  lemma {:induction false} UnquotedCrSeparatesTheReaders(a: string, b: string)
    requires Balanced(a) && LF !in a && LF !in b
    ensures Parse(a + [CR] + b) != Ok(NonBlank(CellsOfLines(PhysicalLines(a + [CR] + b))))
  {
    var s := a + [CR] + b;
    assert LF !in s;
    assert PhysicalLines(s) == [s];
    assert s[|a|] == CR && s[..|a|] == a;
    assert !CrsQuoted(s);
    assert !WholeLine(PhysicalLines(s)[0]);
    ParserRefinesLineReaderIff(s);
  }

  /** A lone CR between two lines makes two rows for the parser and one for the line reader. */
  lemma {:induction false} LoneCrSeparatesTheReaders(a: string, b: string)
    requires NoEol(a) && Balanced(a) && !AllBlank(LineCells(a))
    requires NoEol(b) && Balanced(b) && !AllBlank(LineCells(b))
    ensures Parse(a + [CR] + b) == Ok([LineCells(a), LineCells(b)])
    ensures |CellsOfLines(PhysicalLines(a + [CR] + b))| == 1
  {
    SingleLineAgreement(a);
    SingleLineAgreement(b);
    var x, y := LineCells(a), LineCells(b);
    NonBlankIsIdentity([x]);
    NonBlankIsIdentity([y]);
    Compositionality(a, Cr, b);
    assert EolText(Cr) == [CR];
    assert [x] + [y] == [x, y];
    NoLfAround(a, b);
  }

  lemma NoLfAround(a: string, b: string)
    requires NoEol(a) && NoEol(b)
    ensures PhysicalLines(a + [CR] + b) == [a + [CR] + b]
  {
    var s := a + [CR] + b;
    forall k | 0 <= k < |s| ensures s[k] != LF {
      assert k < |a| ==> !IsEol(s[k]);
      assert k > |a| ==> s[k] == b[k - |a| - 1];
    }
  }

  /** A CR inside quotes on one line is no obstacle. */
  lemma {:induction false} QuotedCrIsRead(before: string, after: string)
    requires NoEol(before) && NoEol(after) && !Balanced(before) && !Balanced(after)
    ensures var s := before + [CR] + after; Parse(s) == Ok(NonBlank([LineCells(s)]))
  {
    var s := before + [CR] + after;
    forall k | 0 <= k < |s| && k != |before| ensures !IsEol(s[k]) {
      assert s[k] == if k < |before| then before[k] else after[k - |before| - 1];
    }
    assert s[..|before|] == before;
    QuotesConcat(before + [CR], after);
    QuotesConcat(before, [CR]);
    assert [CR][..0] == "";
    SingleLineAgreement(s);
  }
}
