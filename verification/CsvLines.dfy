/** The older line-at-a-time reader, and how the one-pass parser relates to it. */
module CsvLines {
  import opened Prelude
  import opened CsvParser
  import opened CsvLaws

  /** The line reader: like the parser, but a line end is an ordinary character. */
  datatype LineMachine = LineMachine(out: Row, cur: string, quoted: bool, closed: bool)

  function LineStep(m: LineMachine, ch: char): LineMachine {
    if ch == QUOTE then
      if m.quoted then m.(quoted := false, closed := true)
      else if m.closed then m.(cur := m.cur + [QUOTE], quoted := true, closed := false)
      else m.(quoted := true)
    else if ch == COMMA && !m.quoted then
      m.(out := m.out + [m.cur], cur := "", closed := false)
    else
      m.(cur := m.cur + [ch], closed := false)
  }

  function RunLine(s: string): LineMachine {
    if s == "" then LineMachine([], "", false, false) else LineStep(RunLine(s[..|s| - 1]), s[|s| - 1])
  }

  /** The cells of a line; an open quote at the end of the line is tolerated. */
  function LineCells(line: string): Row {
    RunLine(line).out + [RunLine(line).cur]
  }

  lemma RunLineNext(line: string, i: nat)
    requires i < |line|
    ensures RunLine(line[..i + 1]) == LineStep(RunLine(line[..i]), line[i])
    ensures i + 1 < |line| ==>
              RunLine(line[..i + 2]) == LineStep(LineStep(RunLine(line[..i]), line[i]), line[i + 1])
  {
    assert line[..i + 1][..i] == line[..i];
    if i + 1 < |line| {
      assert line[..i + 2][..i + 1] == line[..i + 1];
    }
  }

  method ParseCsvLine(line: string) returns (out: Row)
    ensures out == LineCells(line)
  {
    out := [];
    var cur := "";
    var quoted := false;
    ghost var closed := false;
    var i := 0;
    while i < |line|
      invariant 0 <= i <= |line|
      invariant RunLine(line[..i]) == LineMachine(out, cur, quoted, closed)
      invariant closed ==> !quoted && (i == |line| || line[i] != QUOTE)
    {
      var ch := line[i];
      RunLineNext(line, i);
      if ch == QUOTE {
        if quoted && i + 1 < |line| && line[i + 1] == QUOTE {
          cur := cur + [QUOTE];
          i := i + 1;
          closed := false;
        } else {
          closed := quoted;
          quoted := !quoted;
        }
      } else if ch == COMMA && !quoted {
        out := out + [cur];
        cur := "";
        closed := false;
      } else {
        cur := cur + [ch];
        closed := false;
      }
      i := i + 1;
    }
    assert line[..|line|] == line;
    out := out + [cur];
  }

  function CellsOfLines(lines: seq<string>): seq<Row> {
    seq(|lines|, i requires 0 <= i < |lines| => LineCells(lines[i]))
  }

  lemma CellsOfLastLine(lines: seq<string>, last: string)
    ensures CellsOfLines(lines + [last]) == CellsOfLines(lines) + [LineCells(last)]
  {
    var all := lines + [last];
    forall k | 0 <= k < |all| ensures CellsOfLines(all)[k] == (CellsOfLines(lines) + [LineCells(last)])[k] {
      assert all[k] == if k < |lines| then lines[k] else last;
    }
  }

  lemma CellsOfLinesSnoc(lines: seq<string>, line: string)
    ensures NonBlank(CellsOfLines(lines + [line])) == NonBlank(CellsOfLines(lines)) + Kept(LineCells(line))
  {
    var all := CellsOfLines(lines + [line]);
    assert all[..|all| - 1] == CellsOfLines(lines);
  }

  // ---------- Every text: split where the quote count is even ----------

  /** The text cut at each CR or LF that has an even number of quotes before it. */
  function LogicalLines(s: string): (lines: seq<string>)
    ensures lines != []
  {
    if s == "" then [""]
    else
      var p, ch := s[..|s| - 1], s[|s| - 1];
      var ls := LogicalLines(p);
      if IsEol(ch) && Balanced(p) then ls + [""]
      else ls[..|ls| - 1] + [ls[|ls| - 1] + [ch]]
  }

  /** The parser's state seen line by line: finished lines are its rows, the open line is its
      open row and cell. */
  ghost predicate LineByLine(m: Machine, ls: seq<string>)
    requires ls != []
  {
    && m.rows == NonBlank(CellsOfLines(ls[..|ls| - 1]))
    && RunLine(ls[|ls| - 1]) == LineMachine(m.row, m.cell, m.quoted, m.closed)
  }

  lemma LineByLineCut(m: Machine, ls: seq<string>)
    requires ls != [] && LineByLine(m, ls)
    ensures LineByLine(EndRow(m), ls + [""])
  {
    var init, last := ls[..|ls| - 1], ls[|ls| - 1];
    assert (ls + [""])[..|ls|] == ls == init + [last];
    CellsOfLinesSnoc(init, last);
  }

  /** Away from an unquoted line end the two machines move in step. */
  lemma MachinesMoveInStep(m: Machine, last: string, ch: char)
    requires RunLine(last) == LineMachine(m.row, m.cell, m.quoted, m.closed)
    requires !IsEol(ch) || m.quoted
    ensures var n := Step(m, ch);
            n.rows == m.rows && RunLine(last + [ch]) == LineMachine(n.row, n.cell, n.quoted, n.closed)
  {
    assert (last + [ch])[..|last|] == last;
  }

  lemma LineByLineGrow(m: Machine, init: seq<string>, last: string, ch: char)
    requires LineByLine(m, init + [last])
    requires !IsEol(ch) || m.quoted
    ensures LineByLine(Step(m, ch), init + [last + [ch]])
  {
    assert (init + [last])[..|init|] == init;
    assert (init + [last + [ch]])[..|init|] == init;
    MachinesMoveInStep(m, last, ch);
  }

  lemma {:induction false} RunIsLineByLine(s: string)
    ensures LineByLine(Run(START, s), LogicalLines(s))
  {
    if s == "" {
      assert CellsOfLines([]) == [];
    } else {
      var p, ch := s[..|s| - 1], s[|s| - 1];
      RunIsLineByLine(p);
      QuoteFlagIsParity(p);
      if IsEol(ch) && Balanced(p) {
        LineByLineCut(Run(START, p), LogicalLines(p));
      } else {
        var ls := LogicalLines(p);
        assert ls == ls[..|ls| - 1] + [ls[|ls| - 1]];
        LineByLineGrow(Run(START, p), ls[..|ls| - 1], ls[|ls| - 1], ch);
      }
    }
  }

  lemma FinishLineByLine(m: Machine, init: seq<string>, last: string)
    requires !m.quoted && LineByLine(m, init + [last])
    ensures Finish(m) == Ok(NonBlank(CellsOfLines(init + [last])))
  {
    assert (init + [last])[..|init|] == init;
    CellsOfLinesSnoc(init, last);
    assert [] + [""] == [""] && AllBlank([""]) && m.rows + [] == m.rows;
  }

  /** On every accepted text the parser is the line reader applied to the logical lines,
      less the all-blank rows. */
  lemma {:induction false} ParserIsLineReaderOnLogicalLines(raw: string)
    requires Balanced(raw)
    ensures Parse(raw) == Ok(NonBlank(CellsOfLines(LogicalLines(raw))))
  {
    var ls := LogicalLines(raw);
    QuoteFlagIsParity(raw);
    RunIsLineByLine(raw);
    assert ls == ls[..|ls| - 1] + [ls[|ls| - 1]];
    FinishLineByLine(Run(START, raw), ls[..|ls| - 1], ls[|ls| - 1]);
  }

  // ---------- Physical lines: what the older reader splits at ----------

  predicate NoEol(s: string) {
    forall i :: 0 <= i < |s| ==> !IsEol(s[i])
  }

  /** Every line end in the text stands inside quotes. */
  predicate EolsQuoted(s: string) {
    forall k :: 0 <= k < |s| && IsEol(s[k]) ==> !Balanced(s[..k])
  }

  /** Without a line end outside quotes the text is one line. */
  lemma {:induction false} OneLogicalLine(line: string)
    requires EolsQuoted(line)
    ensures LogicalLines(line) == [line]
  {
    if line != "" {
      var n := |line| - 1;
      forall k | 0 <= k < n && IsEol(line[..n][k]) ensures !Balanced(line[..n][..k]) {
        assert line[..n][..k] == line[..k];
      }
      OneLogicalLine(line[..n]);
      assert line[..n] + [line[n]] == line;
    }
  }

  /** A balanced line whose line ends are all quoted: the two readers agree cell for cell. */
  lemma {:induction false} SingleLineAgreement(line: string)
    requires EolsQuoted(line) && Balanced(line)
    ensures Parse(line) == Ok(NonBlank([LineCells(line)]))
  {
    OneLogicalLine(line);
    ParserIsLineReaderOnLogicalLines(line);
    assert CellsOfLines([line]) == [LineCells(line)];
  }

  lemma {:induction false} LineQuoteIsParity(line: string)
    ensures RunLine(line).quoted <==> !Balanced(line)
  {
    if line != "" {
      LineQuoteIsParity(line[..|line| - 1]);
    }
  }

  /** A line whose last quote is left open has the cells it would have if the quote were closed at
      its end, so what the parser reads on the closed line. */
  lemma {:induction false} OpenQuoteIsTolerated(line: string)
    requires !Balanced(line) && EolsQuoted(line + [QUOTE])
    ensures LineCells(line) == LineCells(line + [QUOTE])
    ensures Parse(line).Err? && Parse(line + [QUOTE]) == Ok(NonBlank([LineCells(line)]))
  {
    LineQuoteIsParity(line);
    ParseFailsIffOdd(line);
    assert (line + [QUOTE])[..|line|] == line;
    SingleLineAgreement(line + [QUOTE]);
  }

  function DropTrailingCr(line: string): string {
    if line != "" && line[|line| - 1] == CR then line[..|line| - 1] else line
  }

  /** The text split at every LF, together with one CR just before it. */
  function PhysicalLines(s: string): (lines: seq<string>)
    decreases |s|
    ensures lines != []
  {
    var i := IndexOf(LF, s);
    if i == |s| then [s]
    else [DropTrailingCr(s[..i])] + PhysicalLines(s[i + 1..])
  }

  /** Every CR in the line stands inside quotes. */
  predicate CrsQuoted(line: string) {
    forall k :: 0 <= k < |line| && line[k] == CR ==> !Balanced(line[..k])
  }

  predicate WholeLine(line: string) {
    Balanced(line) && CrsQuoted(line)
  }

  /** What the older reader needs of its input: no quoted cell crosses an LF, and a CR that is not
      part of a line end is quoted. */
  predicate Splittable(s: string) {
    WholeLines(PhysicalLines(s))
  }

  predicate WholeLines(lines: seq<string>) {
    forall i :: 0 <= i < |lines| ==> WholeLine(lines[i])
  }

  function FirstEol(s: string): Eol
    requires IndexOf(LF, s) < |s|
  {
    if DropTrailingCr(s[..IndexOf(LF, s)]) == s[..IndexOf(LF, s)] then Lf else CrLf
  }

  lemma SplitAround(s: string, i: nat)
    requires i < |s|
    ensures s == s[..i] + [s[i]] + s[i + 1..]
  {
  }

  lemma PhysicalSplit(s: string)
    requires IndexOf(LF, s) < |s|
    ensures var i := IndexOf(LF, s);
            s == DropTrailingCr(s[..i]) + EolText(FirstEol(s)) + s[i + 1..]
  {
    var i := IndexOf(LF, s);
    SplitAround(s, i);
    CrBeforeLf(s[..i]);
  }

  lemma CrBeforeLf(head: string)
    ensures head + [LF] == DropTrailingCr(head) + EolText(if DropTrailingCr(head) == head then Lf else CrLf)
  {
  }

  lemma {:induction false} PhysicalLinesHaveNoLf(s: string)
    ensures forall k :: 0 <= k < |PhysicalLines(s)| ==> LF !in PhysicalLines(s)[k]
    decreases |s|
  {
    var i := IndexOf(LF, s);
    if i < |s| {
      PhysicalLinesHaveNoLf(s[i + 1..]);
    }
  }

  lemma WholeLinesCons(line: string, rest: seq<string>)
    ensures WholeLines([line] + rest) <==> WholeLine(line) && WholeLines(rest)
  {
    var lines := [line] + rest;
    if WholeLines(lines) {
      assert WholeLine(lines[0]);
      forall k | 0 <= k < |rest| ensures WholeLine(rest[k]) {
        assert rest[k] == lines[k + 1];
      }
    }
  }

  lemma SplittableCons(s: string, line: string, rest: string)
    requires PhysicalLines(s) == [line] + PhysicalLines(rest)
    ensures Splittable(s) <==> WholeLine(line) && Splittable(rest)
  {
    WholeLinesCons(line, PhysicalLines(rest));
  }

  lemma FirstPhysicalLine(s: string)
    requires Splittable(s)
    ensures var line := PhysicalLines(s)[0];
            Balanced(line) && Parse(line) == Ok(NonBlank([LineCells(line)]))
  {
    var line := PhysicalLines(s)[0];
    PhysicalLinesHaveNoLf(s);
    assert WholeLine(line) && LF !in line;
    SingleLineAgreement(line);
  }

  lemma {:induction false} CellsOfFirstLine(line: string, lines: seq<string>)
    ensures CellsOfLines([line] + lines) == [LineCells(line)] + CellsOfLines(lines)
  {
    var all := [line] + lines;
    forall k | 0 <= k < |all|
      ensures CellsOfLines(all)[k] == ([LineCells(line)] + CellsOfLines(lines))[k]
    {
      if k > 0 {
        assert all[k] == lines[k - 1];
      }
    }
  }

  lemma {:induction false} CellsOfLinesCons(line: string, lines: seq<string>)
    ensures NonBlank(CellsOfLines([line] + lines)) == NonBlank([LineCells(line)]) + NonBlank(CellsOfLines(lines))
  {
    CellsOfFirstLine(line, lines);
    NonBlankConcat([LineCells(line)], CellsOfLines(lines));
  }

  lemma PrependLine(line: string, eol: Eol, rest: string, lines: seq<string>)
    requires Balanced(line) && Parse(line) == Ok(NonBlank([LineCells(line)]))
    requires Parse(rest) == Ok(NonBlank(CellsOfLines(lines)))
    ensures Parse(line + EolText(eol) + rest) == Ok(NonBlank(CellsOfLines([line] + lines)))
  {
    Compositionality(line, eol, rest);
    CellsOfLinesCons(line, lines);
  }

  /** One half of the parser refinement: on splittable text, splitting at line ends, reading each
      line and dropping the all-blank rows gives what the one-pass parser gives. */
  lemma {:induction false} SplittableTextAgrees(s: string)
    requires Splittable(s)
    ensures Balanced(s)
    ensures Parse(s) == Ok(NonBlank(CellsOfLines(PhysicalLines(s))))
    decreases |s|
  {
    var i := IndexOf(LF, s);
    FirstPhysicalLine(s);
    if i == |s| {
      assert CellsOfLines([s]) == [LineCells(s)];
    } else {
      var line, rest := DropTrailingCr(s[..i]), s[i + 1..];
      PhysicalSplit(s);
      SplittableCons(s, line, rest);
      SplittableTextAgrees(rest);
      PrependLine(line, FirstEol(s), rest, PhysicalLines(rest));
    }
    ParseFailsIffOdd(s);
  }
}
