/** The two file readers side by side: records from logical rows, and records from lines. */
module CsvReaders {
  import opened Prelude
  import opened CsvParser
  import opened CsvLaws
  import opened CsvLines
  import opened CsvTable

  function NonEmpty(lines: seq<string>): seq<string> {
    if lines == [] then []
    else NonEmpty(lines[..|lines| - 1]) + if lines[|lines| - 1] == "" then [] else [lines[|lines| - 1]]
  }

  /** The older reader on text that is already trimmed: the first line names the columns, empty
      lines are skipped, missing cells read as empty and extra cells are ignored. */
  function LooseRecords(raw: string): seq<CsvRecord> {
    if raw == "" then []
    else
      var lines := PhysicalLines(raw);
      RecordsOf(LineCells(lines[0]), CellsOfLines(NonEmpty(lines[1..])))
  }

  method ReadCsvLoosely(raw: string) returns (records: seq<CsvRecord>)
    ensures records == LooseRecords(raw)
  {
    records := [];
    if raw == "" {
      return;
    }
    var lines := PhysicalLines(raw);
    var headers := ParseCsvLine(lines[0]);
    var data := NonEmpty(lines[1..]);
    for i := 0 to |data|
      invariant records == RecordsOf(headers, CellsOfLines(data[..i]))
    {
      var cells := ParseCsvLine(data[i]);
      assert CellsOfLines(data[..i + 1]) == CellsOfLines(data[..i]) + [cells];
      records := records + [RecordOf(headers, cells)];
    }
    assert data[..|data|] == data;
  }

  /** A line of commas and empty quotes only: it has text, but no cell has any. */
  predicate BlankCellLine(line: string) {
    line != "" && AllBlank(LineCells(line))
  }

  predicate NoBlankCellLine(lines: seq<string>) {
    forall i :: 0 <= i < |lines| ==> !BlankCellLine(lines[i])
  }

  lemma NoBlankCellLineSnoc(init: seq<string>, last: string)
    ensures NoBlankCellLine(init + [last]) <==> NoBlankCellLine(init) && !BlankCellLine(last)
  {
    var all := init + [last];
    assert all[|init|] == last && forall i :: 0 <= i < |init| ==> all[i] == init[i];
    if NoBlankCellLine(all) {
      assert !BlankCellLine(all[|init|]);
      forall i | 0 <= i < |init| ensures !BlankCellLine(init[i]) {
        assert !BlankCellLine(all[i]);
      }
    }
  }

  /** What both readers keep of a list of lines with one more line at the end. */
  lemma OneMoreLine(init: seq<string>, last: string)
    ensures NonEmpty(init + [last]) == NonEmpty(init) + if last == "" then [] else [last]
    ensures CellsOfLines(NonEmpty(init + [last]))
         == CellsOfLines(NonEmpty(init)) + if last == "" then [] else [LineCells(last)]
    ensures NoBlankCellLine(init + [last]) <==> NoBlankCellLine(init) && !BlankCellLine(last)
  {
    assert (init + [last])[..|init|] == init;
    CellsOfLastLine(NonEmpty(init), last);
    assert CellsOfLines(NonEmpty(init)) + [] == CellsOfLines(NonEmpty(init));
    NoBlankCellLineSnoc(init, last);
  }

  lemma EmptyLineIsBlank()
    ensures AllBlank(LineCells("")) && PhysicalLines("") == [""]
  {
    assert LineCells("") == [""];
  }

  lemma {:induction false} BlankCellLinesCount(lines: seq<string>)
    ensures |NonBlank(CellsOfLines(lines))| <= |NonEmpty(lines)|
    ensures |NonBlank(CellsOfLines(lines))| == |NonEmpty(lines)| <==> NoBlankCellLine(lines)
    ensures NoBlankCellLine(lines) ==> NonBlank(CellsOfLines(lines)) == CellsOfLines(NonEmpty(lines))
  {
    if lines != [] {
      var init, last := lines[..|lines| - 1], lines[|lines| - 1];
      BlankCellLinesCount(init);
      assert lines == init + [last];
      CellsOfLinesSnoc(init, last);
      OneMoreLine(init, last);
      EmptyLineIsBlank();
    }
  }

  /** On splittable text with a header, the production reader's records are those of its
      non-blank lines. */
  lemma ProductionRecords(raw: string)
    requires Splittable(raw) && !HasBom(raw) && !AllBlank(LineCells(PhysicalLines(raw)[0]))
    ensures Parse(StripBom(raw)).Ok? && Parse(StripBom(raw)).value != []
    ensures var lines, rows := PhysicalLines(raw), Parse(StripBom(raw)).value;
            rows[0] == LineCells(lines[0]) && rows[1..] == NonBlank(CellsOfLines(lines[1..]))
  {
    var lines := PhysicalLines(raw);
    SplittableTextAgrees(raw);
    assert lines == [lines[0]] + lines[1..];
    CellsOfLinesCons(lines[0], lines[1..]);
    NonBlankIsIdentity([LineCells(lines[0])]);
  }

  /** On such text the two readers give the same records exactly when no data line has only blank cells:
      the production reader drops those lines, the older one keeps them as empty records. */
  lemma {:induction false} ReadersAgreeIff(raw: string)
    requires Splittable(raw) && !HasBom(raw) && !AllBlank(LineCells(PhysicalLines(raw)[0]))
    ensures Parse(StripBom(raw)).Ok? && Parse(StripBom(raw)).value != []
    ensures var rows := Parse(StripBom(raw)).value;
            RecordsOf(rows[0], rows[1..]) == LooseRecords(raw) <==> NoBlankCellLine(PhysicalLines(raw)[1..])
  {
    var lines := PhysicalLines(raw);
    ProductionRecords(raw);
    BlankCellLinesCount(lines[1..]);
    EmptyLineIsBlank();
  }

  /** A data line of one comma: the older reader returns a record for it, the other none. */
  lemma {:induction false} BlankCellLineSeparatesTheReaders(header: string)
    requires NoEol(header) && Balanced(header) && !AllBlank(LineCells(header)) && !HasBom(header + [LF, COMMA])
    ensures var raw := header + [LF, COMMA];
            && Parse(StripBom(raw)) == Ok([LineCells(header)])
            && RecordsOf(LineCells(header), []) != LooseRecords(raw)
  {
    var raw := header + [LF, COMMA];
    HeaderAndComma(header);
    CommaIsBlank();
    var data := PhysicalLines(raw)[1..];
    assert data == [[COMMA]];
    assert BlankCellLine(data[0]);
    BlankLineIsDropped(data);
    ProductionRecords(raw);
    ReadersAgreeIff(raw);
    var rows := Parse(StripBom(raw)).value;
    assert rows == [rows[0]] + rows[1..];
    assert rows == [LineCells(header)];
    assert Parse(StripBom(raw)) == Ok(rows);
  }

  lemma BlankLineIsDropped(data: seq<string>)
    requires |data| == 1 && BlankCellLine(data[0])
    ensures NonBlank(CellsOfLines(data)) == []
  {
    CellsOfLinesSnoc([], data[0]);
    assert [] + data == data && CellsOfLines([]) == [];
    assert data == [data[0]];
  }

  lemma HeaderAndComma(header: string)
    requires NoEol(header) && Balanced(header)
    ensures PhysicalLines(header + [LF, COMMA]) == [header, [COMMA]]
    ensures Splittable(header + [LF, COMMA])
  {
    var raw := header + [LF, COMMA];
    assert forall k :: 0 <= k < |header| ==> raw[k] == header[k] && !IsEol(header[k]);
    assert raw[|header|] == LF;
    assert IndexOf(LF, raw) == |header|;
    assert raw[..|header|] == header && raw[|header| + 1..] == [COMMA];
    assert DropTrailingCr(header) == header;
    assert IndexOf(LF, [COMMA]) == 1;
    assert PhysicalLines([COMMA]) == [[COMMA]];
    assert Balanced([COMMA]) by { assert [COMMA][..0] == ""; }
  }

  lemma CommaIsBlank()
    ensures BlankCellLine([COMMA])
  {
    assert [COMMA][..0] == "";
    assert RunLine([COMMA]) == LineMachine([""], "", false, false);
    assert LineCells([COMMA]) == ["", ""];
  }
}
