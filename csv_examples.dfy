/** The worked example of the exporter: `[["a","b"],["c,d","e\"f"]]`
    exports as `a,b` LF `"c,d","e""f"`. Each step is its own small lemma. */
module CsvExamples {
  import opened Wrappers
  import CsvReader
  import opened FileUtils
  import opened FileUtilsProperties

  const ExampleGrid: Grid := [[Some("a"), Some("b")], [Some("c,d"), Some("e\"f")]]
  const ExampleText: string := "a,b\n\"c,d\",\"e\"\"f\""

  lemma CommaCellIsQuoted()
    ensures EscapeCell(Some("c,d")) == "\"c,d\""
  {
    assert "c,d"[1] == ',';
    assert DoubleQuotes("d") == "d";
    assert DoubleQuotes(",d") == ",d";
  }

  lemma QuoteCellIsDoubledAndQuoted()
    ensures EscapeCell(Some("e\"f")) == "\"e\"\"f\""
  {
    assert "e\"f"[1] == '"';
    assert DoubleQuotes("f") == "f";
    assert DoubleQuotes("\"f") == "\"\"f";
  }

  lemma PlainCellsAreKept()
    ensures EscapeCell(Some("a")) == "a" && EscapeCell(Some("b")) == "b"
  {
    assert !NeedsQuoting("a") && !NeedsQuoting("b");
  }

  lemma ExampleFirstRow()
    ensures Join(EscapeRow(ExampleGrid[0]), ',') == "a,b"
  {
    PlainCellsAreKept();
    assert EscapeRow(ExampleGrid[0]) == ["a", "b"];
  }

  lemma ExampleSecondRowCells()
    ensures EscapeRow(ExampleGrid[1]) == ["\"c,d\"", "\"e\"\"f\""]
  {
    CommaCellIsQuoted();
    QuoteCellIsDoubledAndQuoted();
  }

  lemma ExampleSecondRow()
    ensures Join(EscapeRow(ExampleGrid[1]), ',') == "\"c,d\",\"e\"\"f\""
  {
    ExampleSecondRowCells();
    SecondRowJoined();
  }

  lemma SecondRowJoined()
    ensures Join(["\"c,d\"", "\"e\"\"f\""], ',') == "\"c,d\",\"e\"\"f\""
  {
  }

  lemma ExampleRecords()
    ensures Records(ExampleGrid) == ["a,b", "\"c,d\",\"e\"\"f\""]
  {
    ExampleFirstRow();
    ExampleSecondRow();
  }

  lemma ExampleRecordsJoined()
    ensures Join(["a,b", "\"c,d\",\"e\"\"f\""], '\n') == ExampleText
  {
  }

  /** The export of the example grid is exactly `a,b` LF `"c,d","e""f"`. */
  lemma ExampleExport()
    ensures CsvContent(ExampleGrid) == ExampleText
  {
    ExampleRecords();
    ExampleRecordsJoined();
  }

  /** A cell whose only special character is a carriage return is not
      quoted. */
  lemma CarriageReturnNotQuoted()
    ensures EscapeCell(Some("a\rb")) == "a\rb"
  {
    assert !NeedsQuoting("a\rb");
  }
}
