/** Properties of the file helpers, stated against independent
    definitions: the payload of a data URL built from its parts, and the
    CSV reader of module CsvReader. */
module FileUtilsProperties {
  import opened Wrappers
  import Text
  import CsvReader
  import opened FileUtils

  /** A data URL is a header without commas (`data:image/png;base64`), a
      comma and the payload, possibly followed by more comma-separated text;
      the payload is recovered exactly, and an empty one is refused. */
  lemma DataUrlPayload(header: string, payload: string, rest: string)
    requires ',' !in header && ',' !in payload
    requires rest == [] || rest[0] == ','
    ensures payload != "" ==> FileToBase64(Loaded(header + [','] + payload + rest)) == Ok(payload)
    ensures payload == "" ==> FileToBase64(Loaded(header + [','] + payload + rest)) == Err(Error(EmptyBase64Message))
  {
    SecondSegmentOfDataUrl(header, payload, rest);
  }

  /** The text between the first and the second comma of such a URL is the
      payload. */
  lemma SecondSegmentOfDataUrl(header: string, payload: string, rest: string)
    requires ',' !in header && ',' !in payload
    requires rest == [] || rest[0] == ','
    ensures Text.SecondSegment(header + [','] + payload + rest, ',') == Some(payload)
  {
    var url := header + [','] + payload + rest;
    Regroup(header + [','], payload, rest);
    Text.BeforeSeparator(header, ',', payload + rest);
    assert url[|header| + 1..] == payload + rest;
    assert Text.AfterFirst(url, ',') == Some(payload + rest);
    if rest != [] {
      assert payload + rest == payload + [','] + rest[1..];
      Text.BeforeSeparator(payload, ',', rest[1..]);
    } else {
      assert payload + rest == payload;
    }
  }

  /** A URL without a comma has no payload and is refused. */
  lemma DataUrlWithoutComma(url: string)
    requires ',' !in url
    ensures FileToBase64(Loaded(url)) == Err(Error(EmptyBase64Message))
  {
  }

  // ---------------------------------------------------------------------
  // Round trip of downloadCsv through the reader
  // ---------------------------------------------------------------------

  function CleanRow(row: seq<Cell>): seq<string>
  {
    seq(|row|, i requires 0 <= i < |row| => CleanCell(row[i]))
  }

  function CleanGrid(data: Grid): seq<seq<string>>
  {
    seq(|data|, i requires 0 <= i < |data| => CleanRow(data[i]))
  }

  // Single steps of the reader, each one unfolding of its definition.

  lemma ReadDoubledQuote(inner: string, f: string, rest: string)
    requires CsvReader.ParseQuoted(inner) == Some((f, rest))
    ensures CsvReader.ParseQuoted("\"\"" + inner) == Some(("\"" + f, rest))
  {
    var s := "\"\"" + inner;
    assert s[0] == '"' && s[1] == '"' && s[2..] == inner;
  }

  lemma ReadQuotedChar(ch: char, inner: string, f: string, rest: string)
    requires ch != '"'
    requires CsvReader.ParseQuoted(inner) == Some((f, rest))
    ensures CsvReader.ParseQuoted([ch] + inner) == Some(([ch] + f, rest))
  {
    assert ([ch] + inner)[1..] == inner;
  }

  lemma ReadClosingQuote(tail: string)
    requires tail == [] || tail[0] != '"'
    ensures CsvReader.ParseQuoted("\"" + tail) == Some(([], tail))
  {
    assert ("\"" + tail)[1..] == tail;
  }

  lemma ReadQuotedField(body: string, f: string, tail: string)
    requires CsvReader.ParseQuoted(body) == Some((f, tail))
    requires tail == [] || tail[0] == ',' || tail[0] == '\n'
    ensures CsvReader.ParseField("\"" + body) == Some((f, tail))
  {
    assert ("\"" + body)[1..] == body;
  }

  lemma ReadUnquotedChar(ch: char, inner: string, f: string, rest: string)
    requires ch != ',' && ch != '\n' && ch != '"'
    requires CsvReader.ParseUnquoted(inner) == Some((f, rest))
    ensures CsvReader.ParseUnquoted([ch] + inner) == Some(([ch] + f, rest))
  {
    assert ([ch] + inner)[1..] == inner;
  }

  lemma ReadNextField(s: string, f: string, fs: seq<string>, rest: string, tail: string)
    requires CsvReader.ParseField(s + ([','] + rest)) == Some((f, [','] + rest))
    requires CsvReader.ParseRecord(rest) == Some((fs, tail))
    ensures CsvReader.ParseRecord(s + ([','] + rest)) == Some(([f] + fs, tail))
  {
    assert ([','] + rest)[1..] == rest;
  }

  lemma ReadNextRecord(s: string, r: seq<string>, rs: seq<seq<string>>, rest: string)
    requires CsvReader.ParseRecord(s + (['\n'] + rest)) == Some((r, ['\n'] + rest))
    requires CsvReader.ParseCsv(rest) == Some(rs)
    ensures CsvReader.ParseCsv(s + (['\n'] + rest)) == Some([r] + rs)
  {
    assert (['\n'] + rest)[1..] == rest;
  }

  /** A cell left unquoted reads back as itself. */
  lemma {:induction false} UnquotedFieldRoundTrip(s: string, tail: string)
    requires !NeedsQuoting(s)
    requires tail == [] || tail[0] == ',' || tail[0] == '\n'
    ensures CsvReader.ParseUnquoted(s + tail) == Some((s, tail))
  {
    if s == [] {
      assert s + tail == tail;
    } else {
      assert !NeedsQuoting(s[1..]) by {
        assert s == [s[0]] + s[1..];
        ConcatSpecials([s[0]], s[1..]);
      }
      UnquotedFieldRoundTrip(s[1..], tail);
      assert s + tail == [s[0]] + (s[1..] + tail);
      assert s[0] in s;
      ReadUnquotedChar(s[0], s[1..] + tail, s[1..], tail);
      assert [s[0]] + s[1..] == s;
    }
  }

  /** Doubling the quotes of a non-empty text: the first character's image,
      then the rest doubled. */
  lemma DoubledHead(s: string, tail: string)
    requires s != []
    ensures DoubleQuotes(s) + "\"" + tail
         == (if s[0] == '"' then "\"\"" else [s[0]]) + (DoubleQuotes(s[1..]) + "\"" + tail)
  {
    var head := if s[0] == '"' then "\"\"" else [s[0]];
    assert DoubleQuotes(s) == head + DoubleQuotes(s[1..]);
    Regroup(DoubleQuotes(s), "\"", tail);
    Regroup(head, DoubleQuotes(s[1..]), "\"" + tail);
    Regroup(DoubleQuotes(s[1..]), "\"", tail);
  }

  /** A quoted cell's body, quotes doubled and then closed, reads back as
      the cell, provided no quote follows the closing one. */
  lemma {:induction false} QuotedFieldRoundTrip(s: string, tail: string)
    requires tail == [] || tail[0] != '"'
    ensures CsvReader.ParseQuoted(DoubleQuotes(s) + "\"" + tail) == Some((s, tail))
  {
    if s == [] {
      assert DoubleQuotes(s) + "\"" + tail == "\"" + tail;
      ReadClosingQuote(tail);
    } else {
      QuotedFieldRoundTrip(s[1..], tail);
      DoubledHead(s, tail);
      var inner := DoubleQuotes(s[1..]) + "\"" + tail;
      if s[0] == '"' {
        ReadDoubledQuote(inner, s[1..], tail);
        assert "\"" + s[1..] == s;
      } else {
        ReadQuotedChar(s[0], inner, s[1..], tail);
        assert [s[0]] + s[1..] == s;
      }
    }
  }

  lemma Regroup(a: string, b: string, c: string)
    ensures a + b + c == a + (b + c)
  {
  }

  lemma QuotedCellRoundTrip(c: Cell, tail: string)
    requires NeedsQuoting(CleanCell(c))
    requires tail == [] || tail[0] == ',' || tail[0] == '\n'
    ensures CsvReader.ParseField(EscapeCell(c) + tail) == Some((CleanCell(c), tail))
  {
    var s := CleanCell(c);
    QuotedFieldRoundTrip(s, tail);
    var body := DoubleQuotes(s) + "\"" + tail;
    Regroup("\"" + DoubleQuotes(s), "\"", tail);
    Regroup("\"", DoubleQuotes(s), "\"");
    Regroup("\"", DoubleQuotes(s) + "\"", tail);
    assert EscapeCell(c) + tail == "\"" + body;
    ReadQuotedField(body, s, tail);
  }

  lemma PlainCellRoundTrip(s: string, tail: string)
    requires !NeedsQuoting(s)
    requires tail == [] || tail[0] == ',' || tail[0] == '\n'
    ensures CsvReader.ParseField(s + tail) == Some((s, tail))
  {
    UnquotedFieldRoundTrip(s, tail);
    if s != [] {
      assert s[0] in s;
      assert (s + tail)[0] == s[0];
    } else {
      assert s + tail == tail;
    }
  }

  /** Every escaped cell reads back as the cleaned cell. */
  lemma FieldRoundTrip(c: Cell, tail: string)
    requires tail == [] || tail[0] == ',' || tail[0] == '\n'
    ensures CsvReader.ParseField(EscapeCell(c) + tail) == Some((CleanCell(c), tail))
  {
    if NeedsQuoting(CleanCell(c)) {
      QuotedCellRoundTrip(c, tail);
    } else {
      PlainCellRoundTrip(CleanCell(c), tail);
    }
  }

  /** `join` with at least two parts: the first part, the separator, and
      the join of the others. */
  lemma JoinCons(parts: seq<string>, sep: char, tail: string)
    requires |parts| >= 2
    ensures Join(parts, sep) == parts[0] + ([sep] + Join(parts[1..], sep))
    ensures Join(parts, sep) + tail == parts[0] + ([sep] + (Join(parts[1..], sep) + tail))
  {
    var j := Join(parts[1..], sep);
    assert Join(parts, sep) == parts[0] + [sep] + j;
    Regroup(parts[0], [sep], j);
    Regroup(parts[0] + [sep], j, tail);
    Regroup(parts[0], [sep], j + tail);
  }

  /** Splitting the join of separator-free parts at the separator gives
      the parts back, in order: `join` adds exactly one separator between
      neighbours and nothing else. */
  lemma {:induction false} SplitJoin(parts: seq<string>, sep: char)
    requires |parts| >= 1
    requires forall k :: 0 <= k < |parts| ==> sep !in parts[k]
    ensures Text.Split(Join(parts, sep), sep) == parts
  {
    if |parts| >= 2 {
      var rest := Join(parts[1..], sep);
      SplitJoin(parts[1..], sep);
      Text.BeforeSeparator(parts[0], sep, rest);
      var after := Text.AfterFirst(Join(parts, sep), sep);
      assert after.Some? && after.value == rest by {
        assert sep in Join(parts, sep) by {
          assert Join(parts, sep)[|parts[0]|] == sep;
        }
        assert Join(parts, sep) == parts[0] + [sep] + after.value;
      }
    }
  }

  /** Joining the pieces of a split gives the text back. */
  lemma {:induction false} JoinSplit(s: string, sep: char)
    ensures Join(Text.Split(s, sep), sep) == s
    decreases |s|
  {
    var after := Text.AfterFirst(s, sep);
    if after.Some? {
      var parts := Text.Split(s, sep);
      JoinSplit(after.value, sep);
      assert parts[1..] == Text.Split(after.value, sep);
    }
  }

  /** A row written by the exporter reads back as the row, cell for cell,
      when it has at least one cell. */
  lemma {:induction false} RecordRoundTrip(row: seq<Cell>, tail: string)
    requires |row| >= 1
    requires tail == [] || tail[0] == '\n'
    ensures CsvReader.ParseRecord(Join(EscapeRow(row), ',') + tail) == Some((CleanRow(row), tail))
  {
    if |row| == 1 {
      assert row == [row[0]];
      SingleCellRecord(row[0], tail);
      assert CleanRow(row) == [CleanCell(row[0])];
    } else {
      RecordRoundTrip(row[1..], tail);
      RecordStep(row, tail);
    }
  }

  /** A one-cell row reads back as that cell. */
  lemma SingleCellRecord(c: Cell, tail: string)
    requires tail == [] || tail[0] == '\n'
    ensures CsvReader.ParseRecord(Join(EscapeRow([c]), ',') + tail) == Some(([CleanCell(c)], tail))
  {
    FieldRoundTrip(c, tail);
    assert Join(EscapeRow([c]), ',') == EscapeCell(c);
  }

  /** The first cell, a comma, and the rest of the row: if the rest reads
      back, so does the row. */
  lemma RecordStep(row: seq<Cell>, tail: string)
    requires |row| >= 2
    requires tail == [] || tail[0] == '\n'
    requires CsvReader.ParseRecord(Join(EscapeRow(row[1..]), ',') + tail) == Some((CleanRow(row[1..]), tail))
    ensures CsvReader.ParseRecord(Join(EscapeRow(row), ',') + tail) == Some((CleanRow(row), tail))
  {
    var e := EscapeRow(row);
    var rest := Join(EscapeRow(row[1..]), ',') + tail;
    RowCons(row);
    JoinCons(e, ',', tail);
    FieldRoundTrip(row[0], [','] + rest);
    ReadNextField(e[0], CleanCell(row[0]), CleanRow(row[1..]), rest, tail);
  }

  /** Escaping and cleaning a row cell by cell: the first cell, then the
      rest. */
  lemma RowCons(row: seq<Cell>)
    requires |row| >= 1
    ensures EscapeRow(row)[0] == EscapeCell(row[0]) && EscapeRow(row)[1..] == EscapeRow(row[1..])
    ensures CleanRow(row) == [CleanCell(row[0])] + CleanRow(row[1..])
  {
    assert EscapeRow(row)[1..] == EscapeRow(row[1..]);
    assert CleanRow(row) == [CleanCell(row[0])] + CleanRow(row[1..]);
  }

  lemma {:induction false} RecordsRoundTrip(data: Grid)
    requires |data| >= 1
    requires forall i :: 0 <= i < |data| ==> |data[i]| >= 1
    ensures CsvReader.ParseCsv(Join(Records(data), '\n')) == Some(CleanGrid(data))
  {
    if |data| == 1 {
      SingleRowGrid(data);
    } else {
      assert forall i :: 0 <= i < |data[1..]| ==> |data[1..][i]| >= 1;
      RecordsRoundTrip(data[1..]);
      RecordsStep(data);
    }
  }

  /** A one-row grid reads back as that row. */
  lemma SingleRowGrid(data: Grid)
    requires |data| == 1 && |data[0]| >= 1
    ensures CsvReader.ParseCsv(Join(Records(data), '\n')) == Some(CleanGrid(data))
  {
    var first := Join(EscapeRow(data[0]), ',');
    RecordRoundTrip(data[0], []);
    assert Join(Records(data), '\n') == first;
    assert first + [] == first;
    assert CleanGrid(data) == [CleanRow(data[0])];
  }

  /** The first row, a line feed, and the other rows: if the others read
      back, so does the grid. */
  lemma RecordsStep(data: Grid)
    requires |data| >= 2 && |data[0]| >= 1
    requires CsvReader.ParseCsv(Join(Records(data[1..]), '\n')) == Some(CleanGrid(data[1..]))
    ensures CsvReader.ParseCsv(Join(Records(data), '\n')) == Some(CleanGrid(data))
  {
    var recs := Records(data);
    var rest := Join(Records(data[1..]), '\n');
    GridCons(data);
    JoinCons(recs, '\n', []);
    RecordRoundTrip(data[0], ['\n'] + rest);
    ReadNextRecord(recs[0], CleanRow(data[0]), CleanGrid(data[1..]), rest);
  }

  /** Writing and cleaning a grid row by row: the first row, then the
      rest. */
  lemma GridCons(data: Grid)
    requires |data| >= 1
    ensures Records(data)[0] == Join(EscapeRow(data[0]), ',') && Records(data)[1..] == Records(data[1..])
    ensures CleanGrid(data) == [CleanRow(data[0])] + CleanGrid(data[1..])
  {
    assert Records(data)[1..] == Records(data[1..]);
    assert CleanGrid(data) == [CleanRow(data[0])] + CleanGrid(data[1..]);
  }

  /** Round trip: reading the exported text by the field rules of section 2
      of RFC 4180, with line feeds between records, gives back the grid
      (null cells as empty fields), provided every row has a cell. Rows
      without cells are the exception: `[[]]` and `[[""]]` both export as
      the empty text. */
  lemma CsvRoundTrip(data: Grid, filename: string)
    requires data != []
    requires forall i :: 0 <= i < |data| ==> data[i] != []
    ensures DownloadCsv(Some(data), filename).Some?
    ensures CsvReader.ParseCsv(DownloadCsv(Some(data), filename).value.content) == Some(CleanGrid(data))
  {
    RecordsRoundTrip(data);
  }
}
