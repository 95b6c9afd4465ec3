/** The file helpers of the front end: the payload extraction of
    `fileToBase64` and the CSV text built by `downloadCsv`.

    The FileReader, Blob, object URL and link click are browser services: the
    reader's outcome is a parameter, and a download is described by the
    content, file name and media type it would carry. */
module FileUtils {
  import opened Wrappers
  import Text
  import CsvReader

  // ---------------------------------------------------------------------
  // fileToBase64
  // ---------------------------------------------------------------------

  /** What `FileReader.readAsDataURL` reports: the data URL on `load`, or an
      `error` event. */
  datatype ReadOutcome = Loaded(dataUrl: string) | ReadFailed

  const EmptyBase64Message: string := "Failed to convert file to Base64: result is empty."

  /** The promise of `fileToBase64`: the text between the first and the
      second comma of the data URL, rejected when that text is missing or
      empty; a reader error rejects with the event itself, not an `Error`. */
  function FileToBase64(read: ReadOutcome): (r: Result<string, Thrown>)
    ensures read.ReadFailed? ==> r == Err(NonError)
    ensures read.Loaded? && r.Ok? ==> r.value != "" && ',' !in r.value
    ensures read.Loaded? && r.Err? ==> r.error == Error(EmptyBase64Message)
  {
    match read
    case ReadFailed => Err(NonError)
    case Loaded(url) =>
      match Text.SecondSegment(url, ',')
      case Some(base64) =>
        if base64 != "" then Ok(base64) else Err(Error(EmptyBase64Message))
      case None => Err(Error(EmptyBase64Message))
  }

  // ---------------------------------------------------------------------
  // downloadCsv
  // ---------------------------------------------------------------------

  /** A cell as the table arrives from the response: a string, or `null`
      (None) when the model left a hole. */
  type Cell = Option<string>
  type Grid = seq<seq<Cell>>

  /** What a download would deliver: its text, its file name and its type. */
  datatype Download = Download(content: string, filename: string, mimeType: string)

  const CsvMimeType: string := "text/csv;charset=utf-8;"

  /** `cell ? cell.toString() : ''`: a falsy cell (null or the empty string)
      becomes the empty string. */
  function CleanCell(c: Cell): (s: string)
    ensures s == "" <==> c.None? || c.value == ""
    ensures c.Some? ==> s == c.value
  {
    if c.Some? then c.value else ""
  }

  /** The characters that make the exporter quote a cell. A lone carriage
      return is not one of them. */
  predicate NeedsQuoting(s: string)
  {
    ',' in s || '\n' in s || '"' in s
  }

  /** `replace(/"/g, '""')`: every double quote doubled. */
  function DoubleQuotes(s: string): (r: string)
    ensures '"' !in s ==> r == s
  {
    if s == [] then []
    else (if s[0] == '"' then "\"\"" else [s[0]]) + DoubleQuotes(s[1..])
  }

  /** Doubling quotes adds or removes none of the characters NeedsQuoting
      looks for, so testing the replaced text, as the exporter does, is
      testing the cell itself. */
  lemma {:induction false} DoubleQuotesKeepsSpecials(s: string)
    ensures NeedsQuoting(DoubleQuotes(s)) <==> NeedsQuoting(s)
  {
    if s != [] {
      DoubleQuotesKeepsSpecials(s[1..]);
      var head := if s[0] == '"' then "\"\"" else [s[0]];
      assert DoubleQuotes(s) == head + DoubleQuotes(s[1..]);
      assert s == [s[0]] + s[1..];
      assert NeedsQuoting(head) <==> NeedsQuoting([s[0]]);
      ConcatSpecials(head, DoubleQuotes(s[1..]));
      ConcatSpecials([s[0]], s[1..]);
    }
  }

  lemma ConcatSpecials(a: string, b: string)
    ensures NeedsQuoting(a + b) <==> NeedsQuoting(a) || NeedsQuoting(b)
  {
  }

  /** The per-cell rule of `downloadCsv`: quotes doubled, then the cell
      wrapped in quotes when it holds a comma, a line feed or a quote; any
      other cell, a lone carriage return included, is emitted as it is. */
  function EscapeCell(c: Cell): (r: string)
    ensures !NeedsQuoting(CleanCell(c)) ==> r == CleanCell(c)
    ensures NeedsQuoting(CleanCell(c)) ==> r == "\"" + DoubleQuotes(CleanCell(c)) + "\""
  {
    var cleaned := DoubleQuotes(CleanCell(c));
    DoubleQuotesKeepsSpecials(CleanCell(c));
    if ',' in cleaned || '\n' in cleaned || '"' in cleaned then "\"" + cleaned + "\""
    else cleaned
  }

  /** `Array.prototype.join(sep)` over strings. */
  function Join(parts: seq<string>, sep: char): (r: string)
    ensures |parts| == 0 ==> r == ""
    ensures |parts| == 1 ==> r == parts[0]
    ensures |parts| >= 1 ==> |parts[0]| <= |r| && r[..|parts[0]|] == parts[0]
    ensures |parts| >= 2 ==> r == parts[0] + [sep] + Join(parts[1..], sep)
    ensures (forall k :: 0 <= k < |parts| ==> sep !in parts[k]) ==> (sep in r <==> |parts| >= 2)
  {
    if |parts| == 0 then ""
    else if |parts| == 1 then parts[0]
    else parts[0] + [sep] + Join(parts[1..], sep)
  }

  function EscapeRow(row: seq<Cell>): seq<string>
  {
    seq(|row|, i requires 0 <= i < |row| => EscapeCell(row[i]))
  }

  /** The records: each row's escaped cells joined by commas. */
  function Records(data: Grid): seq<string>
  {
    seq(|data|, i requires 0 <= i < |data| => Join(EscapeRow(data[i]), ','))
  }

  /** The CSV text: cells of a row joined by commas, rows joined by line
      feeds, no trailing line feed. */
  function CsvContent(data: Grid): (r: string)
    ensures data == [] ==> r == ""
    ensures |data| == 1 ==> r == Join(EscapeRow(data[0]), ',')
    ensures |data| >= 2 ==> r == Join(EscapeRow(data[0]), ',') + "\n" + CsvContent(data[1..])
  {
    assert |data| >= 1 ==> Records(data)[1..] == Records(data[1..]);
    Join(Records(data), '\n')
  }

  /** `downloadCsv(data, filename)`: nothing at all for an absent or empty
      grid; otherwise one download of the CSV text under the given name. */
  function DownloadCsv(data: Option<Grid>, filename: string): (r: Option<Download>)
    ensures r.None? <==> data.None? || data.value == []
    ensures r.Some? ==> r.value.filename == filename && r.value.mimeType == CsvMimeType
    ensures r.Some? ==> r.value.content == CsvContent(data.value)
  {
    if data.None? || |data.value| == 0 then None
    else Some(Download(CsvContent(data.value), filename, CsvMimeType))
  }
}
