/** The page's session: the selected file and its preview URL, the last
    result, the loading flag and the error message, and the handlers that
    change them. A conversion, asynchronous in the page, is split into the
    step that starts it and the step that records how it ended; the
    composition of the two with the service in between is
    `HandleConvertClick`. */
module App {
  import opened Wrappers
  import Text
  import FileUtils
  import opened GeminiService

  const NoImageMessage: string := "Please select an image first."
  const FailurePrefix: string := "Failed to process image: "
  const UnknownErrorMessage: string := "An unknown error occurred."

  /** The error shown for a failed conversion: the prefix, then the
      message of an `Error`, or UnknownErrorMessage for anything else. */
  function FailureText(t: Thrown): (m: string)
    ensures Text.StartsWith(m, FailurePrefix)
    ensures t.Error? ==> m[|FailurePrefix|..] == t.message
    ensures t.NonError? ==> m[|FailurePrefix|..] == UnknownErrorMessage
  {
    FailurePrefix + (if t.Error? then t.message else UnknownErrorMessage)
  }

  /** JavaScript truthiness of a parsed value. */
  predicate Truthy(j: Json)
  {
    match j
    case JNull => false
    case JBool(b) => b
    case JNumber(n) => n != 0.0
    case JString(s) => s != ""
    case _ => true
  }

  /** A table cell as the exporter reads it: a string, or `null`. */
  function AsCell(j: Json): (c: Option<FileUtils.Cell>)
    ensures c.Some? <==> j.JString? || j.JNull?
  {
    match j
    case JString(s) => Some(Some(s))
    case JNull => Some(None)
    case _ => None
  }

  /** An array of cells as a row. */
  function AsRow(j: Json): (row: Option<seq<FileUtils.Cell>>)
    ensures row.Some? ==> j.JArray? && |row.value| == |j.items|
    ensures row.Some? ==> forall i :: 0 <= i < |j.items| ==> AsCell(j.items[i]) == Some(row.value[i])
  {
    if j.JArray? && forall i :: 0 <= i < |j.items| ==> AsCell(j.items[i]).Some? then
      Some(seq(|j.items|, i requires 0 <= i < |j.items| && AsCell(j.items[i]).Some? => AsCell(j.items[i]).value))
    else None
  }

  /** `tableData` as the grid `downloadCsv` receives: an array of arrays of
      strings or `null`s. */
  function AsGrid(j: Json): (grid: Option<FileUtils.Grid>)
    ensures grid.Some? ==> j.JArray? && |grid.value| == |j.items|
    ensures grid.Some? ==> forall i :: 0 <= i < |j.items| ==> AsRow(j.items[i]) == Some(grid.value[i])
  {
    if j.JArray? && forall i :: 0 <= i < |j.items| ==> AsRow(j.items[i]).Some? then
      Some(seq(|j.items|, i requires 0 <= i < |j.items| && AsRow(j.items[i]).Some? => AsRow(j.items[i]).value))
    else None
  }

  /** A grid written back as JSON: arrays of arrays, a string per present
      cell and `null` per hole. */
  function GridJson(grid: FileUtils.Grid): Json
  {
    JArray(seq(|grid|, i requires 0 <= i < |grid| =>
      JArray(seq(|grid[i]|, j requires 0 <= j < |grid[i]| =>
        if grid[i][j].Some? then JString(grid[i][j].value) else JNull))))
  }

  /** Every grid arrives intact: reading the JSON form of a grid gives the
      grid back. */
  lemma GridJsonRoundTrip(grid: FileUtils.Grid)
    ensures AsGrid(GridJson(grid)) == Some(grid)
  {
    var j := GridJson(grid);
    forall i | 0 <= i < |grid|
      ensures AsRow(j.items[i]) == Some(grid[i])
    {
      var r := j.items[i];
      assert forall k :: 0 <= k < |grid[i]| ==> AsCell(r.items[k]) == Some(grid[i][k]);
      assert AsRow(r).Some?;
      assert AsRow(r).value == grid[i];
    }
    assert AsGrid(j).Some?;
    assert AsGrid(j).value == grid;
  }

  /** `handwriting_table_<date>.csv`, the date being the ISO timestamp up
      to its `T`. */
  function Filename(isoNow: string): (name: string)
    ensures Text.StartsWith(name, "handwriting_table_")
    ensures |name| >= |"handwriting_table_"| + |".csv"| && name[|name| - 4..] == ".csv"
    ensures var date := name[|"handwriting_table_"|..|name| - 4];
      'T' !in date && Text.StartsWith(isoNow, date)
  {
    "handwriting_table_" + Text.BeforeFirst(isoNow, 'T') + ".csv"
  }

  /** For a timestamp `date` + `T` + `time`, the file is named after
      `date`. */
  lemma FilenameUsesDate(date: string, time: string)
    requires 'T' !in date
    ensures Filename(date + "T" + time) == "handwriting_table_" + date + ".csv"
  {
    Text.BeforeSeparator(date, 'T', time);
  }

  /** The page's state. */
  class Session {
    var imageFile: Option<ImageFile>
    var imageUrl: Option<string>
    var result: Option<GeminiResponse>
    var isLoading: bool
    var error: Option<string>

    /** The preview is shown exactly when a file is selected; a result and
        an error are never shown together; a result belongs to a selected
        file; while loading, a file is selected and neither a result nor an
        error is shown. */
    predicate Valid()
      reads this
      ensures Valid() && result.Some? ==> imageUrl.Some? && error.None? && !isLoading
    {
      && (imageUrl.Some? <==> imageFile.Some?)
      && !(result.Some? && error.Some?)
      && (result.Some? ==> imageFile.Some?)
      && (isLoading ==> imageFile.Some? && result.None? && error.None?)
    }

    /** The initial state: nothing selected, nothing shown. */
    constructor ()
      ensures Valid()
      ensures imageFile.None? && imageUrl.None? && result.None? && !isLoading && error.None?
    {
      imageFile, imageUrl, result, isLoading, error := None, None, None, false, None;
    }

    /** The convert button is enabled: it is shown with the preview and
        disabled while loading. */
    predicate ConvertEnabled()
      reads this
    {
      imageUrl.Some? && !isLoading
    }

    /** An enabled convert button always has a file to convert, so the
        NoImageMessage branch cannot be reached from the page. */
    lemma EnabledConvertHasFile()
      requires Valid() && ConvertEnabled()
      ensures imageFile.Some?
    {
    }

    /** The reset button ("Upload Another") is enabled: it is shown with the
        preview and disabled while loading, like the convert button. */
    predicate ResetEnabled()
      reads this
    {
      imageUrl.Some? && !isLoading
    }

    /** The two buttons are gated alike: both are usable exactly when the
        preview is shown and no conversion is running. */
    lemma ButtonsGatedAlike()
      ensures ResetEnabled() <==> ConvertEnabled()
      ensures ResetEnabled() ==> !isLoading
    {
    }

    /** `handleImageSelect`: the file and its object URL are stored, and the
        result and error cleared. */
    method HandleImageSelect(file: ImageFile, objectUrl: string)
      requires Valid()
      modifies this
      ensures Valid()
      ensures imageFile == Some(file) && imageUrl == Some(objectUrl)
      ensures result.None? && error.None? && isLoading == old(isLoading)
    {
      imageFile := Some(file);
      imageUrl := Some(objectUrl);
      result := None;
      error := None;
    }

    /** The synchronous part of `handleConvertClick`, run only while not
        loading (the button is disabled otherwise). Without a file only the
        error changes; with one, loading starts with error and result
        cleared, and the file to convert is returned. */
    method BeginConversion() returns (started: Option<ImageFile>)
      requires Valid() && !isLoading
      modifies this
      ensures Valid()
      ensures imageFile == old(imageFile) && imageUrl == old(imageUrl)
      ensures old(imageFile).None? ==>
        started.None? && error == Some(NoImageMessage) && result == old(result) && !isLoading
      ensures old(imageFile).Some? ==>
        started == old(imageFile) && isLoading && error.None? && result.None?
    {
      if imageFile.None? {
        error := Some(NoImageMessage);
        return None;
      }
      isLoading := true;
      error := None;
      result := None;
      started := imageFile;
    }

    /** The end of a conversion: the response is stored, or the failure's
        text shown with the result left cleared; loading stops either way. */
    method FinishConversion(outcome: Result<GeminiResponse, Thrown>)
      requires Valid() && isLoading
      modifies this
      ensures Valid() && !isLoading
      ensures imageFile == old(imageFile) && imageUrl == old(imageUrl)
      ensures outcome.Ok? ==> result == Some(outcome.value) && error.None?
      ensures outcome.Err? ==> result.None? && error == Some(FailureText(outcome.error))
    {
      if outcome.Ok? {
        result := Some(outcome.value);
      } else {
        error := Some(FailureText(outcome.error));
      }
      isLoading := false;
    }

    /** `handleConvertClick` with the service in between, as the page runs
        it when no other handler intervenes; `sent` is what reached the
        model. */
    method HandleConvertClick(generate: Request -> SdkReply, jsonParse: string -> Option<Json>)
      returns (sent: seq<Request>)
      requires Valid() && !isLoading
      modifies this
      ensures Valid() && !isLoading
      ensures imageFile == old(imageFile) && imageUrl == old(imageUrl)
      ensures old(imageFile).None? ==> sent == [] && error == Some(NoImageMessage) && result == old(result)
      ensures old(imageFile).Some? ==>
        var p := ProcessHandwriting(old(imageFile).value, generate, jsonParse);
        && sent == p.requests
        && (p.outcome.Ok? ==> result == Some(p.outcome.value) && error.None?)
        && (p.outcome.Err? ==> result.None? && error == Some(FailureText(p.outcome.error)))
    {
      var started := BeginConversion();
      if started.None? {
        return [];
      }
      var p := ProcessHandwriting(started.value, generate, jsonParse);
      FinishConversion(p.outcome);
      sent := p.requests;
    }

    /** `handleDownloadCsv`: a download only for a result marked as a table
        whose `tableData` is a non-empty grid, named after the date of
        `isoNow` (the clock's ISO timestamp). Nothing in the session
        changes. */
    method HandleDownloadCsv(isoNow: string) returns (d: Option<FileUtils.Download>)
      ensures d.Some? <==>
        && result.Some? && result.value.isTable && result.value.tableData.Some?
        && Truthy(result.value.tableData.value)
        && AsGrid(result.value.tableData.value).Some? && AsGrid(result.value.tableData.value).value != []
      ensures d.Some? ==> d.value.filename == Filename(isoNow) && d.value.mimeType == FileUtils.CsvMimeType
      ensures d.Some? ==> d.value.content == FileUtils.CsvContent(AsGrid(result.value.tableData.value).value)
    {
      d := None;
      if result.Some? && result.value.isTable && result.value.tableData.Some? && Truthy(result.value.tableData.value) {
        var grid := AsGrid(result.value.tableData.value);
        if grid.Some? {
          d := FileUtils.DownloadCsv(grid, Filename(isoNow));
        }
      }
    }

    /** `handleReset`: all five fields back to their initial values. The
        page calls it only when ResetEnabled(); the contract holds in every
        valid state, the enabled ones included. */
    method HandleReset()
      requires Valid()
      modifies this
      ensures Valid()
      ensures imageFile.None? && imageUrl.None? && result.None? && !isLoading && error.None?
    {
      imageFile := None;
      imageUrl := None;
      result := None;
      error := None;
      isLoading := false;
    }
  }
}
