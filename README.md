# Handwriting converter — a Dafny model of its core rules

The handwriting converter is a browser front end that sends a photo of
handwriting to a transcription model and shows the text, or the table it
found, with a chart and a CSV export. This project models the rules the
front end applies around those browser and network services, and proves
what they promise:

- **CSV export** (`FileUtils`, `FileUtilsProperties`, `CsvExamples`): the
  per-cell escaping of `downloadCsv`, the comma and line-feed joins, the
  empty-grid skip, and a round trip against an independent reader
  (`CsvReader`) that follows the field rules of section 2 of RFC 4180 with two
  differences: records are separated by a line feed, and an unquoted field may
  hold any character but a comma, a line feed or a double quote (the RFC's
  TEXTDATA is printable ASCII only, so it would quote a carriage return, a
  control character or a non-ASCII character). The payload split of
  `fileToBase64` goes with it.
- **Crop mapping** (`ImageCropper`): the display-to-bitmap scaling per axis,
  the floored canvas size, the failure branches of `getCroppedImg` (with the
  bitmap as an object whose `close()` is tracked), and the confirm guard.
- **Chart panel** (`ChartDisplay`): `getChartability` as a loop proved
  against a specification function, the choice of the chart kind drawn, and
  the numeric conversion of the rows.
- **Transcription request** (`GeminiService`): the media-type gate, the one
  request with the file's payload and type, the trim before parsing, the
  shape check, and the collapse of every failure after the request into one
  message.
- **Session** (`App`): a class with the page's five state fields and its
  handlers, an invariant they all keep, and the CSV download handler.
  `Text` holds the JavaScript string built-ins the rules use; `Wrappers` the
  Option and Result types and the two kinds of thrown value.

The SDK call, `JSON.parse`, `parseFloat`, the file reader, bitmap decoding,
the canvas context and `toBlob` are parameters: the model states what the
code does with whatever they return.

Two facts about the code that the model keeps:

- `getCroppedImg` returns the missing-context rejection
  (components/ImageCropper.tsx:41) before `bitmap.close()` (line 60), so
  `GetCroppedImg` leaves the bitmap open on that path.
- `processHandwriting` has no timeout and no guard against a stale response,
  and every failure inside its `try` becomes the same message.

## Model

| member | source | states |
|---|---|---|
| Text.SecondSegment | utils/fileUtils.ts:9 | `split(',')[1]` is undefined exactly when there is no comma, and otherwise holds no comma |
| FileUtils.FileToBase64 | utils/fileUtils.ts:2-17 | a reader error rejects with a non-Error value; a result holds no comma and is never empty; every other failure is the "result is empty" Error |
| FileUtilsProperties.SecondSegmentOfDataUrl | utils/fileUtils.ts:9 | for `header,payload[,rest]` with comma-free header and payload, the second segment is exactly the payload |
| FileUtilsProperties.DataUrlPayload | utils/fileUtils.ts:7-14 | for `header,payload[,rest]` the promise resolves to exactly the payload, and rejects with "result is empty" when the payload is empty |
| FileUtilsProperties.DataUrlWithoutComma | utils/fileUtils.ts:9-14 | a data URL without a comma rejects with "result is empty" |
| FileUtils.DoubleQuotes | utils/fileUtils.ts:28 | a text without double quotes is left unchanged |
| FileUtils.DoubleQuotesKeepsSpecials | utils/fileUtils.ts:28-29 | doubling quotes neither adds nor removes a comma, line feed or quote, so testing the replaced text is testing the cell |
| FileUtils.CleanCell | utils/fileUtils.ts:28 | the cleaned cell is empty exactly for null or the empty string, and is the string itself otherwise |
| FileUtils.EscapeCell | utils/fileUtils.ts:26-33 | a cell with none of `,` `\n` `"` is emitted as it is; any other is wrapped in quotes with every quote doubled; null becomes the empty field |
| FileUtils.Join | utils/fileUtils.ts:34-36 | no parts give the empty text and one part gives that part; otherwise the first part, one separator, then the join of the rest; for separator-free parts the separator appears exactly when there are two parts or more |
| FileUtilsProperties.SplitJoin | utils/fileUtils.ts:34-36 | splitting the join of separator-free parts at the separator gives the parts back in order |
| FileUtilsProperties.JoinSplit | utils/fileUtils.ts:34-36 | joining the pieces of a split gives the text back |
| FileUtils.CsvContent | utils/fileUtils.ts:23-36 | an empty grid gives the empty text; one row gives its comma-joined escaped cells; more rows give the first record, one line feed, then the content of the other rows |
| FileUtils.DownloadCsv | utils/fileUtils.ts:20-38 | no download at all for an absent or empty grid; otherwise one download with the given name, the CSV media type and the joined content |
| FileUtilsProperties.UnquotedFieldRoundTrip | utils/fileUtils.ts:31-32 | an unquoted cell reads back as itself, stopping at the following separator |
| FileUtilsProperties.QuotedFieldRoundTrip | utils/fileUtils.ts:28-30 | the body of a quoted cell, quotes doubled, reads back as the original text |
| FileUtilsProperties.QuotedCellRoundTrip | utils/fileUtils.ts:28-30 | a quoted cell reads back as the cleaned cell |
| FileUtilsProperties.PlainCellRoundTrip | utils/fileUtils.ts:31-32 | a cell emitted as it is reads back as itself |
| FileUtilsProperties.FieldRoundTrip | utils/fileUtils.ts:26-33 | every escaped cell reads back as the cleaned cell |
| FileUtilsProperties.RecordRoundTrip | utils/fileUtils.ts:24-34 | a row joined by commas reads back as the row of cleaned cells |
| FileUtilsProperties.RecordsRoundTrip | utils/fileUtils.ts:23-36 | rows joined by line feeds read back as the grid of cleaned cells |
| FileUtilsProperties.CsvRoundTrip | utils/fileUtils.ts:20-36 | for a non-empty grid of non-empty rows, reading the download's content by the field rules of RFC 4180 section 2, with LF records and unquoted fields admitting any character but comma, LF and double quote, gives back the grid, nulls as empty fields |
| CsvExamples.CommaCellIsQuoted | utils/fileUtils.ts:28-30 | `c,d` is exported as `"c,d"` |
| CsvExamples.QuoteCellIsDoubledAndQuoted | utils/fileUtils.ts:28-30 | `e"f` is exported as `"e""f"` |
| CsvExamples.PlainCellsAreKept | utils/fileUtils.ts:31-32 | `a` and `b` are exported unchanged |
| CsvExamples.ExampleFirstRow | utils/fileUtils.ts:24-34 | the row `a`,`b` is exported as `a,b` |
| CsvExamples.ExampleSecondRowCells | utils/fileUtils.ts:26-33 | the cells `c,d` and `e"f` are escaped as `"c,d"` and `"e""f"` |
| CsvExamples.SecondRowJoined | utils/fileUtils.ts:34 | the two escaped cells are joined by exactly one comma |
| CsvExamples.ExampleSecondRow | utils/fileUtils.ts:24-34 | that row is exported as `"c,d","e""f"` |
| CsvExamples.ExampleRecords | utils/fileUtils.ts:23-35 | the two rows of the example become the two records |
| CsvExamples.ExampleRecordsJoined | utils/fileUtils.ts:36 | the records are joined by one line feed with none after the last |
| CsvExamples.ExampleExport | utils/fileUtils.ts:23-36 | `[["a","b"],["c,d","e\"f"]]` exports exactly as `a,b` LF `"c,d","e""f"` |
| CsvExamples.CarriageReturnNotQuoted | utils/fileUtils.ts:29 | a cell whose only special character is a carriage return is not quoted |
| ImageCropper.MapRect | components/ImageCropper.tsx:27-33 | each offset and size is scaled by its own axis' ratio, with no rounding |
| ImageCropper.CanvasSize | components/ImageCropper.tsx:36-37 | the canvas width and height are the floors of the mapped width and height |
| ImageCropper.CropStaysInsideBitmap | components/ImageCropper.tsx:27-37 | a crop inside the displayed image maps inside the bitmap, so the canvas is never larger than the bitmap |
| ImageCropper.CropToBitmap | components/ImageCropper.tsx:27-33 | each horizontal quantity is in the ratio of the bitmap's width to the displayed width, each vertical one in the ratio of the heights; a crop of the full displayed width or height maps to the bitmap's full width or height |
| ImageCropper.MapRectRoundTrip | components/ImageCropper.tsx:27-33 | scaling back with the inverse ratios gives the crop again: the axes are independent |
| ImageCropper.InitialCrop | components/ImageCropper.tsx:82-91 | the first crop lies at the origin and covers the whole displayed image |
| ImageCropper.InitialCropCoversBitmap | components/ImageCropper.tsx:82-91 | the first crop maps to the whole bitmap and a canvas of the bitmap's size |
| ImageCropper.WorkedExample | components/ImageCropper.tsx:27-37 | a 1000x800 crop at (200,150) of an 800x600 rendering of a 4000x3000 bitmap gives (1000,750,5000,4000) and a 5000x4000 canvas |
| ImageCropper.Bitmap.constructor | components/ImageCropper.tsx:23 | a decoded bitmap has the decoded size and is open |
| ImageCropper.GetCroppedImg | components/ImageCropper.tsx:16-75 | a decode failure is passed on; no context rejects with "Failed to get canvas context" and leaves the bitmap open; no blob rejects with "Canvas is empty"; success is a PNG of the floored size drawn from the mapped region; the bitmap is closed exactly when a context was obtained |
| ImageCropper.ConfirmEnabled | components/ImageCropper.tsx:127 | confirming is possible exactly for a crop of non-zero area |
| ImageCropper.HandleConfirmCrop | components/ImageCropper.tsx:94-103 | nothing happens unless the image is mounted and the crop has a non-zero width and height; the crop is delivered exactly when it succeeds, and a failure delivers nothing |
| ChartDisplay.NumericCellsZero | components/ChartDisplay.tsx:19-26 | the count of numeric cells is zero exactly when no inspected cell parses as a finite number |
| ChartDisplay.GetChartability | components/ChartDisplay.tsx:14-38 | chartable exactly when there are at least two rows, a header of two cells or more, and a finite number after the first cell of the first data row; not chartable exactly when the list is empty; a chartable list starts Column, Bar and has Pie exactly when the header has two cells |
| ChartDisplay.DrawnChart | components/ChartDisplay.tsx:92-99 | Pie only when chosen and offered, Bar whenever chosen, Column in every other case |
| ChartDisplay.DrawnChartIsOffered | components/ChartDisplay.tsx:93-99 | for a chartable table the kind drawn is always one of the kinds offered |
| ChartDisplay.ConvertCell | components/ChartDisplay.tsx:65-68 | a later cell is never a label; it is null exactly when `parseFloat` gives NaN, and otherwise that number, infinities included |
| ChartDisplay.ConvertRow | components/ChartDisplay.tsx:63-70 | a row keeps its length and its first cell as a label; every later cell is null exactly on NaN and its number otherwise |
| ChartDisplay.ToDataTable | components/ChartDisplay.tsx:62-71 | the header is kept; each data row keeps its length and first cell; every later cell is null exactly when it is not a number, and that number otherwise |
| GeminiService.Member | services/geminiService.ts:77 | a property read gives the object's member, or undefined for a missing key or a non-object |
| GeminiService.ShapeCheck | services/geminiService.ts:76-81 | a parsed value is accepted exactly when `isTable` is a boolean and `textContent` a string, and then carried over with `tableData` unchecked; `null` and every other shape fail |
| GeminiService.TryBody | services/geminiService.ts:61-81 | a rejected call and a missing text fail; a text whose trim does not parse fails; a text whose trim parses gives exactly the shape check's verdict on the parsed value, so a valid reply is accepted |
| GeminiService.ProcessHandwriting | services/geminiService.ts:39-86 | a non-`image/` type is refused before any read or request; a read failure passes through unchanged; otherwise exactly one request with the payload and the file's own type, and any later failure is "Could not get a valid response from the AI model." |
| GeminiService.ValidReplyIsReturned | services/geminiService.ts:61-81 | for an image whose read succeeds, a reply whose trimmed text parses to a value passing the shape check is returned as that value, after exactly one request |
| GeminiService.ShapeMessageIsDistinct | services/geminiService.ts:78 | the shape check's message differs from every message the caller can receive |
| GeminiService.FailuresAreCollapsed | services/geminiService.ts:83-86 | the caller sees only the gate's message, the reader's failures or the collapsed message, never the shape check's message |
| GeminiService.ResultIsValidated | services/geminiService.ts:73-81 | a returned result came from the one response, whose trimmed text parsed to an object with a boolean `isTable` and a string `textContent`, both carried in the result |
| GeminiService.SurroundingWhitespaceIgnored | services/geminiService.ts:73 | response texts that trim to the same string give the same outcome |
| GeminiService.TableDataMayBeAbsent | services/geminiService.ts:77-81 | an object with `isTable: true` and no `tableData` is accepted |
| GeminiService.NonImageIsRefused | services/geminiService.ts:40-42 | an `application/pdf` file is refused with the gate's message and nothing is sent |
| Text.Trim | services/geminiService.ts:73 | the trimmed text is no longer than the input, neither starts nor ends with whitespace, and is empty exactly when the input is all whitespace |
| Text.StartsWith | services/geminiService.ts:40 | a text starts with a prefix exactly when it is that prefix followed by the rest |
| Text.Split | App.tsx:49 | the pieces hold no separator, there are two or more exactly when the text has one, the first is `split(c)[0]` and the second `split(c)[1]` |
| Text.TrimIsMaximalSlice | services/geminiService.ts:73 | `trim` keeps a contiguous slice, cuts only whitespace, and leaves no whitespace at either end |
| Text.TrimIdempotent | services/geminiService.ts:73 | trimming the trimmed text changes nothing |
| Text.BeforeFirst | App.tsx:49 | `split('T')[0]` is the longest prefix without a `T` |
| App.Filename | App.tsx:49 | the name is `handwriting_table_`, then a date, then `.csv`, the date being a prefix of the timestamp without any `T` |
| App.FilenameUsesDate | App.tsx:49 | for a timestamp `date` + `T` + `time` the file is `handwriting_table_<date>.csv` |
| App.FailureText | App.tsx:39-40 | the shown error is the prefix followed by the Error's message, or by "An unknown error occurred." for anything else |
| App.AsCell | App.tsx:48-50 | a table cell is a string or `null` |
| App.AsRow | App.tsx:48-50 | a row is an array of cells, read cell for cell |
| App.AsGrid | App.tsx:48-50 | the table is an array of rows, read row for row |
| App.GridJsonRoundTrip | App.tsx:48-50 | every grid of strings and nulls arrives at the exporter intact |
| App.Session.Valid | App.tsx:12-23 | the session invariant: a result is shown with its preview, without an error and not while loading |
| App.Session.constructor | App.tsx:12-16 | the session starts with nothing selected, no result, no error, not loading |
| App.Session.EnabledConvertHasFile | App.tsx:71-78 | an enabled convert button always has a selected file |
| App.Session.ButtonsGatedAlike | App.tsx:78-81 | the reset button is enabled exactly when the convert button is, and never while loading |
| App.Session.HandleImageSelect | App.tsx:18-23 | the file and its preview URL are stored and result and error cleared, keeping the session invariant |
| App.Session.BeginConversion | App.tsx:25-33 | without a file only the error changes, to "Please select an image first."; with one, loading starts with result and error cleared |
| App.Session.FinishConversion | App.tsx:35-44 | a success is stored with no error; a failure shows "Failed to process image: " and its message with no result; loading stops either way |
| App.Session.HandleConvertClick | App.tsx:25-45 | the whole conversion: the error or result shown is the one the service produced for the selected file, and only its requests reach the model |
| App.Session.HandleDownloadCsv | App.tsx:47-52 | a download exactly when the result is a table with non-empty grid data, named after the date of the timestamp, with the CSV of that grid; the session is unchanged |
| App.Session.HandleReset | App.tsx:54-60 | all five fields return to their initial values |

## Left out

- Browser services: `FileReader`, `createImageBitmap` and EXIF orientation,
  the canvas, `drawImage`, `imageSmoothingQuality`, `toBlob`, `Blob`,
  `URL.createObjectURL`, the hidden link click. Their outcomes are parameters.
- The Gemini SDK call, `JSON.parse`, the prompt, the response schema, the
  model name and the `API_KEY` check at module load: external collaborator and
  configuration. The call and the parser are oracles.
- IEEE-754: `parseFloat` is an oracle that says NaN, finite or infinite; the
  crop arithmetic is over exact reals.
- ImageCropper.GetCroppedImg: requires a positive display size; the code
  divides by it unguarded, and a zero size would give infinite or NaN scales.
- ImageCropper.HandleConfirmCrop: the `imageFile` prop is typed as a File and
  always present, so its truthiness test is not modelled.
- The chart library: loading, drawing, options, the resize listener and the
  reset of the selected kind to Column when new data arrive.
- ChartDisplay.GetChartability: `data` is a sequence, so the `!data` test for
  a missing table is not modelled.
- GeminiService.ShapeCheck: the result keeps `isTable`, `textContent` and
  `tableData`; any other member of the parsed object is dropped.
- App.Session.HandleDownloadCsv: a `tableData` that is not an array of arrays
  of strings or nulls gives no download; the code would instead throw in
  `map` or print numbers, booleans, arrays and objects through `toString`
  (an object as `[object Object]`).
- FileUtils.EscapeCell: cells are strings or null; the `toString` of other
  values is not modelled.
- Asynchronous scheduling: `HandleConvertClick` runs the start, the service
  and the end of a conversion with nothing in between. While loading the
  page disables convert and reset, and the uploader is hidden, so no other
  handler can run in that window.
- Console logging, and object URLs that are never revoked.
