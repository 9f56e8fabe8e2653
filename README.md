# six-pack-auto: a Dafny model of the report-sync run

`main.py` logs into the six-pack ad-report dashboard, has it generate a CSV
export, reads that CSV, and replaces the contents of the Google Sheets tab
`当日_raw` with it. It then writes a "last updated" stamp into cell A1 of the
tab `更新日`. This project models the deterministic parts of that run:

- building the login URL with percent-encoded credentials (`LoginUrl`, on top
  of `PercentEncoding` and `Utf8`);
- the bounded wait for the export (`ExportPoll`);
- the cp932 → utf-8 → utf-16 reading fallback (`EncodingFallback`);
- shaping the upload matrix (`Frames`);
- the clear-then-update write to the sheet (`Sheets`);
- the timestamp string (`Timestamp`);
- the order in which `main()` does all this, and what each early exit
  leaves behind (`Pipeline`).

Outside effects are inputs to the model:

- The browser is a flag saying whether the "CSV生成" button was found.
- The download directory is a function giving what each successive listing
  shows.
- `pd.read_csv` is an oracle from an encoding to a frame or an error.
- The clock is the month, day, hour and minute already converted to UTC+9.
- The spreadsheet is an object holding a map from tab title to a grid of
  cell texts.
- The spreadsheet service's refusals (an `APIError` from quota, grid limits,
  payload size or the network) are an input naming the write it refuses,
  if any; a refused call changes nothing.

`main.py` does not:

- check the page for an "unauthorized" marker after logging in;
- fall back to an HTML table or the raw page text when the export fails (the
  run just returns);
- archive the CSV;
- check that the CSV it takes is fresh or the only one: the poll takes the
  first `*.csv` of the final listing, and `StaleFileTaken` shows that a file
  left over from an earlier run is used;
- keep the data tab "fully replaced or as before": `clear()` and `update()`
  are two remote calls, and when the service refuses the second one the run
  fails with the data tab blank (`RefusedUpdateLeavesDataTabBlank`).

## Model

| member | source | states |
|---|---|---|
| Utf8.EncodeChar | main.py:54-55 | a character becomes 1 to 4 UTF-8 bytes; one byte, equal to its code point, exactly when it is ASCII; every later byte is a continuation byte |
| Utf8.DecodeEncode | main.py:54-55 | strict UTF-8 decoding gives back every string from its encoding |
| Utf8.EncodeAscii | main.py:54-55 | an ASCII string encodes to its own code points, one byte per character |
| PercentEncoding.QuoteByte | main.py:54-55 | an unreserved byte stays one literal character; any other byte becomes "%" and two upper-case hex digits |
| PercentEncoding.QuoteBytes | main.py:54-55 | `quote_from_bytes` output is never shorter than its input and holds only unreserved characters and "%" |
| PercentEncoding.Quote | main.py:54-55 | a quoted credential holds only unreserved characters and "%", so no "@", ":" or "/" |
| PercentEncoding.PercentDecodeQuoteBytes | main.py:54-55 | percent-decoding inverts `quote_from_bytes` byte for byte |
| PercentEncoding.UnquoteQuote | main.py:54-55 | percent-decoding then UTF-8 decoding gives back any quoted credential exactly |
| PercentEncoding.QuoteUnreserved | main.py:54-55 | a credential made only of unreserved characters is left as it is |
| LoginUrl.RemoveAll | main.py:56 | `str.replace(p, "")` never makes a string longer |
| LoginUrl.ContainsOccursAt | main.py:56 | "the pattern occurs somewhere" as defined recursively agrees with "it occurs at some index", so `RemoveAllAbsent` and `RemoveFirstOccurrence` speak of the same occurrences |
| LoginUrl.RemoveFirstOccurrence | main.py:56 | for every string: everything before the leftmost occurrence of the pattern is kept, that occurrence is dropped, and the scan resumes right after it |
| LoginUrl.RemoveAllAbsent | main.py:56 | removing a pattern that does not occur leaves the string unchanged |
| LoginUrl.RemoveAllSinglePass | main.py:56 | the removal is a single pass: "hhttps://ttps://" still holds "https://" afterwards |
| LoginUrl.StripSchemes | main.py:56 | stripping the schemes never lengthens the target, and a target that mentions neither "https://" nor "http://" is kept as it is |
| LoginUrl.StripLeadingHttps | main.py:56 | a leading "https://" is removed and the rest is stripped as if it stood alone |
| LoginUrl.StripHttpsTarget | main.py:56 | for "https://" + rest, with no ":" in rest, stripping the schemes gives exactly rest |
| LoginUrl.AuthUrl | main.py:57 | the URL always starts with "https://", and after it come the quoted user, ":", the quoted password, "@" and the stripped target |
| LoginUrl.UserInfoShape | main.py:54-57 | the first "@" after the scheme closes the user information; that part is the two quoted credentials around a ":"; after the "@" comes the stripped target |
| LoginUrl.UserInfoOneColon | main.py:54-55 | the user information holds exactly one ":", the one between the two quoted credentials, because quoting escapes every ":" |
| LoginUrl.ParseQuotedUserInfo | main.py:54-57 | the quoted "user:password" splits at its only ":" back into the user id and the password |
| LoginUrl.ParseAuthUrlRoundTrip | main.py:54-57 | reading the URL as RFC 3986 user information gives back the user id and the password exactly, and the target with its schemes removed |
| LoginUrl.TargetAuthUrl | main.py:56-57 | with the configured target the URL is "https://" user ":" password "@asp1.six-pack.xyz/admin/report/ad/list" |
| ExportPoll.GlobCsv | main.py:72 | the listing holds exactly the directory's `*.csv` entries and is no longer than the directory |
| ExportPoll.GlobCsvFirst | main.py:82 | the first file listed is the first matching entry of the directory |
| ExportPoll.LoopChecks | main.py:71-75 | the loop lists 1 to 10 times; every listing but the last is empty; the last is non-empty unless all 10 were used |
| ExportPoll.FinalChoice | main.py:77-82 | an empty final listing means no CSV; otherwise its first file is the one used |
| ExportPoll.AwaitExport | main.py:70-82 | at most 11 listings in all: the loop's, then one more whose first file is chosen; sleeps 5 s plus 3 s after each empty loop listing, so 35 s at most |
| ExportPoll.AppearsDuringLoop | main.py:71-82 | an export that first appears at loop listing k and stays is chosen after k + 1 loop listings and 5 + 3k seconds |
| ExportPoll.NeverAppears | main.py:71-80 | eleven empty listings use all 10 loop attempts, wait 35 s and end with no CSV |
| ExportPoll.VanishedBeforeFinalListing | main.py:73-80 | a file seen by the loop but gone at the final listing ends the run with no CSV |
| ExportPoll.StaleFileTaken | main.py:72-82 | a CSV already in the directory before the export is chosen straight away |
| EncodingFallback.ReadWithFallback | main.py:92-98 | the encodings tried form a prefix of the order; all but the last failed; the result is the last one's; a failure means all were tried |
| EncodingFallback.NestedTry | main.py:92-98 | a cp932 success is used as it is; after a cp932 failure a utf-8 success is used; the result is a failure exactly when all three encodings fail, and then it is utf-16's error |
| EncodingFallback.FallbackIsNestedTry | main.py:92-98 | the list-driven chain over cp932, utf-8, utf-16 gives the same result as the nested try/except |
| EncodingFallback.FirstSuccessWins | main.py:92-98 | the first encoding that reads the file is used, and no later encoding is tried |
| EncodingFallback.AllFail | main.py:92-98 | when every encoding fails, all three are tried and utf-16's error is what propagates |
| Frames.FillRow | main.py:100 | filling a row keeps its length and its values; each missing cell becomes "" |
| Frames.FillNa | main.py:100 | `fillna("")` keeps the header and the shape, turns each missing cell into "" and keeps every other cell, so no missing cell is left |
| Frames.FillNaIdempotent | main.py:100 | filling twice is the same as filling once |
| Frames.RowsText | main.py:101 | `df.values.tolist()`: one list per data row, each cell rendered as its text |
| Frames.UploadMatrix | main.py:100-101 | the matrix has one row more than the frame; row 0 is the header; row i + 1 is data row i, cell for cell, with missing cells as "" |
| Frames.UploadMatrixRectangular | main.py:100-101 | a well-formed frame gives a matrix whose rows are all as wide as the header |
| Sheets.Overlay | main.py:112 | writing a matrix from A1 sets the cells it covers and keeps every other cell |
| Sheets.OverlayOnBlank | main.py:111-112 | writing over a cleared tab leaves exactly the written matrix, with no earlier rows left over |
| Sheets.OverlaySingleCell | main.py:134 | writing `[[text]]` from A1 sets A1 and no other cell |
| Sheets.Spreadsheet.constructor | main.py:107 | the opened spreadsheet has the given tabs |
| Sheets.Spreadsheet.Worksheet | main.py:127-128 | a tab is found exactly when its title exists |
| Sheets.Spreadsheet.AddWorksheet | main.py:131 | adds a blank tab under the new title and changes no other tab |
| Sheets.Spreadsheet.Clear | main.py:111 | every cell of the tab becomes blank and the other tabs are untouched |
| Sheets.Spreadsheet.Update | main.py:112 | the tab becomes its overlay with the matrix, and the other tabs are untouched |
| Timestamp.TwoDigits | main.py:124 | `%m`, `%d`, `%H`, `%M` render as exactly two decimal digits |
| Timestamp.Stamp | main.py:124 | the stamp is the label "更新日：" followed by 11 characters "MM/DD_HH:MM", with "/", "_" and ":" at fixed places |
| Timestamp.TwoDigitsValue | main.py:124 | the two digits of a field read back as the number they were made from |
| Timestamp.ParseStampRoundTrip | main.py:124 | the month, day, hour and minute can be read back exactly from the stamp |
| Timestamp.StampInjective | main.py:124 | different times give different stamps |
| Pipeline.Run | main.py:52-140 | navigates to the login URL and then leaves the spreadsheet and the outcome as `RunSpec` says; an exit before the first write leaves every tab unchanged |
| Pipeline.WriteBack | main.py:110-135 | replaces the data tab, then stamps the date tab, stopping at the first refused write, and ends as `WriteSpec` says |
| Pipeline.ReplaceDataTab | main.py:110-112 | after clear then update, the data tab holds exactly the upload matrix; a refused clear leaves it as before, a refused update leaves it blank; other tabs are untouched |
| Pipeline.WriteStamp | main.py:126-134 | the date tab, created blank if missing, gets the stamp in A1 and no other change; a refused call changes nothing, but a date tab that `add_worksheet` just created stays, blank |
| Pipeline.NoWriteOnEarlyExit | main.py:64-112 | the run stops before its first write exactly when it does not reach the data tab (missing button, no CSV, unreadable CSV, missing data tab), and then, as after a refused clear, no tab is changed |
| Pipeline.WritesNeverEarly | main.py:110-134 | once the data tab is open the run completes or fails on a refused write; a refused clear writes nothing |
| Pipeline.CompletesExactly | main.py:64-134 | the run completes exactly when it reaches the data tab and the service refuses none of the writes it makes |
| Pipeline.RefusedUpdateLeavesDataTabBlank | main.py:110-112 | a refused `update` after `clear` ends the run failed with every cell of the data tab blank and the other tabs unchanged |
| Pipeline.RefusedStampKeepsNewData | main.py:126-134 | a refused write to the date tab ends the run without completion, with the data tab already replaced, the date tab as before (absent if `add_worksheet` was refused), or new and blank when a refused `update` follows a successful `add_worksheet`, and every other tab unchanged |
| Pipeline.RefusedStampWrites | main.py:126-134 | the same outcome and tabs for the write-back on its own |
| Pipeline.ReachedRunIsWrites | main.py:52-134 | a run that reaches the data tab ends as the writes of lines 110-134 leave it |
| Pipeline.CompletedWrites | main.py:110-135 | a completed write-back reports the stamp, holds the upload matrix in the data tab and the stamp overlay in the date tab, and keeps every other tab |
| Pipeline.CompletedRunContents | main.py:82-113 | after a completed run the data tab is the upload matrix of the chosen file's frame, the only tab that can be added is the date tab, and every other tab is unchanged |
| Pipeline.CompletedRunStamp | main.py:124-134 | after a completed run, A1 of the date tab holds the stamp and every other cell of that tab is as before, or blank if the tab is new |
| Pipeline.DataTabIndependentOfHistory | main.py:110-112 | after a completed run, the data tab does not depend on what any tab held before |

## Left out

- Chrome options, driver creation and `driver.get`/`find_element`/`click` (lines 36-50, 60, 66-67) are browser I/O. The button lookup is a success flag, and the URL is returned rather than visited.
- An exception raised inside the browser calls, or by `glob` inside the inner `try` (lines 64-87), is not modelled. Only a missing button leads to the `return` on line 87.
- Reading `USER_ID`, `USER_PASS` and `GCP_JSON` from the environment, and the gspread service-account authorisation and `open_by_url` (lines 17-19, 104-107), are I/O. The credentials are inputs and the spreadsheet is an in-memory object.
- A failed remote call during authorisation, `open_by_url` or the data tab's `worksheet()` (lines 104-109) other than `WorksheetNotFound` is not modelled; those calls come before any write, so such a failure would leave every tab as it was. An `APIError` from the date tab's `worksheet()` (line 127) is not modelled either; it would end the run as a refused `add_worksheet` does, with the data tab already replaced. Refused writes (`clear`, `update`, `add_worksheet`, and the stamp's `update`) are modelled, and a refused call is taken to change nothing.
- Sheets.Spreadsheet.AddWorksheet: does not model the 5 × 5 grid size (`rows=5, cols=5`) or the Sheets API's grid limits, because only cell contents are modelled. The new tab is blank.
- Sheets.Spreadsheet.Update: does not model how the Sheets API types values (numbers, dates, formulas). Cells are the text the frame renders.
- `pd.read_csv` and the codecs (lines 93-98) are a library whose code is not part of this model. Each encoding's attempt is an oracle returning a frame or an error, and header de-duplication and dtype inference are not modelled.
- `time.sleep` (lines 61, 70, 75) is modelled only as the number of seconds the export wait sleeps. The 5 s after `driver.get` is not counted.
- `glob` paths are bare file names rather than paths joined to the download directory. The directory's listing order is taken as given.
- `datetime.now` and the UTC+9 conversion (lines 119-120) are environmental. The converted month, day, hour and minute are inputs.
- `print`, `traceback.print_exc` and `driver.quit` in `finally` (lines 28-142) are logging and resource release with no data behaviour.
- PercentEncoding.Quote: a Python string may hold lone surrogates, on which `quote` raises `UnicodeEncodeError`. Dafny strings cannot hold them, so that error path is absent.
