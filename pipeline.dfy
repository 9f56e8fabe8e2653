/**
 * One run of `main()` (main.py lines 27-142) with the browser, the clock,
 * the file system and the spreadsheet service replaced by inputs: log in
 * through the credential URL, click "CSV生成", wait for the export, read it
 * with the encoding fallback, replace the data tab with the upload matrix,
 * and stamp A1 of the date tab, creating that tab if it is missing.
 */
module Pipeline {
  import opened Wrappers
  import opened LoginUrl
  import opened ExportPoll
  import opened Frames
  import opened EncodingFallback
  import opened Sheets
  import opened Timestamp

  /** `SHEET_NAME` (line 23): the data tab, which must already exist. */
  const SheetName: string := "当日_raw"
  /** `DATE_SHEET_NAME` (line 24): the tab whose A1 holds the stamp. */
  const DateSheetName: string := "更新日"
  /** `add_worksheet(..., rows=5, cols=5)` on line 131. */
  const DateSheetRows: nat := 5
  const DateSheetCols: nat := 5

  /** What one run observes of the world outside the program. */
  datatype Environment = Environment(
    userId: string,                                           // USER_ID
    password: string,                                         // USER_PASS
    buttonFound: bool,                                        // lines 66-67 succeed
    dir: nat -> seq<FileName>,                                // the download directory at each listing
    read: (FileName, Encoding) -> Result<Frame, ReadError>,   // pd.read_csv(path, encoding=...)
    now: JstTime,                                             // datetime.now(JST)
    rejected: Option<SheetWrite>)                             // the write the service refuses, if any

  /**
   * The spreadsheet writes of lines 111-112 and 131-133, any of which the
   * service can refuse by raising an `APIError` (quota, grid limit, payload
   * size, network).  A refused call changes nothing.
   */
  datatype SheetWrite = ClearData | UpdateData | AddDateTab | UpdateDate

  /** An exception that reaches the handler on lines 137-140. */
  datatype Fault =
    | DecodeFailed(error: ReadError)
    | WorksheetNotFound(title: string)
    | WriteRefused(call: SheetWrite)

  datatype RunOutcome =
    | Completed(csvFile: FileName, stamp: string)  // lines 113 and 135 reached
    | ButtonError                                  // lines 85-87: print and return
    | NoCsvDownloaded                              // lines 78-80: print and return
    | Failed(fault: Fault)                         // lines 137-140

  datatype RunResult = RunResult(outcome: RunOutcome, tabs: map<string, Grid>)

  /** Reading the chosen file with a given encoding. */
  function Reader(env: Environment, file: FileName): Encoding -> Result<Frame, ReadError> {
    e => env.read(file, e)
  }

  /** The date tab before the stamp is written: as it was, or blank when it is created. */
  function DateTabBefore(tabs: map<string, Grid>): Grid {
    if DateSheetName in tabs then tabs[DateSheetName] else []
  }

  /** The outcome of a run and the spreadsheet's tabs afterwards, given the tabs before. */
  function RunSpec(env: Environment, tabs: map<string, Grid>): RunResult
    requires ValidTime(env.now)
  {
    if !env.buttonFound then RunResult(ButtonError, tabs)
    else match PollOutcome(env.dir)
      case NotDownloaded => RunResult(NoCsvDownloaded, tabs)
      case Downloaded(file) =>
        match ReadWithFallback(FallbackOrder, Reader(env, file)).outcome
        case Failure(e) => RunResult(Failed(DecodeFailed(e)), tabs)
        case Success(df) =>
          if SheetName !in tabs then RunResult(Failed(WorksheetNotFound(SheetName)), tabs)
          else WriteSpec(env, file, df, tabs)
  }

  /** Lines 110-134, once the data tab is open: the outcome and the tabs afterwards. */
  function WriteSpec(env: Environment, file: FileName, df: Frame, tabs: map<string, Grid>): RunResult
    requires ValidTime(env.now)
  {
    if env.rejected == Some(ClearData) then RunResult(Failed(WriteRefused(ClearData)), tabs)
    else if env.rejected == Some(UpdateData) then RunResult(Failed(WriteRefused(UpdateData)), tabs[SheetName := []])
    else
      var replaced := tabs[SheetName := UploadMatrix(df)];
      if DateSheetName !in tabs && env.rejected == Some(AddDateTab) then
        RunResult(Failed(WriteRefused(AddDateTab)), replaced)
      else if env.rejected == Some(UpdateDate) then
        RunResult(Failed(WriteRefused(UpdateDate)), replaced[DateSheetName := DateTabBefore(tabs)])
      else
        var stamp := Stamp(env.now);
        RunResult(Completed(file, stamp), replaced[DateSheetName := Overlay(DateTabBefore(tabs), [[stamp]])])
  }

  /** The run stops before its first write: every exit except completion and a refused write. */
  predicate EarlyExit(outcome: RunOutcome) {
    !outcome.Completed? && !(outcome.Failed? && outcome.fault.WriteRefused?)
  }

  /**
   * Lines 52-134.  Returns the URL the browser is sent to and the outcome;
   * the spreadsheet ends as `RunSpec` says.
   */
  method Run(env: Environment, book: Spreadsheet) returns (navigatedTo: string, outcome: RunOutcome)
    requires ValidTime(env.now)
    modifies book
    ensures navigatedTo == AuthUrl(env.userId, env.password, TargetUrl)
    ensures RunResult(outcome, book.tabs) == RunSpec(env, old(book.tabs))
    ensures EarlyExit(outcome) ==> book.tabs == old(book.tabs)
  {
    NoWriteOnEarlyExit(env, book.tabs);
    navigatedTo := AuthUrl(env.userId, env.password, TargetUrl);
    if !env.buttonFound {
      return navigatedTo, ButtonError;
    }
    var polled, checks, waited := AwaitExport(env.dir);
    if polled.NotDownloaded? {
      return navigatedTo, NoCsvDownloaded;
    }
    var file := polled.file;
    var resolution := ReadWithFallback(FallbackOrder, Reader(env, file));
    if resolution.outcome.Failure? {
      return navigatedTo, Failed(DecodeFailed(resolution.outcome.error));
    }
    var found := book.Worksheet(SheetName);
    if !found {
      return navigatedTo, Failed(WorksheetNotFound(SheetName));
    }
    outcome := WriteBack(env, file, resolution.outcome.value, book);
  }

  /** Lines 110-135: replace the data tab, then stamp the date tab. */
  method WriteBack(env: Environment, file: FileName, df: Frame, book: Spreadsheet) returns (outcome: RunOutcome)
    requires ValidTime(env.now) && SheetName in book.tabs
    modifies book
    ensures RunResult(outcome, book.tabs) == WriteSpec(env, file, df, old(book.tabs))
  {
    var refused := ReplaceDataTab(book, UploadMatrix(df), env.rejected);
    if refused.Some? {
      return Failed(WriteRefused(refused.value));
    }
    var stamp := Stamp(env.now);
    refused := WriteStamp(book, stamp, env.rejected);
    if refused.Some? {
      return Failed(WriteRefused(refused.value));
    }
    outcome := Completed(file, stamp);
  }

  /**
   * Lines 110-112: `clear()` then `update(data_to_upload)` on the data tab.
   * A refused `clear` leaves the tab as it was; a refused `update` leaves
   * it cleared.
   */
  method ReplaceDataTab(book: Spreadsheet, matrix: Grid, rejected: Option<SheetWrite>) returns (refused: Option<SheetWrite>)
    requires SheetName in book.tabs
    modifies book
    ensures rejected == Some(ClearData) ==> refused == rejected && book.tabs == old(book.tabs)
    ensures rejected == Some(UpdateData) ==> refused == rejected && book.tabs == old(book.tabs)[SheetName := []]
    ensures rejected != Some(ClearData) && rejected != Some(UpdateData) ==>
              refused == None && book.tabs == old(book.tabs)[SheetName := matrix]
  {
    if rejected == Some(ClearData) {
      return rejected;
    }
    book.Clear(SheetName);
    if rejected == Some(UpdateData) {
      return rejected;
    }
    book.Update(SheetName, matrix);
    OverlayOnBlank(matrix);
    refused := None;
  }

  /**
   * Lines 126-134: open the date tab, creating it if missing, and write the
   * stamp to A1.  A refused `add_worksheet` or `update` changes nothing.
   */
  method WriteStamp(book: Spreadsheet, stamp: string, rejected: Option<SheetWrite>) returns (refused: Option<SheetWrite>)
    modifies book
    ensures DateSheetName !in old(book.tabs) && rejected == Some(AddDateTab) ==>
              refused == rejected && book.tabs == old(book.tabs)
    ensures (DateSheetName in old(book.tabs) || rejected != Some(AddDateTab)) && rejected == Some(UpdateDate) ==>
              refused == rejected && book.tabs == old(book.tabs)[DateSheetName := DateTabBefore(old(book.tabs))]
    ensures (DateSheetName in old(book.tabs) || rejected != Some(AddDateTab)) && rejected != Some(UpdateDate) ==>
              refused == None &&
              book.tabs == old(book.tabs)[DateSheetName := Overlay(DateTabBefore(old(book.tabs)), [[stamp]])]
  {
    var dateFound := book.Worksheet(DateSheetName);
    if !dateFound {
      if rejected == Some(AddDateTab) {
        return rejected;
      }
      book.AddWorksheet(DateSheetName, DateSheetRows, DateSheetCols);
    }
    if rejected == Some(UpdateDate) {
      return rejected;
    }
    book.Update(DateSheetName, [[stamp]]);
    refused := None;
  }

  /** The run gets as far as `sheet.clear()` on line 111. */
  predicate ReachesDataTab(env: Environment, tabs: map<string, Grid>) {
    && env.buttonFound
    && PollOutcome(env.dir).Downloaded?
    && ReadWithFallback(FallbackOrder, Reader(env, PollOutcome(env.dir).file)).outcome.Success?
    && SheetName in tabs
  }

  /** The frame that was read, for a run that gets as far as the data tab. */
  function ReadFrame(env: Environment, tabs: map<string, Grid>): Frame
    requires ReachesDataTab(env, tabs)
  {
    ReadWithFallback(FallbackOrder, Reader(env, PollOutcome(env.dir).file)).outcome.value
  }

  /**
   * Nothing is written unless the run gets as far as the data tab: a missing
   * button, a missing CSV, an unreadable CSV or a missing data tab leave
   * every tab as it was, and so does a refused `clear`.
   */
  lemma NoWriteOnEarlyExit(env: Environment, tabs: map<string, Grid>)
    requires ValidTime(env.now)
    ensures EarlyExit(RunSpec(env, tabs).outcome) <==> !ReachesDataTab(env, tabs)
    ensures EarlyExit(RunSpec(env, tabs).outcome) ==> RunSpec(env, tabs).tabs == tabs
    ensures RunSpec(env, tabs).outcome == Failed(WriteRefused(ClearData)) ==> RunSpec(env, tabs).tabs == tabs
  {
    if ReachesDataTab(env, tabs) {
      WritesNeverEarly(env, PollOutcome(env.dir).file, ReadFrame(env, tabs), tabs);
    }
  }

  /** Once the data tab is open, the run either completes or fails on a refused write; a refused `clear` writes nothing. */
  lemma WritesNeverEarly(env: Environment, file: FileName, df: Frame, tabs: map<string, Grid>)
    requires ValidTime(env.now)
    ensures !EarlyExit(WriteSpec(env, file, df, tabs).outcome)
    ensures WriteSpec(env, file, df, tabs).outcome == Failed(WriteRefused(ClearData)) ==> WriteSpec(env, file, df, tabs).tabs == tabs
  {
  }

  /**
   * The run completes exactly when it reaches the data tab and the service
   * refuses none of the writes it makes.
   */
  lemma CompletesExactly(env: Environment, tabs: map<string, Grid>)
    requires ValidTime(env.now)
    ensures RunSpec(env, tabs).outcome.Completed? <==>
              && ReachesDataTab(env, tabs)
              && env.rejected != Some(ClearData)
              && env.rejected != Some(UpdateData)
              && !(DateSheetName !in tabs && env.rejected == Some(AddDateTab))
              && env.rejected != Some(UpdateDate)
  {
  }

  /** A run that reaches the data tab ends as the writes of lines 110-134 leave it. */
  lemma ReachedRunIsWrites(env: Environment, tabs: map<string, Grid>)
    requires ValidTime(env.now) && ReachesDataTab(env, tabs)
    ensures RunSpec(env, tabs) == WriteSpec(env, PollOutcome(env.dir).file, ReadFrame(env, tabs), tabs)
  {
  }

  /** A completed write-back: the data tab replaced, the stamp written, the other tabs untouched. */
  lemma CompletedWrites(env: Environment, file: FileName, df: Frame, tabs: map<string, Grid>)
    requires ValidTime(env.now) && SheetName in tabs
    requires WriteSpec(env, file, df, tabs).outcome.Completed?
    ensures WriteSpec(env, file, df, tabs).outcome == Completed(file, Stamp(env.now))
    ensures WriteSpec(env, file, df, tabs).tabs.Keys == tabs.Keys + {DateSheetName}
    ensures WriteSpec(env, file, df, tabs).tabs[SheetName] == UploadMatrix(df)
    ensures WriteSpec(env, file, df, tabs).tabs[DateSheetName] == Overlay(DateTabBefore(tabs), [[Stamp(env.now)]])
    ensures forall title :: title in tabs && title != SheetName && title != DateSheetName ==>
              WriteSpec(env, file, df, tabs).tabs[title] == tabs[title]
  {
    assert SheetName != DateSheetName;
  }

  /**
   * main.py does not keep the data tab "fully replaced or as before": when
   * the service refuses `update` after `clear` has gone through, the run
   * fails with the data tab blank.
   */
  lemma RefusedUpdateLeavesDataTabBlank(env: Environment, tabs: map<string, Grid>)
    requires ValidTime(env.now)
    requires ReachesDataTab(env, tabs) && env.rejected == Some(UpdateData)
    ensures RunSpec(env, tabs).outcome == Failed(WriteRefused(UpdateData))
    ensures forall r: nat, c: nat :: CellAt(RunSpec(env, tabs).tabs[SheetName], r, c) == ""
    ensures forall title :: title in tabs && title != SheetName ==> RunSpec(env, tabs).tabs[title] == tabs[title]
  {
  }

  /**
   * A refused write to the date tab ends the run without completion, yet
   * the data tab has already been replaced.  The date tab is as before, or
   * new and blank when a refused `update` follows a successful
   * `add_worksheet`; every other tab is untouched.
   */
  lemma RefusedStampKeepsNewData(env: Environment, tabs: map<string, Grid>)
    requires ValidTime(env.now)
    requires ReachesDataTab(env, tabs)
    requires (DateSheetName !in tabs && env.rejected == Some(AddDateTab)) || env.rejected == Some(UpdateDate)
    ensures !RunSpec(env, tabs).outcome.Completed?
    ensures RunSpec(env, tabs).tabs[SheetName] == UploadMatrix(ReadFrame(env, tabs))
    ensures DateSheetName in tabs ==> RunSpec(env, tabs).tabs[DateSheetName] == tabs[DateSheetName]
    ensures DateSheetName !in tabs && env.rejected == Some(AddDateTab) ==> DateSheetName !in RunSpec(env, tabs).tabs
    ensures DateSheetName !in tabs && env.rejected == Some(UpdateDate) ==> RunSpec(env, tabs).tabs[DateSheetName] == []
    ensures forall title :: title in tabs && title != SheetName && title != DateSheetName ==>
              RunSpec(env, tabs).tabs[title] == tabs[title]
  {
    ReachedRunIsWrites(env, tabs);
    RefusedStampWrites(env, PollOutcome(env.dir).file, ReadFrame(env, tabs), tabs);
  }

  /** `RefusedStampKeepsNewData` for the write-back alone. */
  lemma RefusedStampWrites(env: Environment, file: FileName, df: Frame, tabs: map<string, Grid>)
    requires ValidTime(env.now) && SheetName in tabs
    requires (DateSheetName !in tabs && env.rejected == Some(AddDateTab)) || env.rejected == Some(UpdateDate)
    ensures !WriteSpec(env, file, df, tabs).outcome.Completed?
    ensures WriteSpec(env, file, df, tabs).tabs[SheetName] == UploadMatrix(df)
    ensures DateSheetName in tabs ==> WriteSpec(env, file, df, tabs).tabs[DateSheetName] == tabs[DateSheetName]
    ensures DateSheetName !in tabs && env.rejected == Some(AddDateTab) ==> DateSheetName !in WriteSpec(env, file, df, tabs).tabs
    ensures DateSheetName !in tabs && env.rejected == Some(UpdateDate) ==> WriteSpec(env, file, df, tabs).tabs[DateSheetName] == []
    ensures forall title :: title in tabs && title != SheetName && title != DateSheetName ==>
              WriteSpec(env, file, df, tabs).tabs[title] == tabs[title]
  {
    assert SheetName != DateSheetName;
  }

  /**
   * After a completed run the data tab holds exactly the upload matrix of
   * the frame that was read, and no tab other than the two is touched.
   */
  lemma CompletedRunContents(env: Environment, tabs: map<string, Grid>)
    requires ValidTime(env.now)
    requires RunSpec(env, tabs).outcome.Completed?
    ensures var file := PollOutcome(env.dir).file;
            var df := ReadWithFallback(FallbackOrder, Reader(env, file)).outcome.value;
            && RunSpec(env, tabs).outcome.csvFile == file
            && RunSpec(env, tabs).tabs[SheetName] == UploadMatrix(df)
    ensures RunSpec(env, tabs).tabs.Keys == tabs.Keys + {DateSheetName}
    ensures forall title :: title in tabs && title != SheetName && title != DateSheetName ==>
              RunSpec(env, tabs).tabs[title] == tabs[title]
  {
    NoWriteOnEarlyExit(env, tabs);
    ReachedRunIsWrites(env, tabs);
    CompletedWrites(env, PollOutcome(env.dir).file, ReadFrame(env, tabs), tabs);
  }

  /**
   * The stamp goes to A1 of the date tab and nowhere else: every other cell
   * of that tab is as before (blank, if the tab was just created).
   */
  lemma CompletedRunStamp(env: Environment, tabs: map<string, Grid>)
    requires ValidTime(env.now)
    requires RunSpec(env, tabs).outcome.Completed?
    ensures RunSpec(env, tabs).outcome.stamp == Stamp(env.now)
    ensures CellAt(RunSpec(env, tabs).tabs[DateSheetName], 0, 0) == Stamp(env.now)
    ensures forall r: nat, c: nat :: (r, c) != (0, 0) ==>
              CellAt(RunSpec(env, tabs).tabs[DateSheetName], r, c) == CellAt(DateTabBefore(tabs), r, c)
  {
    NoWriteOnEarlyExit(env, tabs);
    ReachedRunIsWrites(env, tabs);
    CompletedWrites(env, PollOutcome(env.dir).file, ReadFrame(env, tabs), tabs);
    OverlaySingleCell(DateTabBefore(tabs), Stamp(env.now));
  }

  /**
   * Full replacement: what the data tab holds after a completed run does not
   * depend on what it, or any other tab, held before.
   */
  lemma DataTabIndependentOfHistory(env: Environment, tabs1: map<string, Grid>, tabs2: map<string, Grid>)
    requires ValidTime(env.now)
    requires RunSpec(env, tabs1).outcome.Completed? && RunSpec(env, tabs2).outcome.Completed?
    ensures RunSpec(env, tabs1).tabs[SheetName] == RunSpec(env, tabs2).tabs[SheetName]
  {
    CompletedRunContents(env, tabs1);
    CompletedRunContents(env, tabs2);
  }
}
