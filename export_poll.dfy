/**
 * Waiting for the CSV export (main.py lines 70-82).  After the export button
 * is clicked the run sleeps 5 seconds, then lists "*.csv" in the download
 * directory up to 10 times, leaving the loop at the first non-empty listing
 * and sleeping 3 seconds after each empty one.  It then lists once more and
 * takes the first file of that final listing, or gives up when it is empty.
 *
 * The directory is an input: `dir(i)` is what the directory holds when it is
 * listed for the i-th time (counting from 0).
 */
module ExportPoll {

  type FileName = string

  /** `range(10)` on line 71. */
  const MaxPolls: nat := 10
  /** `time.sleep(5)` on line 70. */
  const SettleSeconds: nat := 5
  /** `time.sleep(3)` on line 75. */
  const PollIntervalSeconds: nat := 3

  /** A directory entry matched by the pattern `*.csv` of `glob`: ends in ".csv" and is not hidden. */
  predicate IsCsvName(name: FileName) {
    |name| >= 4 && name[|name| - 4..] == ".csv" && name[0] != '.'
  }

  /** `glob.glob` of `*.csv` in the download directory, in directory order. */
  function GlobCsv(entries: seq<FileName>): (files: seq<FileName>)
    ensures |files| <= |entries|
    ensures forall f :: f in files <==> f in entries && IsCsvName(f)
  {
    if entries == [] then []
    else if IsCsvName(entries[0]) then [entries[0]] + GlobCsv(entries[1..])
    else GlobCsv(entries[1..])
  }

  /** The first file glob reports is the first matching entry of the directory. */
  lemma {:induction false} GlobCsvFirst(entries: seq<FileName>, k: nat)
    requires k < |entries| && IsCsvName(entries[k])
    requires forall j :: 0 <= j < k ==> !IsCsvName(entries[j])
    ensures GlobCsv(entries) != [] && GlobCsv(entries)[0] == entries[k]
  {
    if k > 0 {
      GlobCsvFirst(entries[1..], k - 1);
    }
  }

  /** The `i`-th listing of the directory finds at least one CSV. */
  predicate FoundAt(dir: nat -> seq<FileName>, i: nat) {
    GlobCsv(dir(i)) != []
  }

  /** Number of listings made by the loop when it starts at listing `i`. */
  function ChecksFrom(dir: nat -> seq<FileName>, i: nat): (n: nat)
    requires i < MaxPolls
    ensures i < n <= MaxPolls
    ensures forall j :: i <= j < n - 1 ==> !FoundAt(dir, j)
    ensures FoundAt(dir, n - 1) || n == MaxPolls
    decreases MaxPolls - i
  {
    if FoundAt(dir, i) || i + 1 == MaxPolls then i + 1
    else ChecksFrom(dir, i + 1)
  }

  /**
   * Listings made by the loop on lines 71-75: between 1 and 10, all but the
   * last empty, and the last one is the first non-empty listing unless the
   * ten attempts ran out.
   */
  function LoopChecks(dir: nat -> seq<FileName>): (n: nat)
    ensures 1 <= n <= MaxPolls
    ensures forall j :: 0 <= j < n - 1 ==> !FoundAt(dir, j)
    ensures FoundAt(dir, n - 1) || n == MaxPolls
  {
    ChecksFrom(dir, 0)
  }

  datatype PollResult = Downloaded(file: FileName) | NotDownloaded

  /** Lines 77-82: the final listing decides; its first file is taken, with no freshness check. */
  function FinalChoice(files: seq<FileName>): (r: PollResult)
    ensures r.NotDownloaded? <==> files == []
    ensures r.Downloaded? ==> r.file == files[0]
  {
    if files == [] then NotDownloaded else Downloaded(files[0])
  }

  /** What the wait for the export ends with. */
  function PollOutcome(dir: nat -> seq<FileName>): PollResult {
    FinalChoice(GlobCsv(dir(LoopChecks(dir))))
  }

  /** Seconds slept: the initial settle plus one interval after each empty listing of the loop. */
  function WaitedSeconds(dir: nat -> seq<FileName>): nat {
    var n := LoopChecks(dir);
    SettleSeconds + PollIntervalSeconds * (if FoundAt(dir, n - 1) then n - 1 else MaxPolls)
  }

  /**
   * Lines 70-82.  Returns the outcome, the number of directory listings made
   * (the loop's plus the final one) and the seconds slept.
   */
  method AwaitExport(dir: nat -> seq<FileName>) returns (result: PollResult, checks: nat, waited: nat)
    ensures checks == LoopChecks(dir) + 1 && checks <= MaxPolls + 1
    ensures result == PollOutcome(dir)
    ensures waited == WaitedSeconds(dir)
    ensures waited <= SettleSeconds + PollIntervalSeconds * MaxPolls
  {
    waited := SettleSeconds;
    checks := 0;
    var files: seq<FileName> := [];
    var i := 0;
    while i < MaxPolls
      invariant 0 <= i <= MaxPolls && checks == i
      invariant waited == SettleSeconds + PollIntervalSeconds * i
      invariant i < MaxPolls ==> LoopChecks(dir) == ChecksFrom(dir, i)
      invariant i == MaxPolls ==> LoopChecks(dir) == MaxPolls && !FoundAt(dir, i - 1)
    {
      files := GlobCsv(dir(i));
      checks := checks + 1;
      if files != [] {
        break;
      }
      waited := waited + PollIntervalSeconds;
      i := i + 1;
    }
    files := GlobCsv(dir(checks));
    checks := checks + 1;
    if files == [] {
      result := NotDownloaded;
    } else {
      result := Downloaded(files[0]);
    }
  }

  /** An export that first shows up at listing `k` of the loop and stays is the file taken. */
  lemma AppearsDuringLoop(dir: nat -> seq<FileName>, k: nat)
    requires k < MaxPolls
    requires forall j :: 0 <= j < k ==> !FoundAt(dir, j)
    requires FoundAt(dir, k) && GlobCsv(dir(k + 1)) == GlobCsv(dir(k))
    ensures LoopChecks(dir) == k + 1
    ensures PollOutcome(dir) == Downloaded(GlobCsv(dir(k))[0])
    ensures WaitedSeconds(dir) == SettleSeconds + PollIntervalSeconds * k
  {
  }

  /** Eleven empty listings end the wait with nothing downloaded after all 10 loop listings. */
  lemma NeverAppears(dir: nat -> seq<FileName>)
    requires forall j :: 0 <= j <= MaxPolls ==> !FoundAt(dir, j)
    ensures LoopChecks(dir) == MaxPolls
    ensures PollOutcome(dir) == NotDownloaded
    ensures WaitedSeconds(dir) == SettleSeconds + PollIntervalSeconds * MaxPolls
  {
    assert !FoundAt(dir, LoopChecks(dir) - 1);
    assert !FoundAt(dir, MaxPolls);
  }

  /**
   * A listing seen by the loop does not decide the outcome: if the file is
   * gone at the final listing, nothing is downloaded.
   */
  lemma VanishedBeforeFinalListing(dir: nat -> seq<FileName>)
    requires FoundAt(dir, 0) && !FoundAt(dir, 1)
    ensures PollOutcome(dir) == NotDownloaded
  {
  }

  /**
   * A CSV already in the directory before the click (left by an earlier run)
   * is taken at once: the first listing is non-empty and its first file wins.
   */
  lemma StaleFileTaken(dir: nat -> seq<FileName>, stale: FileName)
    requires IsCsvName(stale)
    requires dir(0) == [stale] && dir(1) == [stale]
    ensures PollOutcome(dir) == Downloaded(stale)
  {
  }
}
