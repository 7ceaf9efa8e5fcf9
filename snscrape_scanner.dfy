/**
 * The free-mode scan over a curated list of handles. The scraper's tweet
 * stream for each handle is an input (`timeline`), and so is the stop
 * callback, read once per handle before that handle is scraped.
 */
module SnscrapeScanner {
  import opened Wrappers
  import opened Builtins
  import opened TgeExtraction
  import opened Report

  const CURATED_HANDLES: seq<string> := ["orb_land", "berapunks", "chonk_station"]
  const TWEETS_PER_HANDLE := 5

  /** The row the scan builds for one handle: the handle is also the project name. */
  function HandleRow(username: string, items: seq<string>, eng: Engines): Row
  {
    MakeRow(username, username, items[..Min(|items|, TWEETS_PER_HANDLE)], eng)
  }

  /** The `enumerate` loop that keeps the first five scraped tweets. */
  method TakeTweets(items: seq<string>) returns (tweets: seq<string>)
    ensures |tweets| == Min(|items|, TWEETS_PER_HANDLE)
    ensures tweets == items[..|tweets|]
  {
    tweets := [];
    var i := 0;
    while i < |items|
      invariant i <= |items| && i <= TWEETS_PER_HANDLE
      invariant tweets == items[..i]
    {
      if i >= TWEETS_PER_HANDLE {
        break;
      }
      tweets := tweets + [items[i]];
      i := i + 1;
    }
  }

  /** The row for each handle, as a function of the handle. */
  function RowFor(timeline: string -> seq<string>, eng: Engines): string -> Row
  {
    u => HandleRow(u, timeline(u), eng)
  }

  /** The body of the scan for one handle: scrape, keep five tweets, build the row. */
  method ScanHandle(username: string, timeline: string -> seq<string>, eng: Engines) returns (row: Row)
    ensures row == RowFor(timeline, eng)(username)
  {
    var tweets := TakeTweets(timeline(username));
    row := MakeRow(username, username, tweets, eng);
  }

  /** The stop callback answered false at each of its first `n` calls. */
  predicate NoStopBefore(stopFlag: nat -> bool, n: nat)
  {
    n == 0 || (NoStopBefore(stopFlag, n - 1) && !stopFlag(n - 1))
  }

  lemma {:induction false} NoStopBeforeAll(stopFlag: nat -> bool, n: nat)
    requires NoStopBefore(stopFlag, n)
    ensures forall j :: 0 <= j < n ==> !stopFlag(j)
  {
    if n > 0 {
      NoStopBeforeAll(stopFlag, n - 1);
    }
  }

  /**
   * `discover_projects_with_snscrape(stop_flag)`: one row per handle, in list
   * order, until the first handle for which the stop callback answers true.
   * `stopFlag(k)` is the callback's answer at its `k`-th call.
   */
  method DiscoverProjectsWithSnscrape(stopFlag: nat -> bool, timeline: string -> seq<string>, eng: Engines)
    returns (rows: seq<Row>)
    ensures |rows| <= |CURATED_HANDLES|
    ensures forall j :: 0 <= j < |rows| ==> !stopFlag(j)
    ensures |rows| < |CURATED_HANDLES| ==> stopFlag(|rows|)
    ensures rows == MapSeq(CURATED_HANDLES[..|rows|], RowFor(timeline, eng))
  {
    var usernames := CURATED_HANDLES;
    rows := [];
    var k := 0;
    while k < |usernames|
      invariant k <= |usernames|
      invariant NoStopBefore(stopFlag, k)
      invariant rows == MapSeq(usernames[..k], RowFor(timeline, eng))
    {
      if stopFlag(k) {
        break;
      }
      var row := ScanHandle(usernames[k], timeline, eng);
      MapSeqStep(usernames, k, RowFor(timeline, eng));
      rows := rows + [row];
      k := k + 1;
    }
    MapSeqIndex(usernames[..k], RowFor(timeline, eng));
    NoStopBeforeAll(stopFlag, k);
  }

  /** The `j`-th row of a scan that got through `n` handles is the row for the `j`-th curated handle. */
  lemma ScannedRowsByHandle(n: nat, timeline: string -> seq<string>, eng: Engines)
    requires n <= |CURATED_HANDLES|
    ensures |MapSeq(CURATED_HANDLES[..n], RowFor(timeline, eng))| == n
    ensures forall j :: 0 <= j < n ==>
      MapSeq(CURATED_HANDLES[..n], RowFor(timeline, eng))[j]
        == HandleRow(CURATED_HANDLES[j], timeline(CURATED_HANDLES[j]), eng)
  {
    MapSeqIndex(CURATED_HANDLES[..n], RowFor(timeline, eng));
  }

  /**
   * The script as wired: the scan starts only when Run was pressed and Stop
   * was not, and `should_stop` hands back the Stop state read at script
   * start. The stop check inside the loop therefore never fires: a scan
   * that starts always covers every curated handle.
   */
  method RunFreeModeScan(run: bool, stop: bool, timeline: string -> seq<string>, eng: Engines)
    returns (rows: Option<seq<Row>>)
    ensures rows.Some? <==> run && !stop
    ensures rows.Some? ==> |rows.value| == |CURATED_HANDLES|
    ensures rows.Some? ==> rows.value == MapSeq(CURATED_HANDLES, RowFor(timeline, eng))
  {
    if run && !stop {
      var scanned := DiscoverProjectsWithSnscrape((k: nat) => stop, timeline, eng);
      assert CURATED_HANDLES[..|scanned|] == CURATED_HANDLES;
      rows := Some(scanned);
    } else {
      rows := None;
    }
  }
}
