/**
 * One table row per scanned account: the project name, the profile URL,
 * the score as a percentage and the TGE schedule. The extractor only runs
 * when the score is above the threshold of 60.
 */
module Report {
  import opened Wrappers
  import opened Builtins
  import opened Scoring
  import opened TgeExtraction

  /** The four columns `Project`, `Twitter`, `Token Likelihood`, `TGE Schedule`. */
  datatype Row = Row(project: string, twitter: string, tokenLikelihood: string, tgeSchedule: string)

  const TGE_THRESHOLD := 60
  const PROFILE_URL_PREFIX := "https://twitter.com/"
  const NO_SCHEDULE := "-"

  /** `f"https://twitter.com/{username}"` */
  function ProfileUrl(username: string): string
  {
    PROFILE_URL_PREFIX + username
  }

  /** `f"{score}%"`: the cell reads back as the score. */
  function LikelihoodCell(score: nat): (cell: string)
    ensures ParsePercent(cell) == Some(score)
    ensures score > 0 ==> cell[0] != '0'
    ensures |cell| > 2 ==> cell[0] != '0'
  {
    DecimalRoundTrip(score);
    var cell := DecimalString(score) + "%";
    assert cell[..|cell| - 1] == DecimalString(score);
    cell
  }

  /** `tge or "-"`: an absent or empty extraction shows as "-". */
  function ScheduleCell(tge: Option<string>): (cell: string)
    ensures cell != ""
    ensures tge.Some? && tge.value != "" ==> cell == tge.value
    ensures tge.None? || tge.value == "" ==> cell == NO_SCHEDULE
  {
    if tge.Some? && tge.value != "" then tge.value else NO_SCHEDULE
  }

  /**
   * The row for one account: `score_token_likelihood`, then
   * `extract_tge_info` only when the score exceeds the threshold.
   */
  function MakeRow(project: string, username: string, tweets: seq<string>, eng: Engines): Row
  {
    var score := ScoreTokenLikelihood(tweets);
    var tge := if score > TGE_THRESHOLD then ExtractTgeInfo(tweets, eng) else None;
    Row(project, ProfileUrl(username), LikelihoodCell(score), ScheduleCell(tge))
  }

  /**
   * What a row holds: the project, the profile URL, a likelihood cell that
   * reads back as the score, and a schedule that is "-" up to the threshold
   * and the extractor's cell above it.
   */
  lemma RowContents(project: string, username: string, tweets: seq<string>, eng: Engines)
    ensures var row := MakeRow(project, username, tweets, eng);
      && row.project == project
      && row.twitter == ProfileUrl(username)
      && ParsePercent(row.tokenLikelihood) == Some(ScoreTokenLikelihood(tweets))
      && (ScoreTokenLikelihood(tweets) <= TGE_THRESHOLD ==> row.tgeSchedule == NO_SCHEDULE)
      && (ScoreTokenLikelihood(tweets) > TGE_THRESHOLD ==>
            row.tgeSchedule == ScheduleCell(ExtractTgeInfo(tweets, eng)))
  {
  }

  /**
   * The schedule is "-" whenever fewer than five keywords occur, and also
   * whenever no TGE pattern matches.
   */
  lemma ScheduleGate(project: string, username: string, tweets: seq<string>, eng: Engines)
    ensures |PresentKeywords(tweets)| <= 4 ==> MakeRow(project, username, tweets, eng).tgeSchedule == NO_SCHEDULE
    ensures (forall j: nat :: j < |TGE_PATTERNS| ==> !PatternMatches(eng, j, Join(tweets))) ==>
      MakeRow(project, username, tweets, eng).tgeSchedule == NO_SCHEDULE
  {
    RowContents(project, username, tweets, eng);
    ScoreCountsDistinctKeywords(tweets);
    ExtractNoneIffNoMatch(tweets, eng);
  }

  /** An account with no tweets gets "0%" and "-". */
  lemma EmptyTweetsRow(project: string, username: string, eng: Engines)
    ensures MakeRow(project, username, [], eng) == Row(project, ProfileUrl(username), "0%", NO_SCHEDULE)
  {
    ScoreEmpty();
    assert DecimalString(0) == "0";
  }
}
