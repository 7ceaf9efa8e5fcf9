/**
 * The TGE (token generation event) date extractor: three regular
 * expressions are tried in a fixed order on the joined tweets, and the
 * first that matches decides the result. The regular-expression engine and
 * the fuzzy date parser are foreign libraries and stay abstract: they are
 * handed in as the functions of an `Engines` value.
 */
module TgeExtraction {
  import opened Wrappers
  import opened Builtins

  /** The three patterns, in the order they are tried. */
  const TGE_PATTERNS: seq<string> := [
    "(TGE|token launch|airdrop claim).*?(on|around)?\\s*(\\w+\\s\\d{1,2}(st|nd|rd|th)?(,?\\s*\\d{4})?)",
    "launching\\s+(this|next)?\\s*(month|week|quarter|year)",
    "(Q[1-4])\\s?(\\d{4})"
  ]

  /**
   * A successful regular-expression search: the whole matched text
   * (`group(0)`), `lastindex` (the number of the last group that took part,
   * `None` when no group did) and group 3 (`None` when that group did not
   * take part).
   */
  datatype Match = Match(whole: string, lastIndex: Option<nat>, group3: Option<string>)

  /**
   * `search(pattern, text)` stands for `re.search(pattern, text, re.IGNORECASE)`;
   * `parseDate(s)` for `parser.parse(s, fuzzy=True).strftime('%Y-%m-%d')`,
   * with `None` when parsing raises.
   */
  datatype Engines = Engines(search: (string, string) -> Option<Match>, parseDate: string -> Option<string>)

  /** Whether pattern number `k` matches somewhere in `text`. */
  predicate PatternMatches(eng: Engines, k: nat, text: string)
    requires k < |TGE_PATTERNS|
  {
    eng.search(TGE_PATTERNS[k], text).Some?
  }

  /**
   * The string handed to the date parser: group 3 when `lastindex >= 3`,
   * the whole match otherwise. `None` when computing it raises: comparing a
   * missing `lastindex` with 3 is a `TypeError`, and a group 3 that took no
   * part makes the parser raise in turn.
   */
  function DateString(m: Match): Option<string>
  {
    match m.lastIndex
    case None => None
    case Some(last) => if last >= 3 then m.group3 else Some(m.whole)
  }

  /** The answer for a match: the parsed date, or the whole match if anything raised. */
  function OnMatch(m: Match, eng: Engines): (r: string)
    ensures r == m.whole || (DateString(m).Some? && eng.parseDate(DateString(m).value) == Some(r))
    ensures r != m.whole ==> DateString(m).Some? && eng.parseDate(DateString(m).value).Some?
    ensures DateString(m).Some? && eng.parseDate(DateString(m).value).Some? ==>
      r == eng.parseDate(DateString(m).value).value
  {
    match DateString(m)
    case None => m.whole
    case Some(s) =>
      match eng.parseDate(s)
      case None => m.whole
      case Some(date) => date
  }

  /** The loop over the patterns from number `k` on, returning at the first match. */
  function FirstMatchFrom(k: nat, text: string, eng: Engines): Option<string>
    requires k <= |TGE_PATTERNS|
    decreases |TGE_PATTERNS| - k
  {
    if k == |TGE_PATTERNS| then None
    else
      match eng.search(TGE_PATTERNS[k], text)
      case Some(m) => Some(OnMatch(m, eng))
      case None => FirstMatchFrom(k + 1, text, eng)
  }

  /** The loop from pattern `k` on answers `None` exactly when none of those patterns matches. */
  lemma {:induction false} FirstMatchFromNone(k: nat, text: string, eng: Engines)
    requires k <= |TGE_PATTERNS|
    ensures FirstMatchFrom(k, text, eng).None? <==>
      forall j: nat :: k <= j < |TGE_PATTERNS| ==> !PatternMatches(eng, j, text)
    decreases |TGE_PATTERNS| - k
  {
    if k < |TGE_PATTERNS| {
      FirstMatchFromNone(k + 1, text, eng);
      if PatternMatches(eng, k, text) {
        assert FirstMatchFrom(k, text, eng).Some?;
      }
    }
  }

  /** `extract_tge_info(tweets)`: the patterns are searched in the joined tweets, case kept. */
  function ExtractTgeInfo(tweets: seq<string>, eng: Engines): Option<string>
  {
    FirstMatchFrom(0, Join(tweets), eng)
  }

  /** The extractor answers `None` exactly when none of the three patterns matches. */
  lemma {:induction false} ExtractNoneIffNoMatch(tweets: seq<string>, eng: Engines)
    ensures ExtractTgeInfo(tweets, eng).None? ==>
      forall j: nat :: j < |TGE_PATTERNS| ==> !PatternMatches(eng, j, Join(tweets))
    ensures (forall j: nat :: j < |TGE_PATTERNS| ==> !PatternMatches(eng, j, Join(tweets))) ==>
      ExtractTgeInfo(tweets, eng).None?
  {
    var text := Join(tweets);
    FirstMatchFromNone(0, text, eng);
    if ExtractTgeInfo(tweets, eng).None? {
      forall j: nat | j < |TGE_PATTERNS| ensures !PatternMatches(eng, j, Join(tweets)) {
        assert !PatternMatches(eng, j, text);
      }
    }
  }

  /**
   * The first pattern that matches decides the answer, whatever the later
   * ones would say: the parsed date when parsing succeeds, otherwise
   * exactly the whole matched text.
   */
  lemma {:induction false} FirstMatchWinsFrom(k: nat, text: string, eng: Engines, j: nat)
    requires k <= j < |TGE_PATTERNS| && PatternMatches(eng, j, text)
    requires forall i :: k <= i < j ==> !PatternMatches(eng, i, text)
    ensures FirstMatchFrom(k, text, eng) == Some(OnMatch(eng.search(TGE_PATTERNS[j], text).value, eng))
    decreases j - k
  {
    if k < j {
      assert !PatternMatches(eng, k, text);
      FirstMatchWinsFrom(k + 1, text, eng, j);
    }
  }

  /** `extract_tge_info` answers from the first of the three patterns that matches. */
  lemma FirstMatchWins(tweets: seq<string>, eng: Engines, j: nat)
    requires j < |TGE_PATTERNS| && PatternMatches(eng, j, Join(tweets))
    requires forall i: nat :: i < j ==> !PatternMatches(eng, i, Join(tweets))
    ensures ExtractTgeInfo(tweets, eng) == Some(OnMatch(eng.search(TGE_PATTERNS[j], Join(tweets)).value, eng))
  {
    FirstMatchWinsFrom(0, Join(tweets), eng, j);
  }

  /**
   * The shape of a match of each pattern. In the first pattern, group 3 is
   * required and encloses groups 4 and 5, so it is the last group to close:
   * `lastindex` is 3 and group 3 is present. In the other two patterns
   * group 2 is required and is the last group: `lastindex` is 2.
   */
  predicate MatchShape(k: nat, m: Match)
  {
    if k == 0 then m.lastIndex == Some(3) && m.group3.Some? else m.lastIndex == Some(2)
  }

  /** A regular-expression engine whose matches of the three patterns have their shape. */
  ghost predicate ValidEngines(eng: Engines)
  {
    forall k: nat, text: string :: k < |TGE_PATTERNS| && PatternMatches(eng, k, text) ==>
      MatchShape(k, eng.search(TGE_PATTERNS[k], text).value)
  }

  /**
   * What the parser sees for each pattern: group 3 for the first, the
   * whole match for the other two. The answer is the parsed date, or the
   * whole match when parsing raises.
   */
  lemma ParsedStringByPattern(k: nat, text: string, eng: Engines)
    requires ValidEngines(eng)
    requires k < |TGE_PATTERNS| && PatternMatches(eng, k, text)
    ensures var m := eng.search(TGE_PATTERNS[k], text).value;
      && (k == 0 && eng.parseDate(m.group3.value).Some? ==> OnMatch(m, eng) == eng.parseDate(m.group3.value).value)
      && (k == 0 && eng.parseDate(m.group3.value).None? ==> OnMatch(m, eng) == m.whole)
      && (k > 0 && eng.parseDate(m.whole).Some? ==> OnMatch(m, eng) == eng.parseDate(m.whole).value)
      && (k > 0 && eng.parseDate(m.whole).None? ==> OnMatch(m, eng) == m.whole)
  {
    var m := eng.search(TGE_PATTERNS[k], text).value;
    assert MatchShape(k, m);
  }
}
