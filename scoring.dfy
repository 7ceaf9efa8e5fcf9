/**
 * The keyword likelihood scorer: the tweets are joined with spaces and
 * lower-cased, and each of seven fixed keywords that occurs somewhere in
 * that text earns 15 points, capped at 100.
 */
module Scoring {
  import opened Builtins

  const TOKEN_KEYWORDS: seq<string> := ["airdrop", "token", "launch", "points", "claim", "rewards", "mainnet"]
  const POINTS_PER_KEYWORD := 15
  const MAX_SCORE := 100

  /** Every value the scorer can produce. */
  const SCORE_VALUES: set<nat> := {0, 15, 30, 45, 60, 75, 90, 100}

  /** `sum(1 for kw in keywords if kw in text)`: how many listed keywords occur. */
  function CountPresent(keywords: seq<string>, text: string): (n: nat)
    ensures n <= |keywords|
  {
    if |keywords| == 0 then 0
    else (if Contains(keywords[0], text) then 1 else 0) + CountPresent(keywords[1..], text)
  }

  /** The count is zero exactly when none of the keywords occurs. */
  lemma {:induction false} CountPresentZero(keywords: seq<string>, text: string)
    ensures CountPresent(keywords, text) == 0 <==>
      forall k :: 0 <= k < |keywords| ==> !Contains(keywords[k], text)
  {
    if |keywords| > 0 {
      var rest := keywords[1..];
      CountPresentZero(rest, text);
      assert forall k :: 1 <= k < |keywords| ==> keywords[k] == rest[k - 1];
    }
  }

  /** `score_token_likelihood(tweets)`. */
  function ScoreTokenLikelihood(tweets: seq<string>): (score: nat)
    ensures score in SCORE_VALUES
  {
    var n := CountPresent(TOKEN_KEYWORDS, Lower(Join(tweets)));
    assert n in {0, 1, 2, 3, 4, 5, 6, 7};
    Min(MAX_SCORE, n * POINTS_PER_KEYWORD)
  }

  /** The score is zero exactly when no keyword occurs in the lower-cased joined tweets. */
  lemma ScoreZeroIffNoKeyword(tweets: seq<string>)
    ensures ScoreTokenLikelihood(tweets) == 0 <==>
      forall k :: 0 <= k < |TOKEN_KEYWORDS| ==> !Contains(TOKEN_KEYWORDS[k], Lower(Join(tweets)))
  {
    CountPresentZero(TOKEN_KEYWORDS, Lower(Join(tweets)));
  }

  /** The keywords that occur in the lower-cased joined tweets. */
  function PresentKeywords(tweets: seq<string>): set<string>
  {
    set kw | kw in TOKEN_KEYWORDS && Contains(kw, Lower(Join(tweets)))
  }

  /** The keywords are pairwise distinct. */
  lemma KeywordsDistinct()
    ensures forall i, j :: 0 <= i < j < |TOKEN_KEYWORDS| ==> TOKEN_KEYWORDS[i] != TOKEN_KEYWORDS[j]
  {
  }

  /** Each keyword is non-empty, free of spaces and already lower case. */
  lemma KeywordShape(kw: string)
    requires kw in TOKEN_KEYWORDS
    ensures |kw| > 0 && ' ' !in kw && Lower(kw) == kw
  {
    assert forall i :: 0 <= i < |kw| ==> 'a' <= kw[i] <= 'z';
  }

  /**
   * A word occurs in a different keyword only when it is shorter and every
   * character of it, `c` among them, occurs in that keyword.
   */
  lemma NotInsideOther(a: string, b: string, c: char)
    requires a != b && c in a
    requires |b| > |a| ==> c !in b
    ensures !Contains(a, b)
  {
    if |a| == |b| {
      ContainsSameLength(a, b);
    } else if |a| < |b| {
      ContainsChar(a, b, c);
    }
  }

  /** The five- and six-letter keywords other than "points" occur in no other keyword. */
  lemma ShortKeywordsDoNotNest(a: string, b: string)
    requires a in {"token", "claim", "launch"} && b in TOKEN_KEYWORDS && a != b
    ensures !Contains(a, b)
  {
    if a == "token" {
      NotInsideOther(a, b, 'k');
    } else if a == "claim" {
      NotInsideOther(a, b, if b == "mainnet" then 'c' else 'm');
    } else {
      NotInsideOther(a, b, 'h');
    }
  }

  /** "points" and the seven-letter keywords occur in no other keyword. */
  lemma LongKeywordsDoNotNest(a: string, b: string)
    requires a in {"points", "airdrop", "rewards", "mainnet"} && b in TOKEN_KEYWORDS && a != b
    ensures !Contains(a, b)
  {
    if a == "points" {
      NotInsideOther(a, b, if b == "airdrop" then 's' else 'p');
    } else {
      NotInsideOther(a, b, a[0]);
    }
  }

  /** No keyword occurs inside another one. */
  lemma KeywordsDoNotNest(a: string, b: string)
    requires a in TOKEN_KEYWORDS && b in TOKEN_KEYWORDS && a != b
    ensures !Contains(a, b)
  {
    if a in {"token", "claim", "launch"} {
      ShortKeywordsDoNotNest(a, b);
    } else {
      LongKeywordsDoNotNest(a, b);
    }
  }

  /** In a list without repeats, the first item does not occur again. */
  lemma HeadNotInTail(keywords: seq<string>)
    requires |keywords| > 0
    requires forall i, j :: 0 <= i < j < |keywords| ==> keywords[i] != keywords[j]
    ensures keywords[0] !in keywords[1..]
  {
    forall j | 0 <= j < |keywords| - 1 ensures keywords[1..][j] != keywords[0] {
      assert keywords[1..][j] == keywords[j + 1];
    }
  }

  /** Over distinct keywords, the count is the number of distinct keywords present. */
  lemma {:induction false} CountPresentIsCardinality(keywords: seq<string>, text: string)
    requires forall i, j :: 0 <= i < j < |keywords| ==> keywords[i] != keywords[j]
    ensures CountPresent(keywords, text) == |set kw | kw in keywords && Contains(kw, text)|
  {
    var all := set kw | kw in keywords && Contains(kw, text);
    if |keywords| == 0 {
      assert all == {};
    } else {
      var rest := keywords[1..];
      CountPresentIsCardinality(rest, text);
      var tail := set kw | kw in rest && Contains(kw, text);
      HeadNotInTail(keywords);
      assert keywords == [keywords[0]] + rest;
      if Contains(keywords[0], text) {
        assert all == tail + {keywords[0]};
      } else {
        assert all == tail;
      }
    }
  }

  /** The score is 15 per distinct keyword present, capped at 100. */
  lemma ScoreCountsDistinctKeywords(tweets: seq<string>)
    ensures ScoreTokenLikelihood(tweets) == Min(MAX_SCORE, POINTS_PER_KEYWORD * |PresentKeywords(tweets)|)
  {
    KeywordsDistinct();
    CountPresentIsCardinality(TOKEN_KEYWORDS, Lower(Join(tweets)));
  }

  /** A keyword is present in the batch exactly when it occurs in one lower-cased tweet. */
  lemma PresentIffInSomeTweet(tweets: seq<string>, kw: string)
    requires kw in TOKEN_KEYWORDS
    ensures kw in PresentKeywords(tweets) <==> exists j :: 0 <= j < |tweets| && Contains(kw, Lower(tweets[j]))
  {
    KeywordShape(kw);
    LowerJoin(tweets);
    var lowered := LowerEach(tweets);
    ContainsJoin(kw, lowered);
    assert forall j :: 0 <= j < |tweets| ==> lowered[j] == Lower(tweets[j]);
  }

  /** No tweets, no points. */
  lemma ScoreEmpty()
    ensures ScoreTokenLikelihood([]) == 0
  {
    ScoreZeroIffNoKeyword([]);
    forall k | 0 <= k < |TOKEN_KEYWORDS| ensures !Contains(TOKEN_KEYWORDS[k], Lower(Join([]))) {
      KeywordShape(TOKEN_KEYWORDS[k]);
    }
  }

  /**
   * The score depends only on which tweet texts occur, not on their order
   * or how often each is repeated.
   */
  lemma ScoreDependsOnlyOnTweetSet(tweets: seq<string>, others: seq<string>)
    requires forall t :: t in tweets <==> t in others
    ensures ScoreTokenLikelihood(tweets) == ScoreTokenLikelihood(others)
  {
    forall kw | kw in TOKEN_KEYWORDS
      ensures kw in PresentKeywords(tweets) <==> kw in PresentKeywords(others)
    {
      PresentIffInSomeTweet(tweets, kw);
      PresentIffInSomeTweet(others, kw);
      if kw in PresentKeywords(tweets) {
        var j :| 0 <= j < |tweets| && Contains(kw, Lower(tweets[j]));
        assert tweets[j] in others;
      }
      if kw in PresentKeywords(others) {
        var j :| 0 <= j < |others| && Contains(kw, Lower(others[j]));
        assert others[j] in tweets;
      }
    }
    assert PresentKeywords(tweets) == PresentKeywords(others);
    ScoreCountsDistinctKeywords(tweets);
    ScoreCountsDistinctKeywords(others);
  }

  /** Reordering the tweets leaves the score unchanged. */
  lemma ScoreOrderIndependent(tweets: seq<string>, others: seq<string>)
    requires multiset(tweets) == multiset(others)
    ensures ScoreTokenLikelihood(tweets) == ScoreTokenLikelihood(others)
  {
    forall t ensures t in tweets <==> t in others {
      assert t in tweets <==> t in multiset(tweets);
      assert t in others <==> t in multiset(others);
    }
    ScoreDependsOnlyOnTweetSet(tweets, others);
  }

  /** Tweets that agree up to letter case score the same. */
  lemma ScoreCaseInsensitive(tweets: seq<string>, others: seq<string>)
    requires |tweets| == |others|
    requires forall j :: 0 <= j < |tweets| ==> Lower(tweets[j]) == Lower(others[j])
    ensures ScoreTokenLikelihood(tweets) == ScoreTokenLikelihood(others)
  {
    LowerJoin(tweets);
    LowerJoin(others);
    assert LowerEach(tweets) == LowerEach(others);
  }

  /** `n` copies of the same tweet text. */
  function Repeat(t: string, n: nat): seq<string>
  {
    seq(n, _ => t)
  }

  /** Appending a text several times brings in the same texts as appending it once. */
  lemma RepeatSameTexts(tweets: seq<string>, t: string, n: nat)
    requires n >= 1
    ensures forall u :: u in tweets + Repeat(t, n) <==> u in tweets + [t]
  {
    var more := tweets + [t];
    var repeated := tweets + Repeat(t, n);
    assert repeated[|tweets|] == t;
    forall u ensures u in repeated <==> u in more {
      if u in repeated && u !in tweets {
        var j :| 0 <= j < |repeated| && repeated[j] == u;
        assert j >= |tweets|;
      }
    }
  }

  /** Posting a keyword makes exactly that keyword present, on top of those already present. */
  lemma AddKeywordPresent(tweets: seq<string>, kw: string)
    requires kw in TOKEN_KEYWORDS
    ensures PresentKeywords(tweets + [kw]) == PresentKeywords(tweets) + {kw}
  {
    KeywordShape(kw);
    var more := tweets + [kw];
    forall k | k in TOKEN_KEYWORDS
      ensures k in PresentKeywords(more) <==> k in PresentKeywords(tweets) || k == kw
    {
      PresentIffInSomeTweet(tweets, k);
      PresentIffInSomeTweet(more, k);
      assert more[|tweets|] == kw;
      assert Contains(kw, Lower(kw)) by {
        assert OccursAt(kw, kw, 0);
      }
      if k in PresentKeywords(tweets) {
        var j :| 0 <= j < |tweets| && Contains(k, Lower(tweets[j]));
        assert more[j] == tweets[j];
      }
      if k in PresentKeywords(more) && k != kw {
        KeywordsDoNotNest(k, kw);
        var j :| 0 <= j < |more| && Contains(k, Lower(more[j]));
        assert j < |tweets|;
        assert more[j] == tweets[j];
      }
    }
  }

  /**
   * Posting a keyword, once or many times, adds at most 15 points: each
   * keyword is one presence test, never a frequency count.
   */
  lemma RepeatedKeywordAddsAtMost15(tweets: seq<string>, kw: string, n: nat)
    requires kw in TOKEN_KEYWORDS && n >= 1
    ensures ScoreTokenLikelihood(tweets + Repeat(kw, n)) == ScoreTokenLikelihood(tweets + [kw])
    ensures ScoreTokenLikelihood(tweets) <= ScoreTokenLikelihood(tweets + [kw]) <= ScoreTokenLikelihood(tweets) + POINTS_PER_KEYWORD
  {
    RepeatSameTexts(tweets, kw, n);
    ScoreDependsOnlyOnTweetSet(tweets + Repeat(kw, n), tweets + [kw]);
    AddKeywordPresent(tweets, kw);
    var before := PresentKeywords(tweets);
    if kw in before {
      assert before + {kw} == before;
    } else {
      assert |before + {kw}| == |before| + 1;
    }
    ScoreCountsDistinctKeywords(tweets);
    ScoreCountsDistinctKeywords(tweets + [kw]);
  }

  /** The worked example, cut into five pieces. */
  lemma ExamplePieces()
    ensures "Our airdrop and token claim launch on mainnet"
      == "Our airdrop and " + "token " + "claim " + "launch on " + "mainnet"
  {
  }

  /** Lower-casing the pieces of the worked example. */
  lemma ExamplePiecesLowered()
    ensures Lower("Our airdrop and ") == "our airdrop and "
    ensures Lower("token ") == "token " && Lower("claim ") == "claim "
    ensures Lower("launch on ") == "launch on " && Lower("mainnet") == "mainnet"
  {
  }

  /** The lower-cased text of the worked example, in five pieces. */
  lemma ExampleText()
    ensures Lower(Join(["Our airdrop and token claim launch on mainnet"]))
      == "our airdrop and " + "token " + "claim " + "launch on " + "mainnet"
  {
    var o0, c1, c2, c3, c4 := "Our airdrop and ", "token ", "claim ", "launch on ", "mainnet";
    ExamplePieces();
    LowerAppend(o0 + c1 + c2 + c3, c4);
    LowerAppend(o0 + c1 + c2, c3);
    LowerAppend(o0 + c1, c2);
    LowerAppend(o0, c1);
    ExamplePiecesLowered();
  }

  /** The keywords that do occur in the worked example. */
  lemma ExampleHits(kw: string)
    requires kw in ["airdrop", "token", "claim", "launch", "mainnet"]
    ensures Contains(kw, "our airdrop and " + "token " + "claim " + "launch on " + "mainnet")
  {
    var c0, c1, c2, c3, c4 := "our airdrop and ", "token ", "claim ", "launch on ", "mainnet";
    assert OccursAt("airdrop", c0, 4) && OccursAt("token", c1, 0) && OccursAt("claim", c2, 0);
    assert OccursAt("launch", c3, 0) && OccursAt("mainnet", c4, 0);
    ContainsInConcat(kw, c0, c1);
    ContainsInConcat(kw, c0 + c1, c2);
    ContainsInConcat(kw, c0 + c1 + c2, c3);
    ContainsInConcat(kw, c0 + c1 + c2 + c3, c4);
  }

  /** "points" and "rewards" both need an 's', which the worked example lacks. */
  lemma ExampleMisses()
    ensures !Contains("points", "our airdrop and " + "token " + "claim " + "launch on " + "mainnet")
    ensures !Contains("rewards", "our airdrop and " + "token " + "claim " + "launch on " + "mainnet")
  {
    var text := "our airdrop and " + "token " + "claim " + "launch on " + "mainnet";
    assert 's' !in text;
    ContainsChar("points", text, 's');
    ContainsChar("rewards", text, 's');
  }

  /** Which keywords are present follows from the seven presence tests alone. */
  lemma FiveOfSeven(text: string)
    requires Contains("airdrop", text) && Contains("token", text) && Contains("claim", text)
    requires Contains("launch", text) && Contains("mainnet", text)
    requires !Contains("points", text) && !Contains("rewards", text)
    ensures (set kw | kw in TOKEN_KEYWORDS && Contains(kw, text)) == {"airdrop", "token", "claim", "launch", "mainnet"}
  {
  }

  /** The keywords that occur in the lower-cased worked example. */
  lemma ExampleKeywords()
    ensures var text := "our airdrop and " + "token " + "claim " + "launch on " + "mainnet";
      (set kw | kw in TOKEN_KEYWORDS && Contains(kw, text)) == {"airdrop", "token", "claim", "launch", "mainnet"}
  {
    ExampleMisses();
    ExampleHits("airdrop");
    ExampleHits("token");
    ExampleHits("claim");
    ExampleHits("launch");
    ExampleHits("mainnet");
    FiveOfSeven("our airdrop and " + "token " + "claim " + "launch on " + "mainnet");
  }

  /**
   * A worked example: five distinct keywords occur ("airdrop", "token",
   * "claim", "launch", "mainnet"); "points" and "rewards" do not, since the
   * text has no letter 's'. The score is 75.
   */
  lemma ScoreExample()
    ensures ScoreTokenLikelihood(["Our airdrop and token claim launch on mainnet"]) == 75
  {
    var tweets := ["Our airdrop and token claim launch on mainnet"];
    ExampleText();
    ExampleKeywords();
    assert |{"airdrop", "token", "claim", "launch", "mainnet"}| == 5;
    ScoreCountsDistinctKeywords(tweets);
  }
}
