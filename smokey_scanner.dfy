/**
 * The API-backed scan: collect the accounts a fixed user follows, page by
 * page, then score each account's recent tweets. The pages and each
 * account's tweet fetch are inputs; a fetch that raises is one of the
 * fetch's possible outcomes.
 */
module SmokeyScanner {
  import opened Wrappers
  import opened Builtins
  import opened Scoring
  import opened TgeExtraction
  import opened Report

  /** `{'id': ..., 'name': ..., 'username': ...}` */
  datatype User = User(id: int, name: string, username: string)

  /** One page from the paginator; `data` is `None` when the page carries no users. */
  datatype Page = Page(data: Option<seq<User>>)

  /** The outcome of `get_users_tweets(...).data`: it raised, or gave a (possibly missing) list. */
  datatype Fetch = Raised | Fetched(data: Option<seq<string>>)

  /** The default `max_users` of `get_smokey_followed_users`. */
  const DEFAULT_MAX_USERS := 3

  /** The users a page contributes: none when its data is missing or empty. */
  function PageUsers(page: Page): seq<User>
  {
    match page.data
    case None => []
    case Some(users) => users
  }

  /** All followed users, page after page, in order. */
  function Flatten(pages: seq<Page>): seq<User>
  {
    if |pages| == 0 then [] else Flatten(pages[..|pages| - 1]) + PageUsers(pages[|pages| - 1])
  }

  lemma {:induction false} FlattenAppend(pages: seq<Page>, more: seq<Page>)
    ensures Flatten(pages + more) == Flatten(pages) + Flatten(more)
    decreases |more|
  {
    if |more| > 0 {
      var last := |more| - 1;
      assert (pages + more)[..|pages + more| - 1] == pages + more[..last];
      FlattenAppend(pages, more[..last]);
    } else {
      assert pages + more == pages;
    }
  }

  /** A user is collected exactly when some page's data holds it. */
  lemma {:induction false} FlattenMembership(pages: seq<Page>, u: User)
    ensures u in Flatten(pages) <==> exists p :: 0 <= p < |pages| && u in PageUsers(pages[p])
  {
    if |pages| > 0 {
      var init := pages[..|pages| - 1];
      FlattenMembership(init, u);
      if exists p :: 0 <= p < |pages| && u in PageUsers(pages[p]) {
        var p :| 0 <= p < |pages| && u in PageUsers(pages[p]);
        if p < |pages| - 1 {
          assert init[p] == pages[p];
        }
      }
    }
  }

  /** A page whose data is missing or empty leaves the collected users as they were. */
  lemma EmptyPageContributesNothing(before: seq<Page>, page: Page, after: seq<Page>)
    requires PageUsers(page) == []
    ensures Flatten(before + [page] + after) == Flatten(before + after)
  {
    var withPage := before + [page];
    assert [page][..0] == [];
    assert Flatten([page]) == [];
    FlattenAppend(before, [page]);
    assert Flatten(withPage) == Flatten(before);
    FlattenAppend(withPage, after);
    FlattenAppend(before, after);
  }

  /** The users collected up to item `i` of page `p` are a prefix of all followed users. */
  lemma CollectedPrefix(pages: seq<Page>, p: nat, i: nat)
    requires p < |pages| && i < |PageUsers(pages[p])|
    ensures var taken := Flatten(pages[..p]) + PageUsers(pages[p])[..i + 1];
      |taken| <= |Flatten(pages)| && taken == Flatten(pages)[..|taken|]
  {
    var data := PageUsers(pages[p]);
    FlattenAppend(pages[..p + 1], pages[p + 1..]);
    assert pages[..p + 1] + pages[p + 1..] == pages;
    assert pages[..p + 1][..p] == pages[..p];
    assert Flatten(pages[..p + 1]) == Flatten(pages[..p]) + data;
  }

  /**
   * `get_smokey_followed_users(max_users)`: users are appended page by page
   * and returned as soon as there are `max_users` of them. The check runs
   * after each append, so at least one user is returned whenever one exists,
   * even for `max_users <= 0`.
   */
  method GetSmokeyFollowedUsers(pages: seq<Page>, maxUsers: int) returns (users: seq<User>)
    ensures users == Flatten(pages)[..Min(|Flatten(pages)|, Max(maxUsers, 1))]
  {
    users := [];
    var p := 0;
    while p < |pages|
      invariant p <= |pages|
      invariant users == Flatten(pages[..p])
      invariant |users| < Max(maxUsers, 1)
    {
      var data := PageUsers(pages[p]);
      if pages[p].data.Some? && |data| > 0 {
        var i := 0;
        while i < |data|
          invariant i <= |data|
          invariant users == Flatten(pages[..p]) + data[..i]
          invariant |users| < Max(maxUsers, 1)
        {
          users := users + [data[i]];
          if |users| >= maxUsers {
            assert data[..i + 1] == data[..i] + [data[i]];
            CollectedPrefix(pages, p, i);
            return;
          }
          i := i + 1;
        }
        assert data[..i] == data;
      }
      assert pages[..p + 1][..p] == pages[..p];
      p := p + 1;
    }
    assert pages[..p] == pages;
  }

  /**
   * What the collection promises: a prefix of all followed users, at most
   * `max_users` of them when `max_users >= 1`, and all of them when fewer
   * than `max_users` exist.
   */
  lemma FollowedUsersLimit(pages: seq<Page>, maxUsers: int)
    ensures var users := Flatten(pages)[..Min(|Flatten(pages)|, Max(maxUsers, 1))];
      && users <= Flatten(pages)
      && (maxUsers >= 1 ==> |users| <= maxUsers)
      && (|Flatten(pages)| < maxUsers ==> users == Flatten(pages))
      && (|Flatten(pages)| > 0 ==> |users| > 0)
  {
  }

  /** The tweet texts of a fetch: `[t.text for t in tweets] if tweets else []`. */
  function TweetTexts(data: Option<seq<string>>): seq<string>
  {
    match data
    case None => []
    case Some(texts) => texts
  }

  /** The row for one user, or none when fetching its tweets raised. */
  function UserRow(user: User, fetch: int -> Fetch, eng: Engines): Option<Row>
  {
    match fetch(user.id)
    case Raised => None
    case Fetched(data) => Some(MakeRow(user.name, user.username, TweetTexts(data), eng))
  }

  /** A value that may be missing, as a list of zero or one values. */
  function OptionList<R>(o: Option<R>): seq<R>
  {
    match o
    case None => []
    case Some(v) => [v]
  }

  /** The values `f` gives for `xs`, in order, leaving out the items it gives none for. */
  function Kept<T, R>(xs: seq<T>, f: T -> Option<R>): seq<R>
  {
    if |xs| == 0 then [] else Kept(xs[..|xs| - 1], f) + OptionList(f(xs[|xs| - 1]))
  }

  lemma KeptStep<T, R>(xs: seq<T>, k: nat, f: T -> Option<R>)
    requires k < |xs|
    ensures Kept(xs[..k + 1], f) == Kept(xs[..k], f) + OptionList(f(xs[k]))
  {
    assert xs[..k + 1][..k] == xs[..k];
  }

  lemma {:induction false} KeptAppend<T, R>(xs: seq<T>, ys: seq<T>, f: T -> Option<R>)
    ensures Kept(xs + ys, f) == Kept(xs, f) + Kept(ys, f)
    decreases |ys|
  {
    if |ys| == 0 {
      assert xs + ys == xs;
    } else {
      var last := |ys| - 1;
      assert (xs + ys)[..|xs + ys| - 1] == xs + ys[..last];
      KeptAppend(xs, ys[..last], f);
    }
  }

  lemma KeptSkipsNone<T, R>(xs: seq<T>, j: nat, f: T -> Option<R>)
    requires j < |xs| && f(xs[j]).None?
    ensures Kept(xs, f) == Kept(xs[..j], f) + Kept(xs[j + 1..], f)
  {
    assert xs == xs[..j + 1] + xs[j + 1..];
    KeptAppend(xs[..j + 1], xs[j + 1..], f);
    KeptStep(xs, j, f);
  }

  lemma {:induction false} KeptAllPresent<T, R>(xs: seq<T>, f: T -> Option<R>)
    requires forall j :: 0 <= j < |xs| ==> f(xs[j]).Some?
    ensures |Kept(xs, f)| == |xs|
    ensures forall j :: 0 <= j < |xs| ==> Some(Kept(xs, f)[j]) == f(xs[j])
  {
    if |xs| > 0 {
      var n := |xs| - 1;
      var init := xs[..n];
      forall j | 0 <= j < |init| ensures f(init[j]).Some? {
        assert init[j] == xs[j];
      }
      KeptAllPresent(init, f);
      forall j | 0 <= j < |xs| ensures Some(Kept(xs, f)[j]) == f(xs[j]) {
        if j < n {
          assert xs[j] == init[j];
        }
      }
    }
  }

  lemma {:induction false} KeptAtMost<T, R>(xs: seq<T>, f: T -> Option<R>)
    ensures |Kept(xs, f)| <= |xs|
  {
    if |xs| > 0 {
      KeptAtMost(xs[..|xs| - 1], f);
    }
  }

  /** The per-user step of the scan, as a function of the user. */
  function RowOf(fetch: int -> Fetch, eng: Engines): User -> Option<Row>
  {
    u => UserRow(u, fetch, eng)
  }

  /** The rows for a list of users, in user order, skipping users whose fetch raised. */
  function UserRows(users: seq<User>, fetch: int -> Fetch, eng: Engines): seq<Row>
  {
    Kept(users, RowOf(fetch, eng))
  }

  /** Scanning one more user appends that user's row, if any. */
  lemma UserRowsStep(users: seq<User>, k: nat, fetch: int -> Fetch, eng: Engines)
    requires k < |users|
    ensures UserRows(users[..k + 1], fetch, eng) == UserRows(users[..k], fetch, eng) + OptionList(UserRow(users[k], fetch, eng))
  {
    KeptStep(users, k, RowOf(fetch, eng));
  }

  /** The `try` block for one user: its row, or none when fetching its tweets raises. */
  method ScanUser(user: User, fetch: int -> Fetch, eng: Engines) returns (row: Option<Row>)
    ensures row == RowOf(fetch, eng)(user)
    ensures row.None? <==> fetch(user.id) == Raised
    ensures row.Some? ==>
      && row.value.project == user.name
      && row.value.twitter == ProfileUrl(user.username)
      && ParsePercent(row.value.tokenLikelihood) == Some(ScoreTokenLikelihood(TweetTexts(fetch(user.id).data)))
    ensures fetch(user.id) == Fetched(None) ==> row == Some(Row(user.name, ProfileUrl(user.username), "0%", NO_SCHEDULE))
  {
    var outcome := fetch(user.id);
    if outcome.Fetched? {
      var tweetTexts := TweetTexts(outcome.data);
      RowContents(user.name, user.username, tweetTexts, eng);
      if outcome.data.None? {
        EmptyTweetsRow(user.name, user.username, eng);
      }
      row := Some(MakeRow(user.name, user.username, tweetTexts, eng));
    } else {
      row := None;
    }
  }

  /**
   * `discover_projects_from_smokey()`: the first `max_users` followed users
   * (three by default), each scanned inside `try`; a user whose fetch raises
   * is skipped and the loop goes on.
   */
  method DiscoverProjectsFromSmokey(pages: seq<Page>, fetch: int -> Fetch, eng: Engines) returns (rows: seq<Row>)
    ensures rows == UserRows(Flatten(pages)[..Min(|Flatten(pages)|, DEFAULT_MAX_USERS)], fetch, eng)
  {
    var users := GetSmokeyFollowedUsers(pages, DEFAULT_MAX_USERS);
    rows := [];
    var k := 0;
    while k < |users|
      invariant k <= |users|
      invariant rows == UserRows(users[..k], fetch, eng)
    {
      var row := ScanUser(users[k], fetch, eng);
      UserRowsStep(users, k, fetch, eng);
      if row.Some? {
        rows := rows + [row.value];
      }
      k := k + 1;
    }
    assert users[..k] == users;
  }

  /** Scanning two lists of users one after the other gives the rows of both, in order. */
  lemma UserRowsAppend(users: seq<User>, more: seq<User>, fetch: int -> Fetch, eng: Engines)
    ensures UserRows(users + more, fetch, eng) == UserRows(users, fetch, eng) + UserRows(more, fetch, eng)
  {
    KeptAppend(users, more, RowOf(fetch, eng));
  }

  /** A user whose fetch raises contributes no row; the users after it still do. */
  lemma FailingUserSkipped(users: seq<User>, j: nat, fetch: int -> Fetch, eng: Engines)
    requires j < |users| && fetch(users[j].id) == Raised
    ensures UserRows(users, fetch, eng) == UserRows(users[..j], fetch, eng) + UserRows(users[j + 1..], fetch, eng)
  {
    KeptSkipsNone(users, j, RowOf(fetch, eng));
  }

  /** When no fetch raises, there is exactly one row per user, in user order. */
  lemma RowPerUser(users: seq<User>, fetch: int -> Fetch, eng: Engines)
    requires forall j :: 0 <= j < |users| ==> fetch(users[j].id).Fetched?
    ensures |UserRows(users, fetch, eng)| == |users|
    ensures forall j :: 0 <= j < |users| ==> Some(UserRows(users, fetch, eng)[j]) == UserRow(users[j], fetch, eng)
  {
    KeptAllPresent(users, RowOf(fetch, eng));
  }

  /** There are never more rows than users. */
  lemma AtMostOneRowPerUser(users: seq<User>, fetch: int -> Fetch, eng: Engines)
    ensures |UserRows(users, fetch, eng)| <= |users|
  {
    KeptAtMost(users, RowOf(fetch, eng));
  }

  /** A user whose tweet data is missing still gets a row: "0%" and "-". */
  lemma MissingTweetsRow(user: User, fetch: int -> Fetch, eng: Engines)
    requires fetch(user.id) == Fetched(None)
    ensures UserRow(user, fetch, eng) == Some(Row(user.name, ProfileUrl(user.username), "0%", NO_SCHEDULE))
  {
    EmptyTweetsRow(user.name, user.username, eng);
  }
}
