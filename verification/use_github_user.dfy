/**
 * The fetch orchestrator of src/hooks/use-github-user.ts: the four-state reducer,
 * the paginated repository crawl, the mapping of HTTP statuses to messages, and the
 * decision one effect run makes (reset, cache hit, or fetch) together with the
 * actions it dispatches and the session cache it leaves.
 *
 * The network is an input: the user endpoint's answer and the answers of the
 * repository pages 1, 2, ... in order.
 */
module GithubUser {
  import opened Maybe
  import opened Github

  // ---------------------------------------------------------------- reducer

  datatype State = State(status: Status, user: Option<User>, repos: seq<Repo>, error: Option<string>)

  const Initial := State(Idle, None, [], None)

  /** The cached and dispatched `{ user, repos }` pair. */
  datatype Payload = Payload(user: User, repos: seq<Repo>)

  /** The four action types, and any other `type` the reducer may be handed. */
  datatype Action =
    | FetchStart
    | FetchSuccess(payload: Payload)
    | FetchError(message: string)
    | Reset
    | Unrecognized(tag: string)

  /**
   * `githubReducer`. FETCH_START starts from the initial state; FETCH_SUCCESS keeps
   * the previous error and FETCH_ERROR keeps the previous user and repositories;
   * RESET returns the initial state; any other action leaves the state as it is.
   */
  function Reduce(s: State, a: Action): (r: State)
    ensures a.FetchStart? ==> r == State(Loading, None, [], None)
    ensures a.FetchSuccess? ==>
      r.status == Succeeded && r.user == Some(a.payload.user) && r.repos == a.payload.repos && r.error == s.error
    ensures a.FetchError? ==>
      r.status == Errored && r.error == Some(a.message) && r.user == s.user && r.repos == s.repos
    ensures a.Reset? ==> r == Initial
    ensures a.Unrecognized? ==> r == s
  {
    match a
    case FetchStart => Initial.(status := Loading)
    case FetchSuccess(payload) => s.(status := Succeeded, user := Some(payload.user), repos := payload.repos)
    case FetchError(message) => s.(status := Errored, error := Some(message))
    case Reset => Initial
    case Unrecognized(_) => s
  }

  /** The state after dispatching `actions` in order. */
  function Fold(s: State, actions: seq<Action>): State
    decreases |actions|
  {
    if |actions| == 0 then s else Fold(Reduce(s, actions[0]), actions[1..])
  }

  lemma FoldOne(s: State, a: Action)
    ensures Fold(s, [a]) == Reduce(s, a)
  {
    assert [a][1..] == [];
  }

  lemma FoldTwo(s: State, a: Action, b: Action)
    ensures Fold(s, [a, b]) == Reduce(Reduce(s, a), b)
  {
    assert [a, b][1..] == [b];
    FoldOne(Reduce(s, a), b);
  }

  /** Dispatching two batches is dispatching their concatenation. */
  lemma {:induction false} FoldAppend(s: State, xs: seq<Action>, ys: seq<Action>)
    ensures Fold(s, xs + ys) == Fold(Fold(s, xs), ys)
    decreases |xs|
  {
    if |xs| > 0 {
      assert (xs + ys)[0] == xs[0];
      assert (xs + ys)[1..] == xs[1..] + ys;
      FoldAppend(Reduce(s, xs[0]), xs[1..], ys);
    } else {
      assert xs + ys == ys;
    }
  }

  /**
   * A state one run of the hook can leave: idle is the initial state, loading has
   * nothing yet, success has a user and no error, failure has an error and nothing else.
   */
  predicate Settled(s: State) {
    match s.status
    case Idle => s == Initial
    case Loading => s.user.None? && s.repos == [] && s.error.None?
    case Succeeded => s.user.Some? && s.error.None?
    case Errored => s.user.None? && s.repos == [] && s.error.Some?
  }

  /**
   * The reducer alone does not keep states settled: FETCH_SUCCESS after FETCH_ERROR
   * gives a success that still carries the error.
   */
  lemma SuccessAfterErrorKeepsTheError(u: User)
    ensures var failed := State(Errored, None, [], Some(FetchReposError));
            && Settled(failed)
            && Reduce(failed, FetchSuccess(Payload(u, []))) == State(Succeeded, Some(u), [], Some(FetchReposError))
            && !Settled(Reduce(failed, FetchSuccess(Payload(u, []))))
  {
  }

  // ---------------------------------------------------------------- crawl

  /** The answer to one repository page request. */
  datatype PageResponse = Page(repos: seq<Repo>) | PageFailed(status: int)

  /** The answer to page `index + 1`: past the listed answers, the API returns an empty page. */
  function Answer(pages: seq<PageResponse>, index: nat): PageResponse {
    if index < |pages| then pages[index] else Page([])
  }

  predicate IsFull(p: PageResponse) {
    p.Page? && |p.repos| == ReposPerPage
  }

  datatype CrawlResult = Crawled(repos: seq<Repo>, requests: nat) | CrawlFailed(status: int, requests: nat)

  /** `r` after `k` earlier requests that returned `prefix`. */
  function Extend(prefix: seq<Repo>, k: nat, r: CrawlResult): CrawlResult {
    match r
    case Crawled(repos, n) => Crawled(prefix + repos, n + k)
    case CrawlFailed(status, n) => CrawlFailed(status, n + k)
  }

  /**
   * `fetchAllRepos`: request pages 1, 2, ... one after another, append each page, and
   * stop after the first page that does not hold exactly 100 repositories; a failed
   * page ends the crawl with its status and no repositories.
   */
  function Crawl(pages: seq<PageResponse>): (r: CrawlResult)
    ensures r.requests >= 1
    decreases |pages|
  {
    match Answer(pages, 0)
    case PageFailed(status) => CrawlFailed(status, 1)
    case Page(repos) =>
      if |repos| == ReposPerPage && |pages| > 0 then Extend(repos, 1, Crawl(pages[1..]))
      else Crawled(repos, 1)
  }

  /** The number of full pages at the head of `pages`. */
  function LeadingFull(pages: seq<PageResponse>): (n: nat)
    ensures n <= |pages|
    ensures forall i :: 0 <= i < n ==> IsFull(pages[i])
    ensures n < |pages| ==> !IsFull(pages[n])
  {
    if |pages| > 0 && IsFull(pages[0]) then 1 + LeadingFull(pages[1..]) else 0
  }

  /** The repositories of the listed page answers, in order. */
  function Flatten(pages: seq<PageResponse>): seq<Repo> {
    if |pages| == 0 then []
    else (if pages[0].Page? then pages[0].repos else []) + Flatten(pages[1..])
  }

  /**
   * What the crawl does, stated without recursion: it asks for every leading full
   * page and one more; if that one failed the crawl fails with its status, and
   * otherwise it returns all the repositories it was given, in page order.
   */
  lemma {:induction false} CrawlReadsUpToTheFirstShortPage(pages: seq<PageResponse>)
    ensures var n := LeadingFull(pages);
            Crawl(pages)
              == match Answer(pages, n)
                 case PageFailed(status) => CrawlFailed(status, n + 1)
                 case Page(last) => Crawled(Flatten(pages[..n]) + last, n + 1)
    decreases |pages|
  {
    if |pages| > 0 && IsFull(pages[0]) {
      CrawlReadsUpToTheFirstShortPage(pages[1..]);
      var n := LeadingFull(pages);
      assert pages[..n][1..] == pages[1..][..n - 1];
      assert Answer(pages, n) == Answer(pages[1..], n - 1);
    }
  }

  /** Page answers for a user with `all` repositories, 100 to a page, the last one short. */
  function Served(all: seq<Repo>): (pages: seq<PageResponse>)
    ensures |pages| == |all| / ReposPerPage + 1
    ensures forall i :: 0 <= i < |pages| ==> pages[i].Page?
    decreases |all|
  {
    if |all| < ReposPerPage then [Page(all)]
    else [Page(all[..ReposPerPage])] + Served(all[ReposPerPage..])
  }

  /** With N repositories upstream the crawl makes exactly N / 100 + 1 requests and returns all N. */
  lemma {:induction false} CrawlFetchesEverything(all: seq<Repo>)
    ensures Crawl(Served(all)) == Crawled(all, |all| / ReposPerPage + 1)
    decreases |all|
  {
    if |all| >= ReposPerPage {
      CrawlFetchesEverything(all[ReposPerPage..]);
      assert all[..ReposPerPage] + all[ReposPerPage..] == all;
    }
  }

  /** `fetchAllRepos` as its do-while loop: one request per iteration. */
  method FetchAllRepos(pages: seq<PageResponse>) returns (r: CrawlResult)
    ensures r == Crawl(pages)
  {
    var all: seq<Repo> := [];
    var page: nat := 1;
    while true
      invariant 1 <= page <= |pages| + 1
      invariant Crawl(pages) == Extend(all, page - 1, Crawl(pages[page - 1..]))
      decreases |pages| + 1 - page
    {
      var answer := Answer(pages, page - 1);
      CrawlStep(pages[page - 1..]);
      assert Answer(pages[page - 1..], 0) == answer;
      match answer
      case PageFailed(status) =>
        return CrawlFailed(status, page);
      case Page(reposOnPage) =>
        if |reposOnPage| != ReposPerPage {
          return Crawled(all + reposOnPage, page);
        }
        ExtendTwice(all, page - 1, reposOnPage, Crawl(pages[page..]));
        assert pages[page - 1..][1..] == pages[page..];
        all := all + reposOnPage;
        page := page + 1;
    }
  }

  lemma CrawlStep(pages: seq<PageResponse>)
    ensures Answer(pages, 0).PageFailed? ==> Crawl(pages) == CrawlFailed(Answer(pages, 0).status, 1)
    ensures Answer(pages, 0).Page? && |Answer(pages, 0).repos| != ReposPerPage ==>
      Crawl(pages) == Crawled(Answer(pages, 0).repos, 1)
    ensures IsFull(Answer(pages, 0)) ==>
      |pages| > 0 && Crawl(pages) == Extend(Answer(pages, 0).repos, 1, Crawl(pages[1..]))
  {
  }

  lemma ExtendTwice(a: seq<Repo>, i: nat, b: seq<Repo>, r: CrawlResult)
    ensures Extend(a, i, Extend(b, 1, r)) == Extend(a + b, i + 1, r)
  {
    if r.Crawled? {
      assert a + (b + r.repos) == (a + b) + r.repos;
    }
  }

  // ---------------------------------------------------------------- messages

  /**
   * The message for a failed repository page. Each message is given for exactly one
   * class of status: 404, 403, and everything else.
   */
  function RepoPageMessage(username: string, status: int): (r: string)
    ensures r == UserNotFound(username) <==> status == NotFound
    ensures r == RateLimitExceeded <==> status == Forbidden
    ensures r == FetchReposError <==> status != NotFound && status != Forbidden
    ensures r != FetchUserError
  {
    FailureMessagesDiffer(username);
    if status == NotFound then UserNotFound(username)
    else if status == Forbidden then RateLimitExceeded
    else FetchReposError
  }

  /** The message for a failed user request: the same mapping, with its own fallback. */
  function UserMessage(username: string, status: int): (r: string)
    ensures r == UserNotFound(username) <==> status == NotFound
    ensures r == RateLimitExceeded <==> status == Forbidden
    ensures r == FetchUserError <==> status != NotFound && status != Forbidden
    ensures r != FetchReposError
  {
    FailureMessagesDiffer(username);
    if status == NotFound then UserNotFound(username)
    else if status == Forbidden then RateLimitExceeded
    else FetchUserError
  }

  /** What a failure message says went wrong. */
  datatype Cause = NoSuchUser | RateLimited | UserFetchFailed | ReposFetchFailed | UnknownCause

  /** Reads the cause back from a message about `username`. */
  function CauseOf(username: string, message: string): Cause {
    if message == UserNotFound(username) then NoSuchUser
    else if message == RateLimitExceeded then RateLimited
    else if message == FetchUserError then UserFetchFailed
    else if message == FetchReposError then ReposFetchFailed
    else UnknownCause
  }

  /**
   * The messages lose nothing the mapping distinguishes: 404 reads back as an unknown
   * user, 403 as the rate limit, and any other status as a failure of the request
   * that was made.
   */
  lemma MessagesNameTheirCause(username: string, status: int)
    ensures CauseOf(username, RepoPageMessage(username, status))
         == if status == NotFound then NoSuchUser else if status == Forbidden then RateLimited else ReposFetchFailed
    ensures CauseOf(username, UserMessage(username, status))
         == if status == NotFound then NoSuchUser else if status == Forbidden then RateLimited else UserFetchFailed
  {
    FailureMessagesDiffer(username);
  }

  // ---------------------------------------------------------------- one effect run

  datatype UserResponse = UserOk(user: User) | UserFailed(status: int)

  /** The answers the network gives to this run's requests. */
  datatype Upstream = Upstream(user: UserResponse, pages: seq<PageResponse>)

  /** The dispatched actions, the session cache afterwards, and the number of HTTP requests. */
  datatype Run = Run(actions: seq<Action>, cache: map<string, Payload>, requests: nat)

  /**
   * The effect of `useGitHubUser` for one `username`. An empty name resets. A cached
   * name dispatches FETCH_START and FETCH_SUCCESS with the cached pair and asks
   * nothing. Otherwise the user request and the crawl both run; a crawl failure is
   * reported first, then a user failure; on success the pair is cached before
   * FETCH_SUCCESS.
   */
  function Fetch(username: string, cache: map<string, Payload>, upstream: Upstream): (r: Run)
    ensures username == "" ==> r == Run([Reset], cache, 0)
    ensures username != "" && username in cache ==>
      r == Run([FetchStart, FetchSuccess(cache[username])], cache, 0)
    ensures username != "" && username !in cache ==>
      && |r.actions| == 2 && r.actions[0] == FetchStart
      && r.requests == 1 + Crawl(upstream.pages).requests
      && (r.actions[1].FetchSuccess? ==> r.cache == cache[username := r.actions[1].payload])
      && (!r.actions[1].FetchSuccess? ==> r.actions[1].FetchError? && r.cache == cache)
    ensures username != "" && username !in cache && Crawl(upstream.pages).CrawlFailed? ==>
      r.actions[1] == FetchError(RepoPageMessage(username, Crawl(upstream.pages).status))
    ensures username != "" && username !in cache && Crawl(upstream.pages).Crawled? && upstream.user.UserFailed? ==>
      r.actions[1] == FetchError(UserMessage(username, upstream.user.status))
    ensures username != "" && username !in cache && Crawl(upstream.pages).Crawled? && upstream.user.UserOk? ==>
      r.actions[1] == FetchSuccess(Payload(upstream.user.user, Crawl(upstream.pages).repos))
  {
    if username == "" then Run([Reset], cache, 0)
    else if username in cache then Run([FetchStart, FetchSuccess(cache[username])], cache, 0)
    else
      var crawl := Crawl(upstream.pages);
      var requests := 1 + crawl.requests;
      match (crawl, upstream.user)
      case (CrawlFailed(status, _), _) =>
        Run([FetchStart, FetchError(RepoPageMessage(username, status))], cache, requests)
      case (Crawled(_, _), UserFailed(status)) =>
        Run([FetchStart, FetchError(UserMessage(username, status))], cache, requests)
      case (Crawled(repos, _), UserOk(user)) =>
        var payload := Payload(user, repos);
        Run([FetchStart, FetchSuccess(payload)], cache[username := payload], requests)
  }

  /** The pair a successful fetch of `username` caches and shows, if the fetch succeeds. */
  function Outcome(username: string, upstream: Upstream): Result<Payload> {
    match (Crawl(upstream.pages), upstream.user)
    case (CrawlFailed(status, _), _) => Failure(RepoPageMessage(username, status))
    case (Crawled(_, _), UserFailed(status)) => Failure(UserMessage(username, status))
    case (Crawled(repos, _), UserOk(user)) => Success(Payload(user, repos))
  }

  /**
   * Whatever state the hook was in, one run leaves a settled state: the initial state
   * for an empty name, the cached or fetched pair without error, or the failure
   * message without data.
   */
  lemma RunSettles(s: State, username: string, cache: map<string, Payload>, upstream: Upstream)
    ensures var r := Fetch(username, cache, upstream);
            var t := Fold(s, r.actions);
            && Settled(t)
            && (username == "" ==> t == Initial)
            && (username != "" && username in cache ==>
                  t == State(Succeeded, Some(cache[username].user), cache[username].repos, None))
            && (username != "" && username !in cache ==>
                  match Outcome(username, upstream)
                  case Success(p) => t == State(Succeeded, Some(p.user), p.repos, None)
                  case Failure(m) => t == State(Errored, None, [], Some(m)))
  {
    var r := Fetch(username, cache, upstream);
    if username == "" {
      FoldOne(s, Reset);
    } else {
      FoldTwo(s, r.actions[0], r.actions[1]);
      assert r.actions == [r.actions[0], r.actions[1]];
    }
  }

  /**
   * A failure message tells which request failed: the generic repository message
   * comes only from a crawl that failed with a status other than 404 and 403, and the
   * generic user message only from a completed crawl whose user request failed so.
   */
  lemma ErrorsNameTheFailedRequest(username: string, cache: map<string, Payload>, upstream: Upstream)
    requires username != "" && username !in cache
    ensures var a := Fetch(username, cache, upstream).actions[1];
            var crawl := Crawl(upstream.pages);
            && (a.FetchError? && CauseOf(username, a.message) == ReposFetchFailed <==>
                  crawl.CrawlFailed? && crawl.status != NotFound && crawl.status != Forbidden)
            && (a.FetchError? && CauseOf(username, a.message) == UserFetchFailed <==>
                  crawl.Crawled? && upstream.user.UserFailed?
                  && upstream.user.status != NotFound && upstream.user.status != Forbidden)
  {
    var crawl := Crawl(upstream.pages);
    if crawl.CrawlFailed? {
      MessagesNameTheirCause(username, crawl.status);
    } else if upstream.user.UserFailed? {
      MessagesNameTheirCause(username, upstream.user.status);
    }
  }

  /** The cache only grows: no run removes or changes an entry. */
  lemma CacheNeverForgets(username: string, cache: map<string, Payload>, upstream: Upstream)
    ensures var c := Fetch(username, cache, upstream).cache;
            forall k :: k in cache ==> k in c && c[k] == cache[k]
  {
  }

  /**
   * After a successful fetch, asking again for the same name, whatever the network
   * would now answer, makes no request and shows the same pair.
   */
  lemma SecondFetchIsServedFromCache(username: string, cache: map<string, Payload>, first: Upstream, second: Upstream)
    requires username != "" && username !in cache && Outcome(username, first).Success?
    ensures var r1 := Fetch(username, cache, first);
            var r2 := Fetch(username, r1.cache, second);
            && r2.requests == 0
            && r2.actions == [FetchStart, FetchSuccess(Outcome(username, first).value)]
            && r2.cache == r1.cache
  {
  }

  /**
   * There is no guard against stale responses: when the fetch for an earlier name
   * finishes after the one for a later name failed, its success is shown, still
   * carrying the later name's error.
   */
  lemma LateSuccessIsShown(a: Payload, message: string)
    ensures Fold(Initial, [FetchStart, FetchStart, FetchError(message), FetchSuccess(a)])
         == State(Succeeded, Some(a.user), a.repos, Some(message))
  {
    var s2 := Reduce(Reduce(Initial, FetchStart), FetchStart);
    var s4 := Reduce(Reduce(s2, FetchError(message)), FetchSuccess(a));
    FoldTwo(Initial, FetchStart, FetchStart);
    FoldTwo(s2, FetchError(message), FetchSuccess(a));
    FoldAppend(Initial, [FetchStart, FetchStart], [FetchError(message), FetchSuccess(a)]);
    assert [FetchStart, FetchStart] + [FetchError(message), FetchSuccess(a)]
        == [FetchStart, FetchStart, FetchError(message), FetchSuccess(a)];
  }
}
