/**
 * src/App.tsx, the older single-file version of the explorer: its own copies of the
 * reducer, the crawl and the fetch effect, the repository browser and the AI panel.
 * Each is modelled beside the factored version it predates, with the lemmas saying
 * where the two agree and where they part.
 */
module LegacyApp {
  import opened Maybe
  import opened Github
  import opened Text
  import opened StableSort
  import opened RepoHelper
  import opened InsightHelper
  import opened GithubUser
  import opened RepositoriesSection
  import opened UserProfileCard

  // ---------------------------------------------------------------- reducer

  function UnhandledAction(tag: string): string {
    "Unhandled action type: " + tag
  }

  /** The legacy `githubReducer`: the same four transitions, but any other action throws. */
  function LegacyReduce(s: State, a: Action): (r: Result<State>)
    ensures a.Unrecognized? ==> r == Failure(UnhandledAction(a.tag))
    ensures !a.Unrecognized? ==> r == Success(Reduce(s, a))
  {
    match a
    case FetchStart => Success(Initial.(status := Loading))
    case FetchSuccess(payload) => Success(s.(status := Succeeded, user := Some(payload.user), repos := payload.repos))
    case FetchError(message) => Success(s.(status := Errored, error := Some(message)))
    case Reset => Success(Initial)
    case Unrecognized(tag) => Failure(UnhandledAction(tag))
  }

  /**
   * Dispatching `actions` in order; the first unhandled action throws, and the
   * message names an unhandled action of the batch.
   */
  function LegacyFold(s: State, actions: seq<Action>): (r: Result<State>)
    ensures r.Failure? ==> exists a :: a in actions && a.Unrecognized? && r.message == UnhandledAction(a.tag)
    decreases |actions|
  {
    if |actions| == 0 then Success(s)
    else
      match LegacyReduce(s, actions[0])
      case Failure(message) => Failure(message)
      case Success(t) => LegacyFold(t, actions[1..])
  }

  predicate AllRecognized(actions: seq<Action>) {
    forall i :: 0 <= i < |actions| ==> !actions[i].Unrecognized?
  }

  /**
   * The legacy reducer throws exactly when an unhandled action is dispatched; when
   * none is, it ends in the state the factored reducer reaches.
   */
  lemma {:induction false} LegacyFoldAgrees(s: State, actions: seq<Action>)
    ensures LegacyFold(s, actions).Success? <==> AllRecognized(actions)
    ensures AllRecognized(actions) ==> LegacyFold(s, actions) == Success(Fold(s, actions))
    decreases |actions|
  {
    if |actions| > 0 {
      LegacyFoldAgrees(Reduce(s, actions[0]), actions[1..]);
      assert AllRecognized(actions) <==> !actions[0].Unrecognized? && AllRecognized(actions[1..]) by {
        if !actions[0].Unrecognized? && AllRecognized(actions[1..]) {
          forall i | 0 <= i < |actions|
            ensures !actions[i].Unrecognized?
          {
            if i > 0 {
              assert actions[i] == actions[1..][i - 1];
            }
          }
        }
      }
    }
  }

  // ---------------------------------------------------------------- one effect run

  /**
   * The legacy `useGitHubUser` effect. It decides like the factored hook, and its
   * crawl stops at the same page, but a failed repository page always reads
   * "Could not fetch repositories.", whatever its status.
   */
  function LegacyFetch(username: string, cache: map<string, Payload>, upstream: Upstream): (r: Run)
    ensures username != "" && username !in cache && Crawl(upstream.pages).CrawlFailed? ==>
      r == Run([FetchStart, FetchError(FetchReposError)], cache, 1 + Crawl(upstream.pages).requests)
  {
    if username == "" then Run([Reset], cache, 0)
    else if username in cache then Run([FetchStart, FetchSuccess(cache[username])], cache, 0)
    else
      var crawl := Crawl(upstream.pages);
      var requests := 1 + crawl.requests;
      match (crawl, upstream.user)
      case (CrawlFailed(_, _), _) =>
        Run([FetchStart, FetchError(FetchReposError)], cache, requests)
      case (Crawled(_, _), UserFailed(status)) =>
        Run([FetchStart, FetchError(UserMessage(username, status))], cache, requests)
      case (Crawled(repos, _), UserOk(user)) =>
        var payload := Payload(user, repos);
        Run([FetchStart, FetchSuccess(payload)], cache[username := payload], requests)
  }

  /** The crawl fails on a page answered 404 or 403, the two statuses the factored hook names. */
  predicate NamedCrawlFailure(upstream: Upstream) {
    var crawl := Crawl(upstream.pages);
    crawl.CrawlFailed? && (crawl.status == NotFound || crawl.status == Forbidden)
  }

  /**
   * The two effects dispatch the same actions, make the same requests and leave the
   * same cache, except when the crawl fails with 404 or 403: the factored hook then
   * reports the unknown user or the rate limit, and the legacy one the generic
   * repository message.
   */
  lemma LegacyFetchAgrees(username: string, cache: map<string, Payload>, upstream: Upstream)
    ensures var legacy := LegacyFetch(username, cache, upstream);
            var factored := Fetch(username, cache, upstream);
            && legacy.cache == factored.cache && legacy.requests == factored.requests
            && (legacy == factored <==> username == "" || username in cache || !NamedCrawlFailure(upstream))
  {
    var crawl := Crawl(upstream.pages);
    if username != "" && username !in cache && crawl.CrawlFailed? {
      FailureMessagesDiffer(username);
      assert Fetch(username, cache, upstream).actions[1] == FetchError(RepoPageMessage(username, crawl.status));
    }
  }

  /** The legacy hook only dispatches handled actions, so its reducer never throws. */
  lemma LegacyRunNeverThrows(s: State, username: string, cache: map<string, Payload>, upstream: Upstream)
    ensures LegacyFold(s, LegacyFetch(username, cache, upstream).actions).Success?
  {
    LegacyFoldAgrees(s, LegacyFetch(username, cache, upstream).actions);
  }

  // ---------------------------------------------------------------- repository browser

  /** The legacy comparator's switch: forks, updated time, and stars by default. */
  function LegacyKey(option: SortOption): (r: Repo -> int)
    ensures forall repo :: r(repo) == KeyFor(option)(repo)
  {
    (repo: Repo) =>
      if option == Forks then repo.forks
      else if option == Updated then repo.updatedAt
      else repo.stars
  }

  /** The inline `filteredAndSortedRepos`: filter by lower-cased name, then sort the filtered copy. */
  function LegacyListed(repos: seq<Repo>, b: Browser): (r: seq<Repo>)
    ensures multiset(r) <= multiset(repos)
    ensures SortedDesc(r, LegacyKey(b.sort))
  {
    var filtered := FilterReposByName(repos, b.query);
    assert multiset(filtered) <= multiset(repos);
    Sort(filtered, LegacyKey(b.sort))
  }

  /** The inline pipeline lists exactly what the factored one lists, in the same order. */
  lemma LegacyListedAgrees(repos: seq<Repo>, b: Browser)
    ensures LegacyListed(repos, b) == Listed(repos, b)
  {
    SortRespectsKeys(FilterReposByName(repos, b.query), LegacyKey(b.sort), KeyFor(b.sort));
  }

  /** `Math.ceil(filteredAndSortedRepos.length / REPOS_PER_PAGE)`. */
  function LegacyTotalPages(repos: seq<Repo>, b: Browser): (r: nat)
    ensures r == TotalPages(repos, b)
  {
    LegacyListedAgrees(repos, b);
    CalcTotalPages(|LegacyListed(repos, b)|, ReposDisplayPerPage)
  }

  /** `paginatedRepos`: the slice from `(currentPage - 1) * 10`, ten long. */
  function LegacyShown(repos: seq<Repo>, b: Browser): (r: seq<Repo>)
    requires b.page >= 1
    ensures r == Shown(repos, b)
  {
    LegacyListedAgrees(repos, b);
    var list := LegacyListed(repos, b);
    var start := (b.page - 1) * ReposDisplayPerPage;
    list[Min(start, |list|)..Min(start + ReposDisplayPerPage, |list|)]
  }

  /**
   * One event in the legacy browser: a changed query or sort returns to page 1, and
   * "Previous" and "Next" step by one, unclamped, when their button is enabled.
   */
  function LegacyStep(repos: seq<Repo>, b: Browser, e: Event): (r: Browser)
    ensures e.QuerySettled? || e.SortChosen? ==> r == Step(repos, b, e)
    ensures e.PressPrevious? || e.PressNext? ==> r.query == b.query && r.sort == b.sort
  {
    LegacyMove(CalcTotalPages(|LegacyListed(repos, b)|, ReposDisplayPerPage), b, e)
  }

  /** `LegacyStep` with the current page count already computed. */
  function LegacyMove(totalPages: nat, b: Browser, e: Event): (r: Browser)
    ensures r.query == (if e.QuerySettled? then e.query else b.query)
    ensures r.sort == (if e.SortChosen? then e.option else b.sort)
  {
    match e
    case QuerySettled(q) => if q == b.query then b else Browser(q, b.sort, 1)
    case SortChosen(o) => if o == b.sort then b else Browser(b.query, o, 1)
    case PressPrevious => if CanGoBack(totalPages, b.page) then b.(page := b.page - 1) else b
    case PressNext => if CanGoForward(totalPages, b.page) then b.(page := b.page + 1) else b
  }

  /** On a page that exists, the unclamped step is the clamped one. */
  lemma LegacyMoveAgrees(totalPages: nat, b: Browser, e: Event)
    requires 1 <= b.page <= Max(1, totalPages)
    ensures LegacyMove(totalPages, b, e) == Move(totalPages, b, e)
  {
  }

  /** On a page that exists, the legacy and the factored browser take the same step. */
  lemma LegacyStepAgrees(repos: seq<Repo>, b: Browser, e: Event)
    requires ValidCursor(repos, b)
    ensures LegacyStep(repos, b, e) == Step(repos, b, e)
  {
    LegacyListedAgrees(repos, b);
    LegacyMoveAgrees(TotalPages(repos, b), b, e);
  }

  /** Hence the legacy browser, too, never leaves the page range. */
  lemma {:induction false} LegacyReplayKeepsCursorValid(repos: seq<Repo>, b: Browser, events: seq<Event>)
    requires ValidCursor(repos, b)
    ensures ValidCursor(repos, LegacyReplay(repos, b, events))
    ensures LegacyReplay(repos, b, events) == Replay(repos, b, events)
    decreases |events|
  {
    if |events| > 0 {
      LegacyStepAgrees(repos, b, events[0]);
      StepKeepsCursorValid(repos, b, events[0]);
      LegacyReplayKeepsCursorValid(repos, Step(repos, b, events[0]), events[1..]);
    }
  }

  /** Any sequence of events in the legacy browser; button presses alone never change what is listed. */
  function LegacyReplay(repos: seq<Repo>, b: Browser, events: seq<Event>): (r: Browser)
    ensures (forall i :: 0 <= i < |events| ==> events[i].PressPrevious? || events[i].PressNext?) ==>
      r.query == b.query && r.sort == b.sort
    decreases |events|
  {
    if |events| == 0 then b else LegacyReplay(repos, LegacyStep(repos, b, events[0]), events[1..])
  }

  /**
   * Past the last page the two part: the factored "Next" clamps back to the last page,
   * the legacy one moves further on.
   */
  lemma LegacyNextLeavesTheRange(repos: seq<Repo>, b: Browser)
    requires TotalPages(repos, b) > 1 && b.page > TotalPages(repos, b)
    ensures Step(repos, b, PressNext).page == TotalPages(repos, b)
    ensures LegacyStep(repos, b, PressNext).page == b.page + 1
  {
    NextClampsBack(repos, b);
    LegacyNextMovesOn(repos, b);
  }

  lemma NextClampsBack(repos: seq<Repo>, b: Browser)
    requires TotalPages(repos, b) > 1 && b.page > TotalPages(repos, b)
    ensures Step(repos, b, PressNext).page == TotalPages(repos, b)
  {
    var total := TotalPages(repos, b);
    assert Step(repos, b, PressNext) == Move(total, b, PressNext);
    assert Move(total, b, PressNext) == b.(page := NextPage(b.page, total));
  }

  lemma LegacyNextMovesOn(repos: seq<Repo>, b: Browser)
    requires TotalPages(repos, b) > 1 && b.page > TotalPages(repos, b)
    ensures LegacyStep(repos, b, PressNext).page == b.page + 1
  {
    var n := |LegacyListed(repos, b)|;
    LegacyListedAgrees(repos, b);
    assert n == |Listed(repos, b)|;
    LegacyMovePastTheEnd(CalcTotalPages(n, ReposDisplayPerPage), b);
  }

  lemma LegacyMovePastTheEnd(totalPages: nat, b: Browser)
    requires totalPages > 1 && b.page > totalPages
    ensures LegacyMove(totalPages, b, PressNext).page == b.page + 1
  {
  }

  // ---------------------------------------------------------------- AI panel

  /** The legacy panel: `aiSummary`, `isAiLoading` and `aiError`. */
  datatype LegacyPanel = LegacyPanel(summary: string, loading: bool, error: Option<string>)

  const AiFailed := "Không thể tạo phân tích AI. " + "Vui lòng thử lại."
  const NoLegacyBio := "Không có"

  /** The values the legacy prompt interpolates; the prompt's own wording is not modelled. */
  datatype LegacyDigest = LegacyDigest(name: string, bio: string, topRepos: string, topLanguages: string)

  /** The legacy request: the key as interpolated into the URL, and the digest. */
  datatype LegacyRequest = LegacyRequest(key: string, digest: LegacyDigest)

  datatype LegacyClick = LegacyClick(states: seq<LegacyPanel>, request: LegacyRequest)

  /** `user.bio || 'Không có'`. */
  function LegacyBio(user: User): (r: string)
    ensures r == BioText(user) <==> user.bio.Some? && user.bio.value != ""
  {
    if user.bio.Some? && user.bio.value != "" then user.bio.value else NoLegacyBio
  }

  /**
   * The digest the legacy panel computes: the top ten repository names by stars and
   * the top five truthy languages by count, each joined by ", ", as the factored
   * helper does; only the bio's fallback differs.
   */
  function LegacyDigestOf(user: User, repos: seq<Repo>): (r: LegacyDigest)
    ensures r.name == QueryData(user, repos)[0].1
    ensures r.topRepos == QueryData(user, repos)[2].1 && r.topLanguages == QueryData(user, repos)[3].1
    ensures r.bio == QueryData(user, repos)[1].1 <==> user.bio.Some? && user.bio.value != ""
  {
    LegacyDigest(DisplayName(user), LegacyBio(user),
                 Join(RepoNames(TopReposByStars(repos, 10)), ", "), Join(TopLanguages(repos, 5), ", "))
  }

  /**
   * The legacy `handleGenerateAiSummary`: loading with no error and no summary; the
   * request goes out whether or not a key is set (an unset key reads "undefined" in
   * the URL); a non-empty candidate text becomes the summary, shown as is, and every
   * failure sets one fixed message; loading always ends.
   */
  function LegacyGenerate<D>(user: User, repos: seq<Repo>, apiKey: Option<string>, reply: Reply<D>): (r: LegacyClick)
    ensures |r.states| == 2 && r.states[0] == LegacyPanel("", true, None)
    ensures !r.states[1].loading
    ensures r.states[1].error.Some? <==> r.states[1].summary == ""
    ensures r.states[1].error.Some? ==> r.states[1].error == Some(AiFailed)
    ensures r.states[1].summary != "" <==> reply.Answered? && !NoText(reply)
    ensures r.states[1].summary != "" ==> r.states[1].summary == reply.text.value
    ensures r.request.digest == LegacyDigestOf(user, repos)
  {
    var key := if apiKey.Some? then apiKey.value else "undefined";
    var last :=
      if reply.Answered? && reply.text.Some? && reply.text.value != "" then LegacyPanel(reply.text.value, false, None)
      else LegacyPanel("", false, Some(AiFailed));
    LegacyClick([LegacyPanel("", true, None), last], LegacyRequest(key, LegacyDigestOf(user, repos)))
  }

  /**
   * With a key set, both panels succeed on the same replies, except a candidate text
   * that does not parse as JSON: the factored panel reports the parse error, the
   * legacy one shows the text.
   */
  lemma LegacyAiAgrees<D>(user: User, repos: seq<Repo>, apiKey: Option<string>, urlTemplate: Option<string>,
                          reply: Reply<D>)
    requires HasKey(apiKey)
    ensures var legacy := LegacyGenerate(user, repos, apiKey, reply).states[1];
            var factored := Generate(user, repos, apiKey, urlTemplate, reply).states[1];
            && (!(reply.Answered? && reply.parse.Unparsable?) ==>
                  (legacy.summary != "" <==> factored.status == Succeeded))
            && (reply.Answered? && !NoText(reply) && reply.parse.Unparsable? ==>
                  legacy.summary == reply.text.value && factored == FailedPanel(reply.parse.message))
  {
    var click := Generate(user, repos, apiKey, urlTemplate, reply);
    assert click.request.Some?;
    assert click.states[1] == Settle(reply);
  }

  /**
   * The legacy panel cannot tell failures apart: a failed status, a missing text and
   * a thrown request all read the same, where the factored panel names the status.
   */
  lemma LegacyHidesTheCause<D>(user: User, repos: seq<Repo>, apiKey: Option<string>, urlTemplate: Option<string>,
                               a: nat, b: nat)
    requires HasKey(apiKey) && a != b
    ensures LegacyGenerate(user, repos, apiKey, Reply<D>.HttpFailure(a)).states[1]
         == LegacyGenerate(user, repos, apiKey, Reply<D>.HttpFailure(b)).states[1]
    ensures Generate(user, repos, apiKey, urlTemplate, Reply<D>.HttpFailure(a)).states[1]
         != Generate(user, repos, apiKey, urlTemplate, Reply<D>.HttpFailure(b)).states[1]
  {
    if StatusMessage(a) == StatusMessage(b) {
      StatusMessageNamesTheStatus(a, b);
    }
  }

  /** Without a key the factored panel sends nothing, while the legacy one still asks. */
  lemma LegacyAsksWithoutKey<D>(user: User, repos: seq<Repo>, urlTemplate: Option<string>, reply: Reply<D>)
    ensures Generate(user, repos, None, urlTemplate, reply).request.None?
    ensures Generate(user, repos, None, urlTemplate, reply).states[1] == FailedPanel(MissingApiKey)
    ensures LegacyGenerate(user, repos, None, reply).request.key == "undefined"
  {
  }
}
