/**
 * The repository browser of src/components/repositories-section.tsx: the list shown
 * is the filtered, then sorted repositories, cut into pages of ten, and a page
 * cursor that returns to page 1 whenever the settled filter text or the sort option
 * changes and that "Previous" and "Next" move within the page range.
 *
 * The filter text is the debounced one: the delay itself is not modelled, only the
 * value it settles on.
 */
module RepositoriesSection {
  import opened Github
  import opened StableSort
  import opened RepoHelper

  /** The settled filter text, the sort option and the current page. */
  datatype Browser = Browser(query: string, sort: SortOption, page: int)

  const InitialBrowser := Browser("", Stars, 1)

  /** `filteredAndSortedRepos`: filter by name first, then sort. */
  function Listed(repos: seq<Repo>, b: Browser): (r: seq<Repo>)
    ensures multiset(r) == multiset(FilterReposByName(repos, b.query))
    ensures multiset(r) <= multiset(repos)
    ensures forall x :: x in r <==> x in repos && NameMatches(x, b.query)
    ensures SortedDesc(r, KeyFor(b.sort))
    ensures forall k :: WithKey(r, KeyFor(b.sort), k) == WithKey(FilterReposByName(repos, b.query), KeyFor(b.sort), k)
  {
    var filtered := FilterReposByName(repos, b.query);
    var r := SortRepos(filtered, b.sort);
    forall x
      ensures x in r <==> x in repos && NameMatches(x, b.query)
    {
      assert x in r <==> x in multiset(r);
      FilterKeepsExactlyMatches(repos, b.query, x);
    }
    assert multiset(filtered) <= multiset(repos);
    r
  }

  /**
   * The list is determined by its contract: any arrangement of the matching
   * repositories that is sorted by the chosen option and keeps ties in input order
   * is the one listed.
   */
  lemma ListedIsTheStableOrder(repos: seq<Repo>, b: Browser, t: seq<Repo>)
    requires SortedDesc(t, KeyFor(b.sort))
    requires forall k :: WithKey(t, KeyFor(b.sort), k) == WithKey(FilterReposByName(repos, b.query), KeyFor(b.sort), k)
    ensures t == Listed(repos, b)
  {
    SortReposIsTheStableOrder(FilterReposByName(repos, b.query), b.sort, t);
  }

  function TotalPages(repos: seq<Repo>, b: Browser): nat {
    CalcTotalPages(|Listed(repos, b)|, ReposDisplayPerPage)
  }

  /** `paginatedRepos`: the current page of the listed repositories. */
  function Shown(repos: seq<Repo>, b: Browser): (r: seq<Repo>)
    requires b.page >= 1
    ensures |r| <= ReposDisplayPerPage
  {
    PaginateRepos(Listed(repos, b), b.page, ReposDisplayPerPage)
  }

  /** Every repository on the page shown is one of the user's, and its name matches the query. */
  lemma ShownRepositoriesMatch(repos: seq<Repo>, b: Browser, x: Repo)
    requires b.page >= 1 && x in Shown(repos, b)
    ensures x in repos && NameMatches(x, b.query)
  {
    PageComesFromList(Listed(repos, b), b.page, ReposDisplayPerPage, x);
  }

  // ---------------------------------------------------------------- navigation

  /** The pagination bar is rendered only with more than one page. */
  predicate ShowsNavigation(totalPages: nat) {
    totalPages > 1
  }

  /** "Previous" is enabled when the bar is shown and the page is not 1. */
  predicate CanGoBack(totalPages: nat, page: int) {
    ShowsNavigation(totalPages) && page != 1
  }

  /** "Next" is enabled when the bar is shown and the page is not the last. */
  predicate CanGoForward(totalPages: nat, page: int) {
    ShowsNavigation(totalPages) && page != totalPages
  }

  /** `handlePreviousPage`: `Math.max(1, p - 1)`. */
  function PreviousPage(p: int): (r: int)
    ensures r >= 1
    ensures p > 1 ==> r == p - 1
    ensures p <= 1 ==> r == 1
  {
    Max(1, p - 1)
  }

  /** `handleNextPage`: `Math.min(totalPages, p + 1)`. */
  function NextPage(p: int, totalPages: nat): (r: int)
    ensures r <= totalPages
    ensures p < totalPages ==> r == p + 1
    ensures p >= totalPages ==> r == totalPages
  {
    Min(totalPages, p + 1)
  }

  datatype Event =
    | QuerySettled(query: string)
    | SortChosen(option: SortOption)
    | PressPrevious
    | PressNext

  /**
   * One user event. A new settled query or sort option resets the page to 1 (the
   * effect runs only when one of them changes); a press on a disabled or hidden
   * button does nothing.
   */
  function Step(repos: seq<Repo>, b: Browser, e: Event): (r: Browser)
    ensures (e.QuerySettled? && e.query != b.query) || (e.SortChosen? && e.option != b.sort) ==> r.page == 1
    ensures e.PressPrevious? || e.PressNext? ==> r.query == b.query && r.sort == b.sort
  {
    Move(TotalPages(repos, b), b, e)
  }

  /** `Step` with the current page count already computed. */
  function Move(totalPages: nat, b: Browser, e: Event): (r: Browser)
    ensures e.QuerySettled? ==>
      r.query == e.query && r.sort == b.sort && r.page == (if e.query == b.query then b.page else 1)
    ensures e.SortChosen? ==>
      r.sort == e.option && r.query == b.query && r.page == (if e.option == b.sort then b.page else 1)
    ensures e.PressPrevious? ==>
      (r.query == b.query && r.sort == b.sort &&
       r.page == (if CanGoBack(totalPages, b.page) then PreviousPage(b.page) else b.page))
    ensures e.PressNext? ==>
      (r.query == b.query && r.sort == b.sort &&
       r.page == (if CanGoForward(totalPages, b.page) then NextPage(b.page, totalPages) else b.page))
  {
    match e
    case QuerySettled(q) => if q == b.query then b else Browser(q, b.sort, 1)
    case SortChosen(o) => if o == b.sort then b else Browser(b.query, o, 1)
    case PressPrevious => if CanGoBack(totalPages, b.page) then b.(page := PreviousPage(b.page)) else b
    case PressNext => if CanGoForward(totalPages, b.page) then b.(page := NextPage(b.page, totalPages)) else b
  }

  function Replay(repos: seq<Repo>, b: Browser, events: seq<Event>): Browser
    decreases |events|
  {
    if |events| == 0 then b else Replay(repos, Step(repos, b, events[0]), events[1..])
  }

  /** The cursor is on an existing page, or on page 1 when nothing is listed. */
  predicate ValidCursor(repos: seq<Repo>, b: Browser) {
    1 <= b.page <= Max(1, TotalPages(repos, b))
  }

  /** A changed query or sort option always lands on page 1, which always exists. */
  lemma ChangeResetsToFirstPage(repos: seq<Repo>, b: Browser, e: Event)
    requires (e.QuerySettled? && e.query != b.query) || (e.SortChosen? && e.option != b.sort)
    ensures Step(repos, b, e).page == 1
    ensures ValidCursor(repos, Step(repos, b, e))
  {
  }

  /** Every event keeps the cursor valid. */
  lemma StepKeepsCursorValid(repos: seq<Repo>, b: Browser, e: Event)
    requires ValidCursor(repos, b)
    ensures ValidCursor(repos, Step(repos, b, e))
  {
    var total := TotalPages(repos, b);
    var r := Move(total, b, e);
    if r != b && (e.PressPrevious? || e.PressNext?) {
      assert r.query == b.query && r.sort == b.sort;
      assert TotalPages(repos, r) == total;
      assert 1 <= r.page <= total;
    }
  }

  /** From the initial browser, any sequence of events leaves the cursor valid. */
  lemma {:induction false} ReplayKeepsCursorValid(repos: seq<Repo>, b: Browser, events: seq<Event>)
    requires ValidCursor(repos, b)
    ensures ValidCursor(repos, Replay(repos, b, events))
    decreases |events|
  {
    if |events| > 0 {
      StepKeepsCursorValid(repos, b, events[0]);
      ReplayKeepsCursorValid(repos, Step(repos, b, events[0]), events[1..]);
    }
  }

  lemma InitialCursorIsValid(repos: seq<Repo>)
    ensures ValidCursor(repos, InitialBrowser)
  {
  }

  /** With a valid cursor and something listed, the page shown is never empty. */
  lemma ShownPageIsNotEmpty(repos: seq<Repo>, b: Browser)
    requires ValidCursor(repos, b) && |Listed(repos, b)| > 0
    ensures |Shown(repos, b)| > 0
  {
    var n := |Listed(repos, b)|;
    var total := TotalPages(repos, b);
    MulMono(b.page - 1, total - 1, ReposDisplayPerPage);
  }

  /**
   * The unguarded handlers alone keep the page in range too: from a page in
   * `[1, totalPages]`, any sequence of previous and next presses stays there.
   */
  function Presses(p: int, totalPages: nat, forward: seq<bool>): int
    decreases |forward|
  {
    if |forward| == 0 then p
    else Presses(if forward[0] then NextPage(p, totalPages) else PreviousPage(p), totalPages, forward[1..])
  }

  lemma {:induction false} PressesStayInRange(p: int, totalPages: nat, forward: seq<bool>)
    requires 1 <= p <= totalPages
    ensures 1 <= Presses(p, totalPages, forward) <= totalPages
    decreases |forward|
  {
    if |forward| > 0 {
      PressesStayInRange(if forward[0] then NextPage(p, totalPages) else PreviousPage(p), totalPages, forward[1..]);
    }
  }
}
