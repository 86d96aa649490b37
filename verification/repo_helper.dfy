/**
 * The repository list pipeline of src/helpers/repo.helper.ts: filter by name,
 * stable descending sort, page slice and page count.
 */
module RepoHelper {
  import opened Github
  import opened Text
  import opened StableSort

  // ---------------------------------------------------------------- filter

  /** The name of `repo` contains `query`, both lower-cased. */
  predicate NameMatches(repo: Repo, query: string) {
    Includes(ToLower(repo.name), ToLower(query))
  }

  /** `a` is `b` with some elements dropped and the rest kept in order. */
  predicate IsSubsequence<T(==)>(a: seq<T>, b: seq<T>)
    decreases |b|
  {
    |a| == 0 || (|b| > 0 && ((a[0] == b[0] && IsSubsequence(a[1..], b[1..])) || IsSubsequence(a, b[1..])))
  }

  /**
   * `filterReposByName`: the repositories whose lower-cased name contains the
   * lower-cased query, in input order and with their multiplicities.
   */
  function FilterReposByName(repos: seq<Repo>, query: string): (r: seq<Repo>)
    ensures IsSubsequence(r, repos)
    ensures forall x :: multiset(r)[x] == if NameMatches(x, query) then multiset(repos)[x] else 0
  {
    if |repos| == 0 then []
    else
      var rest := FilterReposByName(repos[1..], query);
      assert repos == [repos[0]] + repos[1..];
      if NameMatches(repos[0], query) then [repos[0]] + rest else rest
  }

  /** A repository is kept exactly when its name matches. */
  lemma FilterKeepsExactlyMatches(repos: seq<Repo>, query: string, x: Repo)
    ensures x in FilterReposByName(repos, query) <==> x in repos && NameMatches(x, query)
  {
    var r := FilterReposByName(repos, query);
    assert x in r <==> multiset(r)[x] > 0;
    assert x in repos <==> multiset(repos)[x] > 0;
  }

  /** The empty query keeps everything. */
  lemma {:induction false} FilterEmptyQuery(repos: seq<Repo>)
    ensures FilterReposByName(repos, "") == repos
  {
    if |repos| > 0 {
      EmptyIsIncluded(ToLower(repos[0].name));
      FilterEmptyQuery(repos[1..]);
    }
  }

  /** Filtering twice with the same query is filtering once. */
  lemma {:induction false} FilterIsIdempotent(repos: seq<Repo>, query: string)
    ensures FilterReposByName(FilterReposByName(repos, query), query) == FilterReposByName(repos, query)
  {
    if |repos| > 0 {
      FilterIsIdempotent(repos[1..], query);
      var rest := FilterReposByName(repos[1..], query);
      if NameMatches(repos[0], query) {
        assert ([repos[0]] + rest)[1..] == rest;
      }
    }
  }

  // ---------------------------------------------------------------- sort

  /** The compared field: forks, updated time, or stars for every other option. */
  function SortKey(repo: Repo, option: SortOption): int {
    match option
    case Forks => repo.forks
    case Updated => repo.updatedAt
    case Stars => repo.stars
  }

  function KeyFor(option: SortOption): Repo -> int {
    repo => SortKey(repo, option)
  }

  /**
   * `sortRepos`: a stable descending sort of a copy of `repos`. The result is a
   * permutation of the input, non-increasing in the chosen field, and repositories
   * with equal fields keep their input order.
   */
  function SortRepos(repos: seq<Repo>, option: SortOption): (r: seq<Repo>)
    ensures multiset(r) == multiset(repos)
    ensures SortedDesc(r, KeyFor(option))
    ensures option == Forks ==> forall i, j :: 0 <= i < j < |r| ==> r[i].forks >= r[j].forks
    ensures option == Updated ==> forall i, j :: 0 <= i < j < |r| ==> r[i].updatedAt >= r[j].updatedAt
    ensures option == Stars ==> forall i, j :: 0 <= i < j < |r| ==> r[i].stars >= r[j].stars
    ensures forall k :: WithKey(r, KeyFor(option), k) == WithKey(repos, KeyFor(option), k)
  {
    var r := Sort(repos, KeyFor(option));
    forall k
      ensures WithKey(r, KeyFor(option), k) == WithKey(repos, KeyFor(option), k)
    {
      SortIsStable(repos, KeyFor(option), k);
    }
    SortedByField(r, option);
    r
  }

  /** Sorted by the option's key is sorted by the option's field. */
  lemma SortedByField(r: seq<Repo>, option: SortOption)
    requires SortedDesc(r, KeyFor(option))
    ensures forall i, j :: 0 <= i < j < |r| ==> SortKey(r[i], option) >= SortKey(r[j], option)
  {
    forall i, j | 0 <= i < j < |r|
      ensures SortKey(r[i], option) >= SortKey(r[j], option)
    {
      assert KeyFor(option)(r[i]) >= KeyFor(option)(r[j]);
    }
  }

  /**
   * The sort is fully determined by its contract: any arrangement that is
   * non-increasing in the key and keeps every equal-key group in input order is
   * the one `SortRepos` returns.
   */
  lemma SortReposIsTheStableOrder(repos: seq<Repo>, option: SortOption, t: seq<Repo>)
    requires SortedDesc(t, KeyFor(option))
    requires forall k :: WithKey(t, KeyFor(option), k) == WithKey(repos, KeyFor(option), k)
    ensures t == SortRepos(repos, option)
  {
    var r := SortRepos(repos, option);
    SortedStableIsUnique(t, r, KeyFor(option));
  }

  // ---------------------------------------------------------------- pages

  function Min(a: int, b: int): int {
    if a <= b then a else b
  }

  function Max(a: int, b: int): int {
    if a >= b then a else b
  }

  /**
   * `paginateRepos`: the slice `[(page - 1) * perPage, page * perPage)` of `repos`,
   * cut at the end of the list; empty past the last page.
   */
  function PaginateRepos(repos: seq<Repo>, page: int, perPage: nat): (r: seq<Repo>)
    requires page >= 1
    ensures |r| == Min(perPage, Max(0, |repos| - (page - 1) * perPage))
    ensures |r| <= perPage
    ensures (page - 1) * perPage >= |repos| ==> r == []
    ensures forall i :: 0 <= i < |r| ==> r[i] == repos[(page - 1) * perPage + i]
  {
    var start := (page - 1) * perPage;
    var lo := Min(start, |repos|);
    var hi := Min(start + perPage, |repos|);
    repos[lo..hi]
  }

  /** A page holds only repositories of the list it is cut from. */
  lemma PageComesFromList(repos: seq<Repo>, page: int, perPage: nat, x: Repo)
    requires page >= 1 && x in PaginateRepos(repos, page, perPage)
    ensures x in repos
  {
    var r := PaginateRepos(repos, page, perPage);
    var i :| 0 <= i < |r| && r[i] == x;
    assert repos[(page - 1) * perPage + i] == x;
  }

  /** `calcTotalPages`: `Math.ceil(totalItems / perPage)`. */
  function CalcTotalPages(totalItems: nat, perPage: nat): (r: nat)
    requires perPage > 0
    ensures r == 0 <==> totalItems == 0
    ensures r * perPage >= totalItems
    ensures r > 0 ==> (r - 1) * perPage < totalItems
  {
    (totalItems + perPage - 1) / perPage
  }

  /** Pages `first` to `last` of `repos`, concatenated. */
  function ConcatPages(repos: seq<Repo>, perPage: nat, first: nat, last: nat): seq<Repo>
    requires first >= 1
    decreases last + 1 - first
  {
    if first > last then [] else PaginateRepos(repos, first, perPage) + ConcatPages(repos, perPage, first + 1, last)
  }

  lemma {:induction false} ConcatPagesFrom(repos: seq<Repo>, perPage: nat, first: nat, last: nat)
    requires first >= 1 && perPage > 0 && last * perPage >= |repos|
    requires (first - 1) * perPage <= |repos|
    ensures ConcatPages(repos, perPage, first, last) == repos[(first - 1) * perPage..]
    decreases last + 1 - first
  {
    var start := (first - 1) * perPage;
    if first > last {
      MulMono(last, first - 1, perPage);
    } else {
      var stop := first * perPage;
      MulSucc(first - 1, perPage);
      PageIsSlice(repos, first, perPage, start, stop);
      assert ConcatPages(repos, perPage, first, last)
          == PaginateRepos(repos, first, perPage) + ConcatPages(repos, perPage, first + 1, last);
      if stop <= |repos| {
        ConcatPagesFrom(repos, perPage, first + 1, last);
        assert repos[start..] == repos[start..stop] + repos[stop..];
      } else {
        ConcatPagesEmpty(repos, perPage, first + 1, last);
      }
    }
  }

  /** Page `page` is the slice from `start` to `stop`, cut at the end of the list. */
  lemma PageIsSlice(repos: seq<Repo>, page: nat, perPage: nat, start: nat, stop: nat)
    requires page >= 1 && start == (page - 1) * perPage && stop == start + perPage && start <= |repos|
    ensures PaginateRepos(repos, page, perPage) == repos[start..Min(stop, |repos|)]
  {
  }

  lemma {:induction false} ConcatPagesEmpty(repos: seq<Repo>, perPage: nat, first: nat, last: nat)
    requires first >= 1 && (first - 1) * perPage >= |repos|
    ensures ConcatPages(repos, perPage, first, last) == []
    decreases last + 1 - first
  {
    if first <= last {
      MulMono(first - 1, first, perPage);
      ConcatPagesEmpty(repos, perPage, first + 1, last);
    }
  }

  /** Pages 1 through `calcTotalPages` put back together give the whole list. */
  lemma PagesReassembleList(repos: seq<Repo>, perPage: nat)
    requires perPage > 0
    ensures ConcatPages(repos, perPage, 1, CalcTotalPages(|repos|, perPage)) == repos
  {
    ConcatPagesFrom(repos, perPage, 1, CalcTotalPages(|repos|, perPage));
  }

  /** Every page after the last is empty; the last page holds the remainder, or a full page. */
  lemma PagesPastTheLastAreEmpty(repos: seq<Repo>, perPage: nat, page: int)
    requires perPage > 0 && page >= 1
    ensures page > CalcTotalPages(|repos|, perPage) ==> PaginateRepos(repos, page, perPage) == []
    ensures |repos| > 0 && page == CalcTotalPages(|repos|, perPage) ==>
      |PaginateRepos(repos, page, perPage)|
        == if |repos| % perPage == 0 then perPage else |repos| % perPage
  {
    var total := CalcTotalPages(|repos|, perPage);
    if page > total {
      MulMono(total, page - 1, perPage);
    }
    if |repos| > 0 && page == total {
      var n, q, rem := |repos|, |repos| / perPage, |repos| % perPage;
      assert n == q * perPage + rem;
      if rem == 0 {
        MulLess(total - 1, q, perPage);
        if total < q {
          MulMono(total + 1, q, perPage);
          MulSucc(total, perPage);
        }
        assert total == q;
        MulSucc(q - 1, perPage);
      } else {
        MulSucc(q, perPage);
        MulLess(total - 1, q + 1, perPage);
        MulLess(q, total, perPage);
        assert total == q + 1;
      }
    }
  }

  // ---------------------------------------------------------------- arithmetic

  lemma MulMono(a: nat, b: nat, p: nat)
    requires a <= b
    ensures a * p <= b * p
  {
  }

  lemma MulSucc(a: int, p: int)
    ensures (a + 1) * p == a * p + p
  {
  }

  lemma MulLess(a: nat, b: nat, p: nat)
    requires a * p < b * p
    ensures a < b
  {
    if a >= b {
      MulMono(b, a, p);
    }
  }
}
