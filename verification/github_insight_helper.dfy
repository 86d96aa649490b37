/**
 * The profile digest of src/helpers/github-insight.helper.ts: the top repositories
 * by stars, the most used languages, and the prompt text built from them.
 */
module InsightHelper {
  import opened Maybe
  import opened Github
  import opened StableSort
  import opened RepoHelper
  import opened StringHelper
  import opened Text

  // ---------------------------------------------------------------- top repositories

  /**
   * `getTopReposByStars`: the first `limit` repositories of the stable star-descending
   * sort of a copy of `repos`; no repository left out has more stars than one kept.
   */
  function TopReposByStars(repos: seq<Repo>, limit: nat): (r: seq<Repo>)
    ensures |r| == Min(limit, |repos|)
    ensures r == SortRepos(repos, Stars)[..|r|]
    ensures multiset(r) <= multiset(repos)
    ensures forall i, j :: 0 <= i < j < |r| ==> r[i].stars >= r[j].stars
    ensures forall x, i :: x in multiset(repos) - multiset(r) && 0 <= i < |r| ==> x.stars <= r[i].stars
  {
    var sorted := SortRepos(repos, Stars);
    var n := Min(limit, |repos|);
    TopReposDominate(repos, sorted, n);
    sorted[..n]
  }

  lemma TopReposDominate(repos: seq<Repo>, sorted: seq<Repo>, n: nat)
    requires sorted == SortRepos(repos, Stars) && n <= |sorted|
    ensures multiset(sorted[..n]) <= multiset(repos)
    ensures forall x, i :: x in multiset(repos) - multiset(sorted[..n]) && 0 <= i < n ==> x.stars <= sorted[i].stars
  {
    assert sorted == sorted[..n] + sorted[n..];
    assert multiset(sorted) == multiset(sorted[..n]) + multiset(sorted[n..]);
    assert multiset(sorted) == multiset(repos);
    PrefixDominatesRest(sorted, KeyFor(Stars), n);
    forall x, i | x in multiset(repos) - multiset(sorted[..n]) && 0 <= i < n
      ensures x.stars <= sorted[i].stars
    {
      assert KeyFor(Stars)(x) <= KeyFor(Stars)(sorted[i]);
    }
  }

  // ---------------------------------------------------------------- language tally

  /** One entry of the `languageToCount` record. */
  datatype LanguageCount = LanguageCount(language: string, count: nat)

  /** `if (repo.language)`: `null` and the empty string are not counted. */
  predicate IsCounted(language: Option<string>) {
    language.Some? && language.value != ""
  }

  /** The number of repositories whose language is `language`. */
  function CountLanguage(repos: seq<Repo>, language: string): nat {
    if |repos| == 0 then 0
    else CountLanguage(repos[..|repos| - 1], language) + (if repos[|repos| - 1].language == Some(language) then 1 else 0)
  }

  function Names(t: seq<LanguageCount>): (r: seq<string>)
    ensures |r| == |t|
    ensures forall i :: 0 <= i < |t| ==> r[i] == t[i].language
  {
    if |t| == 0 then [] else [t[0].language] + Names(t[1..])
  }

  predicate DistinctNames(t: seq<LanguageCount>) {
    forall i, j :: 0 <= i < j < |t| ==> t[i].language != t[j].language
  }

  function IndexOf(t: seq<LanguageCount>, language: string): (i: int)
    ensures -1 <= i < |t|
    ensures i >= 0 ==> t[i].language == language
    ensures i < 0 ==> language !in Names(t)
  {
    if |t| == 0 then -1
    else if t[|t| - 1].language == language then |t| - 1
    else
      var i := IndexOf(t[..|t| - 1], language);
      assert Names(t) == Names(t[..|t| - 1]) + [t[|t| - 1].language];
      i
  }

  /** The reducer step: add one to the language's entry, appending a new entry on first sight. */
  function Bump(t: seq<LanguageCount>, language: Option<string>): seq<LanguageCount> {
    if !IsCounted(language) then t
    else
      var i := IndexOf(t, language.value);
      if i >= 0 then t[i := LanguageCount(language.value, t[i].count + 1)]
      else t + [LanguageCount(language.value, 1)]
  }

  /**
   * `t` is an exact tally of `repos`: no language twice, each entry a non-empty
   * language holding the number of repositories written in it, and every counted
   * language present.
   */
  ghost predicate ExactTally(t: seq<LanguageCount>, repos: seq<Repo>) {
    && DistinctNames(t)
    && (forall i :: 0 <= i < |t| ==>
          t[i].language != "" && t[i].count == CountLanguage(repos, t[i].language) && t[i].count > 0)
    && (forall l :: l != "" && CountLanguage(repos, l) > 0 ==> l in Names(t))
  }

  /**
   * The `reduce` of `getTopLanguages`: one entry per counted language, in order of
   * first occurrence (the key order of a JavaScript object), holding its exact count.
   */
  function Tally(repos: seq<Repo>): (t: seq<LanguageCount>)
    ensures ExactTally(t, repos)
  {
    if |repos| == 0 then []
    else
      var prefix := repos[..|repos| - 1];
      var before := Tally(prefix);
      TallyStep(prefix, repos[|repos| - 1], before);
      assert prefix + [repos[|repos| - 1]] == repos;
      Bump(before, repos[|repos| - 1].language)
  }

  lemma CountOneMore(prefix: seq<Repo>, last: Repo, l: string)
    ensures CountLanguage(prefix + [last], l) == CountLanguage(prefix, l) + (if last.language == Some(l) then 1 else 0)
  {
    assert (prefix + [last])[..|prefix|] == prefix;
  }

  /** Counting one more repository keeps the tally exact. */
  lemma TallyStep(prefix: seq<Repo>, last: Repo, t: seq<LanguageCount>)
    requires ExactTally(t, prefix)
    ensures ExactTally(Bump(t, last.language), prefix + [last])
  {
    forall l {
      CountOneMore(prefix, last, l);
    }
    if IsCounted(last.language) {
      var i := IndexOf(t, last.language.value);
      if i >= 0 {
        TallyIncrement(prefix, last, t, i);
      } else {
        TallyAppend(prefix, last, t);
      }
    }
  }

  lemma TallyIncrement(prefix: seq<Repo>, last: Repo, t: seq<LanguageCount>, i: nat)
    requires ExactTally(t, prefix)
    requires IsCounted(last.language) && i < |t| && t[i].language == last.language.value
    requires forall l :: CountLanguage(prefix + [last], l) == CountLanguage(prefix, l) + (if last.language == Some(l) then 1 else 0)
    ensures ExactTally(t[i := LanguageCount(last.language.value, t[i].count + 1)], prefix + [last])
  {
    var lang := last.language.value;
    var repos := prefix + [last];
    var u := t[i := LanguageCount(lang, t[i].count + 1)];
    forall k | 0 <= k < |u|
      ensures u[k].language == t[k].language
    {
    }
    assert DistinctNames(u);
    forall k | 0 <= k < |u|
      ensures u[k].language != "" && u[k].count == CountLanguage(repos, u[k].language) && u[k].count > 0
    {
      if k != i {
        assert u[k] == t[k] && t[k].language != lang;
        assert CountLanguage(repos, t[k].language) == CountLanguage(prefix, t[k].language);
      } else {
        assert CountLanguage(repos, lang) == CountLanguage(prefix, lang) + 1;
      }
    }
    assert Names(u) == Names(t);
    forall l | l != "" && CountLanguage(repos, l) > 0
      ensures l in Names(u)
    {
      if l != lang {
        assert CountLanguage(prefix, l) > 0;
      } else {
        assert Names(u)[i] == l;
      }
    }
  }

  lemma TallyAppend(prefix: seq<Repo>, last: Repo, t: seq<LanguageCount>)
    requires ExactTally(t, prefix)
    requires IsCounted(last.language) && last.language.value !in Names(t)
    requires forall l :: CountLanguage(prefix + [last], l) == CountLanguage(prefix, l) + (if last.language == Some(l) then 1 else 0)
    ensures ExactTally(t + [LanguageCount(last.language.value, 1)], prefix + [last])
  {
    var lang := last.language.value;
    var u := t + [LanguageCount(lang, 1)];
    assert CountLanguage(prefix, lang) == 0;
    assert Names(u) == Names(t) + [lang];
    forall i | 0 <= i < |t|
      ensures u[i].language != lang
    {
      assert Names(t)[i] == t[i].language;
    }
    assert DistinctNames(u);
    forall k | 0 <= k < |u|
      ensures u[k].language != "" && u[k].count == CountLanguage(prefix + [last], u[k].language) && u[k].count > 0
    {
      if k < |t| {
        assert u[k] == t[k];
      }
    }
    forall l | l != "" && CountLanguage(prefix + [last], l) > 0
      ensures l in Names(u)
    {
      if l != lang {
        assert l in Names(t);
      }
    }
  }

  // ---------------------------------------------------------------- top languages

  function ByCount(): LanguageCount -> int {
    (e: LanguageCount) => e.count
  }

  /**
   * The tally sorted most used first, ties in order of first occurrence: the
   * same entries, still exact and without duplicate names.
   */
  function Ranked(repos: seq<Repo>): (s: seq<LanguageCount>)
    ensures DistinctNames(s)
    ensures forall i :: 0 <= i < |s| ==>
      s[i].language != "" && s[i].count == CountLanguage(repos, s[i].language) && s[i].count > 0
    ensures forall l :: l != "" && CountLanguage(repos, l) > 0 ==> l in Names(s)
    ensures forall i, j :: 0 <= i < j < |s| ==> s[i].count >= s[j].count
  {
    var t := Tally(repos);
    var s := Sort(t, ByCount());
    PermutationMembers(s, t);
    PermutationKeepsDistinctNames(t, s);
    RankedIsComplete(repos, t, s);
    s
  }

  lemma RankedIsComplete(repos: seq<Repo>, t: seq<LanguageCount>, s: seq<LanguageCount>)
    requires forall l :: l != "" && CountLanguage(repos, l) > 0 ==> l in Names(t)
    requires forall k :: 0 <= k < |t| ==> t[k] in s
    ensures forall l :: l != "" && CountLanguage(repos, l) > 0 ==> l in Names(s)
  {
    forall l | l != "" && CountLanguage(repos, l) > 0
      ensures l in Names(s)
    {
      var k :| 0 <= k < |t| && Names(t)[k] == l;
      var j :| 0 <= j < |s| && s[j] == t[k];
      assert Names(s)[j] == l;
    }
  }

  /**
   * `getTopLanguages`: at most `limit` distinct counted languages, most used first;
   * a counted language is left out only when `limit` names are returned, all used at
   * least as often as it.
   */
  function TopLanguages(repos: seq<Repo>, limit: nat): (r: seq<string>)
    ensures |r| <= limit
    ensures forall i, j :: 0 <= i < j < |r| ==> r[i] != r[j]
    ensures forall i :: 0 <= i < |r| ==> r[i] != "" && CountLanguage(repos, r[i]) > 0
    ensures forall i, j :: 0 <= i < j < |r| ==> CountLanguage(repos, r[i]) >= CountLanguage(repos, r[j])
    ensures forall l :: l != "" && CountLanguage(repos, l) > 0 && l !in r ==>
      |r| == limit && forall i :: 0 <= i < |r| ==> CountLanguage(repos, l) <= CountLanguage(repos, r[i])
  {
    var s := Ranked(repos);
    var n := Min(limit, |s|);
    TopNamesFacts(repos, s, n);
    LeftOutIsNotMoreUsed(repos, s, n);
    Names(s[..n])
  }

  lemma TopNamesFacts(repos: seq<Repo>, s: seq<LanguageCount>, n: nat)
    requires s == Ranked(repos) && n <= |s|
    ensures var r := Names(s[..n]);
      && |r| == n
      && (forall i, j :: 0 <= i < j < |r| ==> r[i] != r[j])
      && (forall i :: 0 <= i < |r| ==> r[i] != "" && CountLanguage(repos, r[i]) > 0)
      && (forall i, j :: 0 <= i < j < |r| ==> CountLanguage(repos, r[i]) >= CountLanguage(repos, r[j]))
  {
    var r := Names(s[..n]);
    forall i | 0 <= i < n
      ensures r[i] == s[i].language && CountLanguage(repos, r[i]) == s[i].count
    {
      assert s[..n][i] == s[i];
    }
  }

  lemma LeftOutIsNotMoreUsed(repos: seq<Repo>, s: seq<LanguageCount>, n: nat)
    requires s == Ranked(repos) && n <= |s|
    ensures forall l :: l != "" && CountLanguage(repos, l) > 0 && l !in Names(s[..n]) ==>
      n < |s| && forall i :: 0 <= i < n ==> CountLanguage(repos, l) <= s[i].count
  {
    forall l | l != "" && CountLanguage(repos, l) > 0 && l !in Names(s[..n])
      ensures n < |s| && forall i :: 0 <= i < n ==> CountLanguage(repos, l) <= s[i].count
    {
      var k :| 0 <= k < |s| && Names(s)[k] == l;
      NamesOfPrefix(s, n, k);
      assert CountLanguage(repos, l) == s[k].count;
    }
  }

  lemma NamesOfPrefix(s: seq<LanguageCount>, n: nat, k: nat)
    requires n <= |s| && k < |s|
    ensures k < n ==> s[k].language in Names(s[..n])
  {
    if k < n {
      assert Names(s[..n])[k] == s[k].language;
    }
  }

  lemma PermutationKeepsDistinctNames(t: seq<LanguageCount>, s: seq<LanguageCount>)
    requires DistinctNames(t) && multiset(s) == multiset(t)
    ensures DistinctNames(s)
  {
    forall i, j | 0 <= i < j < |s|
      ensures s[i].language != s[j].language
    {
      if s[i].language == s[j].language {
        assert s[i] in multiset(t) && s[j] in multiset(t);
        var a :| 0 <= a < |t| && t[a] == s[i];
        var b :| 0 <= b < |t| && t[b] == s[j];
        assert a == b;
        OccursTwice(s, i, j);
        AtMostOnce(t, s[i]);
        assert false;
      }
    }
  }

  lemma OccursTwice<T>(s: seq<T>, i: nat, j: nat)
    requires i < j < |s| && s[i] == s[j]
    ensures multiset(s)[s[i]] >= 2
  {
    assert s == s[..j] + s[j..];
    assert multiset(s) == multiset(s[..j]) + multiset(s[j..]);
    assert s[i] in s[..j];
    assert s[j] == s[j..][0];
  }

  lemma {:induction false} AtMostOnce(t: seq<LanguageCount>, x: LanguageCount)
    requires DistinctNames(t)
    ensures multiset(t)[x] <= 1
  {
    if |t| > 0 {
      assert t == [t[0]] + t[1..];
      assert DistinctNames(t[1..]);
      AtMostOnce(t[1..], x);
      if x == t[0] {
        assert x !in t[1..];
      }
    }
  }

  // ---------------------------------------------------------------- the prompt

  /** `items.join(separator)`. */
  function Join(items: seq<string>, separator: string): (r: string)
    ensures |items| == 0 ==> r == ""
    ensures |items| == 1 ==> r == items[0]
  {
    if |items| == 0 then ""
    else if |items| == 1 then items[0]
    else items[0] + separator + Join(items[1..], separator)
  }

  /** Joining keeps the parts: the first part opens the result, and nothing is lost or added. */
  lemma {:induction false} JoinLength(items: seq<string>, separator: string)
    ensures |items| > 0 ==> |Join(items, separator)| == SumLengths(items) + (|items| - 1) * |separator|
  {
    if |items| > 1 {
      JoinLength(items[1..], separator);
    }
  }

  function SumLengths(items: seq<string>): nat {
    if |items| == 0 then 0 else |items[0]| + SumLengths(items[1..])
  }

  /** A join of brace-free parts with a brace-free separator has no brace. */
  lemma {:induction false} JoinIsBraceFree(items: seq<string>, separator: string)
    requires '{' !in separator && forall i :: 0 <= i < |items| ==> '{' !in items[i]
    ensures '{' !in Join(items, separator)
  {
    if |items| > 1 {
      JoinIsBraceFree(items[1..], separator);
    }
  }

  function RepoNames(repos: seq<Repo>): (r: seq<string>)
    ensures |r| == |repos|
    ensures forall i :: 0 <= i < |repos| ==> r[i] == repos[i].name
  {
    if |repos| == 0 then [] else [repos[0].name] + RepoNames(repos[1..])
  }

  /** `user.name || user.login`: an unset or empty name falls back to the login. */
  function DisplayName(user: User): (r: string)
    ensures r == user.login <==> user.name.None? || user.name.value == "" || user.name.value == user.login
    ensures r != user.login ==> user.name == Some(r)
  {
    if user.name.Some? && user.name.value != "" then user.name.value else user.login
  }

  const NoBio := "Not provided"

  /** `user.bio || "Not provided"`. */
  function BioText(user: User): (r: string)
    ensures r == NoBio <==> user.bio.None? || user.bio.value == "" || user.bio.value == NoBio
    ensures r != NoBio ==> user.bio == Some(r)
  {
    if user.bio.Some? && user.bio.value != "" then user.bio.value else NoBio
  }

  // The literal text of the template, written in short pieces.
  const QueryOpening := "Analyze the developer " + "profile for \""
  const QueryBio := "\" (Bio: "
  const QueryRepos := "). Their top " + "repositories are "
  const QueryLanguages := " and their primary " + "languages are "
  const QueryClosing := QueryAsk + QueryFocus
  const QueryAsk := ". Based on this, provide a " + "\"Developer Insight\" summary. "
  const QueryFocus := "Identify their likely area " + "of expertise, key technologies, " + "and potential strengths."

  /** A template of the user query's shape: five literal texts around the four slots. */
  function QueryTemplate(opening: string, bio: string, repos: string, languages: string, closing: string): seq<Piece> {
    QueryShape(opening, bio, repos, languages, closing, Slot("name"), Slot("bio"), Slot("topRepos"), Slot("topLanguages"))
  }

  /** Five literal texts with the four given pieces between them. */
  function QueryShape(opening: string, bio: string, repos: string, languages: string, closing: string,
                      p1: Piece, p2: Piece, p3: Piece, p4: Piece): seq<Piece> {
    [Literal(opening), p1, Literal(bio), p2, Literal(repos), p3, Literal(languages), p4, Literal(closing)]
  }

  /** `GEMINI_CONSTS.USER_QUERY`, cut at its four placeholders. */
  const UserQueryTemplate: seq<Piece> := QueryTemplate(QueryOpening, QueryBio, QueryRepos, QueryLanguages, QueryClosing)

  /** The entries of the data object, in the order `Object.entries` lists them. */
  function QueryData(user: User, repos: seq<Repo>): seq<(string, string)> {
    [("name", DisplayName(user)),
     ("bio", BioText(user)),
     ("topRepos", Join(RepoNames(TopReposByStars(repos, 10)), ", ")),
     ("topLanguages", Join(TopLanguages(repos, 5), ", "))]
  }

  /**
   * The name, the bio, the repository names and the languages hold no `{`. GitHub
   * repository names and language names never do.
   */
  predicate BraceFreeProfile(user: User, repos: seq<Repo>) {
    && '{' !in DisplayName(user) && '{' !in BioText(user)
    && (forall x :: x in repos ==> '{' !in x.name)
    && (forall x :: x in repos && x.language.Some? ==> '{' !in x.language.value)
  }

  /** The user-query text with the four digest values written into its placeholders. */
  function FilledUserQuery(user: User, repos: seq<Repo>): string {
    Concat([
      QueryOpening, DisplayName(user),
      QueryBio, BioText(user),
      QueryRepos, Join(RepoNames(TopReposByStars(repos, 10)), ", "),
      QueryLanguages, Join(TopLanguages(repos, 5), ", "),
      QueryClosing])
  }

  /**
   * `buildUserQuery`: the user-query template formatted with the profile digest. For
   * a brace-free profile this is the template text with each placeholder replaced by
   * its digest value.
   */
  function BuildUserQuery(user: User, repos: seq<Repo>): (r: string)
    ensures BraceFreeProfile(user, repos) ==> r == FilledUserQuery(user, repos)
  {
    FormattedQueryIsFilled(user, repos);
    FormatStringByTemplate(Some(Render(UserQueryTemplate)), QueryData(user, repos))
  }

  lemma FormattedQueryIsFilled(user: User, repos: seq<Repo>)
    ensures BraceFreeProfile(user, repos) ==>
      FormatStringByTemplate(Some(Render(UserQueryTemplate)), QueryData(user, repos)) == FilledUserQuery(user, repos)
  {
    if BraceFreeProfile(user, repos) {
      var data := QueryData(user, repos);
      QueryValuesAreBraceFree(user, repos);
      TemplateIsWellFormed();
      FormatFillsTemplate(UserQueryTemplate, data);
      FillQuery(QueryOpening, QueryBio, QueryRepos, QueryLanguages, QueryClosing,
                data[0].1, data[1].1, data[2].1, data[3].1);
      RenderQueryShape(QueryOpening, QueryBio, QueryRepos, QueryLanguages, QueryClosing,
                       data[0].1, data[1].1, data[2].1, data[3].1);
    }
  }

  /**
   * When the name, the bio, the repository names and the languages hold no `{`, the
   * query is the template text with each placeholder replaced by its digest value.
   */
  lemma BuildUserQueryFillsTemplate(user: User, repos: seq<Repo>)
    requires '{' !in DisplayName(user) && '{' !in BioText(user)
    requires forall x :: x in repos ==> '{' !in x.name
    requires forall x :: x in repos && x.language.Some? ==> '{' !in x.language.value
    ensures BuildUserQuery(user, repos) == Concat([
      QueryOpening, DisplayName(user),
      QueryBio, BioText(user),
      QueryRepos, Join(RepoNames(TopReposByStars(repos, 10)), ", "),
      QueryLanguages, Join(TopLanguages(repos, 5), ", "),
      QueryClosing])
  {
    assert BraceFreeProfile(user, repos);
  }

  lemma QueryValuesAreBraceFree(user: User, repos: seq<Repo>)
    requires '{' !in DisplayName(user) && '{' !in BioText(user)
    requires forall x :: x in repos ==> '{' !in x.name
    requires forall x :: x in repos && x.language.Some? ==> '{' !in x.language.value
    ensures IdentifierKeys(QueryData(user, repos)) && BraceFreeValues(QueryData(user, repos))
  {
    TopRepoNamesAreBraceFree(repos);
    TopLanguagesAreBraceFree(repos);
    KeysAreIdentifiers();
    var name, bio := DisplayName(user), BioText(user);
    var topRepos := Join(RepoNames(TopReposByStars(repos, 10)), ", ");
    var topLanguages := Join(TopLanguages(repos, 5), ", ");
    DataOfFourIsClean(name, bio, topRepos, topLanguages);
  }

  lemma DataOfFourIsClean(name: string, bio: string, topRepos: string, topLanguages: string)
    requires '{' !in name && '{' !in bio && '{' !in topRepos && '{' !in topLanguages
    ensures var data := [("name", name), ("bio", bio), ("topRepos", topRepos), ("topLanguages", topLanguages)];
            IdentifierKeys(data) && BraceFreeValues(data)
  {
    KeysAreIdentifiers();
  }

  lemma TopRepoNamesAreBraceFree(repos: seq<Repo>)
    requires forall x :: x in repos ==> '{' !in x.name
    ensures '{' !in Join(RepoNames(TopReposByStars(repos, 10)), ", ")
  {
    var top := TopReposByStars(repos, 10);
    assert multiset(top) <= multiset(repos);
    forall i | 0 <= i < |top|
      ensures '{' !in RepoNames(top)[i]
    {
      assert top[i] in multiset(top);
      assert top[i] in repos;
      assert RepoNames(top)[i] == top[i].name;
    }
    JoinIsBraceFree(RepoNames(top), ", ");
  }

  lemma TopLanguagesAreBraceFree(repos: seq<Repo>)
    requires forall x :: x in repos && x.language.Some? ==> '{' !in x.language.value
    ensures '{' !in Join(TopLanguages(repos, 5), ", ")
  {
    var langs := TopLanguages(repos, 5);
    forall i | 0 <= i < |langs|
      ensures '{' !in langs[i]
    {
      UsedLanguageIsBraceFree(repos, langs[i]);
    }
    JoinIsBraceFree(langs, ", ");
  }

  lemma UsedLanguageIsBraceFree(repos: seq<Repo>, language: string)
    requires forall x :: x in repos && x.language.Some? ==> '{' !in x.language.value
    requires CountLanguage(repos, language) > 0
    ensures '{' !in language
  {
    if repos[|repos| - 1].language != Some(language) {
      UsedLanguageIsBraceFree(repos[..|repos| - 1], language);
    }
  }

  lemma TemplateIsWellFormed()
    ensures WellFormed(UserQueryTemplate)
  {
    LiteralsAreBraceFree();
    KeysAreIdentifiers();
    QueryTemplateIsWellFormed(QueryOpening, QueryBio, QueryRepos, QueryLanguages, QueryClosing);
  }

  lemma QueryTemplateIsWellFormed(opening: string, bio: string, repos: string, languages: string, closing: string)
    requires '{' !in opening && '{' !in bio && '{' !in repos && '{' !in languages && '{' !in closing
    requires IsIdentifier("name") && IsIdentifier("bio") && IsIdentifier("topRepos") && IsIdentifier("topLanguages")
    ensures WellFormed(QueryTemplate(opening, bio, repos, languages, closing))
  {
  }

  lemma LiteralsAreBraceFree()
    ensures '{' !in QueryOpening && '{' !in QueryBio && '{' !in QueryRepos
    ensures '{' !in QueryLanguages && '{' !in QueryClosing
  {
    OpeningIsBraceFree();
    ReposIsBraceFree();
    LanguagesIsBraceFree();
    ClosingIsBraceFree();
  }

  lemma OpeningIsBraceFree() ensures '{' !in QueryOpening {}
  lemma ReposIsBraceFree() ensures '{' !in QueryRepos {}
  lemma LanguagesIsBraceFree() ensures '{' !in QueryLanguages {}
  lemma ClosingIsBraceFree() ensures '{' !in QueryClosing {
    AskIsBraceFree();
    FocusIsBraceFree();
  }
  lemma AskIsBraceFree() ensures '{' !in QueryAsk {}
  lemma FocusIsBraceFree() ensures '{' !in QueryFocus {}

  lemma KeysAreIdentifiers()
    ensures IsIdentifier("name") && IsIdentifier("bio")
    ensures IsIdentifier("topRepos") && IsIdentifier("topLanguages")
  {
  }

  /** Filling the four slots, one entry after another, leaves only literal text. */
  lemma FillQuery(opening: string, bioText: string, reposText: string, languagesText: string, closing: string,
                  name: string, bio: string, topRepos: string, topLanguages: string)
    ensures FillAll(QueryTemplate(opening, bioText, reposText, languagesText, closing),
              [("name", name), ("bio", bio), ("topRepos", topRepos), ("topLanguages", topLanguages)])
         == QueryShape(opening, bioText, reposText, languagesText, closing,
              Literal(name), Literal(bio), Literal(topRepos), Literal(topLanguages))
  {
    var data := [("name", name), ("bio", bio), ("topRepos", topRepos), ("topLanguages", topLanguages)];
    var t0 := QueryTemplate(opening, bioText, reposText, languagesText, closing);
    var t1 := QueryShape(opening, bioText, reposText, languagesText, closing,
                         Literal(name), Slot("bio"), Slot("topRepos"), Slot("topLanguages"));
    var t2 := QueryShape(opening, bioText, reposText, languagesText, closing,
                         Literal(name), Literal(bio), Slot("topRepos"), Slot("topLanguages"));
    var t3 := QueryShape(opening, bioText, reposText, languagesText, closing,
                         Literal(name), Literal(bio), Literal(topRepos), Slot("topLanguages"));
    var t4 := QueryShape(opening, bioText, reposText, languagesText, closing,
                         Literal(name), Literal(bio), Literal(topRepos), Literal(topLanguages));
    FillName(opening, bioText, reposText, languagesText, closing, name);
    FillBio(opening, bioText, reposText, languagesText, closing, name, bio);
    FillRepos(opening, bioText, reposText, languagesText, closing, name, bio, topRepos);
    FillLanguages(opening, bioText, reposText, languagesText, closing, name, bio, topRepos, topLanguages);
    assert FillAll(t0, data) == FillAll(t1, data[1..]);
    assert FillAll(t1, data[1..]) == FillAll(t2, data[2..]);
    assert FillAll(t2, data[2..]) == FillAll(t3, data[3..]);
    assert FillAll(t3, data[3..]) == FillAll(t4, data[4..]);
  }

  /** Filling the query's shape fills each of its four pieces and keeps its texts. */
  lemma FillShape(o: string, b: string, r: string, l: string, c: string,
                  p1: Piece, p2: Piece, p3: Piece, p4: Piece, key: string, value: string)
    ensures Fill(QueryShape(o, b, r, l, c, p1, p2, p3, p4), key, value)
         == QueryShape(o, b, r, l, c, FillPiece(p1, key, value), FillPiece(p2, key, value),
                       FillPiece(p3, key, value), FillPiece(p4, key, value))
  {
    var t := QueryShape(o, b, r, l, c, p1, p2, p3, p4);
    var f := Fill(t, key, value);
    var e := QueryShape(o, b, r, l, c, FillPiece(p1, key, value), FillPiece(p2, key, value),
                        FillPiece(p3, key, value), FillPiece(p4, key, value));
    assert |f| == |e| == 9;
    forall i | 0 <= i < 9
      ensures f[i] == e[i]
    {
      assert f[i] == FillPiece(t[i], key, value);
      if i == 1 || i == 3 || i == 5 || i == 7 {
      } else {
        assert t[i].Literal? && e[i] == t[i];
      }
    }
  }

  lemma FillName(o: string, b: string, r: string, l: string, c: string, name: string)
    ensures Fill(QueryTemplate(o, b, r, l, c), "name", name)
         == QueryShape(o, b, r, l, c, Literal(name), Slot("bio"), Slot("topRepos"), Slot("topLanguages"))
  {
    FillShape(o, b, r, l, c, Slot("name"), Slot("bio"), Slot("topRepos"), Slot("topLanguages"), "name", name);
    assert EqualsIgnoreCase("name", "name");
    assert |"bio"| != |"name"| && |"topRepos"| != |"name"| && |"topLanguages"| != |"name"|;
  }

  lemma FillBio(o: string, b: string, r: string, l: string, c: string, name: string, bio: string)
    ensures Fill(QueryShape(o, b, r, l, c, Literal(name), Slot("bio"), Slot("topRepos"), Slot("topLanguages")), "bio", bio)
         == QueryShape(o, b, r, l, c, Literal(name), Literal(bio), Slot("topRepos"), Slot("topLanguages"))
  {
    FillShape(o, b, r, l, c, Literal(name), Slot("bio"), Slot("topRepos"), Slot("topLanguages"), "bio", bio);
    assert EqualsIgnoreCase("bio", "bio");
    assert |"topRepos"| != |"bio"| && |"topLanguages"| != |"bio"|;
  }

  lemma FillRepos(o: string, b: string, r: string, l: string, c: string, name: string, bio: string, topRepos: string)
    ensures Fill(QueryShape(o, b, r, l, c, Literal(name), Literal(bio), Slot("topRepos"), Slot("topLanguages")), "topRepos", topRepos)
         == QueryShape(o, b, r, l, c, Literal(name), Literal(bio), Literal(topRepos), Slot("topLanguages"))
  {
    FillShape(o, b, r, l, c, Literal(name), Literal(bio), Slot("topRepos"), Slot("topLanguages"), "topRepos", topRepos);
    assert EqualsIgnoreCase("topRepos", "topRepos");
    assert |"topLanguages"| != |"topRepos"|;
  }

  lemma FillLanguages(o: string, b: string, r: string, l: string, c: string,
                      name: string, bio: string, topRepos: string, topLanguages: string)
    ensures Fill(QueryShape(o, b, r, l, c, Literal(name), Literal(bio), Literal(topRepos), Slot("topLanguages")), "topLanguages", topLanguages)
         == QueryShape(o, b, r, l, c, Literal(name), Literal(bio), Literal(topRepos), Literal(topLanguages))
  {
    FillShape(o, b, r, l, c, Literal(name), Literal(bio), Literal(topRepos), Slot("topLanguages"), "topLanguages", topLanguages);
    assert EqualsIgnoreCase("topLanguages", "topLanguages");
  }

  /** Rendering the fully filled query concatenates its nine texts. */
  lemma RenderQueryShape(o: string, b: string, r: string, l: string, c: string,
                         name: string, bio: string, topRepos: string, topLanguages: string)
    ensures Render(QueryShape(o, b, r, l, c, Literal(name), Literal(bio), Literal(topRepos), Literal(topLanguages)))
         == Concat([o, name, b, bio, r, topRepos, l, topLanguages, c])
  {
    var texts := [o, name, b, bio, r, topRepos, l, topLanguages, c];
    assert QueryShape(o, b, r, l, c, Literal(name), Literal(bio), Literal(topRepos), Literal(topLanguages))
        == seq(|texts|, i requires 0 <= i < |texts| => Literal(texts[i]));
    RenderLiterals(texts);
  }

  /** Rendering literal pieces concatenates their texts. */
  lemma {:induction false} RenderLiterals(texts: seq<string>)
    ensures Render(seq(|texts|, i requires 0 <= i < |texts| => Literal(texts[i]))) == Concat(texts)
    decreases |texts|
  {
    if |texts| > 0 {
      var t := seq(|texts|, i requires 0 <= i < |texts| => Literal(texts[i]));
      assert t[1..] == seq(|texts[1..]|, i requires 0 <= i < |texts[1..]| => Literal(texts[1..][i]));
      RenderLiterals(texts[1..]);
    }
  }

  function Concat(texts: seq<string>): string {
    if |texts| == 0 then "" else texts[0] + Concat(texts[1..])
  }
}
