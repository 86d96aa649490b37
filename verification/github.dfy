/**
 * The records the GitHub REST API returns (src/types/github.ts) and the fixed
 * configuration, status names, sort options and user-facing messages
 * (src/constants/index.ts).
 */
module Github {
  import opened Maybe

  /** A profile. `name` is declared `string` but the API sends `null` for unset names. */
  datatype User = User(
    login: string,
    avatarUrl: string,
    htmlUrl: string,
    name: Option<string>,
    bio: Option<string>,
    publicRepos: nat,
    followers: nat,
    following: nat)

  /** A repository. `updatedAt` is the ISO date already converted to epoch milliseconds. */
  datatype Repo = Repo(
    id: int,
    name: string,
    htmlUrl: string,
    description: Option<string>,
    language: Option<string>,
    stars: nat,
    forks: nat,
    updatedAt: int)

  // ---------------------------------------------------------------- API_CONFIG

  const ReposPerPage: nat := 100
  const DebounceDelay: nat := 500
  const FilterDebounceDelay: nat := 300
  const ReposDisplayPerPage: nat := 10

  // ---------------------------------------------------------------- HTTP_STATUS_CODE, UI_CONFIG

  const NotFound: int := 404
  const Forbidden: int := 403

  const MaxUsernameLength: nat := 39
  const MinSearchLength: nat := 1

  // ---------------------------------------------------------------- ERROR_MESSAGES

  function UserNotFound(username: string): string {
    "User '" + username + "' not found."
  }

  const RateLimitExceeded := "API rate limit exceeded. " + "Please try again later."
  const FetchUserError := "Could not fetch user data."
  const FetchReposError := "Could not fetch repositories."
  const MissingApiKey := "Missing Gemini Api Key"

  /** The not-found message names the user, so distinct users get distinct messages. */
  lemma UserNotFoundInjective(a: string, b: string)
    requires UserNotFound(a) == UserNotFound(b)
    ensures a == b
  {
    var prefix := "User '";
    assert UserNotFound(a)[|prefix|..|prefix| + |a|] == a;
    assert UserNotFound(b)[|prefix|..|prefix| + |b|] == b;
  }

  /** The four fetch failure messages tell the failure apart: each one names its cause. */
  lemma FailureMessagesDiffer(username: string)
    ensures UserNotFound(username) != RateLimitExceeded
    ensures UserNotFound(username) != FetchUserError && UserNotFound(username) != FetchReposError
    ensures RateLimitExceeded != FetchUserError && RateLimitExceeded != FetchReposError
    ensures FetchUserError != FetchReposError
  {
    assert UserNotFound(username)[0] == 'U';
    assert RateLimitExceeded[0] == 'A';
    assert FetchUserError[0] == 'C' && FetchReposError[0] == 'C';
    assert FetchUserError[16] == 'u' && FetchReposError[16] == 'r';
  }

  // ---------------------------------------------------------------- STATUS, SORT_OPTIONS

  datatype Status = Idle | Loading | Succeeded | Errored

  datatype SortOption = Stars | Forks | Updated
}
