# GitHub Explorer client core, in Dafny

This project models the client-side logic of GitHub Explorer, a React application. A user types a
GitHub username, and the application:
- fetches the profile and every public repository, with a session cache;
- lists the repositories, filtered by name, sorted and paged;
- can ask the Gemini service for an "AI insight" built from a digest of the profile.

The network, timers and React rendering are inputs to the model, not part of it.

One Dafny module per source file or component:

| module | file | models |
|---|---|---|
| `Maybe` | maybe.dfy | `T \| null` values (`Option`) and thrown errors (`Result`) |
| `Text` | text.dfy | the `String` built-ins: `toLowerCase`, `includes`, `trim`, decimal printing of numbers |
| `Github` | github.dfy | `src/types/github.ts` records; `src/constants/index.ts` settings, status and sort names, error messages |
| `StableSort` | stable_sort.dfy | `Array.prototype.sort` with a descending numeric comparator. It is stable since ECMAScript 2019. |
| `RepoHelper` | repo_helper.dfy | `src/helpers/repo.helper.ts`: name filter, sort, page slice, page count |
| `StringHelper` | string_helper.dfy | `src/helpers/string.helper.ts`: `{key}` placeholder substitution |
| `InsightHelper` | github_insight_helper.dfy | `src/helpers/github-insight.helper.ts`: top repositories, top languages, the user query |
| `GithubUser` | use_github_user.dfy | `src/hooks/use-github-user.ts`: reducer, paginated crawl, status messages, the fetch effect with its cache |
| `RepositoriesSection` | repositories_section.dfy | `src/components/repositories-section.tsx`: filter→sort→page composition, page cursor |
| `SearchForm` | search_form.dfy | `src/components/search-form.tsx`: length cap, trimmed submission, disabled button |
| `UserProfileCard` | user_profile_card.dfy | `src/components/user-profile-card.tsx`: the AI-insight request and its panel state |
| `LegacyApp` | app.dfy | `src/App.tsx`, the older single-file copy. Each part is proved to agree with, or to differ from, the factored code. |

Modelling choices:
- Repositories and users are immutable datatypes, and every operation is a pure function over
  sequences.
- `updated_at` is an integer timestamp.
- A JavaScript sort is the stable insertion sort of `StableSort`.
- A regular-expression `replaceAll` is an explicit left-to-right scan.

Server answers are values handed to the model:
- the user endpoint's response, and one response per repository page, in page order;
- the Gemini reply.

A run of the fetch effect returns the actions it dispatches, the cache it leaves, and the number of
HTTP requests it makes.

The code has no guard against stale responses: the ref `currentUsername` in
src/hooks/use-github-user.ts is written and never read. A late response for an older username can
therefore overwrite the state of a newer one; `GithubUser.LateSuccessIsShown` exhibits it, a late
success being displayed while still carrying the newer request's error.

String lengths are JavaScript's `length`, counted in UTF-16 code units (`Text.Utf16Length`): a
character above U+FFFF counts twice.

## Model

| member | source | states |
|---|---|---|
| `Github.UserNotFoundInjective` | src/constants/index.ts:27 | The not-found message names the user: two usernames with the same message are the same username |
| `Github.FailureMessagesDiffer` | src/constants/index.ts:27-30 | The four fetch-failure messages are pairwise different, so each one identifies its cause |
| `Text.ToLower` | src/helpers/repo.helper.ts:5-6 | Lower-casing keeps the length and maps each character on its own: `A`–`Z` to `a`–`z`, everything else unchanged |
| `Text.LowerIsIdempotent` | src/helpers/repo.helper.ts:5-6 | Lower-casing twice is lower-casing once |
| `Text.Includes` | src/helpers/repo.helper.ts:6 | `includes` holds exactly when the substring occurs at some position |
| `Text.Trim` | src/components/search-form.tsx:11 | The trimmed text is a trimmed middle slice of the input, with only whitespace cut from either end |
| `Text.TrimUnique` | src/components/search-form.tsx:11 | Whitespace, then a trimmed name, then whitespace: trimming returns exactly the name |
| `Text.TrimIsIdempotent` | src/components/search-form.tsx:11 | Trimming twice is trimming once |
| `Text.TrimEmptyIffBlank` | src/components/search-form.tsx:11-12 | The trimmed text is empty exactly when the input is all whitespace |
| `Text.Utf16Length` | src/components/search-form.tsx:19 | `length` counts UTF-16 code units: at least the number of characters and at most twice it |
| `Text.Utf16LengthCounts` | src/components/search-form.tsx:19 | `length` equals the number of characters exactly when all lie in the Basic Multilingual Plane, and twice it exactly when none does |
| `Text.NatToString` | src/components/user-profile-card.tsx:64 | The decimal form of a number is a non-empty string of digits with no leading zero |
| `Text.NatToStringRoundTrip` | src/components/user-profile-card.tsx:64 | Reading the decimal form back gives the number, so distinct statuses print differently |
| `StableSort.Sort` | src/helpers/repo.helper.ts:10-19 | The result is a permutation of the input, non-increasing in the key |
| `StableSort.SortIsStable` | src/helpers/repo.helper.ts:10-19 | For every key value, the elements with that key appear in input order |
| `StableSort.SortedStableIsUnique` | src/helpers/repo.helper.ts:10-19 | Two arrangements that are both sorted and stable for the same input are equal, so the contract determines the order |
| `StableSort.SortOfSortedIsIdentity` | src/helpers/repo.helper.ts:10-19 | Sorting an already sorted sequence changes nothing |
| `StableSort.SortRespectsKeys` | src/App.tsx:307-313 | Two comparators that compare equal values produce the same order |
| `RepoHelper.FilterReposByName` | src/helpers/repo.helper.ts:4-7 | The result is an order-preserving subsequence of the input. Each repository keeps its full multiplicity when its lower-cased name contains the lower-cased query, and is dropped otherwise |
| `RepoHelper.FilterKeepsExactlyMatches` | src/helpers/repo.helper.ts:4-7 | A repository is in the result if and only if it is in the input and its name matches |
| `RepoHelper.FilterEmptyQuery` | src/helpers/repo.helper.ts:5-6 | The empty query returns the input unchanged |
| `RepoHelper.FilterIsIdempotent` | src/helpers/repo.helper.ts:4-7 | Filtering twice with the same query is filtering once |
| `RepoHelper.SortRepos` | src/helpers/repo.helper.ts:9-20 | The result is a permutation of the input. It is non-increasing by forks for "forks", by update time for "updated", and by stars otherwise. Repositories with equal keys keep their input order |
| `RepoHelper.SortReposIsTheStableOrder` | src/helpers/repo.helper.ts:9-20 | Any arrangement that is non-increasing and keeps ties in input order is the sort's result |
| `RepoHelper.PaginateRepos` | src/helpers/repo.helper.ts:22-29 | For page ≥ 1: the result is the slice starting at `(page-1)*perPage`, cut at the end of the list. Its length is `min(perPage, remaining)`, and it is empty past the end |
| `RepoHelper.PageComesFromList` | src/helpers/repo.helper.ts:22-29 | Every repository on a page is in the list it was cut from |
| `RepoHelper.CalcTotalPages` | src/helpers/repo.helper.ts:31-36 | The result is the ceiling of items/perPage: zero exactly for zero items; the pages cover every item, and the last page is not empty |
| `RepoHelper.PagesReassembleList` | src/helpers/repo.helper.ts:22-36 | Concatenating pages 1 to `calcTotalPages` reproduces the list exactly |
| `RepoHelper.PagesPastTheLastAreEmpty` | src/helpers/repo.helper.ts:22-36 | Every page after the last one is empty |
| `StringHelper.ReplacePlaceholder` | src/helpers/string.helper.ts:3-6 | One `replaceAll` of `{key}`, matched case-insensitively: text without `{` comes back unchanged |
| `StringHelper.FormatStringByTemplate` | src/helpers/string.helper.ts:1-10 | An undefined template gives "". Empty data returns the template unchanged, and so does a template without `{`, for any data |
| `StringHelper.EntriesApplySequentially` | src/helpers/string.helper.ts:2-7 | Entries are applied in order: formatting with `first + rest` is formatting with `first`, then with `rest` |
| `StringHelper.SubstitutionCascades` | src/helpers/string.helper.ts:2-7 | For any keys `a`, `b` and value `x`: formatting `{a}` with `a` → `{b}` and then `b` → `x` gives `x`, because a later key also rewrites text an earlier value inserted |
| `StringHelper.Fill` | src/helpers/string.helper.ts:3-6 | Every slot whose key equals the given key up to case becomes the value; every other piece is unchanged |
| `StringHelper.ReplaceFillsSlots` | src/helpers/string.helper.ts:3-6 | On a template whose keys are identifiers and whose literal text has no `{`, `replaceAll` on the rendered text is rendering the filled template |
| `StringHelper.FormatFillsTemplate` | src/helpers/string.helper.ts:1-10 | With identifier keys and values without `{`, formatting replaces every placeholder by its entry's value and changes nothing else |
| `StringHelper.RenderAppend` | src/helpers/string.helper.ts:3-6 | Rendering distributes over concatenation of template pieces |
| `InsightHelper.TopReposByStars` | src/helpers/github-insight.helper.ts:5-7 | Returns exactly `min(limit, n)` repositories: a prefix of the stable star-descending sort, drawn from the input, and non-increasing in stars. No repository left out has more stars than one returned |
| `InsightHelper.Tally` | src/helpers/github-insight.helper.ts:10-18 | The tally is exact: no language twice, no null or empty language, each count equal to the number of repositories in that language, and every used language present |
| `InsightHelper.TallyStep` | src/helpers/github-insight.helper.ts:11-16 | One more reducer step keeps the tally exact for the longer list |
| `InsightHelper.Ranked` | src/helpers/github-insight.helper.ts:20-21 | The sorted tally has the same entries, still exact and without duplicates, in non-increasing count order |
| `InsightHelper.TopLanguages` | src/helpers/github-insight.helper.ts:9-24 | At most `limit` distinct, non-empty, used languages, in non-increasing count order. A used language is left out only when `limit` names are returned, and each of them is used at least as often |
| `InsightHelper.LeftOutIsNotMoreUsed` | src/helpers/github-insight.helper.ts:20-23 | A language cut by the slice is used no more often than any language kept |
| `InsightHelper.Join` | src/helpers/github-insight.helper.ts:33-34 | Joining no items gives ""; joining one item gives that item |
| `InsightHelper.JoinLength` | src/helpers/github-insight.helper.ts:33-34 | The joined text is as long as the items plus one separator between each pair |
| `InsightHelper.DisplayName` | src/helpers/github-insight.helper.ts:31 | The login is used exactly when the name is null or empty (or equal to the login); otherwise the name is used |
| `InsightHelper.BioText` | src/helpers/github-insight.helper.ts:32 | "Not provided" is used exactly when the bio is null or empty (or is that very text); otherwise the bio is used |
| `InsightHelper.BuildUserQuery` | src/helpers/github-insight.helper.ts:26-36 | Formats the user-query template with the display name, the bio, the ten top repository names and the five top languages. For a profile with no `{` in those values, the result is the template text with each placeholder replaced by its value |
| `InsightHelper.BuildUserQueryFillsTemplate` | src/helpers/github-insight.helper.ts:26-36 | When no value holds `{`, the query is the template text with the display name, the bio text, the ten most starred repository names and the five most used languages in place of its placeholders, each list joined by ", " |
| `GithubUser.Reduce` | src/hooks/use-github-user.ts:37-55 | FETCH_START gives loading with no data. FETCH_SUCCESS sets status, user and repositories and carries the error over. FETCH_ERROR sets status and error and carries user and repositories over. RESET gives the initial state. Any other action leaves the state unchanged |
| `GithubUser.FoldAppend` | src/hooks/use-github-user.ts:37-55 | Dispatching two batches of actions is dispatching their concatenation |
| `GithubUser.SuccessAfterErrorKeepsTheError` | src/hooks/use-github-user.ts:41-49 | FETCH_SUCCESS after FETCH_ERROR yields a success that still carries the error |
| `GithubUser.Crawl` | src/hooks/use-github-user.ts:57-80 | Every crawl makes at least one request |
| `GithubUser.CrawlReadsUpToTheFirstShortPage` | src/hooks/use-github-user.ts:57-80 | The crawl requests every leading full page and one more. If that one failed, the crawl fails with its status and returns no repositories; otherwise it returns all pages' repositories in page order |
| `GithubUser.CrawlFetchesEverything` | src/hooks/use-github-user.ts:57-80 | With N repositories upstream, the crawl makes exactly ⌊N/100⌋+1 requests and returns all N in order |
| `GithubUser.FetchAllRepos` | src/hooks/use-github-user.ts:57-80 | The do-while loop computes the crawl: the same repositories, the same failure and the same request count |
| `GithubUser.RepoPageMessage` | src/hooks/use-github-user.ts:66-72 | A failed repository page gives the unknown-user message exactly for 404, the rate-limit message exactly for 403, and the repository message exactly for any other status; never the user message |
| `GithubUser.UserMessage` | src/hooks/use-github-user.ts:104-109 | A failed user request gives the unknown-user message exactly for 404, the rate-limit message exactly for 403, and the user message exactly for any other status; never the repository message |
| `GithubUser.MessagesNameTheirCause` | src/hooks/use-github-user.ts:66-72 | The status is mapped to its cause: 404 reads back as an unknown user, 403 as the rate limit. Any other status reads back as a failure of the request made (repositories for a page, user data for the profile) |
| `GithubUser.Fetch` | src/hooks/use-github-user.ts:86-122 | An empty name dispatches only RESET and makes no request. A cached name dispatches FETCH_START and FETCH_SUCCESS with the cached pair and makes no request. Otherwise it makes 1 + crawl requests and dispatches FETCH_START, then either FETCH_SUCCESS after caching exactly that pair, or FETCH_ERROR with the cache unchanged |
| `GithubUser.RunSettles` | src/hooks/use-github-user.ts:86-122 | Whatever the prior state, one run ends in the initial state, in the cached or fetched pair without error, or in the failure message without data. A crawl failure's message wins over a user failure's |
| `GithubUser.ErrorsNameTheFailedRequest` | src/hooks/use-github-user.ts:66-109 | On a fresh fetch, the generic repository message appears exactly when a repository page failed with a status other than 404 and 403, and the generic user message exactly when the crawl completed and the user request failed that way |
| `GithubUser.CacheNeverForgets` | src/hooks/use-github-user.ts:28 | No run removes or changes a cache entry |
| `GithubUser.SecondFetchIsServedFromCache` | src/hooks/use-github-user.ts:94-97 | After a successful fetch, fetching the same name again makes no request and shows the same pair, whatever the network would answer |
| `GithubUser.LateSuccessIsShown` | src/hooks/use-github-user.ts:84-93 | With no stale-response guard, a success that lands after a newer request's failure is shown, still carrying that failure's error |
| `RepositoriesSection.Listed` | src/components/repositories-section.tsx:21-24 | The list is a permutation of the repositories whose name matches the settled query, each with its multiplicity. It is non-increasing in the chosen field, and repositories with equal fields keep their input order |
| `RepositoriesSection.ListedIsTheStableOrder` | src/components/repositories-section.tsx:21-24 | Any arrangement of the matches that is sorted by the chosen option and keeps ties in input order is the list shown |
| `RepositoriesSection.Shown` | src/components/repositories-section.tsx:30-32 | The page shown holds at most ten repositories |
| `RepositoriesSection.ShownRepositoriesMatch` | src/components/repositories-section.tsx:21-32 | Every repository shown is one of the user's, and its name matches the query |
| `RepositoriesSection.PreviousPage` | src/components/repositories-section.tsx:47-49 | "Previous" never goes below 1, and moves back one page from any page above 1 |
| `RepositoriesSection.NextPage` | src/components/repositories-section.tsx:51-53 | "Next" never goes past the page count, and moves forward one page from any page below it |
| `RepositoriesSection.Step` | src/components/repositories-section.tsx:26-53 | A new query or sort option lands on page 1. A button press keeps the query and the sort, so the listed repositories and the page count stay as they were |
| `RepositoriesSection.Move` | src/components/repositories-section.tsx:26-53 | A new query or sort option is stored with page 1, and the same one changes nothing. "Previous" moves to `max(1, p-1)` and "Next" to `min(total, p+1)` when their buttons are enabled (more than one page, not on the first or last page), and otherwise nothing changes. Button presses never change the query or the sort |
| `RepositoriesSection.ChangeResetsToFirstPage` | src/components/repositories-section.tsx:26-28 | A changed settled query or sort option puts the cursor on page 1, which is always valid |
| `RepositoriesSection.StepKeepsCursorValid` | src/components/repositories-section.tsx:26-97 | Every event (a query, a sort, an enabled or disabled button) keeps the page in `[1, max(1, totalPages)]` |
| `RepositoriesSection.ReplayKeepsCursorValid` | src/components/repositories-section.tsx:26-97 | Any sequence of events keeps the cursor valid |
| `RepositoriesSection.ShownPageIsNotEmpty` | src/components/repositories-section.tsx:30-37 | With a valid cursor and a non-empty list, the page shown is never empty |
| `RepositoriesSection.PressesStayInRange` | src/components/repositories-section.tsx:47-53 | From a page in `[1, totalPages]`, any sequence of raw previous/next handler calls stays there |
| `SearchForm.HandleInputChange` | src/components/search-form.tsx:17-22 | A change is taken exactly when its UTF-16 length is at most 39; otherwise the stored text is kept |
| `SearchForm.TypingKeepsTheLimit` | src/components/search-form.tsx:17-22 | Starting within 39 code units, no sequence of changes exceeds 39 code units, nor 39 characters |
| `SearchForm.AstralTextCountsTwice` | src/components/search-form.tsx:19 | Twenty characters above U+FFFF are forty code units, so such a change is refused |
| `SearchForm.BmpLimitIsCharacters` | src/components/search-form.tsx:19 | For text in the Basic Multilingual Plane, a change is taken exactly when it is at most 39 characters long |
| `SearchForm.HandleSubmit` | src/components/search-form.tsx:9-15 | Something is submitted exactly when the text is not all whitespace. What is submitted is the trimmed text: trimmed and at least one character long |
| `SearchForm.SubmitIgnoresPadding` | src/components/search-form.tsx:9-15 | A name padded with whitespace submits the bare name |
| `SearchForm.SubmitIsIdempotent` | src/components/search-form.tsx:9-15 | Submitting the submitted name submits it again unchanged |
| `SearchForm.SubmitDisabled` | src/components/search-form.tsx:46 | The button is disabled exactly while loading or while the text is all whitespace |
| `SearchForm.EnabledExactlyWhenSubmitting` | src/components/search-form.tsx:46 | The button is enabled exactly when nothing is loading and a submission would go through |
| `UserProfileCard.Settle` | src/components/user-profile-card.tsx:49-78 | Success happens exactly when an ok reply carries a non-empty text that parses. A success has no error, and holds the parsed value exactly when it is truthy. Any other reply gives an error state with no data. Its message is the thrown error's message for a rejected request, the status message for a non-ok reply, the extraction message for a missing text, and the parse error's message for unparsable text |
| `UserProfileCard.Generate` | src/components/user-profile-card.tsx:16-79 | A click first shows loading with no data and no error. A request goes out exactly when a key is set: the query is `buildUserQuery`'s, and the URL is the endpoint template with the key. Without a key the panel fails with the missing-key message |
| `UserProfileCard.ClickSettles` | src/components/user-profile-card.tsx:10-17 | The panel starts idle and enabled. A click passes through a loading state with the button disabled, then ends in a well-formed success or error with the button enabled, never showing an error and an insight at once |
| `UserProfileCard.SucceedsExactlyOnParsedText` | src/components/user-profile-card.tsx:40-70 | The click succeeds if and only if a key is set and the ok reply's text parses. The insight is shown if and only if the parsed value is truthy |
| `UserProfileCard.StatusMessageNamesTheStatus` | src/components/user-profile-card.tsx:64 | Two statuses with the same failure message are the same status |
| `UserProfileCard.FixedMessagesDiffer` | src/components/user-profile-card.tsx:42-67 | The missing-key, failed-status and missing-text messages are pairwise different |
| `UserProfileCard.RequestCarriesTheDigest` | src/components/user-profile-card.tsx:19-38 | With a key set, the query sent contains the display name, the bio or "Not provided", the ten most starred repository names and the five most used languages |
| `LegacyApp.LegacyReduce` | src/App.tsx:49-57 | The same four transitions as the hook; an unknown action throws "Unhandled action type: …" instead of returning the state |
| `LegacyApp.LegacyFold` | src/App.tsx:49-57 | Dispatching a batch fails only with the message of an unhandled action that occurs in the batch |
| `LegacyApp.LegacyFoldAgrees` | src/App.tsx:49-57 | Dispatching throws exactly when an unknown action is among the actions. Otherwise it ends in the state the factored reducer reaches |
| `LegacyApp.LegacyRunNeverThrows` | src/App.tsx:59-96 | The legacy effect dispatches only handled actions, so its reducer never throws |
| `LegacyApp.LegacyFetch` | src/App.tsx:98-110 | A failed repository page always gives "Could not fetch repositories.", whatever its status |
| `LegacyApp.LegacyFetchAgrees` | src/App.tsx:59-110 | Both effects make the same requests and leave the same cache. They dispatch the same actions exactly unless the crawl fails with 404 or 403 |
| `LegacyApp.LegacyKey` | src/App.tsx:307-311 | The inline comparator's switch gives every repository the same key as the factored sort option: forks, updated time, or stars by default |
| `LegacyApp.LegacyListed` | src/App.tsx:304-314 | The inline pipeline's list is drawn from the repositories and is non-increasing in the chosen field |
| `LegacyApp.LegacyListedAgrees` | src/App.tsx:304-314 | The inline filter-then-sort lists exactly what `sortRepos(filterReposByName(…))` lists, in the same order |
| `LegacyApp.LegacyTotalPages` | src/App.tsx:323 | The legacy page count equals the factored one |
| `LegacyApp.LegacyShown` | src/App.tsx:318-321 | The legacy slice `[(p-1)*10, (p-1)*10+10)` is the page the factored component shows |
| `LegacyApp.LegacyStep` | src/App.tsx:316-341 | A query or sort event gives the same browser as the factored step on any page. A button press keeps the query and the sort |
| `LegacyApp.LegacyMove` | src/App.tsx:316-340 | A settled query changes only the query and a chosen sort only the sort; the buttons leave both alone |
| `LegacyApp.LegacyMoveAgrees` | src/App.tsx:336-341 | From a page that exists, the unclamped legacy move and the clamped factored move give the same browser for every event |
| `LegacyApp.LegacyStepAgrees` | src/App.tsx:336-341 | On a page that exists, the unclamped, button-guarded legacy step is the factored step |
| `LegacyApp.LegacyReplay` | src/App.tsx:316-341 | A run of button presses alone leaves the query and the sort as they were |
| `LegacyApp.LegacyReplayKeepsCursorValid` | src/App.tsx:316-341 | From a valid page, any sequence of legacy events keeps the page valid and matches the factored browser event by event |
| `LegacyApp.LegacyNextLeavesTheRange` | src/App.tsx:340 | Past the last page the two differ: the factored "Next" clamps back to the last page, while the legacy one moves further on |
| `LegacyApp.LegacyBio` | src/App.tsx:175 | The bio fallback `'Không có'` agrees with the factored bio exactly when a non-empty bio is set |
| `LegacyApp.LegacyDigestOf` | src/App.tsx:150-177 | The legacy digest has the same name, top-ten repository list and top-five language list as the factored query. Its bio matches only when a bio is set |
| `LegacyApp.LegacyGenerate` | src/App.tsx:144-219 | A click sets loading and clears the summary and the error. Loading always ends. The panel ends with a summary exactly when an ok reply carries a non-empty text, and otherwise with the one fixed error message |
| `LegacyApp.LegacyAiAgrees` | src/App.tsx:185-217 | With a key set, both panels succeed on the same replies, except a text that does not parse: the factored panel reports the parse error, while the legacy one shows the text |
| `LegacyApp.LegacyHidesTheCause` | src/App.tsx:213-214 | Two different failed statuses look the same in the legacy panel and differ in the factored one |
| `LegacyApp.LegacyAsksWithoutKey` | src/App.tsx:186-198 | Without a key the factored panel sends nothing and reports the missing key. The legacy one still sends its request, with "undefined" as the key |

## Left out

- HTTP itself (`fetch`, `res.json()`, `JSON.parse`, URLs other than the Gemini endpoint template): answers are inputs.
- Network rejections of the GitHub requests: the model covers HTTP responses only. With `Promise.all`, which rejection wins depends on scheduling.
- Interleaving of in-flight fetches, React effect scheduling and batching, and the debounce timers. Only the value a debounced input settles on is modelled.
- The repository list changing under the browser's cursor: the events modelled are a settled query, a sort choice and the two buttons.
- `src/api/gemini.ts`: it repeats the decision chain of src/components/user-profile-card.tsx:40-70, which is modelled.
- The presentational components, which have no decision logic.
- The legacy search form (src/App.tsx:350-375). It sends the raw input text, untrimmed and with no length cap, to the debounced username on every change and on submit. Its button is disabled only while loading. The hook it feeds is modelled for every username.
- The Gemini system prompt and response schema, and the wording of the legacy prompt. The legacy request is modelled as the four values it interpolates.
- `toLocaleString` and date formatting.
- `Text.ToLower`: ASCII lower-casing only, not full Unicode `toLowerCase`.
- `Text.Trim`: trims a small whitespace set (space, tab, line feed, carriage return, vertical tab, form feed), not every Unicode space `trim` removes.
- `StringHelper.FormatStringByTemplate`: values are inserted literally. `$` patterns in a replacement value and regular-expression metacharacters in a key are not interpreted. The template lemmas assume identifier keys.
- `InsightHelper.Tally`: entries are in first-occurrence order. A JavaScript object lists integer-like keys first; language names are never integer-like.
- `InsightHelper.TopLanguages`: its contract does not state the order among languages with equal counts. The definition keeps them in first-occurrence order, through the stable sort.
- `RepoHelper.PaginateRepos`: requires `page >= 1`. For smaller pages JavaScript's `slice` counts from the end of the list, and the components never produce such pages.
- `UserProfileCard.Settle`: JSON values that count as false collapse into one case, and so do all values of the parsed insight. The "An unknown error occurred" branch for thrown non-`Error` values is unreachable with the replies modelled.
- `GithubUser.Fetch`: a user endpoint that answers ok but whose body fails to parse is not modelled.
