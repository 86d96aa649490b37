/**
 * The AI-insight request of src/components/user-profile-card.tsx: one click of the
 * "AI Insight" button puts the panel in the loading state, builds the profile digest,
 * and, when an API key is configured, asks the Gemini service for an insight; the
 * panel ends in success with the parsed insight or in error with a message.
 *
 * The service is an input: what `fetch`, `res.json()` and `JSON.parse` give back.
 * The parsed insight is a value of the type parameter `D`, whatever it is.
 */
module UserProfileCard {
  import opened Maybe
  import opened Github
  import opened Text
  import opened StringHelper
  import opened InsightHelper

  /** The panel's `aiSummary` state. */
  datatype AiState<D> = AiState(status: Status, data: Option<D>, error: Option<string>)

  /** The panel before any click. */
  function IdlePanel<D>(): AiState<D> {
    AiState(Idle, None, None)
  }

  function LoadingPanel<D>(): AiState<D> {
    AiState(Loading, None, None)
  }

  function FailedPanel<D>(message: string): AiState<D> {
    AiState(Errored, None, Some(message))
  }

  /**
   * What `JSON.parse` makes of the candidate text: a value, a value JavaScript counts
   * as false (`null`, `false`, `0` or `""`, which the panel does not display), or a
   * syntax error with its message.
   */
  datatype Parse<D> = Parsed(value: D) | ParsedFalsy | Unparsable(message: string)

  /**
   * The service's answer: the request or the reading of its body threw, the status was
   * not ok, or the body was read; `text` is the first candidate's first part, absent
   * when any step of that path is missing.
   */
  datatype Reply<D> =
    | Rejected(message: string)
    | HttpFailure(status: nat)
    | Answered(text: Option<string>, parse: Parse<D>)

  /** The request sent: the formatted endpoint and the user query in its body. */
  datatype Request = Request(url: string, query: string)

  /** The panel states one click goes through, and the request it sends, if any. */
  datatype Click<D> = Click(states: seq<AiState<D>>, request: Option<Request>)

  /** `!apiKey` is false: the key is set and not empty. */
  predicate HasKey(apiKey: Option<string>) {
    apiKey.Some? && apiKey.value != ""
  }

  const StatusMessagePrefix := "API request failed " + "with status "
  const NoJsonText := "Could not extract JSON " + "from API response."

  function StatusMessage(status: nat): string {
    StatusMessagePrefix + NatToString(status)
  }

  /** The candidate text is missing or empty. */
  predicate NoText<D>(reply: Reply<D>)
    requires reply.Answered?
  {
    reply.text.None? || reply.text.value == ""
  }

  /**
   * The panel after the service answered: an error message for a thrown request, a
   * failed status, a missing text or a parse error, and the parsed value otherwise.
   */
  function Settle<D>(reply: Reply<D>): (r: AiState<D>)
    ensures r.status == Succeeded <==> reply.Answered? && !NoText(reply) && !reply.parse.Unparsable?
    ensures r.status == Succeeded ==> r.error.None? && (r.data.Some? <==> reply.parse.Parsed?)
    ensures r.status == Succeeded && r.data.Some? ==> r.data.value == reply.parse.value
    ensures r.status != Succeeded ==> r.status == Errored && r.data.None? && r.error.Some?
    ensures reply.HttpFailure? ==> r.error == Some(StatusMessage(reply.status))
    ensures reply.Answered? && NoText(reply) ==> r.error == Some(NoJsonText)
    ensures reply.Rejected? ==> r.error == Some(reply.message)
    ensures reply.Answered? && !NoText(reply) && reply.parse.Unparsable? ==> r.error == Some(reply.parse.message)
  {
    match reply
    case Rejected(message) => FailedPanel(message)
    case HttpFailure(status) => FailedPanel(StatusMessage(status))
    case Answered(text, parse) =>
      if text.None? || text.value == "" then FailedPanel(NoJsonText)
      else
        match parse
        case Parsed(value) => AiState(Succeeded, Some(value), None)
        case ParsedFalsy => AiState(Succeeded, None, None)
        case Unparsable(message) => FailedPanel(message)
  }

  /**
   * `handleGenerateAiSummary`. The panel first shows loading; the digest is the one
   * `buildUserQuery` computes (the component repeats the same steps inline); without
   * a key the panel fails with the missing-key message and nothing is sent; otherwise
   * the endpoint template gets the key and the reply settles the panel.
   */
  function Generate<D>(user: User, repos: seq<Repo>, apiKey: Option<string>, urlTemplate: Option<string>,
                       reply: Reply<D>): (r: Click<D>)
    ensures |r.states| == 2 && r.states[0] == LoadingPanel()
    ensures r.request.Some? <==> HasKey(apiKey)
    ensures r.request.Some? ==> r.request.value.query == BuildUserQuery(user, repos)
    ensures r.request.Some? ==> r.request.value.url == FormatStringByTemplate(urlTemplate, [("apiKey", apiKey.value)])
    ensures r.request.None? ==> r.states[1] == FailedPanel(MissingApiKey)
    ensures r.request.Some? ==> r.states[1] == Settle(reply)
  {
    var query := BuildUserQuery(user, repos);
    if !HasKey(apiKey) then Click([LoadingPanel(), FailedPanel(MissingApiKey)], None)
    else
      var url := FormatStringByTemplate(urlTemplate, [("apiKey", apiKey.value)]);
      Click([LoadingPanel(), Settle(reply)], Some(Request(url, query)))
  }

  // ---------------------------------------------------------------- what the panel shows

  /** A state one click can leave: success without an error, failure with only an error. */
  predicate WellFormed<D>(s: AiState<D>) {
    match s.status
    case Idle => s.data.None? && s.error.None?
    case Loading => s.data.None? && s.error.None?
    case Succeeded => s.error.None?
    case Errored => s.data.None? && s.error.Some?
  }

  /** The button is disabled exactly while loading. */
  predicate TriggerDisabled<D>(s: AiState<D>) {
    s.status == Loading
  }

  /** The error box is shown for an error state with a non-empty message. */
  predicate ShowsError<D>(s: AiState<D>) {
    s.status == Errored && s.error.Some? && s.error.value != ""
  }

  /** The insight is shown for a success state holding a value. */
  predicate ShowsInsight<D>(s: AiState<D>) {
    s.status == Succeeded && s.data.Some?
  }

  /**
   * The panel starts idle and enabled; every click passes through a well-formed
   * loading state with the button disabled and ends in a well-formed success or error
   * with the button enabled again; the panel never shows an error and an insight at once.
   */
  lemma ClickSettles<D>(user: User, repos: seq<Repo>, apiKey: Option<string>, urlTemplate: Option<string>,
                        reply: Reply<D>)
    ensures WellFormed(IdlePanel<D>()) && !TriggerDisabled(IdlePanel<D>())
    ensures var r := Generate(user, repos, apiKey, urlTemplate, reply);
            && WellFormed(r.states[0]) && TriggerDisabled(r.states[0])
            && WellFormed(r.states[1]) && !TriggerDisabled(r.states[1])
            && (r.states[1].status == Succeeded || r.states[1].status == Errored)
            && !(ShowsError(r.states[1]) && ShowsInsight(r.states[1]))
  {
  }

  /**
   * The click ends in success exactly when a key is set and the service's ok answer
   * carries a text that parses; it then shows the insight unless the text parsed to a
   * value JavaScript counts as false.
   */
  lemma SucceedsExactlyOnParsedText<D>(user: User, repos: seq<Repo>, apiKey: Option<string>,
                                       urlTemplate: Option<string>, reply: Reply<D>)
    ensures var last := Generate(user, repos, apiKey, urlTemplate, reply).states[1];
            && (last.status == Succeeded <==>
                  HasKey(apiKey) && reply.Answered? && !NoText(reply) && !reply.parse.Unparsable?)
            && (ShowsInsight(last) <==> HasKey(apiKey) && reply.Answered? && !NoText(reply) && reply.parse.Parsed?)
  {
  }

  /** A failed status is reported with that status, so different statuses read differently. */
  lemma StatusMessageNamesTheStatus(a: nat, b: nat)
    requires StatusMessage(a) == StatusMessage(b)
    ensures a == b
  {
    assert NatToString(a) == StatusMessage(a)[|StatusMessagePrefix|..];
    assert NatToString(b) == StatusMessage(b)[|StatusMessagePrefix|..];
    NatToStringInjective(a, b);
  }

  /** The fixed messages tell a missing key, a failed status and a missing text apart. */
  lemma FixedMessagesDiffer(status: nat)
    ensures StatusMessage(status) != NoJsonText
    ensures StatusMessage(status) != MissingApiKey
    ensures NoJsonText != MissingApiKey
  {
    assert StatusMessage(status)[0] == 'A';
    assert NoJsonText[0] == 'C';
    assert MissingApiKey[0] == 'M';
  }

  /**
   * The query sent holds the digest the component computes: the display name, the bio
   * or "Not provided", the ten most starred repository names and the five most used
   * languages, each list joined by ", ".
   */
  lemma RequestCarriesTheDigest<D>(user: User, repos: seq<Repo>, apiKey: Option<string>,
                                   urlTemplate: Option<string>, reply: Reply<D>)
    requires HasKey(apiKey)
    requires '{' !in DisplayName(user) && '{' !in BioText(user)
    requires forall x :: x in repos ==> '{' !in x.name
    requires forall x :: x in repos && x.language.Some? ==> '{' !in x.language.value
    ensures Generate(user, repos, apiKey, urlTemplate, reply).request.Some?
    ensures Generate(user, repos, apiKey, urlTemplate, reply).request.value.query == Concat([
      QueryOpening, DisplayName(user),
      QueryBio, BioText(user),
      QueryRepos, Join(RepoNames(TopReposByStars(repos, 10)), ", "),
      QueryLanguages, Join(TopLanguages(repos, 5), ", "),
      QueryClosing])
  {
    BuildUserQueryFillsTemplate(user, repos);
  }
}
