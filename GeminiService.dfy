/**
 * The request orchestration of `generateProspectData`: the credential check,
 * the prompt, the bounded retry loop with exponential backoff, the
 * normalisation of the model's answer and the mapping of failures onto the
 * three messages the user sees.
 *
 * The model endpoint is an oracle: `outcomes[i]` is what the i-th call of
 * `generateContent` does (return an answer, return nothing, or throw).
 * Sleeping is recorded as the list of delays, in milliseconds.
 */
module GeminiService {
  import opened Wrappers
  import opened Strings
  import opened Types

  /** At most this many calls of the model per request. */
  const MaxRetries: nat := 3
  /**
   * The sleep after a transient failure on attempt 0; a transient failure on
   * zero-based attempt i sleeps this times 2^i, whatever came before it.
   */
  const InitialBackoffMs: nat := 1000

  /** What `getGeminiClient` throws when no key is configured. */
  const MissingKeyMessage: string := "API_KEY environment " + "variable is not set."
  /** What the endpoint reports for a key it does not know. */
  const NotFoundMarker: string := "Requested entity was not found."
  /** Thrown when no call produced an answer and none threw. */
  const NoResponseMessage: string :=
    "Failed to get a response " + "from the model " + "after multiple retries."
  /** Reported for any error mentioning an overload. */
  const OverloadedMessage: string :=
    "The AI model is currently overloaded. " + "Please try again in a few moments."
  /** Reported in front of the original message of a credential error. */
  const KeyIssuePrefix: string :=
    "API Key issue: " + "Please select or re-select your API key. " +
    "If the problem persists, " + "ensure the key is valid. " + "Original error: "
  /** Reported in front of the original message of every other error. */
  const GenericPrefix: string := "Failed to generate prospect data: "

  // ---------------------------------------------------------------------
  // The client and the prompt
  // ---------------------------------------------------------------------

  /** The client object; the model only needs to know which key it holds. */
  datatype Client = Client(apiKey: string)

  /** `getGeminiClient`: succeeds exactly when the configured key is truthy. */
  function GetGeminiClient(apiKey: Option<string>): (r: Result<Client, string>)
    ensures r.Success? <==> Truthy(apiKey)
    ensures r.Success? ==> r.value.apiKey == apiKey.value
    ensures r.Failure? ==> r.error == MissingKeyMessage
  {
    if Truthy(apiKey) then Success(Client(apiKey.value)) else Failure(MissingKeyMessage)
  }

  // The fixed wording of the prompt (audience, buying signals, website
  // checks, output sections) is abstracted to three constants; only the
  // places where the input fields are interpolated are modelled.
  const PromptIntroduction: string := "\n<agent role, target profile and task>\n\n"
  const PromptGuidance: string := "\n\n<buying signals, website checks, output format>\n\n"
  const PromptSections: string := "\n\n<report sections and closing instruction>\n"

  /** `additionalKeywords || 'None'` */
  function KeywordsOrNone(keywords: Option<string>): (r: string)
    ensures r != ""
    ensures Truthy(keywords) ==> r == keywords.value
    ensures !Truthy(keywords) ==> r == "None"
  {
    if Truthy(keywords) then keywords.value else "None"
  }

  /** `additionalKeywords ? ' (Context: ' + additionalKeywords + ')' : ''` */
  function ContextSuffix(keywords: Option<string>): (r: string)
    ensures r == "" <==> !Truthy(keywords)
    ensures Truthy(keywords) ==> r == " (Context: " + keywords.value + ")"
    ensures !Truthy(keywords) ==> r == ""
  {
    if Truthy(keywords) then " (Context: " + keywords.value + ")" else ""
  }

  /** The query line of the prompt. */
  function QueryLine(inputs: ProspectingFormInputs): string {
    "**User Query:** Identify prospects related to \"" + inputs.companyOrIndustry +
    "\" with a focus on \"" + inputs.focusArea +
    "\". " + "Additional context: \"" + KeywordsOrNone(inputs.additionalKeywords) + "\"."
  }

  /** The heading the model is told to give its report. */
  function ReportHeading(inputs: ProspectingFormInputs): string {
    "## " + "Prospect Report for " + inputs.companyOrIndustry + " focusing on " + inputs.focusArea +
    ContextSuffix(inputs.additionalKeywords)
  }

  /** The heading names the company or industry and the focus area. */
  lemma HeadingNamesInputs(inputs: ProspectingFormInputs)
    ensures Contains(ReportHeading(inputs),
      "Prospect Report for " + inputs.companyOrIndustry + " focusing on " + inputs.focusArea)
  {
    var title := "Prospect Report for " + inputs.companyOrIndustry + " focusing on " + inputs.focusArea;
    var suffix := ContextSuffix(inputs.additionalKeywords);
    assert ReportHeading(inputs) == "## " + title + suffix;
    ContainsInfix("## ", title, suffix);
  }

  /** Truthy keywords close the heading as " (Context: k)". */
  lemma HeadingShowsContext(inputs: ProspectingFormInputs)
    requires Truthy(inputs.additionalKeywords)
    ensures EndsWith(ReportHeading(inputs), " (Context: " + inputs.additionalKeywords.value + ")")
  {
    var front := "## " + "Prospect Report for " + inputs.companyOrIndustry + " focusing on " + inputs.focusArea;
    EndsWithPieces(front, " (Context: ", inputs.additionalKeywords.value, ")");
  }

  /** `detailedPrompt` */
  function BuildPrompt(inputs: ProspectingFormInputs): string {
    PromptIntroduction + QueryLine(inputs) + PromptGuidance + ReportHeading(inputs) + PromptSections
  }

  /** The prompt carries both the query line and the report heading built from the inputs. */
  lemma PromptInterpolatesInputs(inputs: ProspectingFormInputs)
    ensures Contains(BuildPrompt(inputs), QueryLine(inputs))
    ensures Contains(BuildPrompt(inputs), ReportHeading(inputs))
  {
    ContainsPieces(PromptIntroduction, QueryLine(inputs), PromptGuidance, ReportHeading(inputs), PromptSections);
  }

  /** With falsy keywords the query line ends by showing `"None"` as the context. */
  lemma QueryLineShowsNone(inputs: ProspectingFormInputs)
    requires !Truthy(inputs.additionalKeywords)
    ensures EndsWith(QueryLine(inputs), "Additional context: \"None\".")
  {
    var front := "**User Query:** Identify prospects related to \"" + inputs.companyOrIndustry +
                 "\" with a focus on \"" + inputs.focusArea + "\". ";
    EndsWithPieces(front, "Additional context: \"", KeywordsOrNone(inputs.additionalKeywords), "\".");
  }

  /** Truthy keywords end the query line as the quoted context. */
  lemma QueryLineShowsKeywords(inputs: ProspectingFormInputs)
    requires Truthy(inputs.additionalKeywords)
    ensures EndsWith(QueryLine(inputs), "Additional context: \"" + inputs.additionalKeywords.value + "\".")
  {
    var front := "**User Query:** Identify prospects related to \"" + inputs.companyOrIndustry +
                 "\" with a focus on \"" + inputs.focusArea + "\". ";
    EndsWithPieces(front, "Additional context: \"", KeywordsOrNone(inputs.additionalKeywords), "\".");
  }

  /**
   * Absent and empty keywords are both falsy: they give the same prompt, which
   * shows `"None"` as the context and has no context suffix in the heading.
   */
  lemma EmptyKeywordsLikeAbsent(company: string, focus: string)
    ensures BuildPrompt(ProspectingFormInputs(company, focus, Some(""))) ==
            BuildPrompt(ProspectingFormInputs(company, focus, None))
    ensures ReportHeading(ProspectingFormInputs(company, focus, None)) ==
            "## " + "Prospect Report for " + company + " focusing on " + focus
    ensures Contains(BuildPrompt(ProspectingFormInputs(company, focus, None)),
                     "Additional context: \"None\".")
  {
    var inputs := ProspectingFormInputs(company, focus, None);
    QueryLineShowsNone(inputs);
    ContainsSuffix(QueryLine(inputs), "Additional context: \"None\".");
    PromptInterpolatesInputs(inputs);
    ContainsTrans(BuildPrompt(inputs), QueryLine(inputs), "Additional context: \"None\".");
  }

  // ---------------------------------------------------------------------
  // Classifying and reporting errors
  // ---------------------------------------------------------------------

  /** A thrown message is retried when, lower-cased, it mentions 503, unavailability or overload. */
  predicate IsTransient(message: string) {
    var lower := ToLower(message);
    Contains(lower, "503") || Contains(lower, "unavailable") || Contains(lower, "overloaded")
  }

  /** The three kinds of failure the caller can see. */
  datatype ErrorKind = Overloaded | CredentialIssue | GenericFailure

  /** The final classification, decided in this order and case-sensitively. */
  function ErrorKindOf(message: string): ErrorKind {
    if Contains(message, "503") || Contains(message, "overloaded") then Overloaded
    else if Contains(message, NotFoundMarker) || Contains(message, MissingKeyMessage) then CredentialIssue
    else GenericFailure
  }

  /** The message of the error `generateProspectData` finally throws for an error with `message`. */
  function ReportedMessage(message: string): string {
    match ErrorKindOf(message)
    case Overloaded => OverloadedMessage
    case CredentialIssue => KeyIssuePrefix + message
    case GenericFailure => GenericPrefix + message
  }

  /**
   * Every failure surfaces as exactly one of three messages, and which one
   * is decided by the original message alone, with overload taking
   * precedence over credential problems.
   */
  lemma ReportedMessageForms(message: string)
    ensures ReportedMessage(message) == OverloadedMessage <==>
      (Contains(message, "503") || Contains(message, "overloaded"))
    ensures ReportedMessage(message) == KeyIssuePrefix + message <==>
      !(Contains(message, "503") || Contains(message, "overloaded")) &&
      (Contains(message, NotFoundMarker) || Contains(message, MissingKeyMessage))
    ensures ReportedMessage(message) == GenericPrefix + message <==>
      !(Contains(message, "503") || Contains(message, "overloaded")) &&
      !(Contains(message, NotFoundMarker) || Contains(message, MissingKeyMessage))
  {
    var overloaded, key, generic := OverloadedMessage, KeyIssuePrefix + message, GenericPrefix + message;
    assert overloaded[0] == 'T' && key[0] == 'A' && generic[0] == 'F';
  }

  /**
   * An error reported as an overload was always classified as transient, so
   * it was retried; the converse fails (see `UnavailableIsNotReportedAsOverload`).
   */
  lemma OverloadReportImpliesTransient(message: string)
    requires ReportedMessage(message) == OverloadedMessage
    ensures IsTransient(message)
  {
    ReportedMessageForms(message);
    if Contains(message, "503") {
      assert ToLower("503") == "503";
      ContainsLowered(message, "503");
    } else {
      assert ToLower("overloaded") == "overloaded";
      ContainsLowered(message, "overloaded");
    }
  }

  /** A message that is transient only through "Unavailable" is retried, then reported generically. */
  lemma UnavailableIsNotReportedAsOverload()
    ensures IsTransient("Service Unavailable")
    ensures ReportedMessage("Service Unavailable") == GenericPrefix + "Service Unavailable"
  {
    var m := "Service Unavailable";
    var lower := ToLower(m);
    assert lower[8..19] == "unavailable";
    assert OccursAt(lower, "unavailable", 8);
    AbsentChar(m, "503", 0);
    AbsentChar(m, "overloaded", 0);
    assert |NotFoundMarker| > |m| && |MissingKeyMessage| > |m|;
  }

  /** An upper-case "Overloaded" is retried, but the precedence check is case-sensitive. */
  lemma CapitalisedOverloadIsNotReportedAsOverload()
    ensures IsTransient("Model Overloaded")
    ensures ReportedMessage("Model Overloaded") == GenericPrefix + "Model Overloaded"
  {
    var m := "Model Overloaded";
    var lower := ToLower(m);
    assert lower[6..16] == "overloaded";
    assert OccursAt(lower, "overloaded", 6);
    AbsentChar(m, "503", 0);
    forall i: nat | i <= |m| ensures !OccursAt(m, "overloaded", i) {
      if i + 10 <= |m| {
        assert m[i..i + 10][0] == m[i] && m[i..i + 10][1] == m[i + 1];
      }
    }
    assert |NotFoundMarker| > |m| && |MissingKeyMessage| > |m|;
  }

  /** The missing-key error is reported as a credential problem that quotes it. */
  lemma MissingKeyReport()
    ensures ReportedMessage(MissingKeyMessage) == KeyIssuePrefix + MissingKeyMessage
  {
    AbsentChar(MissingKeyMessage, "503", 0);
    AbsentChar(MissingKeyMessage, "overloaded", 7);
    ContainsPrefix(MissingKeyMessage, MissingKeyMessage);
  }

  /**
   * Characters the no-response message does not contain: no digit 5 (so no
   * "503"), no 'v' (so no "overloaded"), no 'R' and no 'A' (so neither
   * credential marker). Each of the three pieces the message is made of is
   * checked by character range, which keeps the proof to one small fact
   * per piece instead of a substring search over the whole message.
   */
  lemma NoResponseLacks()
    ensures '5' !in NoResponseMessage && 'v' !in NoResponseMessage
    ensures 'R' !in NoResponseMessage && 'A' !in NoResponseMessage
  {
    StringLacks("Failed to get a response ");
    StringLacks("from the model ");
    StringLacks("after multiple retries.");
  }

  /** A short string whose characters all lie in these ranges has none of the four. */
  lemma StringLacks(s: string)
    requires |s| <= 25
    requires forall i :: 0 <= i < |s| ==>
      ('a' <= s[i] <= 'u' || 'w' <= s[i] <= 'z' || s[i] == ' ' || s[i] == 'F' || s[i] == '.')
    ensures '5' !in s && 'v' !in s && 'R' !in s && 'A' !in s
  {
  }

  /** The no-response error is reported with the generic prefix. */
  lemma NoResponseReport()
    ensures ReportedMessage(NoResponseMessage) == GenericPrefix + NoResponseMessage
  {
    NoResponseLacks();
    AbsentChar(NoResponseMessage, "503", 0);
    AbsentChar(NoResponseMessage, "overloaded", 1);
    AbsentChar(NoResponseMessage, NotFoundMarker, 0);
    AbsentChar(NoResponseMessage, MissingKeyMessage, 0);
  }

  // ---------------------------------------------------------------------
  // The model's answer
  // ---------------------------------------------------------------------

  datatype GroundingMetadata = GroundingMetadata(groundingChunks: Option<seq<GroundingChunk>>)
  datatype Candidate = Candidate(groundingMetadata: Option<GroundingMetadata>)
  /** A truthy answer of the model: its text and the optional list of candidates. */
  datatype ModelResponse = ModelResponse(text: string, candidates: Option<seq<Candidate>>)

  /** What one call of the model does. */
  datatype Outcome =
    | Returned(response: ModelResponse)  // a truthy answer
    | ReturnedNothing                    // a falsy answer (null or undefined)
    | Threw(message: string)             // an error with this message

  /** `response.candidates?.[0]?.groundingMetadata?.groundingChunks || []` */
  function CitedChunks(response: ModelResponse): seq<GroundingChunk> {
    match response.candidates
    case None => []
    case Some(candidates) =>
      if |candidates| == 0 then []
      else match candidates[0].groundingMetadata
        case None => []
        case Some(metadata) =>
          match metadata.groundingChunks
          case None => []
          case Some(chunks) => chunks
  }

  /** The report built from a truthy answer. */
  function Normalise(response: ModelResponse): (report: ProspectReport)
    ensures report.text == response.text
  {
    ProspectReport(response.text, CitedChunks(response))
  }

  /**
   * The report keeps every citation of the first candidate, in order, whether
   * or not it has an address, and the text unchanged.
   */
  lemma NormaliseKeepsCitations(text: string, chunks: seq<GroundingChunk>, others: seq<Candidate>)
    ensures Normalise(ModelResponse(text, Some([Candidate(Some(GroundingMetadata(Some(chunks))))] + others)))
      == ProspectReport(text, chunks)
  {
  }

  /** Without citations on the first candidate the report has none. */
  lemma NormaliseWithoutCitations(response: ModelResponse)
    requires response.candidates.None? || |response.candidates.value| == 0 ||
             response.candidates.value[0].groundingMetadata.None? ||
             response.candidates.value[0].groundingMetadata.value.groundingChunks.None?
    ensures Normalise(response).groundingLinks == []
  {
  }

  // ---------------------------------------------------------------------
  // The retry loop, specified on the outcomes of the calls
  // ---------------------------------------------------------------------

  /** `Math.pow(2, n)` */
  function Pow2(n: nat): (r: nat)
    ensures r >= 1
  {
    if n == 0 then 1 else 2 * Pow2(n - 1)
  }

  lemma {:induction false} Pow2Increasing(a: nat, b: nat)
    requires a < b
    ensures Pow2(a) < Pow2(b)
    decreases b
  {
    if a < b - 1 {
      Pow2Increasing(a, b - 1);
    }
  }

  /** The sleep after a transient failure on zero-based attempt `i`. */
  function Backoff(i: nat): (delay: nat)
    ensures delay >= InitialBackoffMs
  {
    InitialBackoffMs * Pow2(i)
  }

  /** The backoff strictly grows from one attempt to the next. */
  lemma BackoffIncreasing(a: nat, b: nat)
    requires a < b
    ensures Backoff(a) < Backoff(b)
  {
    Pow2Increasing(a, b);
  }

  /** The call threw an error the loop retries. */
  predicate IsTransientThrow(o: Outcome) {
    o.Threw? && IsTransient(o.message)
  }

  /** The call ends the loop: a truthy answer, or an error that is not retried. */
  predicate EndsLoop(o: Outcome) {
    o.Returned? || (o.Threw? && !IsTransient(o.message))
  }

  /** The number of calls made when the loop reaches attempt `i`. */
  function AttemptsFrom(outcomes: seq<Outcome>, i: nat): (n: nat)
    requires i < MaxRetries <= |outcomes|
    ensures i < n <= MaxRetries
    ensures forall k :: i <= k < n - 1 ==> !EndsLoop(outcomes[k])
    ensures n < MaxRetries ==> EndsLoop(outcomes[n - 1])
    decreases MaxRetries - i
  {
    if EndsLoop(outcomes[i]) || i == MaxRetries - 1 then i + 1 else AttemptsFrom(outcomes, i + 1)
  }

  /**
   * The number of calls made: between 1 and `MaxRetries`; no call before
   * the last one ended the loop, and fewer than `MaxRetries` calls are made
   * only when the last one did.
   */
  function AttemptCount(outcomes: seq<Outcome>): (n: nat)
    requires MaxRetries <= |outcomes|
    ensures 1 <= n <= MaxRetries
    ensures forall k :: 0 <= k < n - 1 ==> !EndsLoop(outcomes[k])
    ensures n < MaxRetries ==> EndsLoop(outcomes[n - 1])
  {
    AttemptsFrom(outcomes, 0)
  }

  /** The attempt count is the first attempt that ends the loop, or the last allowed one. */
  lemma AttemptCountIs(outcomes: seq<Outcome>, j: nat)
    requires j < MaxRetries <= |outcomes|
    requires forall k :: 0 <= k < j ==> !EndsLoop(outcomes[k])
    requires EndsLoop(outcomes[j]) || j == MaxRetries - 1
    ensures AttemptCount(outcomes) == j + 1
  {
  }

  /** `lastError` after `k` calls. */
  function LastErrorAfter(outcomes: seq<Outcome>, k: nat): Option<string>
    requires k <= |outcomes|
  {
    if k == 0 then None
    else match outcomes[k - 1]
      case Returned(_) => None
      case ReturnedNothing => LastErrorAfter(outcomes, k - 1)
      case Threw(message) => Some(message)
  }

  /** `response` after `k` calls (`None` for a falsy one). */
  function ResponseAfter(outcomes: seq<Outcome>, k: nat): Option<ModelResponse>
    requires k <= |outcomes|
  {
    if k == 0 then None
    else match outcomes[k - 1]
      case Returned(response) => Some(response)
      case ReturnedNothing => None
      case Threw(_) => ResponseAfter(outcomes, k - 1)
  }

  /** The sleeps taken during the first `k` calls. */
  function DelaysAfter(outcomes: seq<Outcome>, k: nat): seq<nat>
    requires k <= |outcomes|
  {
    if k == 0 then []
    else
      DelaysAfter(outcomes, k - 1) +
      (if IsTransientThrow(outcomes[k - 1]) && k - 1 < MaxRetries - 1 then [Backoff(k - 1)] else [])
  }

  /** The number of calls of the model for a request. */
  function Attempts(apiKey: Option<string>, outcomes: seq<Outcome>): nat
    requires MaxRetries <= |outcomes|
  {
    if Truthy(apiKey) then AttemptCount(outcomes) else 0
  }

  /** The sleeps taken for a request. */
  function Delays(apiKey: Option<string>, outcomes: seq<Outcome>): seq<nat>
    requires MaxRetries <= |outcomes|
  {
    if Truthy(apiKey) then DelaysAfter(outcomes, AttemptCount(outcomes)) else []
  }

  /**
   * What the code after the loop makes of its final state: the last error
   * is rethrown, a missing answer becomes the no-response error, and any
   * error is rewritten by the outer handler.
   */
  function Conclude(lastError: Option<string>, response: Option<ModelResponse>): Result<ProspectReport, string> {
    match lastError
    case Some(thrown) => Failure(ReportedMessage(thrown))
    case None =>
      match response
      case None => Failure(ReportedMessage(NoResponseMessage))
      case Some(answer) => Success(Normalise(answer))
  }

  /** What `generateProspectData` resolves to (a report) or rejects with (a message). */
  function Generate(apiKey: Option<string>, outcomes: seq<Outcome>): Result<ProspectReport, string>
    requires MaxRetries <= |outcomes|
  {
    match GetGeminiClient(apiKey)
    case Failure(thrown) => Failure(ReportedMessage(thrown))
    case Success(_) =>
      var n := AttemptCount(outcomes);
      Conclude(LastErrorAfter(outcomes, n), ResponseAfter(outcomes, n))
  }

  /**
   * The retry loop of `generateProspectData`: up to `MaxRetries` calls of
   * the model with `prompt`, stopping at the first truthy answer or the
   * first error that is not transient, and sleeping `Backoff(i)` after a
   * transient error of every attempt `i` but the last. Returns the final
   * `response` and `lastError`, the prompt of each call and the sleeps.
   */
  method RetryLoop(prompt: string, outcomes: seq<Outcome>)
    returns (response: Option<ModelResponse>, lastError: Option<string>, prompts: seq<string>, delays: seq<nat>)
    requires MaxRetries <= |outcomes|
    ensures |prompts| == AttemptCount(outcomes)
    ensures forall k :: 0 <= k < |prompts| ==> prompts[k] == prompt
    ensures response == ResponseAfter(outcomes, |prompts|)
    ensures lastError == LastErrorAfter(outcomes, |prompts|)
    ensures delays == DelaysAfter(outcomes, |prompts|)
  {
    response, lastError := None, None;
    prompts, delays := [], [];
    var i := 0;
    while i < MaxRetries
      invariant 0 <= i <= MaxRetries
      invariant forall k :: 0 <= k < i ==> !EndsLoop(outcomes[k])
      invariant |prompts| == i && forall k :: 0 <= k < i ==> prompts[k] == prompt
      invariant response == ResponseAfter(outcomes, i)
      invariant lastError == LastErrorAfter(outcomes, i)
      invariant delays == DelaysAfter(outcomes, i)
    {
      prompts := prompts + [prompt];
      match outcomes[i] {
        case Returned(answer) =>
          response := Some(answer);
          lastError := None;
          AttemptCountIs(outcomes, i);
          break;
        case ReturnedNothing =>
          response := None;
        case Threw(message) =>
          lastError := Some(message);
          if IsTransient(message) {
            if i < MaxRetries - 1 {
              delays := delays + [Backoff(i)];
            }
          } else {
            AttemptCountIs(outcomes, i);
            break;
          }
      }
      if i == MaxRetries - 1 {
        AttemptCountIs(outcomes, i);
      }
      i := i + 1;
    }
  }

  /**
   * `generateProspectData(inputs)`. Returns what the call resolves or rejects
   * with, the prompt sent on each call of the model and the sleeps taken.
   */
  method GenerateProspectData(apiKey: Option<string>, inputs: ProspectingFormInputs, outcomes: seq<Outcome>)
    returns (result: Result<ProspectReport, string>, prompts: seq<string>, delays: seq<nat>)
    requires MaxRetries <= |outcomes|
    ensures |prompts| == Attempts(apiKey, outcomes) <= MaxRetries
    ensures forall k :: 0 <= k < |prompts| ==> prompts[k] == BuildPrompt(inputs)
    ensures delays == Delays(apiKey, outcomes)
    ensures result == Generate(apiKey, outcomes)
  {
    var client := GetGeminiClient(apiKey);
    if client.Failure? {
      return Failure(ReportedMessage(client.error)), [], [];
    }
    var response, lastError;
    response, lastError, prompts, delays := RetryLoop(BuildPrompt(inputs), outcomes);
    result := Conclude(lastError, response);
  }

  // ---------------------------------------------------------------------
  // Properties of the retry loop
  // ---------------------------------------------------------------------

  /**
   * Without a key the model is never called, nothing is slept, and the error
   * names the key problem and quotes the original message.
   */
  lemma MissingKeyShortCircuits(apiKey: Option<string>, outcomes: seq<Outcome>)
    requires MaxRetries <= |outcomes|
    requires !Truthy(apiKey)
    ensures Attempts(apiKey, outcomes) == 0 && Delays(apiKey, outcomes) == []
    ensures Generate(apiKey, outcomes) == Failure(KeyIssuePrefix + MissingKeyMessage)
    ensures StartsWith(Generate(apiKey, outcomes).error, "API Key issue: ")
    ensures EndsWith(Generate(apiKey, outcomes).error, MissingKeyMessage)
  {
    MissingKeyReport();
    var e := KeyIssuePrefix + MissingKeyMessage;
    assert e[..15] == "API Key issue: ";
    assert e[|e| - |MissingKeyMessage|..] == MissingKeyMessage;
  }

  /**
   * The model is called at least once exactly when the key is truthy; with
   * a key the credential error cannot arise before the first call.
   */
  lemma KeyGatesCalls(apiKey: Option<string>, outcomes: seq<Outcome>)
    requires MaxRetries <= |outcomes|
    ensures Attempts(apiKey, outcomes) > 0 <==> Truthy(apiKey)
    ensures Truthy(apiKey) ==> GetGeminiClient(apiKey) == Success(Client(apiKey.value))
  {
  }

  /**
   * The first truthy answer ends the loop and is the result, whatever errors
   * the earlier attempts threw.
   */
  lemma FirstAnswerWins(apiKey: Option<string>, outcomes: seq<Outcome>, j: nat)
    requires j < MaxRetries <= |outcomes| && Truthy(apiKey)
    requires forall k :: 0 <= k < j ==> !EndsLoop(outcomes[k])
    requires outcomes[j].Returned?
    ensures Attempts(apiKey, outcomes) == j + 1
    ensures Generate(apiKey, outcomes) == Success(Normalise(outcomes[j].response))
  {
    AttemptCountIs(outcomes, j);
  }

  /** The request succeeds exactly when the last call made returned a truthy answer. */
  lemma SuccessIffLastAnswered(apiKey: Option<string>, outcomes: seq<Outcome>)
    requires MaxRetries <= |outcomes|
    ensures Generate(apiKey, outcomes).Success? <==>
      Truthy(apiKey) && outcomes[AttemptCount(outcomes) - 1].Returned?
    ensures Generate(apiKey, outcomes).Success? ==>
      Generate(apiKey, outcomes).value == Normalise(outcomes[AttemptCount(outcomes) - 1].response)
  {
  }

  /** A non-transient error ends the loop right after the call that threw it. */
  lemma PermanentErrorStops(apiKey: Option<string>, outcomes: seq<Outcome>, j: nat)
    requires j < MaxRetries <= |outcomes| && Truthy(apiKey)
    requires forall k :: 0 <= k < j ==> !EndsLoop(outcomes[k])
    requires outcomes[j].Threw? && !IsTransient(outcomes[j].message)
    ensures Attempts(apiKey, outcomes) == j + 1
    ensures Generate(apiKey, outcomes) == Failure(ReportedMessage(outcomes[j].message))
  {
    AttemptCountIs(outcomes, j);
  }

  /**
   * Before a truthy answer, `lastError` is the message of the latest throw,
   * after which only falsy answers came; it is unset only when nothing threw.
   */
  lemma {:induction false} LastErrorIsLatestThrow(outcomes: seq<Outcome>, k: nat)
    requires k <= |outcomes|
    requires forall j :: 0 <= j < k ==> !outcomes[j].Returned?
    ensures LastErrorAfter(outcomes, k).None? <==> forall j :: 0 <= j < k ==> outcomes[j] == ReturnedNothing
    ensures LastErrorAfter(outcomes, k).Some? ==>
      exists j :: 0 <= j < k && outcomes[j] == Threw(LastErrorAfter(outcomes, k).value) &&
        forall l :: j < l < k ==> outcomes[l] == ReturnedNothing
  {
    if k > 0 {
      LastErrorIsLatestThrow(outcomes, k - 1);
      if outcomes[k - 1].ReturnedNothing? && LastErrorAfter(outcomes, k).Some? {
        var j :| 0 <= j < k - 1 && outcomes[j] == Threw(LastErrorAfter(outcomes, k - 1).value) &&
          forall l :: j < l < k - 1 ==> outcomes[l] == ReturnedNothing;
        assert forall l :: j < l < k ==> outcomes[l] == ReturnedNothing;
      }
    }
  }

  /**
   * A failed request with a key reports the latest error thrown by the
   * model, even when falsy answers came after it; if nothing was thrown, it
   * reports that no answer came.
   */
  lemma FailureReportsLatestThrow(apiKey: Option<string>, outcomes: seq<Outcome>)
    requires MaxRetries <= |outcomes| && Truthy(apiKey)
    requires Generate(apiKey, outcomes).Failure?
    ensures
      (exists j :: 0 <= j < AttemptCount(outcomes) && outcomes[j].Threw? &&
         Generate(apiKey, outcomes).error == ReportedMessage(outcomes[j].message) &&
         forall l :: j < l < AttemptCount(outcomes) ==> outcomes[l] == ReturnedNothing) ||
      ((forall j :: 0 <= j < AttemptCount(outcomes) ==> outcomes[j] == ReturnedNothing) &&
         Generate(apiKey, outcomes).error == ReportedMessage(NoResponseMessage))
  {
    var n := AttemptCount(outcomes);
    assert !outcomes[n - 1].Returned?;
    LastErrorIsLatestThrow(outcomes, n);
  }

  /** `Sum` of the delays, in milliseconds. */
  function Sum(delays: seq<nat>): nat {
    if delays == [] then 0 else delays[0] + Sum(delays[1..])
  }

  /**
   * The sleeps in closed form: `Backoff(0)` if the first call threw a
   * transient error, then `Backoff(1)` if the second did; a transient error
   * of the last allowed call causes none.
   */
  lemma {:induction false} DelaysClosedForm(outcomes: seq<Outcome>, k: nat)
    requires k <= |outcomes|
    ensures DelaysAfter(outcomes, k) ==
      (if 0 < k && IsTransientThrow(outcomes[0]) then [Backoff(0)] else []) +
      (if 1 < k && IsTransientThrow(outcomes[1]) then [Backoff(1)] else [])
  {
    if k > 0 {
      DelaysClosedForm(outcomes, k - 1);
    }
  }

  /**
   * The backoff schedule: a sleep of `1000 * 2^j` ms is taken exactly when
   * attempt `j` threw a transient error and another attempt is allowed after
   * it; the sleeps are strictly increasing, and falsy answers and the last
   * attempt cause none.
   */
  lemma DelaySchedule(outcomes: seq<Outcome>, k: nat)
    requires k <= |outcomes|
    ensures |DelaysAfter(outcomes, k)| <= k && |DelaysAfter(outcomes, k)| <= MaxRetries - 1
    ensures forall a, b :: 0 <= a < b < |DelaysAfter(outcomes, k)| ==>
      DelaysAfter(outcomes, k)[a] < DelaysAfter(outcomes, k)[b]
    ensures forall x :: x in DelaysAfter(outcomes, k) ==>
      exists j: nat :: j < k && j < MaxRetries - 1 && x == Backoff(j)
    ensures forall j: nat :: Backoff(j) in DelaysAfter(outcomes, k) <==>
      (j < k && j < MaxRetries - 1 && IsTransientThrow(outcomes[j]))
  {
    DelaysClosedForm(outcomes, k);
    assert Backoff(0) == 1000 && Backoff(1) == 2000;
    forall j: nat | j >= MaxRetries - 1 ensures Backoff(j) > 2000 {
      if j > 1 {
        BackoffIncreasing(1, j);
      }
    }
  }

  /** The sleeps of one request are 1000 and 2000 ms at most, 3000 ms in all. */
  lemma TotalBackoff(apiKey: Option<string>, outcomes: seq<Outcome>)
    requires MaxRetries <= |outcomes|
    ensures |Delays(apiKey, outcomes)| <= MaxRetries - 1
    ensures forall x :: x in Delays(apiKey, outcomes) ==> x == 1000 || x == 2000
    ensures Sum(Delays(apiKey, outcomes)) <= 3000
  {
    if Truthy(apiKey) {
      DelaysClosedForm(outcomes, AttemptCount(outcomes));
      assert Backoff(0) == 1000 && Backoff(1) == 2000;
      assert Sum([1000, 2000]) == 1000 + Sum([2000]);
      assert Sum([2000]) == 2000 + Sum([]);
      assert Sum([1000]) == 1000 + Sum([]);
    }
  }

  /**
   * Three transient failures: three calls, sleeps of 1000 and 2000 ms (none
   * after the last attempt), and the last error is reported.
   */
  lemma AllTransientFailures(apiKey: Option<string>, outcomes: seq<Outcome>)
    requires MaxRetries <= |outcomes| && Truthy(apiKey)
    requires forall k :: 0 <= k < MaxRetries ==> IsTransientThrow(outcomes[k])
    ensures Attempts(apiKey, outcomes) == MaxRetries
    ensures Delays(apiKey, outcomes) == [1000, 2000]
    ensures Generate(apiKey, outcomes) == Failure(ReportedMessage(outcomes[MaxRetries - 1].message))
  {
    AttemptCountIs(outcomes, MaxRetries - 1);
    assert Backoff(0) == 1000 && Backoff(1) == 2000;
    assert DelaysAfter(outcomes, 1) == [1000];
    assert DelaysAfter(outcomes, 2) == [1000, 2000];
  }

  /**
   * Only falsy answers: three calls, no sleep, and the generic prefix in
   * front of the no-response message.
   */
  lemma AllAnswersFalsy(apiKey: Option<string>, outcomes: seq<Outcome>)
    requires MaxRetries <= |outcomes| && Truthy(apiKey)
    requires forall k :: 0 <= k < MaxRetries ==> outcomes[k] == ReturnedNothing
    ensures Attempts(apiKey, outcomes) == MaxRetries
    ensures Delays(apiKey, outcomes) == []
    ensures Generate(apiKey, outcomes) == Failure(GenericPrefix + NoResponseMessage)
  {
    AttemptCountIs(outcomes, MaxRetries - 1);
    NoResponseReport();
    assert DelaysAfter(outcomes, 1) == [] && DelaysAfter(outcomes, 2) == [];
    assert LastErrorAfter(outcomes, 1) == None;
    assert LastErrorAfter(outcomes, 2) == None;
    assert ResponseAfter(outcomes, 3) == None;
  }
}
