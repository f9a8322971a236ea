# AI-powered sales prospecting agent: a Dafny model of its core

This project models the part of the application that turns a prospecting
request into a report and shows it:

- `generateProspectData` (services/geminiService.ts). It checks that an API
  key is configured and interpolates the form inputs into the prompt. It calls
  the model at most three times: it stops at the first truthy answer or the
  first error that is not transient. After a transient failure on zero-based
  attempt i (i = 0, 1) it sleeps 1000·2^i ms; after the last attempt it does
  not sleep. It reduces the answer to its text and the citations of
  the first candidate. Every failure is mapped onto one of three messages the
  user sees: overload, API-key issue, or a generic failure.
- `renderMarkdown` (components/ProspectResult.tsx). It rewrites headings, bold
  runs and bullets, wraps the text in `<ul>` when it has a list item, and turns
  line breaks into `<br/>`.
- The "Sources & References" list of the printable copy
  (components/ProspectResult.tsx).
- The citation list under the report (components/LinkList.tsx). It filters
  out citations without an address and labels each one with its title or its
  address.

The model is written in Dafny 4.11, one module per source file:

- `Types`: the records of types.ts.
- `GeminiService`: the service.
- `ProspectResult`: the report view.
- `LinkList`: the citation list.

Three support modules sit beside them:

- `Wrappers`: `Option` and `Result`.
- `Strings`: the JavaScript string built-ins the code uses (`includes`,
  `startsWith`, `toLowerCase`, `trim`, `split`, `join`).
- `Scenarios`: concrete runs.

How the service is modelled:

- **The model endpoint.** It is an oracle. `outcomes[i]` is what the i-th call
  of `generateContent` does: it returns a truthy answer, returns a falsy one,
  or throws an error with a message.
- **The environment's key.** `process.env.API_KEY` is an `Option<string>`. It
  is truthy when it is present and not empty.
- **Sleeps.** They are recorded as the list of delays in milliseconds.
- **The loop.** `GenerateProspectData` and its loop `RetryLoop` are methods.
  They are proved equal to specification functions over the outcomes
  (`AttemptCount`, `ResponseAfter`, `LastErrorAfter`, `DelaysAfter`,
  `Generate`), and the lemmas state what the loop promises in terms of those
  functions.
- **The rejection.** What the asynchronous function rejects with is the
  `Failure` branch of a `Result`.

Where the documentation and the code disagree, the model follows the code:

- **Overload message.** The documentation says a transient error that exhausts
  the retries is reported as an overload. The code reports an overload only
  when the message contains "503" or "overloaded", and that test is
  case-sensitive (services/geminiService.ts:142).
- **"Unavailable" messages.** A message that is transient only through
  "unavailable", or through a capitalised "Overloaded", is retried and then
  reported with the generic prefix. `UnavailableIsNotReportedAsOverload` and
  `CapitalisedOverloadIsNotReportedAsOverload` state this.
- **Falsy answers.** A falsy answer does not clear an earlier error. That
  error is thrown after the loop (`LastErrorIsLatestThrow`).

## Model

| member | source | states |
|---|---|---|
| GeminiService.GetGeminiClient | services/geminiService.ts:8-14 | models `getGeminiClient`; `KeyGatesCalls` and `MissingKeyShortCircuits` state what it promises |
| GeminiService.KeyGatesCalls | services/geminiService.ts:8-14 | the model is called at least once exactly when the key is truthy, and the client then holds that key |
| GeminiService.KeywordsOrNone | services/geminiService.ts:29 | the shown context is never empty; `QueryLineShowsKeywords` and `QueryLineShowsNone` state each case in the query line |
| GeminiService.QueryLine | services/geminiService.ts:29 | models the query line; `PromptInterpolatesInputs`, `QueryLineShowsKeywords` and `QueryLineShowsNone` state its properties |
| GeminiService.QueryLineShowsKeywords | services/geminiService.ts:29 | with truthy keywords, the query line ends with `Additional context: "<keywords>".` |
| GeminiService.ContextSuffix | services/geminiService.ts:47 | the suffix is empty exactly when the keywords are falsy; `HeadingShowsContext` states the truthy case |
| GeminiService.ReportHeading | services/geminiService.ts:47 | models the heading line; `HeadingNamesInputs`, `HeadingShowsContext` and `EmptyKeywordsLikeAbsent` state its properties |
| GeminiService.HeadingShowsContext | services/geminiService.ts:47 | with truthy keywords, the heading ends with " (Context: <keywords>)" |
| GeminiService.HeadingNamesInputs | services/geminiService.ts:47 | the heading contains "Prospect Report for <company> focusing on <focus>" |
| GeminiService.BuildPrompt | services/geminiService.ts:24-84 | models `detailedPrompt`; `PromptInterpolatesInputs` states its property |
| GeminiService.PromptInterpolatesInputs | services/geminiService.ts:24-84 | the prompt contains both the query line and the report heading built from the inputs |
| GeminiService.QueryLineShowsNone | services/geminiService.ts:29 | with falsy keywords, the query line ends with `Additional context: "None".` |
| GeminiService.EmptyKeywordsLikeAbsent | services/geminiService.ts:29-47 | empty and absent keywords give the same prompt; that prompt shows "None" as the context, and its heading has no context suffix |
| GeminiService.IsTransient | services/geminiService.ts:107-109 | models the retry test; `OverloadReportImpliesTransient`, `UnavailableIsNotReportedAsOverload` and `CapitalisedOverloadIsNotReportedAsOverload` state its relation to the final message |
| GeminiService.ErrorKindOf | services/geminiService.ts:142-153 | models the order of the final checks; `ReportedMessageForms` states it |
| GeminiService.ReportedMessage | services/geminiService.ts:138-154 | models the outer handler's message; `ReportedMessageForms` states its three forms |
| GeminiService.ReportedMessageForms | services/geminiService.ts:138-154 | each of the three final messages arises exactly under its condition: "503"/"overloaded" (case-sensitive) first, then the two credential markers, then anything else |
| GeminiService.OverloadReportImpliesTransient | services/geminiService.ts:107-144 | an error reported as an overload was classified as transient, so it was retried |
| GeminiService.UnavailableIsNotReportedAsOverload | services/geminiService.ts:107-153 | "Service Unavailable" is transient but is reported with the generic prefix |
| GeminiService.CapitalisedOverloadIsNotReportedAsOverload | services/geminiService.ts:107-153 | "Model Overloaded" is transient, because the test lower-cases it, but gets the generic prefix, because the final check is case-sensitive |
| GeminiService.MissingKeyReport | services/geminiService.ts:147-151 | the missing-key error becomes the API-key message that quotes it |
| GeminiService.NoResponseReport | services/geminiService.ts:127-153 | the no-response error gets the generic prefix |
| GeminiService.CitedChunks | services/geminiService.ts:132 | models the optional chain with its `[]` default; `NormaliseKeepsCitations` and `NormaliseWithoutCitations` state it |
| GeminiService.Normalise | services/geminiService.ts:131-137 | the report's text is the answer's text |
| GeminiService.NormaliseKeepsCitations | services/geminiService.ts:132 | every citation of the first candidate is kept, in order, including those without an address |
| GeminiService.NormaliseWithoutCitations | services/geminiService.ts:132 | a missing candidate list, metadata or chunk list on the first candidate gives no citations |
| GeminiService.Pow2Increasing | services/geminiService.ts:112 | `2^a < 2^b` for `a < b` |
| GeminiService.Pow2 | services/geminiService.ts:112 | `Math.pow(2, n)` is at least 1 |
| GeminiService.Backoff | services/geminiService.ts:112 | a sleep is never shorter than 1000 ms; `BackoffIncreasing` states how it grows |
| GeminiService.BackoffIncreasing | services/geminiService.ts:112 | the backoff `1000 * 2^i` strictly grows with the attempt |
| GeminiService.IsTransientThrow | services/geminiService.ts:103-114 | the call threw an error that the catch branch retries (with a sleep unless it was the last attempt); `DelaySchedule` and `AllTransientFailures` state its meaning |
| GeminiService.EndsLoop | services/geminiService.ts:99-117 | the call ends the loop: the truthy-answer `break` (99-101) or the `break` on an error that is not transient (115-117); `AttemptsFrom`, `AttemptCountIs` and `PermanentErrorStops` state its meaning |
| GeminiService.AttemptsFrom | services/geminiService.ts:89-120 | from attempt i the loop makes between i+1 and 3 calls; no call before the last ended the loop, and it stops early only on a call that did |
| GeminiService.AttemptCount | services/geminiService.ts:89-120 | 1 to 3 calls; no call before the last ended the loop, and fewer than 3 calls only when the last one did |
| GeminiService.AttemptCountIs | services/geminiService.ts:89-120 | the call count is one past the first attempt that ends the loop, or 3 |
| GeminiService.LastErrorAfter | services/geminiService.ts:87-120 | `lastError` after k calls; `RetryLoop` is proved to keep it, and `LastErrorIsLatestThrow` states what it is |
| GeminiService.ResponseAfter | services/geminiService.ts:86-120 | `response` after k calls; `RetryLoop` is proved to keep it, and `SuccessIffLastAnswered` and `FirstAnswerWins` state its effect |
| GeminiService.DelaysAfter | services/geminiService.ts:107-114 | the sleeps of the first k calls; `DelaysClosedForm` and `DelaySchedule` state them |
| GeminiService.Attempts | services/geminiService.ts:8-120 | the calls of a request; `KeyGatesCalls` and `AttemptCount` state them |
| GeminiService.Delays | services/geminiService.ts:8-120 | the sleeps of a request; `TotalBackoff` states their bounds |
| GeminiService.Conclude | services/geminiService.ts:122-153 | models the code after the loop; `FailureReportsLatestThrow` and `SuccessIffLastAnswered` state it |
| GeminiService.Generate | services/geminiService.ts:16-155 | what the request resolves or rejects with; `GenerateProspectData` is proved equal to it, and `SuccessIffLastAnswered` and `FailureReportsLatestThrow` state its meaning |
| GeminiService.RetryLoop | services/geminiService.ts:86-120 | the loop makes `AttemptCount` calls, each with the same prompt; it leaves `response`, `lastError` and the sleeps as the specification functions give them after that many calls |
| GeminiService.GenerateProspectData | services/geminiService.ts:16-155 | at most 3 calls, each with the built prompt, and none without a key; the sleeps are `Delays`, and the result is `Generate` |
| GeminiService.MissingKeyShortCircuits | services/geminiService.ts:8-20 | without a key: no call, no sleep, and a failure that starts with "API Key issue: " and ends with the missing-key message |
| GeminiService.FirstAnswerWins | services/geminiService.ts:99-102 | the first truthy answer ends the loop and is the result, whatever errors came before it |
| GeminiService.SuccessIffLastAnswered | services/geminiService.ts:89-137 | the request succeeds exactly when a key is set and the last call made returned a truthy answer; the report is that answer normalised |
| GeminiService.PermanentErrorStops | services/geminiService.ts:115-118 | a non-transient error ends the loop after that call and is the reported error |
| GeminiService.LastErrorIsLatestThrow | services/geminiService.ts:99-104 | before any truthy answer, `lastError` is the latest throw, with only falsy answers after it; it is unset exactly when nothing threw |
| GeminiService.FailureReportsLatestThrow | services/geminiService.ts:122-129 | a failed request with a key reports the latest thrown error, or the no-response error when every answer was falsy |
| GeminiService.DelaysClosedForm | services/geminiService.ts:107-114 | the sleeps are `Backoff(0)` if call 0 failed transiently, then `Backoff(1)` if call 1 did; the last allowed call never sleeps |
| GeminiService.DelaySchedule | services/geminiService.ts:110-113 | at most 2 sleeps, strictly increasing; `1000 * 2^j` is slept exactly when attempt j failed transiently and is not the last allowed one |
| GeminiService.TotalBackoff | services/geminiService.ts:110-113 | each sleep is 1000 or 2000 ms, and one request sleeps at most 3000 ms in all |
| GeminiService.AllTransientFailures | services/geminiService.ts:107-125 | three transient failures give 3 calls, sleeps [1000, 2000] and the last error's report |
| GeminiService.AllAnswersFalsy | services/geminiService.ts:127-129 | only falsy answers give 3 calls, no sleep and the generic no-response message |
| ProspectResult.RenderMarkdown | components/ProspectResult.tsx:16-44 | models `renderMarkdown`; `RenderHasNoNewline` and `RenderWrapsList` state its properties, and the lemmas below state each stage |
| ProspectResult.RewriteLine | components/ProspectResult.tsx:19-21 | one line under one `^marker(.*$)` rule; `HeadingsPerLine` and `BulletsPerLine` state its effect |
| ProspectResult.RewriteEach | components/ProspectResult.tsx:19-21 | the rule applied to each line; `RewriteLinesSplit` states that this is what the replacement does to the whole text |
| ProspectResult.RewriteLines | components/ProspectResult.tsx:19-21 | one multi-line replacement; `RewriteLinesSplit` states it |
| ProspectResult.HeadingOf | components/ProspectResult.tsx:19-21 | the heading of one line; `HeadingsPerLine` states that the three passes give it |
| ProspectResult.Headings | components/ProspectResult.tsx:18-21 | the three heading passes; `HeadingsPerLine` states them |
| ProspectResult.BulletOf | components/ProspectResult.tsx:28-29 | the list item of one line; `BulletsPerLine` states that the two passes give it |
| ProspectResult.Bullets | components/ProspectResult.tsx:28-29 | the two bullet passes; `BulletsPerLine` states them |
| ProspectResult.RewriteLinesSplit | components/ProspectResult.tsx:19-21 | the lines of a rewritten text are the rewritten lines of the text |
| ProspectResult.NotRewrittenAgain | components/ProspectResult.tsx:19-21 | a line a rule has rewritten is left alone by a later rule whose marker differs from its tag |
| ProspectResult.HeadingsPerLine | components/ProspectResult.tsx:18-21 | each line becomes its heading: "### " is tried first and is never taken as h2 or h1; other lines are unchanged; the line count is kept |
| ProspectResult.BulletsPerLine | components/ProspectResult.tsx:28-29 | each line starting with "- " or "* " becomes an `<li>`, other lines are unchanged, and the line count is kept |
| ProspectResult.CloseAt | components/ProspectResult.tsx:24-25 | a found closing position holds a doubled marker |
| ProspectResult.CloseAtIsFirstPair | components/ProspectResult.tsx:24-25 | the lazy match stops at the first closing pair, with no line break before it; when none is found, every pair has a line break before it |
| ProspectResult.CloseAtWithoutMarker | components/ProspectResult.tsx:24-25 | text without the marker has no closing pair |
| ProspectResult.CloseAtFirstPair | components/ProspectResult.tsx:24-25 | the first pair after text on one line that holds no doubled marker and does not end with the marker closes the run; single markers before it do not stop it |
| ProspectResult.CloseAtStopsAtNewline | components/ProspectResult.tsx:24-25 | the search for a closing pair never looks past a line break |
| ProspectResult.Embolden | components/ProspectResult.tsx:24-25 | one global bold replacement; `EmboldenLineByLine`, `EmboldenPair`, `NoClosingRunUnchanged` and the lemmas around them state it |
| ProspectResult.Bolded | components/ProspectResult.tsx:24-25 | `**` runs first, then `__` runs; the `Embolden` lemmas state each pass |
| ProspectResult.EmboldenCopies | components/ProspectResult.tsx:24-25 | a proof step that unfolds `Embolden`: where no bold run opens, the first character is copied and the scan continues |
| ProspectResult.EmboldenReplaces | components/ProspectResult.tsx:24-25 | a proof step that unfolds `Embolden`: a run that opens and closes is replaced by `<strong>…</strong>`, and the scan goes on after it |
| ProspectResult.EmboldenLineByLine | components/ProspectResult.tsx:24-25 | bold rewriting works line by line: runs never span a line break |
| ProspectResult.EmboldenWithoutMarker | components/ProspectResult.tsx:24-25 | text without the marker is unchanged |
| ProspectResult.EmboldenUnpaired | components/ProspectResult.tsx:24-25 | a single doubled marker in text that otherwise lacks the marker is kept |
| ProspectResult.NoClosingRunUnchanged | components/ProspectResult.tsx:24-25 | text in which no doubled marker has a closing pair after it on its line is unchanged: single markers, and pairs without a partner, are kept |
| ProspectResult.EmboldenPair | components/ProspectResult.tsx:24-25 | the leftmost complete pair on a line is replaced by `<strong>x</strong>`, and the scan goes on after it; single markers before the run or inside it are allowed |
| ProspectResult.WrapList | components/ProspectResult.tsx:30-32 | the `<ul>` wrapper; `WrapsListStart`, `WrapsListEnd` and `RenderWrapsList` state it |
| ProspectResult.IsBlockStart | components/ProspectResult.tsx:37 | the block-element test; `BreakLine` and `ListOpensBlock` state its use |
| ProspectResult.BreakLine | components/ProspectResult.tsx:35-41 | `<br/>` is appended exactly when the trimmed line is not a block start (`<h`, `<ul`, `<li>`) and is not the last line |
| ProspectResult.BreakAll | components/ProspectResult.tsx:35-41 | each line is broken by its index and the line count; `BrokenIsOneLine`, `BrokenStartsWithList` and `BrokenEndsWithList` state the joined result |
| ProspectResult.BrokenIsOneLine | components/ProspectResult.tsx:35-41 | breaking and joining lines that hold no `\n` leaves no `\n` |
| ProspectResult.RenderHasNoNewline | components/ProspectResult.tsx:16-44 | the rendered HTML contains no line break |
| ProspectResult.ListOpensBlock | components/ProspectResult.tsx:37 | a line starting with `<ul>` gets no `<br/>` |
| ProspectResult.BrokenStartsWithList | components/ProspectResult.tsx:35-41 | the joined lines start with `<ul>` when the first line does |
| ProspectResult.BrokenEndsWithList | components/ProspectResult.tsx:35-41 | the joined lines end with `</ul>` when the last line does |
| ProspectResult.WrapsListStart | components/ProspectResult.tsx:30-41 | text holding `<li>` is wrapped and broken into HTML that starts with `<ul>` |
| ProspectResult.WrapsListEnd | components/ProspectResult.tsx:30-41 | text holding `<li>` is wrapped and broken into HTML that ends with `</ul>` |
| ProspectResult.RenderWrapsList | components/ProspectResult.tsx:16-44 | when a list item was produced, the rendered report starts with `<ul>` and ends with `</ul>`; `RenderWithoutListItem` states the other direction: with no list item no wrapper is added |
| ProspectResult.RenderWithoutListItem | components/ProspectResult.tsx:30-32 | when no list item was produced, the report is the broken lines of the bulleted text, with no `<ul>` wrapper |
| ProspectResult.PdfSources | components/ProspectResult.tsx:51-69 | models the source list of the printable copy; `PdfSourcesAgreeWithLinkList` states it |
| ProspectResult.PdfSourcesAgreeWithLinkList | components/ProspectResult.tsx:51-69 | the printable copy has a sources section exactly when there are citations; it lists the valid ones, in order, with the same address and label as on screen; for citations none of which is valid it has the section with no items |
| LinkList.IsValid | components/LinkList.tsx:14 | the filter's test `link.web?.uri`; `ValidLinks` and `ValidLinksSingleton` state its use |
| LinkList.ValidLinks | components/LinkList.tsx:14 | the filter keeps only valid links (`web?.uri` truthy), keeps every valid link, and adds nothing |
| LinkList.ValidLinksAppend | components/LinkList.tsx:14 | the filter distributes over concatenation, so it keeps order |
| LinkList.ValidLinksSingleton | components/LinkList.tsx:14 | a single link is kept exactly when it is valid |
| LinkList.ValidLinksEmpty | components/LinkList.tsx:14-18 | nothing survives the filter exactly when no link is valid |
| LinkList.Label | components/LinkList.tsx:46 | the caption is non-empty: the title when it is truthy, otherwise the address |
| LinkList.ItemFor | components/LinkList.tsx:40-47 | the item of one link; `RenderItems` and `PdfSourcesAgreeWithLinkList` state the items shown |
| LinkList.Items | components/LinkList.tsx:24-49 | the items of the valid links; `RenderItems` states them |
| LinkList.Render | components/LinkList.tsx:9-52 | what the component renders; `RenderNothing` and `RenderItems` state it |
| LinkList.RenderNothing | components/LinkList.tsx:9-18 | the list renders nothing exactly when no link is valid, which includes the empty list |
| LinkList.RenderItems | components/LinkList.tsx:20-52 | a rendered list has one item per valid link, with its address and label |
| Types.Truthy | services/geminiService.ts:10 | JavaScript truthiness of an optional string; `EmptyKeywordsLikeAbsent` and `KeyGatesCalls` state its use |
| Strings.Contains | services/geminiService.ts:109 | `includes`; `ContainsLowered` and `ContainsTrans` state how it behaves |
| Strings.ContainsLowered | services/geminiService.ts:107-109 | a lower-case substring of a message is a substring of the lowered message, so a case-sensitive match implies the lowered one |
| Strings.ToLower | services/geminiService.ts:107 | `toLowerCase` on ASCII letters; `ToLowerSlice` states it works character by character |
| Strings.Trim | components/ProspectResult.tsx:37 | `trim`; `TrimKeepsPrefix` states that a line without leading white space keeps its start |
| Strings.TrimKeepsPrefix | components/ProspectResult.tsx:37 | trimming a text whose start holds no white space keeps that start |
| Strings.StartsWith | components/ProspectResult.tsx:37 | `startsWith`; `StartsWithTrans`, `TrimKeepsPrefix` and `ListOpensBlock` state its use in the block test |
| Strings.StartsWithTrans | components/ProspectResult.tsx:37 | a prefix of a prefix is a prefix |
| Strings.Join | components/ProspectResult.tsx:19-29 | rebuilds a text from the lines `^`/`$` see; `JoinSplit` and `SplitJoin` state that it inverts `Split` |
| Strings.SplitJoin | components/ProspectResult.tsx:19-29 | splitting lines joined with a separator they lack gives back the lines |
| Strings.Split | components/ProspectResult.tsx:35 | `split('\n')`: at least one piece and no piece holds the separator; `JoinSplit` and `SplitJoin` state that it inverts `join` |
| Strings.JoinSplit | components/ProspectResult.tsx:35-41 | joining the pieces of a split with the separator gives back the text |
| Strings.Concat | components/ProspectResult.tsx:41 | `join('')`; `ConcatStartsWith` and `ConcatEndsWith` state that it starts with the first piece and ends with the last |
| Scenarios.TargetCloudMigrationPrompt | services/geminiService.ts:29-47 | for "Target" / "Cloud Migration" with empty keywords, the heading has no context suffix and the prompt contains it |
| Scenarios.DownIsTransientOverload | services/geminiService.ts:107-144 | "503 Service Unavailable" is retried and reported as an overload |
| Scenarios.AlwaysDown | services/geminiService.ts:89-144 | a service that is always down gets 3 calls, sleeps of 1000 and 2000 ms (3000 in all), and the overload message |
| Scenarios.BadRequestIsPermanent | services/geminiService.ts:107-153 | "400 bad request" is not transient and gets the generic prefix |
| Scenarios.BadRequestOnce | services/geminiService.ts:115-153 | a bad request gets one call, no sleep, and the generic message |
| Scenarios.RecoversOnThirdAttempt | services/geminiService.ts:89-137 | two transient failures and then an answer give 3 calls, sleeps [1000, 2000] and the answer as the report |
| Scenarios.FirstSleepFollowsAttemptIndex | services/geminiService.ts:89-120 | a falsy answer and then two outages give 3 calls, a single sleep of 2000 ms (the first transient failure is on attempt 1) and the overload message |
| Scenarios.NoKeyNoCall | services/geminiService.ts:8-20 | without a key: no call, no sleep, and the API-key message |
| Scenarios.HiWithTwoCitations | services/geminiService.ts:131-137 | with an addressed citation A and an unaddressed B, the report keeps both; the on-screen list and the printable copy show A only, labelled with its title |
| Scenarios.LoneStarKept | components/ProspectResult.tsx:24 | "2 * 3 = 6" is not rewritten |
| Scenarios.UnclosedRunKept | components/ProspectResult.tsx:24 | "**a*b" is not rewritten |
| Scenarios.InnerStarStaysInRun | components/ProspectResult.tsx:24 | "**a*b**" becomes `<strong>a*b</strong>` |
| Scenarios.StarBeforeRun | components/ProspectResult.tsx:24 | "a*b **c**" becomes `a*b <strong>c</strong>` |

## Left out

- The Gemini SDK, the network, the model name and the `googleSearch` tool configuration. Each call is an oracle outcome, and only its errors' messages matter to the code.
- Asynchrony, `setTimeout` and the console logging. Sleeps are recorded as delays; logging has no effect on the result.
- Thrown values that are not `Error` objects. The model treats every thrown value as an error with a string message. For a thrown value without one, line 107's `lastError.message.toLowerCase()` throws a `TypeError`. That `TypeError` ends the loop without a retry and is reported with the generic prefix. Line 153's `String(error)` is reached only by a non-`Error` value whose `message` is a string. Neither path is modelled.
- `response.text` being undefined. The SDK's text getter is foreign code, and the model's answer always has a text.
- The fixed wording of the prompt. It is abstracted to three placeholder constants; only the points where the inputs are interpolated are modelled verbatim.
- Locale and Unicode case mapping in `toLowerCase`: only ASCII letters are lowered.
- Line terminators other than `\n`. CR, LS and PS also end a line for `^`, `$` and `.` in the regular expressions; the model assumes the text holds none of them.
- The `!report.text` early return of the report view, the JSX markup, the print window, the HTML of the printable page, and the styles. The model keeps only the source list's items.
- App.tsx, ProspectingForm.tsx and LoadingSpinner.tsx: the form state, the loading flag, and how the key is selected. They call the core but are not part of this model.
