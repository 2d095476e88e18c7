# Guardião do GitHub — a Dafny model of the form logic

Guardião do GitHub is a browser front-end: the user types a GitHub repository
URL, the page checks its shape, sends it to an external generative-language
service, and shows the structured "security analysis" that comes back. This
project models the local logic of that page:

- **The URL guard** (`isValidGitHubUrl`). It is one anchored regular
  expression: `(https?://)?(www\.)?github\.com/[a-zA-Z0-9-]+/[a-zA-Z0-9_.-]+(/)?`.
  `github_url.dfy` describes the expression's language as `Render` applied to
  well-formed `RepoUrl` values. The recognizer is a hand-written parser,
  `Parse`, over `seq<char>`. The lemmas prove that the guard accepts exactly
  that language, that the language is unambiguous, and that it rejects the
  inputs the form is meant to refuse. `github_url_examples.dfy` works through
  concrete inputs.
- **The form's state machine** (`App`). The state is
  `(repoUrl, isLoading, analysisResult, error)`. The events are editing the
  input, submitting, and the settlement of the awaited analysis call.
  Submission has two phases. `OnSubmit` is the handler up to the `await`, and
  it may emit a `StartAnalysis` effect. `OnComplete` is the rest of the
  handler, and it receives an abstract outcome, `Succeeded(result)` or
  `Failed(message)`. `app.dfy` also covers runs of events, the invariant that
  every reachable state keeps, the count of analyses in flight, and which parts
  of the page are visible.
- **The result types and the status badge**. `analysis_types.dfy` mirrors
  `OverallStatus`, `AffectedPackage` and `AnalysisResult`. It also maps each
  verdict to its badge text.
- **The loading-message rotator**. `loading_indicator.dfy` holds the seven
  fixed messages and an index that advances as `(i + 1) % 7` on every
  timer tick.

Every file declares one module. `wrappers.dfy` holds the `Option` type that
stands for the source's nullable values.

Modelling choices that follow the code:
- JavaScript truthiness is modelled as written. The change handler clears the
  error only when it is a non-empty string (`if (error)`). A failure message
  is replaced by the fallback text only when it is empty (`e.message || …`).
  `Failed("")` stands for a thrown value whose `message` is empty or missing.
  The invariant `App.Inv` shows that the error is never the empty string. So
  in every reachable state an edit really clears it (`App.EditClearsError`).
- Submission also tests `!repoUrl`. The model keeps that test, and
  `GitHubUrl.EmptyGuardSubsumed` shows it adds nothing to the pattern test.
- After a success, an invalid resubmission sets only the error, so the
  earlier result stays on screen beside the validation message. Only a valid
  submission clears the previous result (`App.InvalidSubmitStartsNothing`,
  `App.OnSubmit`).

## Model

| member | source | states |
|---|---|---|
| `GitHubUrl.Parse` | App.tsx:57 | Whatever the recognizer reads from a string has an owner over [a-zA-Z0-9-] and a repository name over [a-zA-Z0-9_.-], both non-empty, and renders back to exactly that string. |
| `GitHubUrl.IsValidGitHubUrl` | App.tsx:56-59 | An accepted string is in the language of the anchored pattern. |
| `GitHubUrl.ValidIffMatchesPattern` | App.tsx:57 | The guard accepts a string if and only if it equals an optional `http://` or `https://`, an optional `www.`, `github.com/`, a valid owner, `/`, a valid repository name and at most one `/`, with nothing before or after. |
| `GitHubUrl.ParseRender` | App.tsx:57 | Parsing the rendering of any well-formed choice of groups returns that same choice. |
| `GitHubUrl.RenderInjective` | App.tsx:57 | The pattern is unambiguous: two well-formed choices of groups that render the same string are equal. |
| `GitHubUrl.MinimumLength` | App.tsx:57 | Every accepted string has at least 14 characters (`github.com/a/b`). |
| `GitHubUrl.EmptyGuardSubsumed` | App.tsx:62 | The empty string is rejected, so the handler's emptiness test in front of the pattern test never changes the outcome. |
| `GitHubUrl.TrailingLineTerminatorRejected` | App.tsx:57 | `$` has no multi-line flag, so a string whose last character is a line terminator (line feed, carriage return, U+2028 or U+2029) is rejected. |
| `GitHubUrl.OtherHostRejected` | App.tsx:57 | After any scheme and optional `www.`, text that does not start with the exact lower-case `github.com/` is rejected. This covers other hosts, look-alike hosts such as `hithub.com`, an upper-case host, and an upper-case scheme. The only texts set aside are ones the pattern reads differently: a text starting with `www.` when no `www.` was given, and a text starting with a scheme when neither a scheme nor `www.` was given. |
| `GitHubUrl.SingleSegmentRejected` | App.tsx:57 | A path with only an owner segment is rejected, with or without a trailing `/`. |
| `GitHubUrl.ExtraSegmentRejected` | App.tsx:57 | Any text after `OWNER/REPO/` is rejected, whether it is a third segment or a second trailing `/`. |
| `GitHubUrl.SegmentCharacterClasses` | App.tsx:57 | When the segments contain no `/`, the URL is accepted exactly when the owner is over [a-zA-Z0-9-] and the repository name over [a-zA-Z0-9_.-]. So `_` and `.` are allowed only in the repository name. |
| `GitHubUrlExamples.AcceptsHttpsUrl` | App.tsx:57 | `https://github.com/a/b` is accepted. |
| `GitHubUrlExamples.AcceptsTrailingSlash` | App.tsx:57 | `github.com/a/b/` is accepted. |
| `GitHubUrlExamples.AcceptsWwwAndPunctuation` | App.tsx:57 | `www.github.com/a-b/c_d.e` is accepted. |
| `GitHubUrlExamples.RejectsOtherHost` | App.tsx:57 | `https://gitlab.com/a/b` is rejected. |
| `GitHubUrlExamples.RejectsLookalikeHost` | App.tsx:57 | `https://hithub.com/a/b` is rejected. |
| `GitHubUrlExamples.RejectsUpperCaseScheme` | App.tsx:57 | `HTTPS://github.com/a/b` is rejected. |
| `GitHubUrlExamples.RejectsUpperCaseHost` | App.tsx:57 | `https://GitHub.com/a/b` is rejected. |
| `GitHubUrlExamples.RejectsOneSegment` | App.tsx:57 | `github.com/a` is rejected. |
| `GitHubUrlExamples.RejectsThreeSegments` | App.tsx:57 | `github.com/a/b/c` is rejected. |
| `GitHubUrlExamples.RejectsTwoTrailingSlashes` | App.tsx:57 | `github.com/a/b//` is rejected. |
| `GitHubUrlExamples.RejectsTrailingLineBreak` | App.tsx:57 | `github.com/a/b` followed by a line feed is rejected. |
| `GitHubUrlExamples.RejectsTrailingCarriageReturn` | App.tsx:57 | `github.com/a/b` followed by a carriage return is rejected. |
| `GitHubUrlExamples.RejectsOwnerUnderscore` | App.tsx:57 | `github.com/a_b/c` is rejected. |
| `GitHubUrlExamples.RejectsOwnerDot` | App.tsx:57 | `github.com/a.b/c` is rejected. |
| `AnalysisTypes.StatusLabel` | App.tsx:7-32 | The badge looks its text up by verdict. Every one of the three verdicts has a text, and it is never empty. |
| `AnalysisTypes.StatusLabelInjective` | App.tsx:7-32 | The badge texts are Seguro, Atenção and Vulnerável. Each is non-empty, and two verdicts share a text only if they are the same verdict. |
| `App.TruthyIsNonNull` | App.tsx:104-126 | In a reachable state the error is never the empty string. So `if (error)` in the change handler and `{error && …}` in the page are plain null tests, and the error line shows exactly the stored error. |
| `App.OnEdit` | App.tsx:102-105 | Editing stores the new text and leaves the loading flag and the result unchanged. Afterwards no error is shown, and the error is either cleared or unchanged. |
| `App.EditClearsError` | App.tsx:102-105 | In a reachable state, an edit changes only the input text, and the error becomes null. |
| `App.OnSubmit` | App.tsx:61-68 | Submission is impossible while loading. An invalid URL, the empty string included, changes only the error, which becomes the validation message, and starts nothing. A valid URL starts an analysis of the current input, raises the loading flag, and clears the result and the error. |
| `App.InvalidSubmitStartsNothing` | App.tsx:62-65 | An invalid submission emits no effect and shows the validation message. It leaves the loading flag and any earlier result as they were. |
| `App.ErrorText` | App.tsx:74 | The failure text is never empty. It is the thrown message whenever that message is non-empty. |
| `App.OnComplete` | App.tsx:70-77 | Settlement happens only while loading, starts nothing, leaves the input text alone, and always lowers the loading flag. |
| `App.CompleteFromLoading` | App.tsx:70-77 | From a reachable loading state, success stores exactly the returned result and leaves no error. Failure stores the thrown message, or the fallback text when that message is empty, and leaves no result. |
| `App.StepPreservesInv` | App.tsx:61-105 | No event breaks the reachable-state invariant: no result and no error while loading, and never an empty error string. |
| `App.StepLoadingFlag` | App.tsx:66-76 | An event starts an analysis exactly when it raises the loading flag. An event is a completion exactly when it lowers the flag. |
| `App.RunPreservesInv` | App.tsx:51-105 | Every run of events from a state that satisfies the invariant ends in a state that satisfies it. |
| `App.InFlightBalance` | App.tsx:66-76 | Over any run, the analyses started plus the initial loading flag equal the completions plus the final loading flag. |
| `App.AtMostOneInFlight` | App.tsx:110-112 | From the initial state, at most one analysis is in flight at any time. One is in flight exactly while the loading flag is up. |
| `App.ViewWhileLoading` | App.tsx:112-132 | While loading, the button is disabled, the loading indicator shows, and no error, panels or badge are shown. |
| `App.ViewAfterCompletion` | App.tsx:110-135 | After settlement the button is enabled and the indicator is gone. On success, the panels show exactly the returned result under its verdict's badge, with no error line. On failure, the error line shows a non-empty message and no panels are shown. |
| `LoadingIndicator.Tick` | components/LoadingIndicator.tsx:18 | A tick moves a valid index to the next message and wraps from the last message to the first. The new index always selects a message. |
| `LoadingIndicator.Ticks` | components/LoadingIndicator.tsx:17-19 | After one or more ticks the index selects a message. |
| `LoadingIndicator.DisplayedText` | components/LoadingIndicator.tsx:27 | The text on screen is one of the seven fixed messages. |
| `LoadingIndicator.TicksIsModularAddition` | components/LoadingIndicator.tsx:18 | From a valid index `i`, `n` ticks give `(i + n) % 7`. |
| `LoadingIndicator.IndexAlwaysValid` | components/LoadingIndicator.tsx:14-27 | From the initial index 0, the index stays in [0, 7) after any number of ticks, so `loadingTexts[index]` is always defined. After `n` ticks the text shown is message `n % 7`. |
| `LoadingIndicator.PeriodIsListLength` | components/LoadingIndicator.tsx:3-18 | A positive number of ticks returns the index to its start exactly when it is a multiple of 7. So 7 ticks come back, and no number from 1 to 6 does. |
| `LoadingIndicator.LoadingTextsDistinct` | components/LoadingIndicator.tsx:3-11 | The message list has seven entries. None is empty, and two entries are equal only at the same index. |
| `LoadingIndicator.TickChangesText` | components/LoadingIndicator.tsx:3-11 | The seven messages are pairwise different, so every tick changes the text on screen. |

## Left out

- services/geminiService.ts is reduced to the abstract outcome `Succeeded(result)` / `Failed(message)`. That file holds the API-key lookup, the prompt template, the call to the external client, the declared response schema, and `JSON.parse`. It is a wrapper around a foreign client whose code is not part of this model.
- App.Outcome: `Succeeded(result)` carries an `AnalysisResult` with every field of types.ts:14-26 present and well typed. That is stronger than the schema the request declares (services/geminiService.ts:56), which requires only the four top-level keys and no key of the nested objects. The code only casts the parsed reply (services/geminiService.ts:109) and never checks it. Outside that assumption the page behaves differently. A reply of `null` passes as a success but shows neither panels nor an error line. An `overallStatus` outside the three verdicts leaves the badge configuration undefined, and rendering throws (App.tsx:32-35). A missing `supplyChainAttackAnalysis` or `generalAnalysis` section throws when the panels are rendered (App.tsx:146, App.tsx:177). A schema-conforming reply that omits `affectedPackages` or `findings` throws too (App.tsx:153, App.tsx:183). `App.ViewAfterCompletion` and the totality of `AnalysisTypes.StatusLabel` hold only for replies of the full types.ts shape.
- The external call's result is not validated. The score is an unbounded integer, and nothing checks the 0..100 range the schema describes, because the code does not check it either.
- Rendering is left out because it is presentation only. This covers JSX, CSS classes, icons and colours, the score bar's width style, and the list of affected packages with its `key`. `App.ViewOf` keeps only which regions are visible and the badge text.
- The 1800 ms `setInterval` and its cleanup are left out because they are runtime timing. Ticks are discrete events, and the index starts at 0 on every mount.
- Real asynchronous scheduling is left out because it is a concurrency and runtime concern. This covers React's batching of state updates, unmounting while a request is in flight, and the lack of cancellation. Each phase of the click handler is one atomic transition.
- Clicks on the disabled button are not events of the model: `App.OnSubmit` returns `None` while loading.
