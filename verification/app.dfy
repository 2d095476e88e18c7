/**
  The form component: its four pieces of state, the events that change them,
  and what is on screen for a given state.

  The asynchronous analysis is split in two transitions. `Submit` is the part
  of the click handler that runs before the awaited call and may start an
  analysis (the `StartAnalysis` effect); `Complete` is the part that runs when
  the call settles, with the call's outcome abstracted to `Succeeded` or
  `Failed`. The external call itself is not modelled.
*/
module App {
  import opened Wrappers
  import opened AnalysisTypes
  import GitHubUrl

  const InvalidUrlMessage: string := "Por favor, insira uma URL de repositório do GitHub válida."
  const UnknownErrorMessage: string := "Ocorreu um erro desconhecido durante a análise."

  /** The component's state: the input text, the loading flag, the last
      result (`null` as `None`) and the error line (`null` as `None`). */
  datatype AppState = AppState(
    repoUrl: string,
    isLoading: bool,
    analysisResult: Option<AnalysisResult>,
    error: Option<string>)

  /** The state on first render. */
  const Initial: AppState := AppState("", false, None, None)

  /** How the awaited analysis settles. `message` is the thrown error's
      message, with "" standing for an empty or absent one. */
  datatype Outcome = Succeeded(result: AnalysisResult) | Failed(message: string)

  datatype Event = Edit(text: string) | Submit | Complete(outcome: Outcome)

  /** What a transition asks of the outside world. */
  datatype Effect = NoEffect | StartAnalysis(url: string)

  datatype Transition = Transition(next: AppState, effect: Effect)

  /** JavaScript truthiness of a nullable string: `null` and `""` are the
      only falsy values. */
  predicate Truthy(text: Option<string>): (b: bool)
    ensures b <==> text != None && text != Some("")
  {
    text.Some? && text.value != ""
  }

  /** The state every reachable state satisfies: while loading there is no
      result and no error, and an error is never the empty string. */
  predicate Inv(s: AppState) {
    && (s.isLoading ==> s.analysisResult.None? && s.error.None?)
    && (s.error.Some? ==> s.error.value != "")
  }

  // ---------------------------------------------------------------------------
  // Transitions
  // ---------------------------------------------------------------------------

  /** The input's change handler: take the new text and clear a shown error. */
  function OnEdit(s: AppState, text: string): (t: AppState)
    ensures t.repoUrl == text
    ensures t.isLoading == s.isLoading && t.analysisResult == s.analysisResult
    ensures !Truthy(t.error)
    ensures t.error.None? || t.error == s.error
  {
    AppState(text, s.isLoading, s.analysisResult, if Truthy(s.error) then None else s.error)
  }

  /** The click handler up to the awaited call. The button is disabled while
      loading, so no submission happens then. An empty or malformed URL
      only sets the validation message; a valid one starts an analysis of
      the current input and clears the previous result and error. */
  function OnSubmit(s: AppState): (tr: Option<Transition>)
    ensures tr.None? <==> s.isLoading
    ensures tr.Some? && !GitHubUrl.IsValidGitHubUrl(s.repoUrl) ==>
      tr.value == Transition(s.(error := Some(InvalidUrlMessage)), NoEffect)
    ensures tr.Some? && GitHubUrl.IsValidGitHubUrl(s.repoUrl) ==>
      tr.value == Transition(AppState(s.repoUrl, true, None, None), StartAnalysis(s.repoUrl))
  {
    if s.isLoading then None
    else if s.repoUrl == "" || !GitHubUrl.IsValidGitHubUrl(s.repoUrl) then
      Some(Transition(s.(error := Some(InvalidUrlMessage)), NoEffect))
    else
      GitHubUrl.EmptyGuardSubsumed(s.repoUrl);
      Some(Transition(s.(isLoading := true, error := None, analysisResult := None), StartAnalysis(s.repoUrl)))
  }

  /** `e.message || fallback`: the thrown message unless it is empty. */
  function ErrorText(message: string): (text: string)
    ensures text != ""
    ensures message != "" ==> text == message
  {
    if message != "" then message else UnknownErrorMessage
  }

  /** The click handler after the awaited call: store the result or the
      error text, then clear the loading flag. It only happens while an
      analysis is in flight. */
  function OnComplete(s: AppState, outcome: Outcome): (tr: Option<Transition>)
    ensures tr.None? <==> !s.isLoading
    ensures tr.Some? ==> !tr.value.next.isLoading && tr.value.next.repoUrl == s.repoUrl
    ensures tr.Some? ==> tr.value.effect == NoEffect
  {
    if !s.isLoading then None
    else
      match outcome
      case Succeeded(result) =>
        Some(Transition(s.(analysisResult := Some(result), isLoading := false), NoEffect))
      case Failed(message) =>
        Some(Transition(s.(error := Some(ErrorText(message)), isLoading := false), NoEffect))
  }

  /** One event; `None` when the event cannot happen in `s`. */
  function Step(s: AppState, e: Event): Option<Transition> {
    match e
    case Edit(text) => Some(Transition(OnEdit(s, text), NoEffect))
    case Submit => OnSubmit(s)
    case Complete(outcome) => OnComplete(s, outcome)
  }

  // ---------------------------------------------------------------------------
  // Single-step properties
  // ---------------------------------------------------------------------------

  /** In a reachable state the error is never the empty string, so the
      truthiness tests on it are plain null tests, and the error line shows
      exactly the stored error. */
  lemma TruthyIsNonNull(s: AppState)
    requires Inv(s)
    ensures Truthy(s.error) <==> s.error.Some?
    ensures ViewOf(s).errorLine == s.error
  {
  }

  /** Editing touches only the input text and the error line; in a reachable
      state it always leaves no error. */
  lemma EditClearsError(s: AppState, text: string)
    requires Inv(s)
    ensures OnEdit(s, text) == s.(repoUrl := text, error := None)
  {
  }

  /** An invalid submission starts nothing, shows the validation message and
      leaves the loading flag and any earlier result as they were. */
  lemma InvalidSubmitStartsNothing(s: AppState)
    requires !s.isLoading && !GitHubUrl.IsValidGitHubUrl(s.repoUrl)
    ensures var tr := OnSubmit(s).value;
      && tr.effect == NoEffect
      && tr.next.error == Some(InvalidUrlMessage) && Truthy(tr.next.error)
      && tr.next.isLoading == s.isLoading
      && tr.next.analysisResult == s.analysisResult
  {
  }

  /** Completion of the analysis in flight: the loading flag drops whatever
      the outcome; success stores exactly the returned result and leaves no
      error; failure shows a non-empty message and leaves no result. */
  lemma CompleteFromLoading(s: AppState, outcome: Outcome)
    requires Inv(s) && s.isLoading
    ensures OnComplete(s, outcome).Some?
    ensures var t := OnComplete(s, outcome).value.next;
      && !t.isLoading
      && (outcome.Succeeded? ==> t.analysisResult == Some(outcome.result) && t.error == None)
      && (outcome.Failed? ==> t.error == Some(ErrorText(outcome.message)) && t.analysisResult == None)
      && (outcome.Failed? && outcome.message != "" ==> t.error == Some(outcome.message))
      && (outcome.Failed? && outcome.message == "" ==> t.error == Some(UnknownErrorMessage))
  {
  }

  /** Every event keeps the reachable-state invariant. */
  lemma StepPreservesInv(s: AppState, e: Event)
    requires Inv(s) && Step(s, e).Some?
    ensures Inv(Step(s, e).value.next)
  {
  }

  /** An analysis starts exactly when an event raises the loading flag, and a
      completion is exactly an event that lowers it. */
  lemma StepLoadingFlag(s: AppState, e: Event)
    requires Step(s, e).Some?
    ensures var tr := Step(s, e).value;
      && (tr.effect.StartAnalysis? <==> !s.isLoading && tr.next.isLoading)
      && (e.Complete? <==> s.isLoading && !tr.next.isLoading)
  {
  }

  // ---------------------------------------------------------------------------
  // Runs of events
  // ---------------------------------------------------------------------------

  /** The end of a run, with the number of analyses it started and the
      number of completions it saw. */
  datatype Trace = Trace(final: AppState, started: nat, completed: nat)

  /** Applies `events` in order; `None` when one of them cannot happen. */
  function Run(s: AppState, events: seq<Event>): Option<Trace>
    decreases |events|
  {
    if events == [] then Some(Trace(s, 0, 0))
    else
      match Step(s, events[0])
      case None => None
      case Some(tr) =>
        match Run(tr.next, events[1..])
        case None => None
        case Some(rest) =>
          Some(Trace(
            rest.final,
            rest.started + (if tr.effect.StartAnalysis? then 1 else 0),
            rest.completed + (if events[0].Complete? then 1 else 0)))
  }

  /** Every run keeps the reachable-state invariant. */
  lemma {:induction false} RunPreservesInv(s: AppState, events: seq<Event>)
    requires Inv(s) && Run(s, events).Some?
    ensures Inv(Run(s, events).value.final)
    decreases |events|
  {
    if events != [] {
      var tr := Step(s, events[0]).value;
      StepPreservesInv(s, events[0]);
      RunPreservesInv(tr.next, events[1..]);
    }
  }

  /** Analyses started and completions balance, up to the loading flag at
      either end of the run. */
  lemma {:induction false} InFlightBalance(s: AppState, events: seq<Event>)
    requires Run(s, events).Some?
    ensures var t := Run(s, events).value;
      t.started + (if s.isLoading then 1 else 0) == t.completed + (if t.final.isLoading then 1 else 0)
    decreases |events|
  {
    if events != [] {
      StepLoadingFlag(s, events[0]);
      InFlightBalance(Step(s, events[0]).value.next, events[1..]);
    }
  }

  /** From the initial state, at most one analysis is ever in flight, and one
      is in flight exactly while the loading flag is up. */
  lemma AtMostOneInFlight(events: seq<Event>)
    requires Run(Initial, events).Some?
    ensures var t := Run(Initial, events).value;
      && t.completed <= t.started <= t.completed + 1
      && (t.started == t.completed + 1 <==> t.final.isLoading)
      && Inv(t.final)
  {
    InFlightBalance(Initial, events);
    RunPreservesInv(Initial, events);
  }

  // ---------------------------------------------------------------------------
  // What is on screen
  // ---------------------------------------------------------------------------

  /** The parts of the page that depend on the state: the disabled button,
      the loading indicator, the error line, the result panels and the text
      of their status badge. */
  datatype View = View(
    submitDisabled: bool,
    loadingIndicator: bool,
    errorLine: Option<string>,
    panels: Option<AnalysisResult>,
    badge: Option<string>)

  function ViewOf(s: AppState): (v: View)
    ensures v.submitDisabled == s.isLoading && v.loadingIndicator == s.isLoading
    ensures v.errorLine.Some? <==> Truthy(s.error)
    ensures v.errorLine.Some? ==> v.errorLine == s.error && v.errorLine.value != ""
    ensures v.panels == s.analysisResult
    ensures v.badge.Some? <==> v.panels.Some?
    ensures v.badge.Some? ==> v.badge == Some(StatusLabel(v.panels.value.overallStatus)) && v.badge.value != ""
  {
    View(
      s.isLoading,
      s.isLoading,
      if Truthy(s.error) then s.error else None,
      s.analysisResult,
      if s.analysisResult.Some? then Some(StatusLabel(s.analysisResult.value.overallStatus)) else None)
  }

  /** While an analysis is in flight the button is disabled and only the
      loading indicator shows. */
  lemma ViewWhileLoading(s: AppState)
    requires Inv(s) && s.isLoading
    ensures var v := ViewOf(s);
      v.submitDisabled && v.loadingIndicator && v.errorLine.None? && v.panels.None? && v.badge.None?
  {
  }

  /** Once the analysis settles the button is enabled again; on success the
      panels show exactly the returned result under its verdict's badge, on
      failure the error line shows a non-empty message and no panels. */
  lemma ViewAfterCompletion(s: AppState, outcome: Outcome)
    requires Inv(s) && s.isLoading
    ensures var v := ViewOf(OnComplete(s, outcome).value.next);
      && !v.submitDisabled && !v.loadingIndicator
      && (outcome.Succeeded? ==>
            v.panels == Some(outcome.result)
            && v.badge == Some(StatusLabel(outcome.result.overallStatus))
            && v.errorLine.None?)
      && (outcome.Failed? ==> v.errorLine == Some(ErrorText(outcome.message)) && v.panels.None?)
  {
  }
}
