/**
 * The request lifecycle of the wizard: a state record, the transitions
 * (choosing a system, submitting the repository URL, the status timer as
 * discrete ticks, the completion of the service call, reset) and the choice
 * of what is on screen.
 */
module App {
  import opened Wrappers
  import opened TextUtil
  import opened StepModel
  import GeminiService

  datatype OS = MacOSLinux | Windows

  /** The component's state hooks, minus the splash flag. */
  datatype State = State(
    selectedOS: Option<OS>,
    repoUrl: string,
    androidVersion: string,
    isLoading: bool,
    currentStatusIndex: int,
    result: seq<Step>,
    error: string)

  const StatusMessages: seq<string> := [
    "Conectando al repositorio de GitHub...",
    "Analizando la estructura del proyecto...",
    "Generando el script de conversión con IA...",
    "Compilando las instrucciones de compilación...",
    "Finalizando tu guía interactiva..."
  ]

  const InvalidUrl: string := "Por favor, ingresa una URL de repositorio de GitHub válida."
  const NoOsSelected: string := "Por favor, selecciona un sistema operativo para continuar."
  const Fallback: string :=
    "No se pudieron generar las instrucciones. Por favor, revisa la consola para más detalles."

  function Init(): (s: State)
    ensures s.selectedOS.None? && !s.isLoading && s.result == [] && s.error == ""
    ensures s.repoUrl == "" && s.currentStatusIndex == 0
    ensures s.androidVersion == "Android 14 (Upside Down Cake)"
  {
    State(None, "", "Android 14 (Upside Down Cake)", false, 0, [], "")
  }

  // ---------------------------------------------------------------------
  // Transitions
  // ---------------------------------------------------------------------

  /** The URL test: a URL containing "github.com" is never blank, so the
      blank test in front of it rejects nothing more. */
  lemma {:induction false} GitHubUrlIsNotBlank(url: string)
    ensures Contains(url, "github.com") ==> !IsBlank(url)
  {
    ContainsIff(url, "github.com");
    if Contains(url, "github.com") {
      var i :| OccursAt(url, "github.com", i);
      assert url[i] == url[i..i + 10][0] == 'g';
    }
  }

  /** `handleConvert`: a blank URL or one without "github.com" only sets the
      error; otherwise the error and result are cleared, the status index
      restarts and loading begins. */
  function HandleConvert(s: State): (r: State)
    ensures r.selectedOS == s.selectedOS && r.repoUrl == s.repoUrl && r.androidVersion == s.androidVersion
    ensures !Contains(s.repoUrl, "github.com") ==> r == s.(error := InvalidUrl)
    ensures Contains(s.repoUrl, "github.com") ==>
      r.error == "" && r.result == [] && r.currentStatusIndex == 0 && r.isLoading
  {
    GitHubUrlIsNotBlank(s.repoUrl);
    if Trim(s.repoUrl) == "" || !Contains(s.repoUrl, "github.com") then
      s.(error := InvalidUrl)
    else
      s.(error := "", result := [], currentStatusIndex := 0, isLoading := true)
  }

  /** The status effect, one timer expiry: while loading and short of the
      message count, the index goes up by one. */
  function Tick(s: State): (r: State)
    ensures r.isLoading == s.isLoading && r.result == s.result && r.error == s.error
    ensures r.currentStatusIndex == s.currentStatusIndex + 1 <==>
      s.isLoading && s.currentStatusIndex < |StatusMessages|
    ensures r.currentStatusIndex != s.currentStatusIndex + 1 ==> r == s
  {
    if s.isLoading && s.currentStatusIndex < |StatusMessages| then
      s.(currentStatusIndex := s.currentStatusIndex + 1)
    else s
  }

  /** The effect calls `processRequest` once loading has shown every message. */
  predicate CallDue(s: State) {
    s.isLoading && s.currentStatusIndex >= |StatusMessages|
  }

  /** In a reachable state the call is due exactly when loading has reached
      the index one past the last message. */
  lemma {:induction false} CallDueAtLastMessage(s: State)
    requires Invariant(s)
    ensures CallDue(s) <==> s.isLoading && s.currentStatusIndex == |StatusMessages|
  {
  }

  /** How a rejected call reached the catch: an `Error` and its message, or
      some other thrown value. */
  datatype Rejection = ErrorThrown(message: string) | OtherThrown

  /** `processRequest` once the call has settled with `answer`: without a
      system only the error is set; otherwise success stores the steps, an
      `Error` stores its message and anything else the fixed fallback.
      Loading stops in every case. */
  function ProcessRequest(s: State, answer: Result<seq<Step>, Rejection>): (r: State)
    ensures !r.isLoading
    ensures r.selectedOS == s.selectedOS && r.repoUrl == s.repoUrl && r.androidVersion == s.androidVersion
    ensures r.currentStatusIndex == s.currentStatusIndex
    ensures s.selectedOS.None? ==> r == s.(error := NoOsSelected, isLoading := false)
    ensures s.selectedOS.Some? && answer.Success? ==> r.result == answer.value && r.error == s.error
    ensures s.selectedOS.Some? && answer.Failure? ==>
      r.result == s.result && r.error == (if answer.error.ErrorThrown? then answer.error.message else Fallback)
  {
    if s.selectedOS.None? then s.(error := NoOsSelected, isLoading := false)
    else match answer
      case Success(steps) => s.(result := steps, isLoading := false)
      case Failure(ErrorThrown(m)) => s.(error := m, isLoading := false)
      case Failure(OtherThrown) => s.(error := Fallback, isLoading := false)
  }

  /** The service promise as `processRequest` sees it: every rejection is an
      `Error` carrying the service's message. */
  function Settle(r: Result<seq<Step>, string>): (a: Result<seq<Step>, Rejection>)
    ensures a.Success? <==> r.Success?
    ensures a.Failure? ==> a.error == ErrorThrown(r.error)
  {
    match r
    case Success(v) => Success(v)
    case Failure(m) => Failure(ErrorThrown(m))
  }

  /** `handleReset`: everything back to the start except the Android version. */
  function HandleReset(s: State): (r: State)
    ensures r == Init().(androidVersion := s.androidVersion)
    ensures r.androidVersion == s.androidVersion
  {
    s.(repoUrl := "", result := [], error := "", selectedOS := None, isLoading := false, currentStatusIndex := 0)
  }

  // ---------------------------------------------------------------------
  // The screen
  // ---------------------------------------------------------------------

  /** Which parts of the page are drawn. */
  datatype Screen = Screen(osSelector: bool, inputForm: bool, errorBanner: bool, status: bool, resultCard: bool)

  function ScreenOf(s: State): (v: Screen)
    ensures v.osSelector <==> s.selectedOS.None?
    ensures v.inputForm <==> s.selectedOS.Some? && s.result == [] && !s.isLoading
    ensures v.errorBanner <==> s.error != ""
    ensures v.status <==> s.isLoading
    ensures v.resultCard <==> s.result != [] && !s.isLoading
  {
    Screen(
      s.selectedOS.None?,
      s.selectedOS.Some? && |s.result| == 0 && !s.isLoading,
      s.error != "",
      s.isLoading,
      |s.result| > 0 && !s.isLoading)
  }

  // ---------------------------------------------------------------------
  // Events
  // ---------------------------------------------------------------------

  /** What can happen next. `Complete` carries what the model call did and
      how the reply text parses. */
  datatype Event =
    | ChooseOS(os: OS)
    | EditUrl(url: string)
    | EditVersion(version: string)
    | Submit
    | TimerFires
    | Complete(call: GeminiService.CallOutcome, parse: string -> Option<seq<Step>>)
    | ResetPressed

  /** One event. Events of controls that are not on screen do nothing: the
      system picker is drawn only without a system, the form (whose submit
      handler also refuses while loading, and which the browser does not
      submit with an empty required URL) only with one and no result, and
      the reset buttons sit in the form, the error banner and the result
      card. The call completes only when the effect has made it. */
  function Apply(s: State, e: Event): (r: State)
    ensures r.selectedOS != s.selectedOS ==> (e.ChooseOS? && s.selectedOS.None?) || e.ResetPressed?
    ensures r.repoUrl != s.repoUrl ==> (e.EditUrl? && ScreenOf(s).inputForm) || e.ResetPressed?
    ensures r.androidVersion != s.androidVersion ==> e.EditVersion? && ScreenOf(s).inputForm
    ensures !s.isLoading && r.isLoading ==> e.Submit? && s.selectedOS.Some? && Contains(s.repoUrl, "github.com")
    ensures Invariant(s) && s.isLoading ==>
      && r.selectedOS == s.selectedOS && r.repoUrl == s.repoUrl && r.androidVersion == s.androidVersion
      && (!r.isLoading ==> e.Complete? && CallDue(s))
    ensures r.result != s.result ==> e.Submit? || e.Complete? || e.ResetPressed?
    ensures e.Submit? && s.repoUrl == "" ==> r == s
  {
    var v := ScreenOf(s);
    match e
    case ChooseOS(os) => if v.osSelector then s.(selectedOS := Some(os)) else s
    case EditUrl(url) => if v.inputForm then s.(repoUrl := url) else s
    case EditVersion(version) => if v.inputForm then s.(androidVersion := version) else s
    case Submit => if v.inputForm && !s.isLoading && s.repoUrl != "" then HandleConvert(s) else s
    case TimerFires => Tick(s)
    case Complete(call, parse) =>
      if CallDue(s) then ProcessRequest(s, Settle(GeminiService.Generate(call, parse))) else s
    case ResetPressed => if v.inputForm || v.errorBanner || v.resultCard then HandleReset(s) else s
  }

  /** What every reachable state satisfies: the index is within the message
      count; while loading a system is chosen, no result is held and no
      error is shown; and without a system nothing is loading or held. */
  predicate Invariant(s: State) {
    && 0 <= s.currentStatusIndex <= |StatusMessages|
    && (s.isLoading ==> s.selectedOS.Some? && s.result == [] && s.error == "")
    && (s.selectedOS.None? ==> !s.isLoading && s.result == [])
  }

  lemma {:induction false} InitInvariant()
    ensures Invariant(Init())
  {
  }

  /** Every event keeps the invariant. */
  lemma {:induction false} ApplyKeepsInvariant(s: State, e: Event)
    ensures Invariant(s) ==> Invariant(Apply(s, e))
  {
  }

  function Run(s: State, es: seq<Event>): (r: State)
    ensures Invariant(s) ==> Invariant(r)
    decreases |es|
  {
    if es == [] then s
    else
      var s' := Apply(s, es[0]);
      ApplyKeepsInvariant(s, es[0]);
      Run(s', es[1..])
  }

  /** Exactly one of the system picker, the form, the status list and the
      result card is drawn in every reachable state; the status list and the
      error banner never appear together. */
  lemma {:induction false} OneMainView(s: State)
    requires Invariant(s)
    ensures var v := ScreenOf(s);
      (if v.osSelector then 1 else 0) + (if v.inputForm then 1 else 0)
      + (if v.status then 1 else 0) + (if v.resultCard then 1 else 0) == 1
    ensures !(ScreenOf(s).status && ScreenOf(s).errorBanner)
  {
  }

  /** The call is made by the fifth timer expiry after an accepted submit,
      and not before. */
  lemma {:induction false} CallAfterFiveTicks(s: State)
    requires s.isLoading && s.currentStatusIndex == 0
    ensures forall k :: 0 <= k < 5 ==> !CallDue(Ticks(s, k))
    ensures CallDue(Ticks(s, 5))
  {
    TicksCount(s, 5);
    forall k | 0 <= k < 5 ensures !CallDue(Ticks(s, k)) {
      TicksCount(s, k);
    }
  }

  function Ticks(s: State, k: nat): State
    decreases k
  {
    if k == 0 then s else Tick(Ticks(s, k - 1))
  }

  /** While loading, `k` expiries move the index `k` places, capped at the
      message count, and change nothing else. */
  lemma {:induction false} TicksCount(s: State, k: nat)
    requires s.isLoading && 0 <= s.currentStatusIndex <= |StatusMessages|
    ensures var n := s.currentStatusIndex + k;
      Ticks(s, k) == s.(currentStatusIndex := if n < |StatusMessages| then n else |StatusMessages|)
    decreases k
  {
    if k > 0 {
      TicksCount(s, k - 1);
    }
  }

  /** The service never sees the chosen system: two states that differ only
      in which system is chosen end the same way. */
  lemma {:induction false} SystemDoesNotReachService(s: State, os: OS, call: GeminiService.CallOutcome,
                                                     parse: string -> Option<seq<Step>>)
    requires s.selectedOS.Some?
    ensures
      var a := Settle(GeminiService.Generate(call, parse));
      ProcessRequest(s.(selectedOS := Some(os)), a) == ProcessRequest(s, a).(selectedOS := Some(os))
  {
  }

  /** The service only rejects with an `Error`, so the fallback message is
      never what a completed call stores: a failed call shows the service's
      own message. */
  lemma {:induction false} CompletionShowsServiceMessage(s: State, call: GeminiService.CallOutcome,
                                                         parse: string -> Option<seq<Step>>)
    requires CallDue(s) && s.selectedOS.Some?
    ensures var g := GeminiService.Generate(call, parse);
      var r := Apply(s, Complete(call, parse));
      && !r.isLoading
      && (g.Success? ==> r.result == g.value)
      && (g.Failure? ==> r.error == g.error && r.result == s.result)
  {
  }
}
