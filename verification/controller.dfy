/** The application shell (App.tsx): the configuration, the generated
    markup, the loading flag and the error message, and the events that
    change them. A generation is split into the click, which starts it, and
    the settling of the service call, which either resolves with the reply
    text or rejects with a thrown value. */
module Controller {
  import opened Results
  import opened Config
  import Controls
  import Upload
  import Sanitizer
  import Text
  import Prompt
  import Preview

  datatype AppState = AppState(config: AnimationConfig, svg: string, loading: bool, error: string)

  /** The state on first render: the default configuration, nothing
      generated, idle, no error. */
  const Init: AppState := AppState(DefaultConfig, "", false, "")

  const UnknownErrorMessage: string := "An unknown error occurred."

  /** What a failed call throws: an `Error` object with its message, or any
      other value. */
  datatype Thrown = ErrorObject(message: string) | OtherValue

  /** The message shown for a thrown value. */
  function ErrorText(e: Thrown): string {
    match e
    case ErrorObject(message) => message
    case OtherValue => UnknownErrorMessage
  }

  /** The synchronous part of the click handler: loading, with the previous
      error and markup cleared. The configuration is the one the call is made
      with. */
  function Start(s: AppState): (r: AppState)
    ensures r.loading && r.svg == "" && r.error == ""
    ensures r.config == s.config
  {
    s.(loading := true, error := "", svg := "")
  }

  /** The call resolved: the reply, cleaned, becomes the markup, and loading
      ends; the error is left as it is. */
  function Resolve(s: AppState, raw: string): (r: AppState)
    ensures !r.loading && r.svg == Sanitizer.CleanResponse(raw)
    ensures r.error == s.error && r.config == s.config
  {
    s.(svg := Sanitizer.CleanResponse(raw), loading := false)
  }

  /** The call rejected: the thrown value's message becomes the error, and
      loading ends; the markup is left as it is. */
  function Reject(s: AppState, e: Thrown): (r: AppState)
    ensures !r.loading && r.svg == s.svg && r.config == s.config
    ensures e.ErrorObject? ==> r.error == e.message
    ensures e.OtherValue? ==> r.error == UnknownErrorMessage
  {
    s.(error := ErrorText(e), loading := false)
  }

  /** The whole click handler for a given generation service: start, call
      the service with the configuration of the moment, then resolve or
      reject. */
  function GenerateWith(s: AppState, service: Prompt.GenerationRequest -> Prompt.ServiceReply): (r: AppState)
    ensures !r.loading && r.config == s.config
    ensures service(Prompt.RequestFor(s.config)).Replied? ==>
              r.svg == Sanitizer.CleanResponse(service(Prompt.RequestFor(s.config)).text) && r.error == ""
    ensures service(Prompt.RequestFor(s.config)).ServiceFailed? ==>
              r.svg == "" && r.error == Prompt.FailureMessage
  {
    var started := Start(s);
    match Prompt.GenerateAnimation(s.config, service)
    case Ok(text) => Resolve(started, text)
    case Err(message) => Reject(started, ErrorObject(message))
  }

  /** Everything that can happen to the application. */
  datatype Event =
    | UploadLogo(fileName: string)
    | Edit(value: Controls.FieldValue)
    | Generate
    | Resolved(raw: string)
    | Rejected(thrown: Thrown)

  /** Which events can occur: the generate button is disabled while loading,
      a call can only settle while one is pending, and edits are those the
      controls can produce. Uploads and edits stay available while loading. */
  predicate Enabled(s: AppState, e: Event) {
    match e
    case UploadLogo(_) => true
    case Edit(v) => Controls.Producible(v)
    case Generate => Controls.GenerateEnabled(s.loading)
    case Resolved(_) => s.loading
    case Rejected(_) => s.loading
  }

  /** One event; an event that cannot occur leaves the state alone. Uploads
      and edits change only the configuration. */
  function Step(s: AppState, e: Event): (r: AppState)
    ensures !Enabled(s, e) ==> r == s
    ensures (e.UploadLogo? || e.Edit?) ==> r.(config := s.config) == s
    ensures e.UploadLogo? ==> r.config == Upload.SeedLogoName(s.config, e.fileName)
    ensures e.Edit? && Enabled(s, e) ==> r.config == Controls.Update(s.config, e.value)
    ensures e.Generate? && Enabled(s, e) ==> r == Start(s)
    ensures e.Resolved? && Enabled(s, e) ==> r == Resolve(s, e.raw)
    ensures e.Rejected? && Enabled(s, e) ==> r == Reject(s, e.thrown)
  {
    if !Enabled(s, e) then s
    else
      match e
      case UploadLogo(fileName) => s.(config := Upload.SeedLogoName(s.config, fileName))
      case Edit(v) => s.(config := Controls.Update(s.config, v))
      case Generate => Start(s)
      case Resolved(raw) => Resolve(s, raw)
      case Rejected(thrown) => Reject(s, thrown)
  }

  /** A click on the generate button starts a call only when none is
      pending. */
  lemma GenerateOnlyWhenIdle(s: AppState)
    ensures s.loading ==> Step(s, Generate) == s
    ensures !s.loading ==> Step(s, Generate) == Start(s)
  {
  }

  /** A sequence of events, first to last. */
  function Run(s: AppState, events: seq<Event>): AppState
    decreases |events|
  {
    if |events| == 0 then s else Run(Step(s, events[0]), events[1..])
  }

  /** The application invariant: the duration is in range, a pending call
      has nothing to show yet, and markup and error are never both present. */
  predicate Inv(s: AppState) {
    && Valid(s.config)
    && (s.loading ==> s.svg == "" && s.error == "")
    && (s.svg == "" || s.error == "")
  }

  lemma InitInv()
    ensures Inv(Init)
  {
    DefaultConfigValid();
  }

  lemma StepKeepsInv(s: AppState, e: Event)
    requires Inv(s)
    ensures Inv(Step(s, e))
  {
    if Enabled(s, e) && e.Edit? {
      Controls.EditKeepsValid(s.config, e.value);
    }
  }

  lemma {:induction false} RunKeepsInv(s: AppState, events: seq<Event>)
    requires Inv(s)
    ensures Inv(Run(s, events))
    decreases |events|
  {
    if |events| > 0 {
      StepKeepsInv(s, events[0]);
      RunKeepsInv(Step(s, events[0]), events[1..]);
    }
  }

  /** Every state the application reaches keeps the invariant: in
      particular it never holds markup and an error at once. */
  lemma ReachableKeepsInv(events: seq<Event>)
    ensures Inv(Run(Init, events))
    ensures Run(Init, events).svg == "" || Run(Init, events).error == ""
  {
    InitInv();
    RunKeepsInv(Init, events);
  }

  /** A reply wrapped in the fence, with at most whitespace between the
      markup and the closing fence, shows exactly the markup and makes it
      exportable. */
  lemma GenerateFencedReply(s: AppState, service: Prompt.GenerationRequest -> Prompt.ServiceReply,
                            markup: string, pad: string)
    requires markup != [] && Text.Trimmed(markup) && Text.AllSpace(pad)
    requires service(Prompt.RequestFor(s.config)) ==
             Prompt.Replied(Sanitizer.FenceOpen + markup + pad + Sanitizer.FenceClose)
    ensures GenerateWith(s, service).svg == markup
    ensures GenerateWith(s, service).error == ""
    ensures ExportVisible(GenerateWith(s, service))
  {
    Sanitizer.CleanFencedPadded(markup, pad);
  }

  /** From a pending call, under the invariant, settling leaves exactly one
      of markup and error: the cleaned reply with no error, or the error
      message with no markup. */
  lemma SettleFromLoading(s: AppState, raw: string, e: Thrown)
    requires Inv(s) && s.loading
    ensures Resolve(s, raw) == AppState(s.config, Sanitizer.CleanResponse(raw), false, "")
    ensures Reject(s, e) == AppState(s.config, "", false, ErrorText(e))
  {
  }

  /** A full generation keeps the invariant too. */
  lemma GenerateWithKeepsInv(s: AppState, service: Prompt.GenerationRequest -> Prompt.ServiceReply)
    requires Inv(s)
    ensures Inv(GenerateWith(s, service))
  {
  }

  /** The click handler is the click followed by the settling of the call:
      from an idle state, a generation is the event `Generate` and then
      `Resolved` with the reply or `Rejected` with the service's error. */
  lemma GenerateWithIsRun(s: AppState, service: Prompt.GenerationRequest -> Prompt.ServiceReply)
    requires !s.loading
    ensures service(Prompt.RequestFor(s.config)).Replied? ==>
              GenerateWith(s, service) == Run(s, [Generate, Resolved(service(Prompt.RequestFor(s.config)).text)])
    ensures service(Prompt.RequestFor(s.config)).ServiceFailed? ==>
              GenerateWith(s, service) == Run(s, [Generate, Rejected(ErrorObject(Prompt.FailureMessage))])
  {
    match service(Prompt.RequestFor(s.config))
    case Replied(text) => GenerateThenResolve(s, text);
    case ServiceFailed => GenerateThenReject(s, Prompt.FailureMessage);
  }

  lemma RunTwo(s: AppState, a: Event, b: Event)
    ensures Run(s, [a, b]) == Step(Step(s, a), b)
  {
    assert [a, b][1..] == [b];
    assert Run(s, [a, b]) == Run(Step(s, a), [b]);
    assert [b][1..] == [];
    assert Run(Step(s, a), [b]) == Run(Step(Step(s, a), b), []);
  }

  lemma GenerateThenResolve(s: AppState, text: string)
    requires !s.loading
    ensures Run(s, [Generate, Resolved(text)]) == Resolve(Start(s), text)
  {
    RunTwo(s, Generate, Resolved(text));
  }

  lemma GenerateThenReject(s: AppState, message: string)
    requires !s.loading
    ensures Run(s, [Generate, Rejected(ErrorObject(message))]) == Reject(Start(s), ErrorObject(message))
  {
    RunTwo(s, Generate, Rejected(ErrorObject(message)));
  }

  /** The export panel is rendered. It never appears beside the spinner or
      the placeholder, and without an error it appears exactly when the
      preview shows the markup. */
  function ExportVisible(s: AppState): (visible: bool)
    ensures visible ==> !Preview.ViewOf(s.svg, s.loading, s.error).LoadingView?
    ensures visible ==> !Preview.ViewOf(s.svg, s.loading, s.error).PlaceholderView?
    ensures s.error == "" ==> (visible <==> Preview.ViewOf(s.svg, s.loading, s.error).SvgView?)
  {
    s.svg != "" && !s.loading
  }

  /** Under the invariant, the export panel appears exactly when the preview
      shows the markup, which is exactly when the preview's controls are
      shown. Without the invariant a state holding both markup and an error
      would show the export panel beside the error view. */
  lemma ExportVisibleIffSvgView(s: AppState)
    requires Inv(s)
    ensures ExportVisible(s) <==> Preview.ViewOf(s.svg, s.loading, s.error).SvgView?
    ensures ExportVisible(s) <==> Preview.ControlsShown(s.svg, s.loading, s.error)
  {
  }

  /** The invariant is what the agreement rests on: markup together with an
      error would show the export panel beside the error view. */
  lemma ExportVisibleNeedsInv(markup: string, message: string)
    requires markup != "" && message != ""
    ensures var s := AppState(DefaultConfig, markup, false, message);
            ExportVisible(s) && Preview.ViewOf(s.svg, s.loading, s.error).ErrorView?
  {
  }

  /** While a call is pending nothing can be exported and the preview shows
      the loading view. */
  lemma LoadingHidesExport(s: AppState)
    requires Inv(s) && s.loading
    ensures !ExportVisible(s)
    ensures Preview.ViewOf(s.svg, s.loading, s.error) == Preview.LoadingView
  {
  }
}
