/** The preview pane (components/PreviewWindow.tsx): which view it shows,
    when its transport controls are visible, and how play/pause and reset
    drive the rendered SVG element's animation clock. The element is
    abstract: present or absent, and when present, paused or running at
    some document time. */
module Preview {
  import opened Results

  /** The animation clock of the rendered SVG root element. */
  datatype Clock = Clock(paused: bool, time: real)

  /** The component's playing flag together with the element it finds. */
  datatype Player = Player(isPlaying: bool, element: Option<Clock>)

  /** The flag starts out true. */
  function InitialPlayer(element: Option<Clock>): (p: Player)
    ensures p.isPlaying && p.element == element
  {
    Player(true, element)
  }

  /** Play/pause: pauses a playing animation, resumes a paused one, flips
      the flag; without an element nothing happens. */
  function TogglePlay(p: Player): (q: Player)
    ensures p.element.None? ==> q == p
    ensures p.element.Some? ==> q.isPlaying == !p.isPlaying && q.element.Some?
    ensures p.element.Some? ==> q.element.value.paused == p.isPlaying
    ensures p.element.Some? ==> q.element.value.time == p.element.value.time
  {
    match p.element
    case None => p
    case Some(clock) =>
      var clock' := if p.isPlaying then clock.(paused := true) else clock.(paused := false);
      Player(!p.isPlaying, Some(clock'))
  }

  /** Reset: rewinds to time zero and resumes, whatever the prior state;
      without an element nothing happens. */
  function Reset(p: Player): (q: Player)
    ensures p.element.None? ==> q == p
    ensures p.element.Some? ==> q == Player(true, Some(Clock(false, 0.0)))
  {
    match p.element
    case None => p
    case Some(clock) => Player(true, Some(clock.(time := 0.0).(paused := false)))
  }

  /** The element a render leaves in the pane. Markup inserted into the
      pane, whether new or remounted after the spinner, is a fresh SVG root
      whose animation runs from time zero. Any other view holds no
      animation of the result. */
  function Rendered(svgCode: string, isLoading: bool, error: string): (e: Option<Clock>)
    ensures e.Some? <==> ViewOf(svgCode, isLoading, error).SvgView?
    ensures e.Some? ==> !e.value.paused && e.value.time == 0.0
  {
    if ViewOf(svgCode, isLoading, error).SvgView? then Some(Clock(false, 0.0)) else None
  }

  /** A change of the result or of the loading flag: the pane re-renders,
      then the effect sets the flag to playing when a result is present and
      not loading. Otherwise the flag keeps its value. */
  function OnResultChange(p: Player, svgCode: string, isLoading: bool, error: string): (q: Player)
    ensures q.element == Rendered(svgCode, isLoading, error)
    ensures svgCode != "" && !isLoading ==> q.isPlaying
    ensures !(svgCode != "" && !isLoading) ==> q.isPlaying == p.isPlaying
  {
    var flag := if svgCode != "" && !isLoading then true else p.isPlaying;
    Player(flag, Rendered(svgCode, isLoading, error))
  }

  /** The flag agrees with the element's clock. */
  predicate Synced(p: Player) {
    p.element.Some? ==> p.isPlaying == !p.element.value.paused
  }

  lemma ToggleKeepsSynced(p: Player)
    requires Synced(p)
    ensures Synced(TogglePlay(p))
  {
  }

  lemma ResetSyncs(p: Player)
    ensures Synced(Reset(p))
    ensures Reset(Reset(p)) == Reset(p)
  {
  }

  /** A result change brings flag and clock into agreement, whatever the
      player was before, and while the controls are shown they find an
      element. */
  lemma ResultChangeSyncs(p: Player, svgCode: string, isLoading: bool, error: string)
    ensures Synced(OnResultChange(p, svgCode, isLoading, error))
    ensures ControlsShown(svgCode, isLoading, error) ==>
              OnResultChange(p, svgCode, isLoading, error).element.Some?
  {
  }

  /** Toggling twice restores a synced player. */
  lemma ToggleTwice(p: Player)
    requires Synced(p)
    ensures TogglePlay(TogglePlay(p)) == p
  {
  }

  /** Every player reached from a result change by play/pause and reset
      clicks is synced, so toggling twice restores it. */
  lemma ToggleTwiceAfterResultChange(p: Player, svgCode: string, isLoading: bool, error: string, clicks: seq<bool>)
    ensures var q := Clicks(OnResultChange(p, svgCode, isLoading, error), clicks);
            Synced(q) && TogglePlay(TogglePlay(q)) == q
  {
    ResultChangeSyncs(p, svgCode, isLoading, error);
    ClicksKeepSynced(OnResultChange(p, svgCode, isLoading, error), clicks);
    ToggleTwice(Clicks(OnResultChange(p, svgCode, isLoading, error), clicks));
  }

  /** A run of clicks on the controls: true for play/pause, false for reset. */
  function Clicks(p: Player, clicks: seq<bool>): (q: Player)
    ensures q.element.Some? <==> p.element.Some?
    decreases |clicks|
  {
    if |clicks| == 0 then p
    else Clicks(if clicks[0] then TogglePlay(p) else Reset(p), clicks[1..])
  }

  lemma {:induction false} ClicksKeepSynced(p: Player, clicks: seq<bool>)
    requires Synced(p)
    ensures Synced(Clicks(p, clicks))
    decreases |clicks|
  {
    if |clicks| > 0 {
      var next := if clicks[0] then TogglePlay(p) else Reset(p);
      if clicks[0] { ToggleKeepsSynced(p); } else { ResetSyncs(p); }
      ClicksKeepSynced(next, clicks[1..]);
    }
  }

  /** Toggling twice does not restore a player whose flag disagrees with
      its clock: the second toggle resumes the paused clock. */
  lemma ToggleTwiceUnsynced(time: real)
    ensures var p := Player(true, Some(Clock(true, time)));
            TogglePlay(TogglePlay(p)) == Player(true, Some(Clock(false, time)))
  {
  }

  /** What the pane shows. */
  datatype View = LoadingView | ErrorView(message: string) | SvgView(markup: string) | PlaceholderView

  /** Loading wins over an error, an error over a result, a result over the
      placeholder. */
  function ViewOf(svgCode: string, isLoading: bool, error: string): (v: View)
    ensures v.LoadingView? <==> isLoading
    ensures v.ErrorView? <==> !isLoading && error != ""
    ensures v.SvgView? <==> !isLoading && error == "" && svgCode != ""
    ensures v.ErrorView? ==> v.message == error
    ensures v.SvgView? ==> v.markup == svgCode
  {
    if isLoading then LoadingView
    else if error != "" then ErrorView(error)
    else if svgCode != "" then SvgView(svgCode)
    else PlaceholderView
  }

  /** The header's play/pause and reset buttons are rendered exactly when
      the pane shows the markup. */
  function ControlsShown(svgCode: string, isLoading: bool, error: string): (shown: bool)
    ensures shown <==> ViewOf(svgCode, isLoading, error).SvgView?
    ensures shown ==> ViewOf(svgCode, isLoading, error).markup == svgCode
  {
    svgCode != "" && !isLoading && error == ""
  }
}
