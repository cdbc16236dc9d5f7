/** The animation configuration record (types.ts) with its three closed
    enumerations, their textual labels, and the default instance the
    application starts from (App.tsx). Durations are integer tenths of a
    second. */
module Config {
  import opened Results

  datatype LogoAnimation = ElectricTrace | FadeIn | ScaleUp | PathDraw

  datatype TextAnimation = VerticalEntrance | FadeIn | Typewriter | GlowIn

  datatype BackgroundAnimation = ProgressiveGlow | FadeIn | Static | SubtlePulse

  /** The string literal each variant stands for in the source's union types. */
  function LogoLabel(a: LogoAnimation): string {
    match a
    case ElectricTrace => "electric-trace"
    case FadeIn => "fade-in"
    case ScaleUp => "scale-up"
    case PathDraw => "path-draw"
  }

  function TextLabel(a: TextAnimation): string {
    match a
    case VerticalEntrance => "vertical-entrance"
    case FadeIn => "fade-in"
    case Typewriter => "typewriter"
    case GlowIn => "glow-in"
  }

  function BackgroundLabel(a: BackgroundAnimation): string {
    match a
    case ProgressiveGlow => "progressive-glow"
    case FadeIn => "fade-in"
    case Static => "static"
    case SubtlePulse => "subtle-pulse"
  }

  /** Reads a label back; the result is exactly the variant whose label it is. */
  function ParseLogo(s: string): (r: Option<LogoAnimation>)
    ensures r.Some? ==> LogoLabel(r.value) == s
    ensures r.None? ==> forall a :: LogoLabel(a) != s
  {
    if s == "electric-trace" then Some(ElectricTrace)
    else if s == "fade-in" then Some(LogoAnimation.FadeIn)
    else if s == "scale-up" then Some(ScaleUp)
    else if s == "path-draw" then Some(PathDraw)
    else None
  }

  function ParseText(s: string): (r: Option<TextAnimation>)
    ensures r.Some? ==> TextLabel(r.value) == s
    ensures r.None? ==> forall a :: TextLabel(a) != s
  {
    if s == "vertical-entrance" then Some(VerticalEntrance)
    else if s == "fade-in" then Some(TextAnimation.FadeIn)
    else if s == "typewriter" then Some(Typewriter)
    else if s == "glow-in" then Some(GlowIn)
    else None
  }

  function ParseBackground(s: string): (r: Option<BackgroundAnimation>)
    ensures r.Some? ==> BackgroundLabel(r.value) == s
    ensures r.None? ==> forall a :: BackgroundLabel(a) != s
  {
    if s == "progressive-glow" then Some(ProgressiveGlow)
    else if s == "fade-in" then Some(BackgroundAnimation.FadeIn)
    else if s == "static" then Some(Static)
    else if s == "subtle-pulse" then Some(SubtlePulse)
    else None
  }

  /** Labels are distinct within each enumeration, so reading a label back
      yields the variant it came from. */
  lemma LabelsRoundTrip(a: LogoAnimation, t: TextAnimation, b: BackgroundAnimation)
    ensures ParseLogo(LogoLabel(a)) == Some(a)
    ensures ParseText(TextLabel(t)) == Some(t)
    ensures ParseBackground(BackgroundLabel(b)) == Some(b)
  {
  }

  /** Duration bounds in tenths of a second: 1 s to 10 s. */
  const MinTenths: int := 10
  const MaxTenths: int := 100

  /** One configuration snapshot; every edit builds a new one. `logoName`
      and the colours are plain strings (possibly empty, never absent). */
  datatype AnimationConfig = AnimationConfig(
    logoName: string,
    logoAnimation: LogoAnimation,
    textAnimation: TextAnimation,
    backgroundAnimation: BackgroundAnimation,
    durationTenths: int,
    backgroundColor: string,
    primaryColor: string,
    secondaryColor: string,
    isTransparent: bool)

  /** The range invariant the editing surface maintains. */
  predicate Valid(c: AnimationConfig) {
    MinTenths <= c.durationTenths <= MaxTenths
  }

  /** The configuration the application starts with (2.5 s is 25 tenths). */
  const DefaultConfig: AnimationConfig := AnimationConfig(
    "AtemiMx", ElectricTrace, VerticalEntrance, ProgressiveGlow, 25,
    "#111827", "#38bdf8", "#ffffff", true)

  lemma DefaultConfigValid()
    ensures Valid(DefaultConfig)
  {
  }
}
