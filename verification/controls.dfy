/** The editing surface (components/AnimationControls.tsx): the copy-on-write
    single-field update every control goes through, the option lists of the
    three selects, and the duration slider's range. */
module Controls {
  import opened Results
  import opened Config

  /** The keys of the configuration record. */
  datatype Field =
    | LogoNameField | LogoAnimationField | TextAnimationField
    | BackgroundAnimationField | DurationField | BackgroundColorField
    | PrimaryColorField | SecondaryColorField | TransparentField

  /** A key together with a value of that key's type. */
  datatype FieldValue =
    | LogoName(name: string)
    | LogoAnim(logo: LogoAnimation)
    | TextAnim(text: TextAnimation)
    | BackgroundAnim(background: BackgroundAnimation)
    | Duration(tenths: int)
    | BackgroundColor(color: string)
    | PrimaryColor(color: string)
    | SecondaryColor(color: string)
    | Transparent(flag: bool)

  function FieldOf(v: FieldValue): Field {
    match v
    case LogoName(_) => LogoNameField
    case LogoAnim(_) => LogoAnimationField
    case TextAnim(_) => TextAnimationField
    case BackgroundAnim(_) => BackgroundAnimationField
    case Duration(_) => DurationField
    case BackgroundColor(_) => BackgroundColorField
    case PrimaryColor(_) => PrimaryColorField
    case SecondaryColor(_) => SecondaryColorField
    case Transparent(_) => TransparentField
  }

  /** Reads one field of a configuration. */
  function Get(c: AnimationConfig, f: Field): (v: FieldValue)
    ensures FieldOf(v) == f
  {
    match f
    case LogoNameField => LogoName(c.logoName)
    case LogoAnimationField => LogoAnim(c.logoAnimation)
    case TextAnimationField => TextAnim(c.textAnimation)
    case BackgroundAnimationField => BackgroundAnim(c.backgroundAnimation)
    case DurationField => Duration(c.durationTenths)
    case BackgroundColorField => BackgroundColor(c.backgroundColor)
    case PrimaryColorField => PrimaryColor(c.primaryColor)
    case SecondaryColorField => SecondaryColor(c.secondaryColor)
    case TransparentField => Transparent(c.isTransparent)
  }

  /** Two configurations that agree on every field are the same. */
  lemma Extensionality(c: AnimationConfig, d: AnimationConfig)
    requires forall f :: Get(c, f) == Get(d, f)
    ensures c == d
  {
    assert Get(c, LogoNameField) == Get(d, LogoNameField);
    assert Get(c, LogoAnimationField) == Get(d, LogoAnimationField);
    assert Get(c, TextAnimationField) == Get(d, TextAnimationField);
    assert Get(c, BackgroundAnimationField) == Get(d, BackgroundAnimationField);
    assert Get(c, DurationField) == Get(d, DurationField);
    assert Get(c, BackgroundColorField) == Get(d, BackgroundColorField);
    assert Get(c, PrimaryColorField) == Get(d, PrimaryColorField);
    assert Get(c, SecondaryColorField) == Get(d, SecondaryColorField);
    assert Get(c, TransparentField) == Get(d, TransparentField);
  }

  /** `{ ...prev, [key]: value }`: a new record in which the edited field
      holds the new value and every other field is copied. */
  function Update(c: AnimationConfig, v: FieldValue): (r: AnimationConfig)
    ensures Get(r, FieldOf(v)) == v
    ensures forall f :: f != FieldOf(v) ==> Get(r, f) == Get(c, f)
  {
    match v
    case LogoName(x) => c.(logoName := x)
    case LogoAnim(x) => c.(logoAnimation := x)
    case TextAnim(x) => c.(textAnimation := x)
    case BackgroundAnim(x) => c.(backgroundAnimation := x)
    case Duration(x) => c.(durationTenths := x)
    case BackgroundColor(x) => c.(backgroundColor := x)
    case PrimaryColor(x) => c.(primaryColor := x)
    case SecondaryColor(x) => c.(secondaryColor := x)
    case Transparent(x) => c.(isTransparent := x)
  }

  /** A second write to the same field overrides the first. */
  lemma UpdateOverwrite(c: AnimationConfig, v: FieldValue, w: FieldValue)
    requires FieldOf(v) == FieldOf(w)
    ensures Update(Update(c, v), w) == Update(c, w)
  {
    Extensionality(Update(Update(c, v), w), Update(c, w));
  }

  /** Writing back the value a field already holds changes nothing. */
  lemma UpdateSameValue(c: AnimationConfig, f: Field)
    ensures Update(c, Get(c, f)) == c
  {
    Extensionality(Update(c, Get(c, f)), c);
  }

  /** Writes to different fields commute. */
  lemma UpdateCommute(c: AnimationConfig, v: FieldValue, w: FieldValue)
    requires FieldOf(v) != FieldOf(w)
    ensures Update(Update(c, v), w) == Update(Update(c, w), v)
  {
    Extensionality(Update(Update(c, v), w), Update(Update(c, w), v));
  }

  /** The option values offered by the three selects, in display order. */
  const LogoOptions: seq<string> := ["electric-trace", "fade-in", "scale-up", "path-draw"]
  const TextOptions: seq<string> := ["vertical-entrance", "fade-in", "typewriter", "glow-in"]
  const BackgroundOptions: seq<string> := ["progressive-glow", "fade-in", "static", "subtle-pulse"]

  /** Each select offers exactly the labels of its enumeration, each once:
      a value is offered if and only if it reads back as a variant. */
  lemma SelectsOfferExactlyTheVariants(s: string)
    ensures s in LogoOptions <==> ParseLogo(s).Some?
    ensures s in TextOptions <==> ParseText(s).Some?
    ensures s in BackgroundOptions <==> ParseBackground(s).Some?
    ensures |LogoOptions| == 4 && |TextOptions| == 4 && |BackgroundOptions| == 4
  {
  }

  /** Every variant appears among its select's options. */
  lemma EveryVariantOffered(a: LogoAnimation, t: TextAnimation, b: BackgroundAnimation)
    ensures LogoLabel(a) in LogoOptions
    ensures TextLabel(t) in TextOptions
    ensures BackgroundLabel(b) in BackgroundOptions
  {
  }

  /** A select change: the chosen option's value read back as a variant and
      written into its field. A value outside the options leaves the
      configuration as it is (the select cannot produce one). */
  function SelectLogo(c: AnimationConfig, value: string): (r: AnimationConfig)
    ensures value in LogoOptions ==> LogoLabel(r.logoAnimation) == value
    ensures r.(logoAnimation := c.logoAnimation) == c
  {
    match ParseLogo(value)
    case Some(a) => Update(c, LogoAnim(a))
    case None => c
  }

  function SelectText(c: AnimationConfig, value: string): (r: AnimationConfig)
    ensures value in TextOptions ==> TextLabel(r.textAnimation) == value
    ensures r.(textAnimation := c.textAnimation) == c
  {
    match ParseText(value)
    case Some(a) => Update(c, TextAnim(a))
    case None => c
  }

  function SelectBackground(c: AnimationConfig, value: string): (r: AnimationConfig)
    ensures value in BackgroundOptions ==> BackgroundLabel(r.backgroundAnimation) == value
    ensures r.(backgroundAnimation := c.backgroundAnimation) == c
  {
    match ParseBackground(value)
    case Some(a) => Update(c, BackgroundAnim(a))
    case None => c
  }

  /** The range input (min 1, max 10, step 0.1) in tenths: a requested
      position is clamped into the range, as the HTML range control does. */
  function SliderTenths(requested: int): (t: int)
    ensures MinTenths <= t <= MaxTenths
    ensures MinTenths <= requested <= MaxTenths ==> t == requested
    ensures requested < MinTenths ==> t == MinTenths
    ensures requested > MaxTenths ==> t == MaxTenths
  {
    if requested < MinTenths then MinTenths
    else if requested > MaxTenths then MaxTenths
    else requested
  }

  /** Moving the slider keeps the duration in range and touches nothing
      else; half a second (5 tenths) is never the resulting duration. */
  lemma SliderKeepsValid(c: AnimationConfig, requested: int)
    ensures Valid(Update(c, Duration(SliderTenths(requested))))
    ensures Update(c, Duration(SliderTenths(requested))).(durationTenths := c.durationTenths) == c
    ensures Update(c, Duration(SliderTenths(requested))).durationTenths != 5
  {
  }

  /** The values the controls can produce for each field. */
  predicate Producible(v: FieldValue) {
    v.Duration? ==> MinTenths <= v.tenths <= MaxTenths
  }

  /** Any edit the controls can produce preserves the range invariant. */
  lemma EditKeepsValid(c: AnimationConfig, v: FieldValue)
    requires Valid(c) && Producible(v)
    ensures Valid(Update(c, v))
  {
  }

  /** The generate button is disabled while a request is in flight. */
  predicate GenerateEnabled(isLoading: bool) {
    !isLoading
  }
}
