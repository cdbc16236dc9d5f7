/** The generation client (services/geminiService.ts): the prompt built from
    a configuration, the single request sent to the model, and the
    translation of any failure into one fixed message. */
module Prompt {
  import opened Results
  import opened Text
  import opened Config

  // ---------------------------------------------------------------------
  // Duration text
  // ---------------------------------------------------------------------

  function DigitChar(d: int): char
    requires 0 <= d < 10
  {
    ('0' as int + d) as char
  }

  function DigitValue(c: char): int {
    c as int - '0' as int
  }

  predicate IsDigit(c: char) {
    '0' <= c <= '9'
  }

  predicate AllDigits(s: string) {
    forall k :: 0 <= k < |s| ==> IsDigit(s[k])
  }

  /** Decimal notation of a natural number, without leading zeros. */
  function NatText(n: nat): (r: string)
    ensures r != [] && AllDigits(r)
    decreases n
  {
    if n < 10 then [DigitChar(n)] else NatText(n / 10) + [DigitChar(n % 10)]
  }

  /** Reads a string of decimal digits. */
  function ReadNat(s: string): (n: nat)
    requires AllDigits(s)
    decreases |s|
  {
    if |s| == 0 then 0 else ReadNat(s[..|s| - 1]) * 10 + DigitValue(s[|s| - 1])
  }

  lemma {:induction false} ReadNatText(n: nat)
    ensures ReadNat(NatText(n)) == n
    decreases n
  {
    if n >= 10 {
      var r := NatText(n);
      assert r[..|r| - 1] == NatText(n / 10);
      ReadNatText(n / 10);
    }
  }

  /** How a non-negative duration of `tenths` tenths of a second prints:
      the whole seconds, then "." and the tenths digit unless it is zero
      ("2.5", "3", "10"). */
  function UnsignedDurText(tenths: nat): (r: string)
    ensures r != [] && IsDigit(r[0])
  {
    NatText(tenths / 10) + (if tenths % 10 == 0 then "" else "." + [DigitChar(tenths % 10)])
  }

  /** How a duration prints, with a minus sign exactly when negative; the
      magnitude starts with a digit. */
  function DurText(tenths: int): (r: string)
    ensures r != [] && (r[0] == '-' <==> tenths < 0)
    ensures tenths < 0 ==> |r| >= 2 && IsDigit(r[1])
  {
    if tenths < 0 then "-" + UnsignedDurText(-tenths) else UnsignedDurText(tenths)
  }

  /** Reads whole seconds with an optional single decimal digit, giving
      tenths. */
  function ReadUnsignedTenths(s: string): Option<int> {
    if |s| >= 3 && s[|s| - 2] == '.' && AllDigits(s[..|s| - 2]) && IsDigit(s[|s| - 1]) then
      Some(ReadNat(s[..|s| - 2]) * 10 + DigitValue(s[|s| - 1]))
    else if s != [] && AllDigits(s) then Some(ReadNat(s) * 10)
    else None
  }

  /** The reading of a number with a minus sign in front. */
  function Negated(r: Option<int>): Option<int> {
    if r.Some? then Some(0 - r.value) else None
  }

  /** Reads a printed duration back, giving tenths. */
  function ReadTenths(s: string): Option<int> {
    if |s| > 0 && s[0] == '-' then Negated(ReadUnsignedTenths(s[1..])) else ReadUnsignedTenths(s)
  }

  lemma UnsignedDurTextReadsBack(tenths: nat)
    ensures ReadUnsignedTenths(UnsignedDurText(tenths)) == Some(tenths)
  {
    var whole := NatText(tenths / 10);
    ReadNatText(tenths / 10);
    var r := UnsignedDurText(tenths);
    if tenths % 10 != 0 {
      assert r[..|r| - 2] == whole;
      assert r[|r| - 2] == '.';
    } else {
      assert r == whole;
    }
  }

  /** The printed duration reads back as the duration it came from, so
      different durations print differently. */
  lemma DurTextReadsBack(tenths: int)
    ensures ReadTenths(DurText(tenths)) == Some(tenths)
  {
    if tenths < 0 {
      NegativeDurTextReadsBack(tenths);
    } else {
      PositiveReadsBack(tenths);
    }
  }

  lemma NegativeDurTextReadsBack(tenths: int)
    requires tenths < 0
    ensures ReadTenths(DurText(tenths)) == Some(tenths)
  {
    var u := UnsignedDurText(-tenths);
    UnsignedDurTextReadsBack(-tenths);
    var magnitude := ReadUnsignedTenths(u);
    assert Negated(magnitude) == Some(tenths);
    ReadMinus(u);
    assert DurText(tenths) == "-" + u;
  }

  /** A printed magnitude reads back unchanged. */
  lemma PositiveReadsBack(t: nat)
    ensures ReadTenths(UnsignedDurText(t)) == Some(t)
  {
    UnsignedDurTextReadsBack(t);
  }

  /** A leading minus sign negates the reading of the rest. */
  lemma ReadMinus(u: string)
    ensures ReadTenths("-" + u) == Negated(ReadUnsignedTenths(u))
  {
    assert ("-" + u)[1..] == u;
  }

  // ---------------------------------------------------------------------
  // Prompt
  // ---------------------------------------------------------------------

  const RoleLine: string :=
    "You are an expert SVG animation designer. Your task is to generate a complete, single, valid, and animated SVG file based on the user's request."
  const SmilLine: string :=
    "The animation MUST be implemented using SMIL (Synchronized Multimedia Integration Language) within the SVG file itself."
  const NoScriptLine: string :=
    "DO NOT use CSS or JavaScript for animations. The SVG MUST be self-contained."
  const ViewBoxLine: string := "The viewBox should be '0 0 200 200'."
  const LoopLine: string := "Ensure the animation loops indefinitely ('indefinite')."
  const QualityLine: string := "The generated SVG should be visually stunning and professional."
  const ClosingLine: string :=
    "Please generate the SVG code now. Only output the raw SVG code, without any markdown formatting like ```svg."

  /** A value between double quotes, as the prompt writes names and colours. */
  function Quoted(s: string): (r: string)
    ensures |r| == |s| + 2 && r[0] == '"' && r[|r| - 1] == '"'
    ensures r[1..|r| - 1] == s
  {
    "\"" + s + "\""
  }

  function BackgroundChoice(c: AnimationConfig): string {
    if c.isTransparent then "Transparent" else "Solid color (" + c.backgroundColor + ")"
  }

  /** The fixed opening of the prompt, line by line: the technical
      constraints, then the heading of the user's request. */
  const PreambleParts: seq<string> := [
    "\n",
    RoleLine, "\n",
    SmilLine, "\n",
    NoScriptLine, "\n",
    ViewBoxLine, "\n",
    LoopLine, "\n",
    QualityLine, "\n",
    "\n",
    "User's Request:\n"]

  /** One line per configuration value; in each, the fragment that carries
      the value stands between a fixed lead and a fixed tail. */
  function NameLine(c: AnimationConfig): string {
    "- Logo Name/Text: " + Quoted(c.logoName) + "\n"
  }

  function LogoLine(c: AnimationConfig): string {
    "- " + ("Main Shape Animation: " + LogoLabel(c.logoAnimation))
    + ". This should be the most prominent visual element.\n"
  }

  function TextLine(c: AnimationConfig): string {
    "- " + ("Text Animation: " + TextLabel(c.textAnimation))
    + (". This applies to the text " + Quoted(c.logoName) + ".\n")
  }

  function BackgroundAnimationLine(c: AnimationConfig): string {
    "- " + ("Background Animation: " + BackgroundLabel(c.backgroundAnimation)) + ".\n"
  }

  function DurationLine(c: AnimationConfig): string {
    "- " + ("Total Animation Duration: " + DurText(c.durationTenths) + " seconds")
    + ". Coordinate the individual animations to fit within this duration.\n"
  }

  function BackgroundLine(c: AnimationConfig): string {
    "- " + ("Background: " + BackgroundChoice(c))
    + ". If not transparent, add a rect element for the background.\n"
  }

  function PrimaryLine(c: AnimationConfig): string {
    "- " + ("Primary Color: " + Quoted(c.primaryColor)) + " (for the main logo shape and highlights)\n"
  }

  function SecondaryLine(c: AnimationConfig): string {
    "- " + ("Secondary Color: " + Quoted(c.secondaryColor)) + " (for text and secondary elements)\n"
  }

  /** The closing instruction, then the template's final indentation. */
  const Closing: string := "\n" + ClosingLine + "\n  "

  /** The lines of the user's request, then the closing. */
  function RequestSections(c: AnimationConfig): seq<string> {
    [ NameLine(c), LogoLine(c), TextLine(c), BackgroundAnimationLine(c),
      DurationLine(c), BackgroundLine(c), PrimaryLine(c), SecondaryLine(c),
      Closing ]
  }

  /** The prompt template, section by section, in source order. */
  function PromptSections(c: AnimationConfig): seq<string> {
    PreambleParts + RequestSections(c)
  }

  /** `buildPrompt`: the sections concatenated. Whatever the
      configuration, the prompt ends with the instruction to output raw
      SVG code. */
  function BuildPrompt(c: AnimationConfig): (r: string)
    ensures EndsWith(r, Closing)
  {
    ClosingLast(PreambleParts, NameLine(c), LogoLine(c), TextLine(c), BackgroundAnimationLine(c),
                DurationLine(c), BackgroundLine(c), PrimaryLine(c), SecondaryLine(c), Closing);
    Concat(PromptSections(c))
  }

  /** The closing section comes last after any preamble. Stated for
      arbitrary strings, so that the prompt's fixed wording plays no part
      in the argument. */
  lemma ClosingLast(pre: seq<string>, name: string, logo: string, text: string, backgroundAnimation: string,
                    duration: string, background: string, primary: string, secondary: string, closing: string)
    ensures EndsWith(Concat(pre + [name, logo, text, backgroundAnimation, duration, background, primary, secondary, closing]), closing)
  {
    var all := pre + [name, logo, text, backgroundAnimation, duration, background, primary, secondary, closing];
    ConcatEndsWithLast(all);
    assert all[|all| - 1] == closing;
  }

  /** Every fragment of either list occurs in the concatenation of both. */
  lemma PartOfJoinedConcat(a: seq<string>, b: seq<string>, k: nat)
    requires k < |a| + |b|
    ensures k < |a| ==> IsInfix(a[k], Concat(a + b))
    ensures k >= |a| ==> IsInfix(b[k - |a|], Concat(a + b))
  {
    ConcatAppend(a, b);
    InfixOfJoin(Concat(a), Concat(b));
    if k < |a| {
      ConcatHasPart(a, k);
      InfixTransitive(a[k], Concat(a), Concat(a + b));
    } else {
      ConcatHasPart(b, k - |a|);
      InfixTransitive(b[k - |a|], Concat(b), Concat(a + b));
    }
  }

  /** The request sections all occur after any preamble. Stated for
      arbitrary strings, so that the prompt's fixed wording plays no part
      in the argument. */
  lemma RequestOccurs(pre: seq<string>, name: string, logo: string, text: string, backgroundAnimation: string,
                      duration: string, background: string, primary: string, secondary: string, closing: string)
    ensures var all := Concat(pre + [name, logo, text, backgroundAnimation, duration, background, primary, secondary, closing]);
            && IsInfix(name, all) && IsInfix(logo, all) && IsInfix(text, all)
            && IsInfix(backgroundAnimation, all) && IsInfix(duration, all) && IsInfix(background, all)
            && IsInfix(primary, all) && IsInfix(secondary, all) && IsInfix(closing, all)
  {
    var request := [name, logo, text, backgroundAnimation, duration, background, primary, secondary, closing];
    PartOfJoinedConcat(pre, request, |pre| + 0);
    PartOfJoinedConcat(pre, request, |pre| + 1);
    PartOfJoinedConcat(pre, request, |pre| + 2);
    PartOfJoinedConcat(pre, request, |pre| + 3);
    PartOfJoinedConcat(pre, request, |pre| + 4);
    PartOfJoinedConcat(pre, request, |pre| + 5);
    PartOfJoinedConcat(pre, request, |pre| + 6);
    PartOfJoinedConcat(pre, request, |pre| + 7);
    PartOfJoinedConcat(pre, request, |pre| + 8);
  }

  /** Every request section occurs in the prompt. */
  lemma PromptHasRequestSections(c: AnimationConfig)
    ensures IsInfix(NameLine(c), BuildPrompt(c))
    ensures IsInfix(LogoLine(c), BuildPrompt(c))
    ensures IsInfix(TextLine(c), BuildPrompt(c))
    ensures IsInfix(BackgroundAnimationLine(c), BuildPrompt(c))
    ensures IsInfix(DurationLine(c), BuildPrompt(c))
    ensures IsInfix(BackgroundLine(c), BuildPrompt(c))
    ensures IsInfix(PrimaryLine(c), BuildPrompt(c))
    ensures IsInfix(SecondaryLine(c), BuildPrompt(c))
    ensures IsInfix(Closing, BuildPrompt(c))
  {
    RequestOccurs(PreambleParts, NameLine(c), LogoLine(c), TextLine(c), BackgroundAnimationLine(c),
                  DurationLine(c), BackgroundLine(c), PrimaryLine(c), SecondaryLine(c), Closing);
  }

  /** The instruction lines of the preamble all occur before any request.
      Stated for arbitrary strings, like RequestOccurs. */
  lemma PreambleOccurs(role: string, smil: string, noScript: string, viewBox: string, loop: string,
                       quality: string, request: seq<string>)
    ensures var all := Concat(["\n", role, "\n", smil, "\n", noScript, "\n", viewBox, "\n", loop, "\n",
                               quality, "\n", "\n", "User's Request:\n"] + request);
            && IsInfix(role, all) && IsInfix(smil, all) && IsInfix(noScript, all)
            && IsInfix(viewBox, all) && IsInfix(loop, all) && IsInfix(quality, all)
  {
    var pre := ["\n", role, "\n", smil, "\n", noScript, "\n", viewBox, "\n", loop, "\n",
                quality, "\n", "\n", "User's Request:\n"];
    PartOfJoinedConcat(pre, request, 1);
    PartOfJoinedConcat(pre, request, 3);
    PartOfJoinedConcat(pre, request, 5);
    PartOfJoinedConcat(pre, request, 7);
    PartOfJoinedConcat(pre, request, 9);
    PartOfJoinedConcat(pre, request, 11);
  }

  /** The role and the technical constraints are stated whatever the
      configuration. */
  lemma PromptHasConstraints(c: AnimationConfig)
    ensures IsInfix(RoleLine, BuildPrompt(c))
    ensures IsInfix(SmilLine, BuildPrompt(c))
    ensures IsInfix(NoScriptLine, BuildPrompt(c))
    ensures IsInfix(ViewBoxLine, BuildPrompt(c))
    ensures IsInfix(LoopLine, BuildPrompt(c))
    ensures IsInfix(QualityLine, BuildPrompt(c))
  {
    PreambleOccurs(RoleLine, SmilLine, NoScriptLine, ViewBoxLine, LoopLine, QualityLine, RequestSections(c));
  }

  /** The prompt ends by asking for raw markup without a code fence. */
  lemma PromptHasClosing(c: AnimationConfig)
    ensures IsInfix(ClosingLine, BuildPrompt(c))
  {
    InfixOfConcat("\n", ClosingLine, "\n  ");
    PromptHasRequestSections(c);
    InfixTransitive(ClosingLine, Closing, BuildPrompt(c));
  }

  /** The logo name appears verbatim between double quotes. */
  lemma PromptQuotesName(c: AnimationConfig)
    ensures IsInfix(Quoted(c.logoName), BuildPrompt(c))
    ensures IsInfix(c.logoName, BuildPrompt(c))
  {
    InfixOfConcat("- Logo Name/Text: ", Quoted(c.logoName), "\n");
    PromptHasRequestSections(c);
    InfixTransitive(Quoted(c.logoName), NameLine(c), BuildPrompt(c));
    InfixOfConcat("\"", c.logoName, "\"");
    InfixTransitive(c.logoName, Quoted(c.logoName), BuildPrompt(c));
  }

  /** The main-shape animation is named after its heading. */
  lemma PromptNamesLogoAnimation(c: AnimationConfig)
    ensures IsInfix("Main Shape Animation: " + LogoLabel(c.logoAnimation), BuildPrompt(c))
  {
    var logo := "Main Shape Animation: " + LogoLabel(c.logoAnimation);
    InfixOfConcat("- ", logo, ". This should be the most prominent visual element.\n");
    PromptHasRequestSections(c);
    InfixTransitive(logo, LogoLine(c), BuildPrompt(c));
  }

  /** The text animation is named after its heading. */
  lemma PromptNamesTextAnimation(c: AnimationConfig)
    ensures IsInfix("Text Animation: " + TextLabel(c.textAnimation), BuildPrompt(c))
  {
    var text := "Text Animation: " + TextLabel(c.textAnimation);
    InfixOfConcat("- ", text, ". This applies to the text " + Quoted(c.logoName) + ".\n");
    PromptHasRequestSections(c);
    InfixTransitive(text, TextLine(c), BuildPrompt(c));
  }

  /** The background animation is named after its heading. */
  lemma PromptNamesBackgroundAnimation(c: AnimationConfig)
    ensures IsInfix("Background Animation: " + BackgroundLabel(c.backgroundAnimation), BuildPrompt(c))
  {
    var background := "Background Animation: " + BackgroundLabel(c.backgroundAnimation);
    InfixOfConcat("- ", background, ".\n");
    PromptHasRequestSections(c);
    InfixTransitive(background, BackgroundAnimationLine(c), BuildPrompt(c));
  }

  /** The duration is stated in seconds. */
  lemma PromptStatesDuration(c: AnimationConfig)
    ensures IsInfix("Total Animation Duration: " + DurText(c.durationTenths) + " seconds", BuildPrompt(c))
  {
    var duration := "Total Animation Duration: " + DurText(c.durationTenths) + " seconds";
    InfixOfConcat("- ", duration, ". Coordinate the individual animations to fit within this duration.\n");
    PromptHasRequestSections(c);
    InfixTransitive(duration, DurationLine(c), BuildPrompt(c));
  }

  lemma PromptStatesBackgroundChoice(c: AnimationConfig)
    ensures IsInfix("Background: " + BackgroundChoice(c), BuildPrompt(c))
  {
    var background := "Background: " + BackgroundChoice(c);
    InfixOfConcat("- ", background, ". If not transparent, add a rect element for the background.\n");
    PromptHasRequestSections(c);
    InfixTransitive(background, BackgroundLine(c), BuildPrompt(c));
  }

  lemma BackgroundChoiceText(c: AnimationConfig)
    ensures c.isTransparent ==> "Background: " + BackgroundChoice(c) == "Background: Transparent"
    ensures !c.isTransparent ==>
              "Background: " + BackgroundChoice(c) == "Background: Solid color (" + c.backgroundColor + ")"
  {
    if !c.isTransparent {
      assert "Background: " + BackgroundChoice(c)
          == "Background: " + ("Solid color (" + c.backgroundColor + ")");
    }
  }

  /** A transparent configuration asks for a transparent background; any
      other names its background colour. */
  lemma PromptStatesBackground(c: AnimationConfig)
    ensures c.isTransparent ==> IsInfix("Background: Transparent", BuildPrompt(c))
    ensures !c.isTransparent ==>
              IsInfix("Background: Solid color (" + c.backgroundColor + ")", BuildPrompt(c))
    ensures !c.isTransparent ==>
              IsInfix("Solid color (" + c.backgroundColor + ")", BuildPrompt(c))
  {
    PromptStatesBackgroundChoice(c);
    BackgroundChoiceText(c);
    if !c.isTransparent {
      InfixOfSuffix("Background: ", "Solid color (" + c.backgroundColor + ")", BuildPrompt(c));
    }
  }

  /** The primary colour appears verbatim, quoted, after its heading. */
  lemma PromptStatesPrimaryColor(c: AnimationConfig)
    ensures IsInfix("Primary Color: " + Quoted(c.primaryColor), BuildPrompt(c))
  {
    var primary := "Primary Color: " + Quoted(c.primaryColor);
    InfixOfConcat("- ", primary, " (for the main logo shape and highlights)\n");
    PromptHasRequestSections(c);
    InfixTransitive(primary, PrimaryLine(c), BuildPrompt(c));
  }

  /** The secondary colour appears verbatim, quoted, after its heading. */
  lemma PromptStatesSecondaryColor(c: AnimationConfig)
    ensures IsInfix("Secondary Color: " + Quoted(c.secondaryColor), BuildPrompt(c))
  {
    var secondary := "Secondary Color: " + Quoted(c.secondaryColor);
    InfixOfConcat("- ", secondary, " (for text and secondary elements)\n");
    PromptHasRequestSections(c);
    InfixTransitive(secondary, SecondaryLine(c), BuildPrompt(c));
  }

  // ---------------------------------------------------------------------
  // Generation call
  // ---------------------------------------------------------------------

  const ModelId: string := "gemini-2.5-flash"

  /** The single call made to the generation service. */
  datatype GenerationRequest = GenerationRequest(model: string, contents: string)

  /** What the service does with a request: it answers with text or fails
      (network, credential, quota, malformed response: all alike). */
  datatype ServiceReply = Replied(text: string) | ServiceFailed

  const FailureMessage: string :=
    "Failed to generate animation. Please check your API key and try again."

  /** The request `generateAnimation` sends for a configuration. */
  function RequestFor(c: AnimationConfig): (q: GenerationRequest)
    ensures q.model == ModelId && q.contents == BuildPrompt(c)
  {
    GenerationRequest(ModelId, BuildPrompt(c))
  }

  /** `generateAnimation`: the service's text on success; on any failure a
      rejection carrying the fixed message, whatever went wrong. */
  function GenerateAnimation(c: AnimationConfig, service: GenerationRequest -> ServiceReply): (r: Result<string, string>)
    ensures service(RequestFor(c)).Replied? <==> r.Ok?
    ensures r.Ok? ==> r.value == service(RequestFor(c)).text
    ensures r.Err? ==> r.error == FailureMessage
  {
    match service(RequestFor(c))
    case Replied(text) => Ok(text)
    case ServiceFailed => Err(FailureMessage)
  }

  /** Failures are indistinguishable: two failing services give the same
      outcome for any two configurations. */
  lemma FailuresAreUniform(c: AnimationConfig, d: AnimationConfig,
                           s1: GenerationRequest -> ServiceReply, s2: GenerationRequest -> ServiceReply)
    requires s1(RequestFor(c)).ServiceFailed? && s2(RequestFor(d)).ServiceFailed?
    ensures GenerateAnimation(c, s1) == GenerateAnimation(d, s2) == Err(FailureMessage)
  {
  }
}
