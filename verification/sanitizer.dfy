/** The response cleanup in App.tsx: the generated text has a leading
    "```svg" line and a trailing "```" removed, then surrounding whitespace
    trimmed. The source writes this as one global regular-expression
    replacement with two alternatives, one anchored at the start and one at
    the end; the first alternative can only match at offset 0 and the second
    only at the very end, after the first match if there was one, so the
    replacement equals removing the prefix and then the suffix of what is
    left. */
module Sanitizer {
  import opened Text

  const FenceOpen: string := "```svg\n"
  const FenceClose: string := "```"

  function StripPrefix(s: string, p: string): (r: string)
    ensures StartsWith(s, p) ==> s == p + r
    ensures !StartsWith(s, p) ==> r == s
  {
    if StartsWith(s, p) then s[|p|..] else s
  }

  function StripSuffix(s: string, q: string): (r: string)
    ensures EndsWith(s, q) ==> s == r + q
    ensures !EndsWith(s, q) ==> r == s
  {
    if EndsWith(s, q) then s[..|s| - |q|] else s
  }

  /** The cleaned response: no surrounding whitespace, never longer than the
      raw text. */
  function CleanResponse(raw: string): (r: string)
    ensures Trimmed(r)
    ensures |r| <= |raw|
  {
    Trim(StripSuffix(StripPrefix(raw, FenceOpen), FenceClose))
  }

  /** A fenced reply loses exactly its fence and the whitespace inside it. */
  lemma CleanFenced(body: string)
    ensures CleanResponse(FenceOpen + body + FenceClose) == Trim(body)
  {
    var raw := FenceOpen + body + FenceClose;
    assert StartsWith(raw, FenceOpen) by {
      assert raw[..|FenceOpen|] == FenceOpen;
    }
    var rest := StripPrefix(raw, FenceOpen);
    assert rest == body + FenceClose;
    assert EndsWith(rest, FenceClose) by {
      assert rest[|rest| - |FenceClose|..] == FenceClose;
    }
    assert StripSuffix(rest, FenceClose) == body;
  }

  /** A fenced reply whose body is followed only by whitespace before the
      closing fence yields exactly the body. */
  lemma CleanFencedPadded(body: string, pad: string)
    requires Trimmed(body) && AllSpace(pad)
    ensures CleanResponse(FenceOpen + body + pad + FenceClose) == body
  {
    var fenced := FenceOpen + (body + pad) + FenceClose;
    assert FenceOpen + body + pad + FenceClose == fenced;
    CleanFenced(body + pad);
    TrimPadded([], body, pad);
    assert [] + body + pad == body + pad;
  }

  /** A fenced one-line SVG. */
  lemma CleanFencedExample(raw: string)
    requires raw == "```svg\n<svg/>\n```"
    ensures CleanResponse(raw) == "<svg/>"
  {
    assert raw == FenceOpen + "<svg/>" + "\n" + FenceClose;
    CleanFencedPadded("<svg/>", "\n");
  }

  /** Text with no fence at either end and no surrounding whitespace passes
      through unchanged. */
  lemma CleanUnfenced(raw: string)
    requires !StartsWith(raw, FenceOpen) && !EndsWith(raw, FenceClose)
    requires Trimmed(raw)
    ensures CleanResponse(raw) == raw
  {
    TrimTrimmed(raw);
  }

  lemma CleanUnfencedExample()
    ensures CleanResponse("<svg/>") == "<svg/>"
  {
    CleanUnfenced("<svg/>");
  }

  /** An opening fence with another tag is not removed. */
  lemma CleanOtherTagExample()
    ensures CleanResponse("```xml\n<svg/>") == "```xml\n<svg/>"
  {
    var raw := "```xml\n<svg/>";
    assert raw[3] != FenceOpen[3];
    assert raw[|raw| - 1] != FenceClose[|FenceClose| - 1];
    CleanUnfenced(raw);
  }

  lemma StripPrefixIsInfix(s: string, p: string)
    ensures IsInfix(StripPrefix(s, p), s)
  {
    if StartsWith(s, p) {
      InfixOfConcat(p, StripPrefix(s, p), []);
      assert p + StripPrefix(s, p) + [] == s;
    } else {
      InfixOfSelf(s);
    }
  }

  lemma StripSuffixIsInfix(s: string, q: string)
    ensures IsInfix(StripSuffix(s, q), s)
  {
    if EndsWith(s, q) {
      InfixOfConcat([], StripSuffix(s, q), q);
      assert [] + StripSuffix(s, q) + q == s;
    } else {
      InfixOfSelf(s);
    }
  }

  /** The cleaned text is a contiguous piece of the raw reply. */
  lemma CleanIsInfix(raw: string)
    ensures IsInfix(CleanResponse(raw), raw)
  {
    var a := StripPrefix(raw, FenceOpen);
    var b := StripSuffix(a, FenceClose);
    var i := TrimIsInfix(b);
    InfixAt(Trim(b), b, i);
    StripPrefixIsInfix(raw, FenceOpen);
    StripSuffixIsInfix(a, FenceClose);
    InfixTransitive(b, a, raw);
    InfixTransitive(Trim(b), b, raw);
  }

  /** Cleaning is idempotent on every reply whose cleaned form carries no
      further fence marker at either end. */
  lemma CleanIdempotentWhenFenceFree(raw: string)
    requires !StartsWith(CleanResponse(raw), FenceOpen)
    requires !EndsWith(CleanResponse(raw), FenceClose)
    ensures CleanResponse(CleanResponse(raw)) == CleanResponse(raw)
  {
    CleanUnfenced(CleanResponse(raw));
  }

  /** Only an opening fence: it is removed and the rest trimmed. */
  lemma CleanOpenFenced(t: string)
    requires !EndsWith(t, FenceClose)
    ensures CleanResponse(FenceOpen + t) == Trim(t)
  {
    var raw := FenceOpen + t;
    assert raw[..|FenceOpen|] == FenceOpen;
    assert raw[|FenceOpen|..] == t;
  }

  /** Prefixing an opening fence keeps a text unclosed and trimmed. */
  lemma OpenFencedShape(body: string)
    requires body != [] && Trimmed(body) && !EndsWith(body, FenceClose)
    ensures !EndsWith(FenceOpen + body, FenceClose)
    ensures Trimmed(FenceOpen + body)
  {
    var t := FenceOpen + body;
    if |body| >= |FenceClose| {
      assert t[|t| - |FenceClose|..] == body[|body| - |FenceClose|..];
    } else {
      assert t[|t| - |FenceClose|] == FenceOpen[|FenceOpen| + |body| - |FenceClose|];
    }
    assert t[0] == FenceOpen[0];
    assert t[|t| - 1] == body[|body| - 1];
  }

  /** An opening fence before clean text is all that is removed. */
  lemma CleanOpenFencedClean(t: string)
    requires !EndsWith(t, FenceClose) && Trimmed(t)
    ensures CleanResponse(FenceOpen + t) == t
  {
    CleanOpenFenced(t);
    TrimTrimmed(t);
  }

  /** A doubly fenced reply loses only its first opening fence. */
  lemma CleanDoubleFenced(body: string)
    requires body != [] && Trimmed(body) && !EndsWith(body, FenceClose)
    ensures CleanResponse(FenceOpen + FenceOpen + body) == FenceOpen + body
  {
    var t := FenceOpen + body;
    assert FenceOpen + FenceOpen + body == FenceOpen + t;
    OpenFencedShape(body);
    CleanOpenFencedClean(t);
  }

  /** Cleaning is not idempotent in general: a doubly fenced reply (for
      instance "```svg\n```svg\nA") loses one opening fence per pass. */
  lemma CleanNotIdempotent(body: string)
    requires body != [] && Trimmed(body) && !EndsWith(body, FenceClose)
    ensures CleanResponse(CleanResponse(FenceOpen + FenceOpen + body)) == body
    ensures CleanResponse(CleanResponse(FenceOpen + FenceOpen + body))
            != CleanResponse(FenceOpen + FenceOpen + body)
  {
    CleanDoubleFenced(body);
    CleanOpenFencedClean(body);
  }
}
