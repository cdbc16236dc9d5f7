/** The export panel (components/ExportOptions.tsx): the file download, and
    the React snippet that embeds the SVG in a template literal after
    escaping its backticks. */
module Export {
  import opened Text

  const Backtick: char := '`'
  const Backslash: char := '\\'

  /** Number of occurrences of `c` in `s`. */
  function Count(s: string, c: char): (n: nat)
    ensures n <= |s|
    ensures n == 0 <==> c !in s
  {
    if |s| == 0 then 0 else (if s[0] == c then 1 else 0) + Count(s[1..], c)
  }

  /** Every backtick is immediately preceded by a backslash. */
  predicate BackticksEscaped(r: string) {
    forall i :: 0 <= i < |r| && r[i] == Backtick ==> 0 < i && r[i - 1] == Backslash
  }

  /** `svgCode.replace(/`/g, '\\`')`: each backtick becomes backslash,
      backtick. */
  function Escape(s: string): (r: string)
    ensures |r| == |s| + Count(s, Backtick)
    ensures BackticksEscaped(r)
    ensures r == [] || r[0] != Backtick
    ensures Backtick !in s ==> r == s
  {
    if |s| == 0 then ""
    else
      var head := if s[0] == Backtick then [Backslash, Backtick] else [s[0]];
      var tail := Escape(s[1..]);
      assert forall i :: 0 <= i < |tail| ==> (head + tail)[|head| + i] == tail[i];
      assert Backtick !in s ==> s == [s[0]] + s[1..];
      head + tail
  }

  /** Reading left to right, a backslash followed by a backtick stands for
      the backtick; every other character stands for itself. */
  function Unescape(s: string): string
    decreases |s|
  {
    if |s| == 0 then ""
    else if |s| >= 2 && s[0] == Backslash && s[1] == Backtick then [Backtick] + Unescape(s[2..])
    else [s[0]] + Unescape(s[1..])
  }

  /** Unescaping undoes escaping, for every string. */
  lemma {:induction false} UnescapeEscape(s: string)
    ensures Unescape(Escape(s)) == s
    decreases |s|
  {
    if |s| > 0 {
      var tail := Escape(s[1..]);
      UnescapeEscape(s[1..]);
      if s[0] == Backtick {
        assert Escape(s) == [Backslash, Backtick] + tail;
        assert Escape(s)[2..] == tail;
      } else {
        assert Escape(s) == [s[0]] + tail;
        assert Escape(s)[1..] == tail;
        // A backslash in the input is never taken for an escape: the escaped
        // remainder never starts with a backtick.
        assert |Escape(s)| >= 2 ==> Escape(s)[1] != Backtick;
      }
      assert s == [s[0]] + s[1..];
    }
  }

  const ImportLine: string := "import React from 'react';"
  const ComponentLine: string := "const AnimatedSplash = () => ("
  const DivOpenLine: string := "  <div dangerouslySetInnerHTML={{ __html: `"
  const DivCloseLine: string := "  `}} />"
  const ExportLine: string := "export default AnimatedSplash;"

  /** The fixed text before and after the escaped markup, with the
      template's own surrounding whitespace removed. */
  const SnippetHead: string := ImportLine + "\n\n" + ComponentLine + "\n" + DivOpenLine + "\n    "
  const SnippetTail: string := "\n" + DivCloseLine + "\n);\n\n" + ExportLine

  /** The snippet as the template literal produces it, before `.trim()`. */
  function RawSnippet(svgCode: string): string {
    "\n" + (SnippetHead + Escape(svgCode) + SnippetTail) + "\n  "
  }

  /** `reactCode`: trimming removes exactly the template's leading newline
      and trailing indentation, so the snippet is the head, the escaped
      markup and the tail, and the markup can be read back out of it. */
  function ReactSnippet(svgCode: string): (r: string)
    ensures r == SnippetHead + Escape(svgCode) + SnippetTail
    ensures Unescape(r[|SnippetHead|..|r| - |SnippetTail|]) == svgCode
  {
    SnippetEnds();
    TrimFramed("\n", SnippetHead, Escape(svgCode), SnippetTail, "\n  ");
    var r := Trim(RawSnippet(svgCode));
    assert r[|SnippetHead|..|r| - |SnippetTail|] == Escape(svgCode);
    UnescapeEscape(svgCode);
    r
  }

  lemma SnippetEnds()
    ensures SnippetHead != [] && !IsSpace(SnippetHead[0])
    ensures SnippetTail != [] && !IsSpace(SnippetTail[|SnippetTail| - 1])
    ensures StartsWith(SnippetHead, ImportLine)
    ensures EndsWith(SnippetTail, ExportLine)
  {
    assert SnippetHead[..|ImportLine|] == ImportLine;
    assert SnippetTail[|SnippetTail| - |ExportLine|..] == ExportLine;
  }

  lemma SnippetHeadOpensDiv()
    ensures IsInfix(DivOpenLine, SnippetHead)
  {
    InfixOfConcat(ImportLine + "\n\n" + ComponentLine + "\n", DivOpenLine, "\n    ");
  }

  /** The snippet starts with the React import, embeds the escaped markup
      and ends with the default export. */
  lemma ReactSnippetContents(svgCode: string)
    ensures StartsWith(ReactSnippet(svgCode), ImportLine)
    ensures IsInfix(Escape(svgCode), ReactSnippet(svgCode))
    ensures EndsWith(ReactSnippet(svgCode), ExportLine)
    ensures IsInfix(DivOpenLine, ReactSnippet(svgCode))
  {
    var r := ReactSnippet(svgCode);
    SnippetEnds();
    Framed(SnippetHead, Escape(svgCode), SnippetTail);
    StartsWithTransitive(r, SnippetHead, ImportLine);
    EndsWithTransitive(r, SnippetTail, ExportLine);
    SnippetHeadOpensDiv();
    PrefixIsInfix(r, SnippetHead);
    InfixTransitive(DivOpenLine, SnippetHead, r);
  }

  const DownloadFileName: string := "splash-animation.svg"
  const SvgMimeType: string := "image/svg+xml"

  /** The file the download button saves. */
  datatype Download = Download(fileName: string, mimeType: string, content: string)

  /** The download carries the markup unmodified under a fixed name and the
      SVG media type. */
  function DownloadOf(svgCode: string): (d: Download)
    ensures d.content == svgCode
    ensures d.fileName == DownloadFileName && d.mimeType == SvgMimeType
  {
    Download(DownloadFileName, SvgMimeType, svgCode)
  }
}
