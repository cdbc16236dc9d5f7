/** Seeding the logo name from an uploaded file's name (App.tsx): the name
    is split on '.', the last piece dropped and the rest joined with '.',
    and a non-empty result replaces `logoName`. */
module Upload {
  import opened Config

  /** String.prototype.split with a one-character separator: the maximal
      separator-free pieces, at least one, possibly empty. */
  function Split(s: string, sep: char): (parts: seq<string>)
    ensures |parts| >= 1
    ensures sep !in s ==> parts == [s]
    ensures sep in s ==> |parts| >= 2
    ensures forall k :: 0 <= k < |parts| ==> sep !in parts[k]
    decreases |s|
  {
    if |s| == 0 then [""]
    else
      var rest := Split(s[1..], sep);
      assert s == [s[0]] + s[1..];
      if s[0] == sep then [""] + rest
      else [[s[0]] + rest[0]] + rest[1..]
  }

  /** Splitting at the first separator: the text before it is the first
      piece, and the rest is split on its own. */
  lemma {:induction false} SplitAtFirst(a: string, b: string, sep: char)
    requires sep !in a
    ensures Split(a + [sep] + b, sep) == [a] + Split(b, sep)
    decreases |a|
  {
    var s := a + [sep] + b;
    if |a| == 0 {
      assert s[1..] == b;
    } else {
      assert s[1..] == a[1..] + [sep] + b;
      SplitAtFirst(a[1..], b, sep);
      assert [s[0]] + a[1..] == a;
    }
  }

  /** No piece holds the separator. */
  predicate SeparatorFree(parts: seq<string>, sep: char) {
    forall k :: 0 <= k < |parts| ==> sep !in parts[k]
  }

  /** Array.prototype.join: the pieces with the separator between them.
      When no piece holds the separator, it appears in the result exactly
      when there are at least two pieces. */
  function Join(parts: seq<string>, sep: char): (r: string)
    ensures SeparatorFree(parts, sep) ==> (sep in r <==> |parts| >= 2)
    decreases |parts|
  {
    if |parts| == 0 then ""
    else if |parts| == 1 then parts[0]
    else
      var rest := Join(parts[1..], sep);
      assert sep in parts[0] + [sep] + rest by {
        assert (parts[0] + [sep] + rest)[|parts[0]|] == sep;
      }
      parts[0] + [sep] + rest
  }

  /** Splitting undoes joining when no piece holds the separator. */
  lemma {:induction false} SplitJoin(parts: seq<string>, sep: char)
    requires |parts| > 0 && SeparatorFree(parts, sep)
    ensures Split(Join(parts, sep), sep) == parts
    decreases |parts|
  {
    if |parts| >= 2 {
      var rest := Join(parts[1..], sep);
      SplitJoin(parts[1..], sep);
      SplitAtFirst(parts[0], rest, sep);
      assert parts == [parts[0]] + parts[1..];
    }
  }

  lemma {:induction false} JoinSnoc(parts: seq<string>, x: string, sep: char)
    requires |parts| >= 1
    ensures Join(parts + [x], sep) == Join(parts, sep) + [sep] + x
    decreases |parts|
  {
    if |parts| == 1 {
      assert parts + [x] == [parts[0], x];
      assert [x][1..] == [];
    } else {
      assert (parts + [x])[1..] == parts[1..] + [x];
      JoinSnoc(parts[1..], x, sep);
    }
  }

  /** Joining the pieces of a split gives the original text back. */
  lemma {:induction false} JoinSplit(s: string, sep: char)
    ensures Join(Split(s, sep), sep) == s
    decreases |s|
  {
    if |s| > 0 {
      var rest := Split(s[1..], sep);
      JoinSplit(s[1..], sep);
      if s[0] == sep {
        assert ([""] + rest)[1..] == rest;
        assert s == [sep] + s[1..];
      } else if |rest| == 1 {
        assert s == [s[0]] + rest[0];
      } else {
        var parts := [[s[0]] + rest[0]] + rest[1..];
        assert parts[1..] == rest[1..];
        assert Join(rest, sep) == rest[0] + [sep] + Join(rest[1..], sep);
        assert s == [s[0]] + s[1..];
      }
    }
  }

  /** `name.split('.').slice(0, -1).join('.')`: empty when the name has no
      dot, otherwise the text before the last dot. */
  function BaseName(name: string): (base: string)
    ensures '.' !in name ==> base == ""
    ensures '.' in name ==> |base| < |name| && name[..|base|] == base
                            && name[|base|] == '.' && '.' !in name[|base| + 1..]
  {
    var parts := Split(name, '.');
    var base := Join(parts[..|parts| - 1], '.');
    var ext := parts[|parts| - 1];
    JoinSplit(name, '.');
    assert '.' in name ==> name == base + "." + ext by {
      if '.' in name {
        assert parts == parts[..|parts| - 1] + [ext];
        JoinSnoc(parts[..|parts| - 1], ext, '.');
      }
    }
    assert '.' in name ==> name[|base| + 1..] == ext;
    base
  }

  /** The base name is empty when the name has no dot; otherwise it is the
      text before the last dot, and base + "." + extension is the name. */
  lemma BaseNameBeforeLastDot(name: string) returns (ext: string)
    ensures '.' !in name ==> BaseName(name) == ""
    ensures '.' in name ==> '.' !in ext && name == BaseName(name) + "." + ext
  {
    var parts := Split(name, '.');
    ext := parts[|parts| - 1];
    JoinSplit(name, '.');
    if '.' in name {
      assert parts == parts[..|parts| - 1] + [ext];
      JoinSnoc(parts[..|parts| - 1], ext, '.');
    }
  }

  /** A name with exactly one dot loses the dot and what follows it. */
  lemma BaseNameOneDot(stem: string, ext: string)
    requires '.' !in stem && '.' !in ext
    ensures BaseName(stem + "." + ext) == stem
  {
    SplitAtFirst(stem, ext, '.');
    var parts := Split(stem + "." + ext, '.');
    assert parts[..1] == [stem];
  }

  /** Worked examples of the base-name rule. */
  lemma BaseNameOfBrandLogo()
    ensures BaseName("brand-logo.png") == "brand-logo"
  {
    BaseNameOneDot("brand-logo", "png");
    assert "brand-logo" + "." + "png" == "brand-logo.png";
  }

  lemma BaseNameOfDotFile()
    ensures BaseName(".png") == ""
  {
    BaseNameOneDot("", "png");
    assert "" + "." + "png" == ".png";
  }

  lemma BaseNameWithoutDot()
    ensures BaseName("noext") == ""
  {
  }

  lemma BaseNameOfTwoDots()
    ensures BaseName("a.b.png") == "a.b"
  {
    SplitTwoDots();
    var parts := Split("a.b.png", '.');
    assert parts[..2] == ["a", "b"];
    JoinTwo("a", "b", '.');
  }

  lemma SplitTwoDots()
    ensures Split("a.b.png", '.') == ["a", "b", "png"]
  {
    BaseNameSplitTail();
    SplitAtFirst("a", "b.png", '.');
    assert "a" + "." + "b.png" == "a.b.png";
  }

  lemma BaseNameSplitTail()
    ensures Split("b.png", '.') == ["b", "png"]
  {
    SplitAtFirst("b", "png", '.');
    assert "b" + "." + "png" == "b.png";
  }

  lemma JoinTwo(a: string, b: string, sep: char)
    ensures Join([a, b], sep) == a + [sep] + b
  {
    assert [a, b][1..] == [b];
  }

  /** The upload handler's effect on the configuration: only a non-empty
      base name is written, and only into `logoName`. */
  function SeedLogoName(c: AnimationConfig, fileName: string): (r: AnimationConfig)
    ensures BaseName(fileName) != "" ==> r == c.(logoName := BaseName(fileName))
    ensures BaseName(fileName) == "" ==> r == c
  {
    var base := BaseName(fileName);
    if base != "" then c.(logoName := base) else c
  }

  /** Uploading "brand-logo.png" names the logo "brand-logo"; uploading a
      file without an extension leaves the name as it was. */
  lemma SeedLogoNameExamples(c: AnimationConfig)
    ensures SeedLogoName(c, "brand-logo.png").logoName == "brand-logo"
    ensures SeedLogoName(c, "noext") == c
    ensures Valid(c) ==> Valid(SeedLogoName(c, "brand-logo.png"))
  {
    BaseNameOfBrandLogo();
    BaseNameWithoutDot();
  }
}
