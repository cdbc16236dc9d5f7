/** String helpers shared by the model: ASCII whitespace trimming with the
    semantics of String.prototype.trim restricted to ASCII, prefix/suffix
    tests, and the "occurs as a substring" relation used to state what a
    built string contains. */
module Text {

  /** The ASCII characters String.prototype.trim removes: space, tab, line
      feed, vertical tab, form feed and carriage return. */
  predicate IsSpace(c: char) {
    c == ' ' || c == '\t' || c == '\n' || c == '\U{0B}' || c == '\U{0C}' || c == '\r'
  }

  predicate AllSpace(s: string) {
    forall k :: 0 <= k < |s| ==> IsSpace(s[k])
  }

  /** A string with no whitespace at either end. */
  predicate Trimmed(s: string) {
    s == [] || (!IsSpace(s[0]) && !IsSpace(s[|s| - 1]))
  }

  predicate StartsWith(s: string, p: string) {
    |p| <= |s| && s[..|p|] == p
  }

  predicate EndsWith(s: string, q: string) {
    |q| <= |s| && s[|s| - |q|..] == q
  }

  /** `t` occurs in `s` as a contiguous substring. */
  predicate IsInfix(t: string, s: string) {
    exists i :: 0 <= i <= |s| && StartsWith(s[i..], t)
  }

  /** The number of whitespace characters at the start of `s`. */
  function LeadingSpaces(s: string): (n: nat)
    ensures n <= |s|
    ensures forall k :: 0 <= k < n ==> IsSpace(s[k])
    ensures n < |s| ==> !IsSpace(s[n])
    decreases |s|
  {
    if |s| > 0 && IsSpace(s[0]) then 1 + LeadingSpaces(s[1..]) else 0
  }

  /** The number of whitespace characters at the end of `s`. */
  function TrailingSpaces(s: string): (n: nat)
    ensures n <= |s|
    ensures forall k :: |s| - n <= k < |s| ==> IsSpace(s[k])
    ensures n < |s| ==> !IsSpace(s[|s| - 1 - n])
    decreases |s|
  {
    if |s| > 0 && IsSpace(s[|s| - 1]) then 1 + TrailingSpaces(s[..|s| - 1]) else 0
  }

  /** Removes leading whitespace. */
  function TrimStart(s: string): (r: string)
    ensures |r| <= |s| && r == s[|s| - |r|..]
    ensures AllSpace(s[..|s| - |r|])
    ensures r == [] || !IsSpace(r[0])
  {
    s[LeadingSpaces(s)..]
  }

  /** Removes trailing whitespace. */
  function TrimEnd(s: string): (r: string)
    ensures |r| <= |s| && r == s[..|r|]
    ensures AllSpace(s[|r|..])
    ensures r == [] || !IsSpace(r[|r| - 1])
  {
    s[..|s| - TrailingSpaces(s)]
  }

  /** String.prototype.trim over the ASCII whitespace set. */
  function Trim(s: string): (r: string)
    ensures Trimmed(r)
    ensures |r| <= |s|
  {
    TrimEnd(TrimStart(s))
  }

  /** Trim keeps a contiguous piece of its input and drops only whitespace
      around it. */
  lemma TrimIsInfix(s: string) returns (i: nat)
    ensures i + |Trim(s)| <= |s|
    ensures s[i..i + |Trim(s)|] == Trim(s)
    ensures AllSpace(s[..i]) && AllSpace(s[i + |Trim(s)|..])
  {
    var t := TrimStart(s);
    var r := TrimEnd(t);
    i := |s| - |t|;
    assert t == s[i..];
    assert r == t[..|r|];
    assert s[i..i + |r|] == t[..|r|];
    assert s[i + |r|..] == t[|r|..];
  }

  /** A string that is already trimmed is left unchanged. */
  lemma TrimTrimmed(s: string)
    requires Trimmed(s)
    ensures Trim(s) == s
  {
  }

  /** Leading whitespace followed by a non-space is exactly what
      TrimStart removes. */
  lemma TrimStartPadded(a: string, x: string)
    requires AllSpace(a)
    requires x == [] || !IsSpace(x[0])
    ensures TrimStart(a + x) == x
  {
    var s := a + x;
    assert s[|a|..] == x;
  }

  /** Trailing whitespace after a non-space is exactly what TrimEnd
      removes. */
  lemma TrimEndPadded(x: string, b: string)
    requires AllSpace(b)
    requires x == [] || !IsSpace(x[|x| - 1])
    ensures TrimEnd(x + b) == x
  {
    var s := x + b;
    assert s[..|x|] == x;
  }

  /** Whitespace wrapped around a trimmed string is exactly what Trim
      removes; whitespace alone trims to the empty string. */
  lemma TrimPadded(a: string, x: string, b: string)
    requires AllSpace(a) && AllSpace(b)
    requires Trimmed(x)
    ensures Trim(a + x + b) == x
  {
    if x == [] {
      var s := a + b;
      assert a + x + b == s;
      assert AllSpace(s);
    } else {
      assert a + x + b == a + (x + b);
      TrimStartPadded(a, x + b);
      TrimEndPadded(x, b);
    }
  }

  /** A string framed by a head and a tail starts with the head, ends with
      the tail and contains what is between them. */
  lemma Framed(h: string, m: string, t: string)
    ensures StartsWith(h + m + t, h)
    ensures EndsWith(h + m + t, t)
    ensures IsInfix(m, h + m + t)
  {
    var s := h + m + t;
    assert s[..|h|] == h;
    assert s[|s| - |t|..] == t;
    InfixOfConcat(h, m, t);
  }

  lemma StartsWithTransitive(s: string, p: string, q: string)
    requires StartsWith(s, p) && StartsWith(p, q)
    ensures StartsWith(s, q)
  {
    assert s[..|q|] == p[..|q|];
  }

  lemma EndsWithTransitive(s: string, p: string, q: string)
    requires EndsWith(s, p) && EndsWith(p, q)
    ensures EndsWith(s, q)
  {
    assert s[|s| - |q|..] == p[|p| - |q|..];
  }

  /** Whitespace around a framed string whose ends are not whitespace is
      exactly what Trim removes. */
  lemma TrimFramed(a: string, h: string, m: string, t: string, b: string)
    requires AllSpace(a) && AllSpace(b)
    requires h != [] && !IsSpace(h[0])
    requires t != [] && !IsSpace(t[|t| - 1])
    ensures Trim(a + (h + m + t) + b) == h + m + t
  {
    var x := h + m + t;
    assert x[0] == h[0];
    assert x[|x| - 1] == t[|t| - 1];
    TrimPadded(a, x, b);
  }

  /** An occurrence at a known offset. */
  lemma InfixAt(t: string, s: string, i: nat)
    requires i + |t| <= |s| && s[i..i + |t|] == t
    ensures IsInfix(t, s)
  {
    assert StartsWith(s[i..], t);
  }

  lemma InfixOfConcat(a: string, t: string, b: string)
    ensures IsInfix(t, a + t + b)
  {
    assert (a + t + b)[|a|..|a| + |t|] == t;
    InfixAt(t, a + t + b, |a|);
  }

  lemma InfixOfSelf(t: string)
    ensures IsInfix(t, t)
  {
    InfixOfConcat([], t, []);
    assert [] + t + [] == t;
  }

  /** The substring relation is transitive. */
  lemma InfixTransitive(t: string, u: string, s: string)
    requires IsInfix(t, u) && IsInfix(u, s)
    ensures IsInfix(t, s)
  {
    var i :| 0 <= i <= |u| && StartsWith(u[i..], t);
    var j :| 0 <= j <= |s| && StartsWith(s[j..], u);
    assert u[i..i + |t|] == t by {
      assert u[i..][..|t|] == u[i..i + |t|];
    }
    assert s[j..j + |u|] == u by {
      assert s[j..][..|u|] == s[j..j + |u|];
    }
    assert s[j + i..j + i + |t|] == t by {
      forall k | 0 <= k < |t|
        ensures s[j + i..j + i + |t|][k] == t[k]
      {
        assert s[j + i + k] == s[j..j + |u|][i + k];
        assert t[k] == u[i..i + |t|][k];
      }
    }
    InfixAt(t, s, j + i);
  }

  /** A prefix occurs at offset zero. */
  lemma PrefixIsInfix(s: string, t: string)
    requires StartsWith(s, t)
    ensures IsInfix(t, s)
  {
    assert s[0..] == s;
  }

  /** The tail of an occurring string occurs too. */
  lemma InfixOfSuffix(a: string, t: string, s: string)
    requires IsInfix(a + t, s)
    ensures IsInfix(t, s)
  {
    InfixOfConcat(a, t, []);
    assert a + t + [] == a + t;
    InfixTransitive(t, a + t, s);
  }

  /** Concatenation of a list of fragments, left to right. */
  function Concat(parts: seq<string>): (r: string)
    ensures |parts| > 0 ==> StartsWith(r, parts[0])
  {
    if |parts| == 0 then "" else parts[0] + Concat(parts[1..])
  }

  /** Concatenation distributes over joining two lists of fragments. */
  lemma {:induction false} ConcatAppend(a: seq<string>, b: seq<string>)
    ensures Concat(a + b) == Concat(a) + Concat(b)
    decreases |a|
  {
    if |a| > 0 {
      assert (a + b)[1..] == a[1..] + b;
      ConcatAppend(a[1..], b);
    } else {
      assert a + b == b;
    }
  }

  /** A concatenation ends with its last fragment. */
  lemma ConcatEndsWithLast(parts: seq<string>)
    requires |parts| > 0
    ensures EndsWith(Concat(parts), parts[|parts| - 1])
  {
    var last := parts[|parts| - 1];
    assert parts == parts[..|parts| - 1] + [last];
    ConcatAppend(parts[..|parts| - 1], [last]);
    assert Concat([last]) == last + Concat([]);
    var all := Concat(parts[..|parts| - 1]) + last;
    assert all[|all| - |last|..] == last;
  }

  /** Both halves of a join occur in it. */
  lemma InfixOfJoin(a: string, b: string)
    ensures IsInfix(a, a + b)
    ensures IsInfix(b, a + b)
  {
    InfixOfConcat([], a, b);
    assert [] + a + b == a + b;
    InfixOfConcat(a, b, []);
    assert a + b + [] == a + b;
  }

  /** Every fragment of a concatenation occurs in it. */
  lemma {:induction false} ConcatHasPart(parts: seq<string>, k: nat)
    requires k < |parts|
    ensures IsInfix(parts[k], Concat(parts))
    decreases k
  {
    var tail := Concat(parts[1..]);
    if k == 0 {
      InfixOfConcat([], parts[0], tail);
      assert [] + parts[0] + tail == Concat(parts);
    } else {
      ConcatHasPart(parts[1..], k - 1);
      InfixOfConcat(parts[0], tail, []);
      assert parts[0] + tail + [] == Concat(parts);
      InfixTransitive(parts[k], tail, Concat(parts));
    }
  }
}
