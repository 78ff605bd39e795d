/**
 * String helpers of Go's `strings` package that the core relies on:
 * `TrimSpace`, `Join`, `ReplaceAll` of one character and `EqualFold`.
 */
module Text {

  /** ASCII Unit Separator, the delimiter of the checksum payload. */
  const UnitSeparator: char := '\U{1F}'

  /** White space as Go's `unicode.IsSpace` classifies it (the Unicode White_Space property). */
  predicate IsSpace(c: char) {
    || ('\t' <= c <= '\r')
    || c == ' '
    || c == '\U{85}'
    || c == '\U{A0}'
    || c == '\U{1680}'
    || ('\U{2000}' <= c <= '\U{200A}')
    || c == '\U{2028}'
    || c == '\U{2029}'
    || c == '\U{202F}'
    || c == '\U{205F}'
    || c == '\U{3000}'
  }

  predicate AllSpace(s: string) {
    forall i :: 0 <= i < |s| ==> IsSpace(s[i])
  }

  /** The separator does not occur in `s`. */
  predicate SeparatorFree(s: string) {
    UnitSeparator !in s
  }

  /** Drops the leading white space: the result is the suffix after the longest all-space prefix. */
  function TrimLeft(s: string): (r: string)
    ensures |r| <= |s| && r == s[|s| - |r|..]
    ensures |r| > 0 ==> !IsSpace(r[0])
  {
    if |s| > 0 && IsSpace(s[0]) then TrimLeft(s[1..]) else s
  }

  /** Drops the trailing white space: the result is the prefix before the longest all-space suffix. */
  function TrimRight(s: string): (r: string)
    ensures |r| <= |s| && r == s[..|r|]
    ensures |r| > 0 ==> !IsSpace(r[|r| - 1])
  {
    if |s| > 0 && IsSpace(s[|s| - 1]) then TrimRight(s[..|s| - 1]) else s
  }

  /** What `TrimLeft` drops is all white space. */
  lemma {:induction false} TrimLeftDropsSpace(s: string)
    ensures AllSpace(s[..|s| - |TrimLeft(s)|])
  {
    if |s| > 0 && IsSpace(s[0]) {
      TrimLeftDropsSpace(s[1..]);
      var n := |s[1..]| - |TrimLeft(s[1..])|;
      var dropped := s[..n + 1];
      var rest := s[1..][..n];
      forall i | 0 <= i < |dropped|
        ensures IsSpace(dropped[i])
      {
        if i > 0 {
          assert dropped[i] == rest[i - 1];
        }
      }
    }
  }

  /** What `TrimRight` drops is all white space. */
  lemma {:induction false} TrimRightDropsSpace(s: string)
    ensures AllSpace(s[|TrimRight(s)|..])
  {
    if |s| > 0 && IsSpace(s[|s| - 1]) {
      var t := s[..|s| - 1];
      TrimRightDropsSpace(t);
      var m := |TrimRight(t)|;
      forall i | 0 <= i < |s| - m
        ensures IsSpace(s[m..][i])
      {
        if i < |t| - m {
          assert s[m..][i] == t[m..][i];
        }
      }
    }
  }

  lemma BlankWithoutLeadingSpace(s: string)
    requires AllSpace(s) && (|s| > 0 ==> !IsSpace(s[0]))
    ensures |s| == 0
  {
  }

  /** Trimming both ends leaves nothing exactly when the string is all white space. */
  lemma TrimBothBlank(s: string)
    ensures TrimRight(TrimLeft(s)) == [] <==> AllSpace(s)
  {
    var l := TrimLeft(s);
    var k := |s| - |l|;
    if TrimRight(l) == [] {
      TrimLeftDropsSpace(s);
      TrimRightDropsSpace(l);
      assert l[0..] == l;
      BlankWithoutLeadingSpace(l);
      assert s[..k] == s;
    } else {
      assert !IsSpace(s[k]);
    }
  }

  /** Trimming both ends keeps a contiguous slice of `s`, starting where `TrimLeft` stopped. */
  lemma {:induction false} TrimBothSlice(s: string)
    ensures var k := |s| - |TrimLeft(s)|; var r := TrimRight(TrimLeft(s));
      k + |r| <= |s| && r == s[k..k + |r|]
  {
    if |s| > 0 && IsSpace(s[0]) {
      TrimBothSlice(s[1..]);
      var k := |s[1..]| - |TrimLeft(s[1..])|;
      var n := |TrimRight(TrimLeft(s[1..]))|;
      SliceOfTail(s, k, n);
    } else {
      var r := TrimRight(s);
      assert r == s[..|r|];
    }
  }

  /** Slicing the tail of `s` is slicing `s` one position further on. */
  lemma SliceOfTail(s: string, k: nat, n: nat)
    requires 1 + k + n <= |s|
    ensures s[1..][k..k + n] == s[k + 1..k + 1 + n]
  {
  }

  /** Go's `strings.TrimSpace`. */
  function TrimSpace(s: string): (r: string)
    ensures |r| > 0 ==> !IsSpace(r[0]) && !IsSpace(r[|r| - 1])
    ensures |s| - |TrimLeft(s)| + |r| <= |s|
    ensures r == s[|s| - |TrimLeft(s)|..|s| - |TrimLeft(s)| + |r|]
    ensures r == [] <==> AllSpace(s)
  {
    TrimBothBlank(s);
    TrimBothSlice(s);
    TrimRight(TrimLeft(s))
  }

  lemma {:induction false} TrimLeftSpacePrefix(p: string, s: string)
    requires AllSpace(p)
    ensures TrimLeft(p + s) == TrimLeft(s)
    decreases |p|
  {
    if |p| > 0 {
      assert (p + s)[1..] == p[1..] + s;
      TrimLeftSpacePrefix(p[1..], s);
    } else {
      assert p + s == s;
    }
  }

  lemma {:induction false} TrimRightSpaceSuffix(s: string, q: string)
    requires AllSpace(q)
    ensures TrimRight(s + q) == TrimRight(s)
    decreases |q|
  {
    if |q| > 0 {
      assert (s + q)[..|s + q| - 1] == s + q[..|q| - 1];
      TrimRightSpaceSuffix(s, q[..|q| - 1]);
    } else {
      assert s + q == s;
    }
  }

  /** Trimming the left of `s + q` either keeps all of `q` or, when `s` is blank, trims into `q`. */
  lemma {:induction false} TrimLeftAppend(s: string, q: string)
    requires AllSpace(q)
    ensures TrimRight(TrimLeft(s + q)) == TrimRight(TrimLeft(s))
    decreases |s|
  {
    if |s| == 0 {
      assert s + q == q + [];
      TrimLeftSpacePrefix(q, []);
    } else if IsSpace(s[0]) {
      assert (s + q)[1..] == s[1..] + q;
      TrimLeftAppend(s[1..], q);
    } else {
      assert TrimLeft(s + q) == s + q;
      TrimRightSpaceSuffix(s, q);
    }
  }

  /** Surrounding white space never changes what `TrimSpace` keeps. */
  lemma TrimSpacePadding(p: string, s: string, q: string)
    requires AllSpace(p) && AllSpace(q)
    ensures TrimSpace(p + s + q) == TrimSpace(s)
  {
    assert p + s + q == p + (s + q);
    TrimLeftSpacePrefix(p, s + q);
    TrimLeftAppend(s, q);
  }

  /** Trimming twice is trimming once. */
  lemma TrimSpaceIdempotent(s: string)
    ensures TrimSpace(TrimSpace(s)) == TrimSpace(s)
  {
    var r := TrimSpace(s);
    if |r| > 0 {
      assert TrimLeft(r) == r;
      assert TrimRight(r) == r;
    }
  }

  /** A separator-free string stays separator-free when trimmed. */
  lemma TrimSpaceSeparatorFree(s: string)
    requires SeparatorFree(s)
    ensures SeparatorFree(TrimSpace(s))
  {
    var r := TrimSpace(s);
    var k := |s| - |TrimLeft(s)|;
    forall i | 0 <= i < |r|
      ensures r[i] != UnitSeparator
    {
      assert r[i] == s[k + i];
    }
  }

  /** Go's `strings.Join(parts, string(sep))`. */
  function Join(parts: seq<string>, sep: char): string
    decreases |parts|
  {
    if |parts| == 0 then ""
    else if |parts| == 1 then parts[0]
    else parts[0] + [sep] + Join(parts[1..], sep)
  }

  /** Where the first part ends and what follows it in the joined string. */
  lemma JoinHead(parts: seq<string>, sep: char)
    requires |parts| > 0
    requires forall i :: 0 <= i < |parts| ==> sep !in parts[i]
    ensures var j := Join(parts, sep);
      && |parts[0]| <= |j|
      && j[..|parts[0]|] == parts[0]
      && (sep in j <==> |parts| > 1)
      && (|parts| == 1 ==> j == parts[0])
      && (|parts| > 1 ==> |parts[0]| < |j| && j[|parts[0]|] == sep
                          && j[|parts[0]| + 1..] == Join(parts[1..], sep))
  {
    var j := Join(parts, sep);
    if |parts| > 1 {
      assert j[|parts[0]|] == sep;
    }
  }

  /**
   * Joining with a separator that occurs in no part is injective: the
   * joined string determines the parts.
   */
  lemma {:induction false} JoinInjective(xs: seq<string>, ys: seq<string>, sep: char)
    requires |xs| > 0 && |ys| > 0
    requires forall i :: 0 <= i < |xs| ==> sep !in xs[i]
    requires forall i :: 0 <= i < |ys| ==> sep !in ys[i]
    requires Join(xs, sep) == Join(ys, sep)
    ensures xs == ys
    decreases |xs|
  {
    var j := Join(xs, sep);
    JoinHead(xs, sep);
    JoinHead(ys, sep);
    var a, b := xs[0], ys[0];
    assert |xs| == 1 <==> |ys| == 1;
    if |xs| > 1 {
      // both heads end at the first separator of the joined string
      assert forall k :: 0 <= k < |a| ==> j[k] == a[k];
      assert forall k :: 0 <= k < |b| ==> j[k] == b[k];
      assert |a| == |b|;
      assert a == b;
      forall i | 0 <= i < |xs| - 1
        ensures sep !in xs[1..][i]
      {
        assert xs[1..][i] == xs[i + 1];
      }
      forall i | 0 <= i < |ys| - 1
        ensures sep !in ys[1..][i]
      {
        assert ys[1..][i] == ys[i + 1];
      }
      JoinInjective(xs[1..], ys[1..], sep);
      assert xs == [a] + xs[1..] && ys == [b] + ys[1..];
    }
  }

  /** Go's `strings.ReplaceAll(s, string(old), string(new))` for single characters. */
  function ReplaceChar(s: string, from: char, to: char): (r: string)
    ensures |r| == |s|
    ensures forall i :: 0 <= i < |s| ==> r[i] == (if s[i] == from then to else s[i])
    ensures from != to ==> from !in r
  {
    if |s| == 0 then "" else [if s[0] == from then to else s[0]] + ReplaceChar(s[1..], from, to)
  }

  /** ASCII lower-casing of one character. */
  function FoldCase(c: char): char {
    if 'A' <= c <= 'Z' then (c as int + 32) as char else c
  }

  /** Case-insensitive equality under ASCII case folding (Go's `strings.EqualFold`). */
  predicate EqualFold(a: string, b: string) {
    |a| == |b| && forall i :: 0 <= i < |a| ==> FoldCase(a[i]) == FoldCase(b[i])
  }

  predicate EndsWith(s: string, suffix: string) {
    |suffix| <= |s| && s[|s| - |suffix|..] == suffix
  }
}
