/** Character classes and string operations of the .NET base library that the
    campus-map scripts rely on, restated over `seq<char>`.

    Case-insensitive comparison (`StringComparison.OrdinalIgnoreCase`,
    `RegexOptions.IgnoreCase`, `ToLower`) folds ASCII letters only; `\b`, `\w`
    and `char.IsDigit` use ASCII letters, digits and `_`.  White space is the
    full set of `char.IsWhiteSpace`, which is also the set matched by the
    regular-expression class `\s`. */
module Strings {

  datatype Option<+T> = None | Some(value: T)

  /** `char.IsWhiteSpace`: U+0009..U+000D, U+0085 and the Unicode space,
      line and paragraph separators. */
  predicate IsWhiteSpace(c: char) {
    || ('\t' <= c <= '\r')
    || c == ' '
    || c == '\U{85}'
    || c == '\U{A0}'
    || c == '\U{1680}'
    || ('\U{2000}' <= c <= '\U{200A}')
    || c == '\U{2028}'
    || c == '\U{2029}'
    || c == '\U{202F}'
    || c == '\U{205F}'
    || c == '\U{3000}'
  }

  predicate IsDigit(c: char) { '0' <= c <= '9' }

  predicate IsLetter(c: char) { 'a' <= c <= 'z' || 'A' <= c <= 'Z' }

  /** A character of the regular-expression class `\w`. */
  predicate IsWordChar(c: char) { IsLetter(c) || IsDigit(c) || c == '_' }

  function ToLower(c: char): (r: char)
    ensures IsLetter(c) ==> 'a' <= r <= 'z'
    ensures !IsLetter(c) ==> r == c
    ensures IsWordChar(r) <==> IsWordChar(c)
    ensures IsWhiteSpace(r) <==> IsWhiteSpace(c)
  {
    if 'A' <= c <= 'Z' then (c as int - 'A' as int + 'a' as int) as char else c
  }

  /** The string with every ASCII letter lower-cased. */
  function Lower(s: string): (r: string)
    ensures |r| == |s|
    ensures forall i :: 0 <= i < |s| ==> r[i] == ToLower(s[i])
  {
    if s == [] then [] else [ToLower(s[0])] + Lower(s[1..])
  }

  predicate EqualsIgnoreCase(a: string, b: string) { Lower(a) == Lower(b) }

  /** `p` occurs in `s` at offset `i`, ignoring case. */
  predicate MatchesAt(s: string, p: string, i: nat) {
    i + |p| <= |s| && forall k :: 0 <= k < |p| ==> ToLower(s[i + k]) == ToLower(p[k])
  }

  predicate StartsWithIgnoreCase(s: string, p: string) { MatchesAt(s, p, 0) }

  /** An exact prefix is also a prefix when case is ignored. */
  lemma PrefixStartsWith(s: string, p: string)
    requires p <= s
    ensures StartsWithIgnoreCase(s, p)
  {
    forall k | 0 <= k < |p| ensures ToLower(s[k]) == ToLower(p[k]) {
      assert s[k] == p[k];
    }
  }

  predicate ContainsIgnoreCase(s: string, p: string) {
    exists i :: 0 <= i <= |s| && MatchesAt(s, p, i)
  }

  /** `IndexOf(p, OrdinalIgnoreCase)` searching from `from` on. */
  function IndexFrom(s: string, p: string, from: nat): (r: Option<nat>)
    ensures r.Some? ==> from <= r.value && MatchesAt(s, p, r.value)
    ensures r.Some? ==> forall j :: from <= j < r.value ==> !MatchesAt(s, p, j)
    ensures r.None? ==> forall j: nat :: from <= j ==> !MatchesAt(s, p, j)
    decreases |s| - from
  {
    if from + |p| > |s| then None
    else if MatchesAt(s, p, from) then Some(from)
    else IndexFrom(s, p, from + 1)
  }

  /** `s.IndexOf(p, StringComparison.OrdinalIgnoreCase)`, with `None` for -1. */
  function IndexOfIgnoreCase(s: string, p: string): (r: Option<nat>)
    ensures r.None? <==> !ContainsIgnoreCase(s, p)
    ensures r.Some? ==> MatchesAt(s, p, r.value)
    ensures r.Some? ==> forall j :: 0 <= j < r.value ==> !MatchesAt(s, p, j)
  {
    IndexFrom(s, p, 0)
  }

  /** An occurrence inside a slice is an occurrence in the whole string. */
  lemma MatchInSlice(s: string, a: nat, b: nat, p: string, i: nat)
    requires a <= b <= |s|
    requires MatchesAt(s[a..b], p, i)
    ensures MatchesAt(s, p, a + i)
  {
    forall k | 0 <= k < |p| ensures ToLower(s[a + i + k]) == ToLower(p[k]) {
      assert s[a..b][i + k] == s[a + i + k];
    }
  }

  lemma ContainsInSlice(s: string, a: nat, b: nat, p: string)
    requires a <= b <= |s|
    ensures ContainsIgnoreCase(s[a..b], p) ==> ContainsIgnoreCase(s, p)
  {
    if ContainsIgnoreCase(s[a..b], p) {
      var i :| 0 <= i <= b - a && MatchesAt(s[a..b], p, i);
      MatchInSlice(s, a, b, p, i);
    }
  }

  /** Text before the first occurrence of a marker does not contain it. */
  lemma BeforeFirstMatch(s: string, p: string, idx: nat)
    requires p != [] && IndexOfIgnoreCase(s, p) == Some(idx)
    ensures !ContainsIgnoreCase(s[..idx], p)
  {
    if ContainsIgnoreCase(s[..idx], p) {
      var j :| 0 <= j <= idx && MatchesAt(s[..idx], p, j);
      MatchInSlice(s, 0, idx, p, j);
      assert false;
    }
  }

  /** Neither the first nor the last character is white space. */
  predicate NoEdgeSpace(s: string) {
    s == [] || (!IsWhiteSpace(s[0]) && !IsWhiteSpace(s[|s| - 1]))
  }

  /** No two adjacent characters are both white space. */
  predicate NoDoubleSpace(s: string) {
    forall i :: 0 <= i < |s| - 1 ==> !SpacePairAt(s, i)
  }

  /** The characters at `i` and `i + 1` are both white space. */
  predicate SpacePairAt(s: string, i: nat)
    requires i + 1 < |s|
  {
    IsWhiteSpace(s[i]) && IsWhiteSpace(s[i + 1])
  }

  /** Putting `c` in front keeps `NoDoubleSpace` unless it makes a pair. */
  lemma ConsNoDoubleSpace(c: char, s: string)
    requires NoDoubleSpace(s) && (s == [] || !(IsWhiteSpace(c) && IsWhiteSpace(s[0])))
    ensures NoDoubleSpace([c] + s)
  {
    var t := [c] + s;
    forall i | 0 <= i < |t| - 1 ensures !SpacePairAt(t, i) {
      if i > 0 {
        assert !SpacePairAt(s, i - 1);
      }
    }
  }

  predicate AllWhiteSpace(s: string) {
    forall i :: 0 <= i < |s| ==> IsWhiteSpace(s[i])
  }

  /** `TrimStart()`: drops leading white space. */
  function TrimStart(s: string): (r: string)
    ensures |r| <= |s|
    ensures r == [] || !IsWhiteSpace(r[0])
  {
    if s != [] && IsWhiteSpace(s[0]) then TrimStart(s[1..]) else s
  }

  /** `TrimStart` keeps a suffix and drops only white space. */
  lemma {:induction false} TrimStartSuffix(s: string)
    ensures TrimStart(s) == s[|s| - |TrimStart(s)|..]
    ensures AllWhiteSpace(s[..|s| - |TrimStart(s)|])
    decreases |s|
  {
    if s != [] && IsWhiteSpace(s[0]) {
      TrimStartSuffix(s[1..]);
      var k := |s| - |TrimStart(s)|;
      assert s[..k] == [s[0]] + s[1..][..k - 1];
    }
  }

  /** `TrimEnd()`: drops trailing white space. */
  function TrimEnd(s: string): (r: string)
    ensures |r| <= |s|
    ensures r == [] || !IsWhiteSpace(r[|r| - 1])
  {
    if s != [] && IsWhiteSpace(s[|s| - 1]) then TrimEnd(s[..|s| - 1]) else s
  }

  /** `TrimEnd` keeps a prefix and drops only white space. */
  lemma {:induction false} TrimEndPrefix(s: string)
    ensures TrimEnd(s) == s[..|TrimEnd(s)|]
    ensures AllWhiteSpace(s[|TrimEnd(s)|..])
    decreases |s|
  {
    if s != [] && IsWhiteSpace(s[|s| - 1]) {
      TrimEndPrefix(s[..|s| - 1]);
      var r := TrimEnd(s);
      assert s[|r|..] == s[..|s| - 1][|r|..] + [s[|s| - 1]];
    }
  }

  /** Where `Trim(s)` starts inside `s`. */
  function TrimOffset(s: string): (k: nat)
    ensures k <= |s|
  {
    |s| - |TrimStart(s)|
  }

  /** `Trim()`: removes white space from both ends, and nothing else. */
  function Trim(s: string): (r: string)
    ensures NoEdgeSpace(r)
    ensures TrimOffset(s) + |r| <= |s| && r == s[TrimOffset(s)..TrimOffset(s) + |r|]
    ensures NoEdgeSpace(s) ==> r == s
  {
    var t := TrimStart(s);
    var r := TrimEnd(t);
    TrimStartSuffix(s);
    TrimEndPrefix(t);
    assert r != [] ==> r[0] == t[0];
    r
  }

  /** What `Trim` removes on either side is white space only. */
  lemma TrimDropsOnlyWhiteSpace(s: string)
    ensures AllWhiteSpace(s[..TrimOffset(s)]) && AllWhiteSpace(s[TrimOffset(s) + |Trim(s)|..])
  {
    var t := TrimStart(s);
    var r := TrimEnd(t);
    TrimStartSuffix(s);
    TrimEndPrefix(t);
    assert s[TrimOffset(s) + |r|..] == t[|r|..];
  }

  /** Trimming keeps every property that holds of all slices. */
  lemma TrimKeepsNoDoubleSpace(s: string)
    requires NoDoubleSpace(s)
    ensures NoDoubleSpace(Trim(s))
  {
    var r, k := Trim(s), TrimOffset(s);
    forall i | 0 <= i < |r| - 1 ensures !SpacePairAt(r, i) {
      assert r[i] == s[k + i] && r[i + 1] == s[k + i + 1];
      assert !SpacePairAt(s, k + i);
    }
  }

  lemma TrimKeepsNotContains(s: string, p: string)
    requires !ContainsIgnoreCase(s, p)
    ensures !ContainsIgnoreCase(Trim(s), p)
  {
    var k := TrimOffset(s);
    ContainsInSlice(s, k, k + |Trim(s)|, p);
  }

  /** `r` is the slice of `s` at `a`, and everything before and after it is
      white space: `s` is `r` padded with white space. */
  predicate PaddedAt(r: string, s: string, a: nat) {
    && a + |r| <= |s| && s[a..a + |r|] == r
    && AllWhiteSpace(s[..a]) && AllWhiteSpace(s[a + |r|..])
  }

  /** `r` is `s` with some white space removed from each end. */
  ghost predicate Unpadded(r: string, s: string) {
    exists a: nat :: PaddedAt(r, s, a)
  }

  /** `Trim` removes white space padding. */
  lemma TrimUnpadded(s: string)
    ensures PaddedAt(Trim(s), s, TrimOffset(s)) && Unpadded(Trim(s), s)
  {
    TrimDropsOnlyWhiteSpace(s);
    assert PaddedAt(Trim(s), s, TrimOffset(s));
  }

  lemma {:induction false} BlankTrimStart(s: string)
    requires AllWhiteSpace(s)
    ensures TrimStart(s) == []
    decreases |s|
  {
    if s != [] {
      assert AllWhiteSpace(s[1..]) by {
        assert forall i :: 0 <= i < |s| - 1 ==> s[1..][i] == s[i + 1];
      }
      BlankTrimStart(s[1..]);
    }
  }

  lemma {:induction false} TrimStartAt(s: string, a: nat)
    requires a < |s| && AllWhiteSpace(s[..a]) && !IsWhiteSpace(s[a])
    ensures TrimStart(s) == s[a..]
    decreases a
  {
    if a > 0 {
      assert IsWhiteSpace(s[..a][0]);
      var head, rest := s[..a], s[1..][..a - 1];
      assert AllWhiteSpace(rest) by {
        assert forall i :: 1 <= i < a ==> rest[i - 1] == head[i];
      }
      TrimStartAt(s[1..], a - 1);
      assert s[1..][a - 1..] == s[a..];
    }
  }

  lemma {:induction false} TrimEndAt(t: string, n: nat)
    requires n <= |t| && AllWhiteSpace(t[n..]) && (n == 0 || !IsWhiteSpace(t[n - 1]))
    ensures TrimEnd(t) == t[..n]
    decreases |t| - n
  {
    if n < |t| {
      var u := t[..|t| - 1];
      assert IsWhiteSpace(t[n..][|t| - 1 - n]);
      assert AllWhiteSpace(u[n..]) by {
        assert forall i :: 0 <= i < |u| - n ==> u[n..][i] == t[n..][i];
      }
      assert n == 0 || u[n - 1] == t[n - 1];
      TrimEndAt(u, n);
      assert u[..n] == t[..n];
    }
  }

  /** `Trim(s)` is the only text without white space at its ends that `s`
      pads with white space. */
  lemma UnpaddedIsTrim(r: string, s: string)
    requires NoEdgeSpace(r) && Unpadded(r, s)
    ensures r == Trim(s)
  {
    var a: nat :| PaddedAt(r, s, a);
    if r == [] {
      assert AllWhiteSpace(s) by {
        assert forall i :: 0 <= i < a ==> s[i] == s[..a][i];
        assert forall i :: a <= i < |s| ==> s[i] == s[a..][i - a];
      }
      BlankTrimStart(s);
    } else {
      assert s[a] == r[0];
      TrimStartAt(s, a);
      var t := s[a..];
      assert t[..|r|] == r;
      assert t[|r|..] == s[a + |r|..];
      assert t[|r| - 1] == r[|r| - 1];
      TrimEndAt(t, |r|);
    }
  }

  /** A match of a marker that starts and ends with visible characters lies
      inside the padded text: padding changes only where it is found. */
  lemma PaddedMatchesAt(r: string, s: string, a: nat, p: string, i: nat)
    requires PaddedAt(r, s, a)
    requires p != [] && !IsWhiteSpace(p[0]) && !IsWhiteSpace(p[|p| - 1])
    ensures MatchesAt(s, p, i) <==> a <= i && MatchesAt(r, p, i - a)
  {
    if i < a {
      if i + |p| <= |s| {
        assert s[i] == s[..a][i];
        assert ToLower(s[i + 0]) != ToLower(p[0]);
      }
    } else if i + |p| > a + |r| {
      if i + |p| <= |s| {
        assert s[i + (|p| - 1)] == s[a + |r|..][i + |p| - 1 - a - |r|];
        assert ToLower(s[i + (|p| - 1)]) != ToLower(p[|p| - 1]);
      }
    } else {
      forall k | 0 <= k < |p|
        ensures ToLower(s[i + k]) == ToLower(p[k]) <==> ToLower(r[i - a + k]) == ToLower(p[k])
      {
        assert s[i + k] == s[a..a + |r|][i - a + k];
      }
    }
  }

  /** The first match in a padded text is the first match in the text,
      shifted by the leading padding. */
  lemma PaddedIndexOf(r: string, s: string, a: nat, p: string)
    requires PaddedAt(r, s, a)
    requires p != [] && !IsWhiteSpace(p[0]) && !IsWhiteSpace(p[|p| - 1])
    ensures IndexOfIgnoreCase(r, p).None? ==> IndexOfIgnoreCase(s, p).None?
    ensures IndexOfIgnoreCase(r, p).Some? ==> IndexOfIgnoreCase(s, p) == Some(a + IndexOfIgnoreCase(r, p).value)
  {
    match IndexOfIgnoreCase(r, p)
    case None =>
      PaddedNoMatch(r, s, a, p);
    case Some(j) =>
      PaddedFirstMatch(r, s, a, p, j);
      FirstMatchAt(s, p, a + j);
  }

  lemma PaddedNoMatch(r: string, s: string, a: nat, p: string)
    requires PaddedAt(r, s, a)
    requires p != [] && !IsWhiteSpace(p[0]) && !IsWhiteSpace(p[|p| - 1])
    requires !ContainsIgnoreCase(r, p)
    ensures !ContainsIgnoreCase(s, p)
  {
    forall i | 0 <= i <= |s| ensures !MatchesAt(s, p, i) {
      PaddedMatchesAt(r, s, a, p, i);
    }
  }

  lemma PaddedFirstMatch(r: string, s: string, a: nat, p: string, j: nat)
    requires PaddedAt(r, s, a)
    requires p != [] && !IsWhiteSpace(p[0]) && !IsWhiteSpace(p[|p| - 1])
    requires MatchesAt(r, p, j) && forall k :: 0 <= k < j ==> !MatchesAt(r, p, k)
    ensures MatchesAt(s, p, a + j) && forall i: nat :: i < a + j ==> !MatchesAt(s, p, i)
  {
    PaddedMatchesAt(r, s, a, p, a + j);
    forall i: nat | i < a + j ensures !MatchesAt(s, p, i) {
      PaddedMatchesAt(r, s, a, p, i);
    }
  }


  /** A match with no match before it is the first match. */
  lemma FirstMatchAt(s: string, p: string, k: nat)
    requires MatchesAt(s, p, k) && forall j: nat :: j < k ==> !MatchesAt(s, p, j)
    ensures IndexOfIgnoreCase(s, p) == Some(k)
  {
    assert ContainsIgnoreCase(s, p);
    var v := IndexOfIgnoreCase(s, p).value;
    assert !(v < k) && !(k < v);
  }


  /** Padding the front of a padded prefix keeps it padded. */
  lemma PaddedPrefix(z: string, t: string, a: nat, r: string, j: nat, b: nat)
    requires PaddedAt(z, t, a) && j <= |z| && PaddedAt(r, z[..j], b)
    ensures PaddedAt(r, t[..a + j], a + b)
  {
    var u := t[..a + j];
    assert u[a..] == z[..j];
    assert u[a + b..a + b + |r|] == r;
    var lead, front, inner := u[..a + b], t[..a], z[..j][..b];
    assert AllWhiteSpace(lead) by {
      assert forall i :: 0 <= i < a ==> lead[i] == front[i];
      assert forall i :: a <= i < a + b ==> lead[i] == inner[i - a];
    }
    assert u[a + b + |r|..] == z[..j][b + |r|..];
  }


  /** Unpadding and then cutting before the first marker keeps the unpadded
      text before the first marker of the padded text. */
  lemma UnpaddedCut(z: string, t: string, p: string, r: string)
    requires Unpadded(z, t)
    requires p != [] && !IsWhiteSpace(p[0]) && !IsWhiteSpace(p[|p| - 1])
    requires IndexOfIgnoreCase(z, p).None? ==> r == z
    requires IndexOfIgnoreCase(z, p).Some? ==> Unpadded(r, z[..IndexOfIgnoreCase(z, p).value])
    ensures IndexOfIgnoreCase(t, p).None? ==> Unpadded(r, t)
    ensures IndexOfIgnoreCase(t, p).Some? ==> Unpadded(r, t[..IndexOfIgnoreCase(t, p).value])
  {
    var a: nat :| PaddedAt(z, t, a);
    PaddedIndexOf(z, t, a, p);
    match IndexOfIgnoreCase(z, p)
    case None =>
      assert PaddedAt(r, t, a);
    case Some(j) =>
      var b: nat :| PaddedAt(r, z[..j], b);
      PaddedPrefix(z, t, a, r, j, b);
      assert PaddedAt(r, t[..a + j], a + b);
  }


  /** A trimmed string is blank only when it is empty. */
  lemma TrimmedBlankIsEmpty(s: string)
    requires NoEdgeSpace(s)
    ensures AllWhiteSpace(s) <==> s == []
  {
  }

  /** `s.Replace(find, rep)`: ordinal, left to right, non-overlapping. */
  function ReplaceAll(s: string, find: string, rep: string): string
    requires find != []
    decreases |s|
  {
    if |s| < |find| then s
    else if s[..|find|] == find then rep + ReplaceAll(s[|find|..], find, rep)
    else [s[0]] + ReplaceAll(s[1..], find, rep)
  }

  /** `find` occurs in `s` at `i`, comparing ordinally. */
  predicate OccursAt(s: string, find: string, i: nat) {
    i + |find| <= |s| && s[i..i + |find|] == find
  }

  /** Replacing something that does not occur changes nothing. */
  lemma {:induction false} ReplaceAllAbsent(s: string, find: string, rep: string)
    requires find != []
    requires forall i: nat :: !OccursAt(s, find, i)
    ensures ReplaceAll(s, find, rep) == s
  {
    if |s| >= |find| {
      assert !OccursAt(s, find, 0);
      forall i: nat ensures !OccursAt(s[1..], find, i) {
        if OccursAt(s[1..], find, i) {
          assert s[1..][i..i + |find|] == s[i + 1..i + 1 + |find|];
          assert OccursAt(s, find, i + 1);
        }
      }
      ReplaceAllAbsent(s[1..], find, rep);
    }
  }

  /** Replacing a string by itself changes nothing. */
  lemma {:induction false} ReplaceAllSelf(s: string, find: string)
    requires find != []
    ensures ReplaceAll(s, find, find) == s
  {
    if |s| >= |find| {
      if s[..|find|] == find {
        ReplaceAllSelf(s[|find|..], find);
        assert find + s[|find|..] == s;
      } else {
        ReplaceAllSelf(s[1..], find);
        assert [s[0]] + s[1..] == s;
      }
    }
  }

  function DigitChar(d: nat): (c: char)
    requires d < 10
    ensures IsDigit(c)
  {
    ['0', '1', '2', '3', '4', '5', '6', '7', '8', '9'][d]
  }

  lemma DigitCharInjective(a: nat, b: nat)
    requires a < 10 && b < 10 && DigitChar(a) == DigitChar(b)
    ensures a == b
  {
  }

  /** `int.ToString()` for a non-negative value. */
  function NatToString(n: nat): (r: string)
    ensures |r| >= 1
    ensures n < 10 <==> |r| == 1
    ensures forall i :: 0 <= i < |r| ==> IsDigit(r[i])
  {
    if n < 10 then [DigitChar(n)] else NatToString(n / 10) + [DigitChar(n % 10)]
  }

  /** Different numbers print differently. */
  lemma {:induction false} NatToStringInjective(a: nat, b: nat)
    requires NatToString(a) == NatToString(b)
    ensures a == b
  {
    if a >= 10 && b >= 10 {
      var ra, rb := NatToString(a), NatToString(b);
      assert ra[..|ra| - 1] == NatToString(a / 10);
      assert rb[..|rb| - 1] == NatToString(b / 10);
      NatToStringInjective(a / 10, b / 10);
      DigitCharInjective(a % 10, b % 10);
    } else if a < 10 && b < 10 {
      DigitCharInjective(a, b);
    }
  }

  /** `p` followed by a number determines the number. */
  lemma PrefixedNumberInjective(p: string, a: nat, b: nat)
    requires p + NatToString(a) == p + NatToString(b)
    ensures a == b
  {
    assert NatToString(a) == (p + NatToString(a))[|p|..];
    assert NatToString(b) == (p + NatToString(b))[|p|..];
    NatToStringInjective(a, b);
  }

  /** `a` is `b` with some elements left out, the rest in order. */
  predicate IsSubsequence<T(==)>(a: seq<T>, b: seq<T>)
    decreases |b|
  {
    if a == [] then true
    else if b == [] then false
    else if a[0] == b[0] then IsSubsequence(a[1..], b[1..])
    else IsSubsequence(a, b[1..])
  }

  /** A slice of a slice is a slice of the whole. */
  lemma SliceOfSlice<T>(s: seq<T>, b: nat, e: nat, a: nat, f: nat)
    requires b <= e <= |s| && a <= f <= e - b
    ensures s[b..e][a..f] == s[b + a..b + f]
  {
    var x, y := s[b..e][a..f], s[b + a..b + f];
    assert |x| == |y|;
    forall k | 0 <= k < |x| ensures x[k] == y[k] {
      assert x[k] == s[b..e][a + k];
    }
  }

  /** Taking one element more appends that element. */
  lemma TakeSnoc<T>(s: seq<T>, j: nat)
    requires j < |s|
    ensures s[..j + 1] == s[..j] + [s[j]]
  {
    assert s[..j + 1] == s[..j] + [s[j]];
  }

  /** An element missing from a sequence is missing from each slice of it. */
  lemma NotInSlice<T>(s: seq<T>, x: T, lo: nat, hi: nat)
    requires x !in s && lo <= hi <= |s|
    ensures x !in s[lo..hi]
  {
    forall k | 0 <= k < hi - lo ensures s[lo..hi][k] != x {
      assert s[lo..hi][k] == s[lo + k];
    }
  }

  /** Splitting off the head of the left operand of a concatenation. */
  lemma HeadAppend<T>(a: seq<T>, x: seq<T>)
    requires a != []
    ensures a + x == [a[0]] + (a[1..] + x)
  {
    assert a + x == [a[0]] + (a[1..] + x);
  }

  /** Cutting a sequence in three and joining the parts gives it back. */
  lemma TakeDrop<T>(s: seq<T>, i: nat)
    requires i <= |s|
    ensures s[..i] + s[i..] == s
  {
  }

  lemma SplitAt<T>(s: seq<T>, i: nat, j: nat)
    requires i <= j <= |s|
    ensures s[..i] + (s[i..j] + s[j..]) == s
  {
    assert s[..i] + (s[i..j] + s[j..]) == s;
  }

  /** Dropping the last element of `a + b` drops the last element of `b`. */
  lemma AppendInit<T>(a: seq<T>, b: seq<T>)
    requires b != []
    ensures (a + b)[..|a + b| - 1] == a + b[..|b| - 1]
    ensures (a + b)[|a + b| - 1] == b[|b| - 1]
  {
    assert (a + b)[..|a + b| - 1] == a + b[..|b| - 1];
  }

  /** Putting an element in front of the larger sequence keeps a subsequence. */
  lemma {:induction false} SubsequenceCons<T>(a: seq<T>, b: seq<T>, x: T)
    requires IsSubsequence(a, b)
    ensures IsSubsequence(a, [x] + b)
    decreases |b|, 1
  {
    assert ([x] + b)[1..] == b;
    if a != [] && a[0] == x {
      SubsequenceDrop(a, b);
    }
  }

  lemma {:induction false} SubsequenceDrop<T>(a: seq<T>, b: seq<T>)
    requires a != [] && IsSubsequence(a, b)
    ensures IsSubsequence(a[1..], b)
    decreases |b|, 0
  {
    assert b == [b[0]] + b[1..];
    if a[0] == b[0] {
      SubsequenceCons(a[1..], b[1..], b[0]);
    } else {
      SubsequenceDrop(a, b[1..]);
      SubsequenceCons(a[1..], b[1..], b[0]);
    }
  }

  lemma {:induction false} SubsequenceRefl<T>(s: seq<T>)
    ensures IsSubsequence(s, s)
  {
    if s != [] {
      SubsequenceRefl(s[1..]);
    }
  }

  /** Everything in a subsequence is in the sequence. */
  lemma {:induction false} SubsequenceMembers<T>(a: seq<T>, b: seq<T>, x: T)
    requires IsSubsequence(a, b) && x in a
    ensures x in b
    decreases |b|
  {
    if a[0] == b[0] {
      if x != a[0] {
        SubsequenceMembers(a[1..], b[1..], x);
      }
    } else {
      SubsequenceMembers(a, b[1..], x);
    }
  }

  /** A prefix is a subsequence. */
  lemma {:induction false} PrefixIsSubsequence<T>(a: seq<T>, b: seq<T>)
    requires a <= b
    ensures IsSubsequence(a, b)
  {
    if a != [] {
      PrefixIsSubsequence(a[1..], b[1..]);
    }
  }

  lemma {:induction false} SubsequenceTrans<T>(a: seq<T>, b: seq<T>, c: seq<T>)
    requires IsSubsequence(a, b) && IsSubsequence(b, c)
    ensures IsSubsequence(a, c)
    decreases |c|
  {
    if a != [] {
      if b[0] == c[0] {
        if a[0] == b[0] {
          SubsequenceTrans(a[1..], b[1..], c[1..]);
        } else {
          SubsequenceTrans(a, b[1..], c[1..]);
          SubsequenceCons(a, c[1..], c[0]);
          assert [c[0]] + c[1..] == c;
        }
      } else {
        SubsequenceTrans(a, b, c[1..]);
        SubsequenceCons(a, c[1..], c[0]);
        assert [c[0]] + c[1..] == c;
      }
    }
  }

  /** A subsequence of a suffix is a subsequence of the whole. */
  lemma {:induction false} SubsequenceOfSuffix<T>(a: seq<T>, b: seq<T>, k: nat)
    requires k <= |b| && IsSubsequence(a, b[k..])
    ensures IsSubsequence(a, b)
    decreases k
  {
    if k > 0 {
      assert b[k..] == b[1..][k - 1..];
      SubsequenceOfSuffix(a, b[1..], k - 1);
      SubsequenceCons(a, b[1..], b[0]);
      assert [b[0]] + b[1..] == b;
    }
  }
}
