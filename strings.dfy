/** String operations of Python's `str` that the application relies on:
    `strip()`, `split(sep)`, `sep.join(parts)`, `sub in s` and `endswith`. */
module Strings {

  /** Python's `str.isspace()` for one character: the ASCII white space and
      separator controls plus the Unicode space and line separators. */
  predicate IsSpace(c: char) {
    c == ' ' || ('\t' <= c <= '\r') || ('\U{1C}' <= c <= '\U{1F}')
    || c == '\U{85}' || c == '\U{A0}' || c == '\U{1680}'
    || ('\U{2000}' <= c <= '\U{200A}') || c == '\U{2028}' || c == '\U{2029}'
    || c == '\U{202F}' || c == '\U{205F}' || c == '\U{3000}'
  }

  /** Every character of `s` is white space. */
  predicate AllSpace(s: string) {
    forall j :: 0 <= j < |s| ==> IsSpace(s[j])
  }

  /** Every character of `s` at an index in `[i, k)` is white space. */
  predicate SpaceBetween(s: string, i: int, k: int) {
    forall j :: i <= j < k && 0 <= j < |s| ==> IsSpace(s[j])
  }

  /** The first index at or after `i` that holds no white space (or `|s|`). */
  function SkipSpace(s: string, i: nat): (k: nat)
    requires i <= |s|
    ensures i <= k <= |s| && SpaceBetween(s, i, k) && (k < |s| ==> !IsSpace(s[k]))
    decreases |s| - i
  {
    if i < |s| && IsSpace(s[i]) then SkipSpace(s, i + 1) else i
  }

  /** The end of `s[lo..e]` once its trailing white space is cut off. */
  function SkipSpaceBack(s: string, lo: nat, e: nat): (k: nat)
    requires lo <= e <= |s|
    ensures lo <= k <= e && SpaceBetween(s, k, e) && (k > lo ==> !IsSpace(s[k - 1]))
  {
    if e > lo && IsSpace(s[e - 1]) then SkipSpaceBack(s, lo, e - 1) else e
  }

  /** Python's `s.strip()` with no argument. */
  function Strip(s: string): string {
    var a := SkipSpace(s, 0);
    s[a..SkipSpaceBack(s, a, |s|)]
  }

  /** Stripping removes white space only, from the two ends only, and leaves
      neither leading nor trailing white space. */
  lemma StripShape(s: string)
    ensures var r := Strip(s);
      (r == [] || (!IsSpace(r[0]) && !IsSpace(r[|r| - 1])))
      && (exists p, q :: AllSpace(p) && AllSpace(q) && s == p + r + q)
  {
    var a := SkipSpace(s, 0);
    var b := SkipSpaceBack(s, a, |s|);
    SpaceSlice(s, 0, a);
    SpaceSlice(s, b, |s|);
    assert s == s[0..a] + s[a..b] + s[b..|s|];
  }

  lemma SpaceSlice(s: string, i: nat, k: nat)
    requires i <= k <= |s| && SpaceBetween(s, i, k)
    ensures AllSpace(s[i..k])
  {
    forall j | 0 <= j < k - i ensures IsSpace(s[i..k][j]) { assert s[i..k][j] == s[i + j]; }
  }

  lemma {:induction false} SkipSpaceAgree(s: string, t: string, i: nat)
    requires i <= |s| <= |t| && s == t[..|s|]
    requires SkipSpace(s, i) < |s|
    ensures SkipSpace(t, i) == SkipSpace(s, i)
    decreases |s| - i
  {
    assert s[i] == t[i];
    if IsSpace(s[i]) { SkipSpaceAgree(s, t, i + 1); }
  }

  lemma {:induction false} SkipBackAgree(s: string, t: string, lo: nat, e: nat)
    requires lo <= e <= |s| <= |t| && s == t[..|s|]
    ensures SkipSpaceBack(t, lo, e) == SkipSpaceBack(s, lo, e)
  {
    if e > lo {
      assert s[e - 1] == t[e - 1];
      if IsSpace(s[e - 1]) { SkipBackAgree(s, t, lo, e - 1); }
    }
  }

  lemma {:induction false} SkipAllSpace(t: string, i: nat)
    requires i <= |t| && SpaceBetween(t, i, |t|)
    ensures SkipSpace(t, i) == |t|
    decreases |t| - i
  {
    if i < |t| {
      SkipAllSpace(t, i + 1);
    }
  }

  /** Appending one white-space character does not change the stripped string,
      so `"abc "` and `"abc"` strip to the same key. */
  lemma StripTrailingSpace(s: string, c: char)
    requires IsSpace(c)
    ensures Strip(s + [c]) == Strip(s)
  {
    if SkipSpace(s, 0) < |s| {
      StripTrailingSpaceAfterText(s, c);
    } else {
      StripTrailingSpaceBlank(s, c);
    }
  }

  lemma StripTrailingSpaceAfterText(s: string, c: char)
    requires IsSpace(c) && SkipSpace(s, 0) < |s|
    ensures Strip(s + [c]) == Strip(s)
  {
    var t := s + [c];
    var a := SkipSpace(s, 0);
    var k := SkipSpaceBack(s, a, |s|);
    assert SkipSpace(t, 0) == a by {
      assert s == t[..|s|];
      SkipSpaceAgree(s, t, 0);
    }
    assert SkipSpaceBack(t, a, |t|) == k by {
      assert s == t[..|s|];
      assert t[|t| - 1] == c;
      SkipBackAgree(s, t, a, |s|);
    }
    SliceOfExtension(s, [c], a, k);
  }

  lemma SliceOfExtension(s: string, u: string, a: nat, k: nat)
    requires a <= k <= |s|
    ensures (s + u)[a..k] == s[a..k]
  {
    var t := s + u;
    assert |t[a..k]| == |s[a..k]|;
    forall j | 0 <= j < k - a ensures t[a..k][j] == s[a..k][j] {
      assert t[a + j] == s[a + j];
    }
  }

  lemma StripTrailingSpaceBlank(s: string, c: char)
    requires IsSpace(c) && SkipSpace(s, 0) == |s|
    ensures Strip(s + [c]) == Strip(s)
  {
    var t := s + [c];
    assert SpaceBetween(t, 0, |t|) by {
      forall j | 0 <= j < |t| ensures IsSpace(t[j]) {
        if j < |s| { assert t[j] == s[j]; }
      }
    }
    SkipAllSpace(t, 0);
  }

  /** A string with neither leading nor trailing white space strips to itself. */
  lemma StripOfStripped(s: string)
    requires s == [] || (!IsSpace(s[0]) && !IsSpace(s[|s| - 1]))
    ensures Strip(s) == s
  {
  }

  /** `strip()` is idempotent. */
  lemma StripIdempotent(s: string)
    ensures Strip(Strip(s)) == Strip(s)
  {
    StripShape(s);
    StripOfStripped(Strip(s));
  }

  /** Python's `s.split(sep)` for a one-character separator: every occurrence
      splits, adjacent separators give empty pieces, and the result is never empty. */
  function {:induction false} Split(s: string, sep: char): (r: seq<string>)
    ensures |r| >= 1
    ensures forall k, j :: 0 <= k < |r| && 0 <= j < |r[k]| ==> r[k][j] != sep
  {
    if |s| == 0 then [""]
    else
      var rest := Split(s[1..], sep);
      if s[0] == sep then [""] + rest
      else [[s[0]] + rest[0]] + rest[1..]
  }

  /** Python's `sep.join(parts)`. */
  function Join(parts: seq<string>, sep: string): string {
    if |parts| == 0 then ""
    else if |parts| == 1 then parts[0]
    else parts[0] + sep + Join(parts[1..], sep)
  }

  lemma {:induction false} JoinCons(p: string, parts: seq<string>, sep: string)
    requires |parts| >= 1
    ensures Join([p] + parts, sep) == p + sep + Join(parts, sep)
  {
    assert ([p] + parts)[1..] == parts;
  }

  /** Splitting and re-joining on the same separator gives the input back. */
  lemma {:induction false} JoinSplit(s: string, sep: char)
    ensures Join(Split(s, sep), [sep]) == s
  {
    if |s| > 0 {
      var rest := Split(s[1..], sep);
      JoinSplit(s[1..], sep);
      if s[0] == sep {
        JoinCons("", rest, [sep]);
        assert s == [sep] + s[1..];
      } else {
        var r := Split(s, sep);
        if |rest| == 1 {
          assert r == [[s[0]] + rest[0]];
        } else {
          JoinCons(rest[0], rest[1..], [sep]);
          assert rest == [rest[0]] + rest[1..];
          assert r == [[s[0]] + rest[0]] + rest[1..];
          JoinCons([s[0]] + rest[0], rest[1..], [sep]);
        }
        assert s == [s[0]] + s[1..];
      }
    }
  }

  /** A string without the separator is one piece. */
  lemma {:induction false} SplitNoSeparator(s: string, sep: char)
    requires forall j :: 0 <= j < |s| ==> s[j] != sep
    ensures Split(s, sep) == [s]
  {
    if |s| > 0 {
      SplitNoSeparator(s[1..], sep);
      assert s == [s[0]] + s[1..];
    }
  }

  /** Splitting `a + sep + b` splits `a` and `b` separately. */
  lemma {:induction false} SplitAtSeparator(a: string, b: string, sep: char)
    ensures Split(a + [sep] + b, sep) == Split(a, sep) + Split(b, sep)
  {
    var s := a + [sep] + b;
    if |a| == 0 {
      assert s[1..] == b;
    } else {
      assert s[1..] == a[1..] + [sep] + b;
      SplitAtSeparator(a[1..], b, sep);
    }
  }

  /** Joining pieces that do not contain the separator and splitting again
      gives the pieces back. */
  lemma {:induction false} SplitJoin(parts: seq<string>, sep: char)
    requires |parts| >= 1
    requires forall k, j :: 0 <= k < |parts| && 0 <= j < |parts[k]| ==> parts[k][j] != sep
    ensures Split(Join(parts, [sep]), sep) == parts
  {
    if |parts| == 1 {
      SplitNoSeparator(parts[0], sep);
    } else {
      SplitJoin(parts[1..], sep);
      SplitNoSeparator(parts[0], sep);
      SplitAtSeparator(parts[0], Join(parts[1..], [sep]), sep);
      assert parts == [parts[0]] + parts[1..];
    }
  }

  /** Python's `sub in s` for strings. */
  predicate Contains(s: string, sub: string) {
    exists i :: 0 <= i <= |s| - |sub| && OccursAt(s, sub, i)
  }

  /** `sub` occurs in `s` starting at index `i`. */
  predicate OccursAt(s: string, sub: string, i: int) {
    0 <= i <= |s| - |sub| && s[i..i + |sub|] == sub
  }

  /** An occurrence moves along by `|a|` when `a` is put in front. */
  lemma OccursShift(a: string, b: string, u: string, o: int)
    requires OccursAt(b, u, o)
    ensures OccursAt(a + b, u, |a| + o)
  {
    var s := a + b;
    forall j | 0 <= j < |u| ensures s[|a| + o..|a| + o + |u|][j] == u[j] {
      assert s[|a| + o + j] == b[o + j];
      assert b[o..o + |u|][j] == b[o + j];
    }
  }

  /** A join starts with its first part. */
  lemma JoinStartsWithFirst(parts: seq<string>, sep: string)
    requires |parts| > 0
    ensures OccursAt(Join(parts, sep), parts[0], 0)
  {
    if |parts| > 1 {
      var rest := sep + Join(parts[1..], sep);
      assert Join(parts, sep) == parts[0] + rest;
      SliceOfExtension(parts[0], rest, 0, |parts[0]|);
    }
  }

  /** Where part `i` starts in `Join(parts, sep)`: after every earlier part and
      its separator. */
  function JoinOffset(parts: seq<string>, sep: string, i: nat): nat
    requires i < |parts|
  {
    if i == 0 then 0 else |parts[0]| + |sep| + JoinOffset(parts[1..], sep, i - 1)
  }

  /** Every part occurs in the join, at its offset, whatever the parts hold. */
  lemma {:induction false} JoinPartAt(parts: seq<string>, sep: string, i: nat)
    requires i < |parts|
    ensures OccursAt(Join(parts, sep), parts[i], JoinOffset(parts, sep, i))
  {
    if i == 0 {
      JoinStartsWithFirst(parts, sep);
    } else {
      JoinPartAt(parts[1..], sep, i - 1);
      assert Join(parts, sep) == (parts[0] + sep) + Join(parts[1..], sep);
      OccursShift(parts[0] + sep, Join(parts[1..], sep), parts[i], JoinOffset(parts[1..], sep, i - 1));
    }
  }

  /** Python's `s.endswith(suffix)`. */
  predicate EndsWith(s: string, suffix: string) {
    |suffix| <= |s| && s[|s| - |suffix|..] == suffix
  }
}
