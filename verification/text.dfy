/**
 The two string operations the encoder relies on: Python's argument-less
 `str.strip()` and Python's ordering of strings (lexicographic by code point,
 a proper prefix sorting first).
 */
module Text {
  import Ordering

  /** The characters Python's `str.isspace()` accepts, which `str.strip()` removes. */
  predicate IsSpace(c: char)
  {
    || '\t' <= c <= '\r'
    || '\U{1C}' <= c <= '\U{1F}'
    || c == ' '
    || c == '\U{85}'
    || c == '\U{A0}'
    || c == '\U{1680}'
    || '\U{2000}' <= c <= '\U{200A}'
    || c == '\U{2028}'
    || c == '\U{2029}'
    || c == '\U{202F}'
    || c == '\U{205F}'
    || c == '\U{3000}'
  }

  predicate AllSpace(s: string)
  {
    forall i :: 0 <= i < |s| ==> IsSpace(s[i])
  }

  /** Every character of `s` at positions `lo` up to (not including) `hi` is whitespace. */
  predicate SpaceBetween(s: string, lo: int, hi: int)
    requires 0 <= lo && hi <= |s|
  {
    forall i :: lo <= i < hi ==> IsSpace(s[i])
  }

  /** Neither end of `s` is whitespace. */
  predicate IsStripped(s: string)
  {
    |s| == 0 || (!IsSpace(s[0]) && !IsSpace(s[|s| - 1]))
  }

  /** The position of the first non-whitespace character at or after `from`, or `|s|`. */
  function StartOfContent(s: string, from: nat): (k: nat)
    requires from <= |s|
    ensures from <= k <= |s|
    ensures SpaceBetween(s, from, k)
    ensures k == |s| || !IsSpace(s[k])
    decreases |s| - from
  {
    if from < |s| && IsSpace(s[from]) then StartOfContent(s, from + 1) else from
  }

  /** The position just after the last non-whitespace character in `s[lo..end]`, or `lo` when there is none. */
  function EndOfContent(s: string, lo: nat, end: nat): (k: nat)
    requires lo <= end <= |s|
    ensures lo <= k <= end
    ensures SpaceBetween(s, k, end)
    ensures k == lo || !IsSpace(s[k - 1])
  {
    if lo < end && IsSpace(s[end - 1]) then EndOfContent(s, lo, end - 1) else end
  }

  /**
   Python's `s.strip()`: `s` with its leading and trailing whitespace removed.
   The result is a slice of `s`, has no whitespace at either end, and only
   whitespace was cut off on either side.
   */
  function Strip(s: string): (r: string)
    ensures IsStripped(r)
    ensures exists lo :: 0 <= lo <= |s| - |r| && r == s[lo..lo + |r|]
                         && SpaceBetween(s, 0, lo) && SpaceBetween(s, lo + |r|, |s|)
  {
    var lo := StartOfContent(s, 0);
    var hi := EndOfContent(s, lo, |s|);
    s[lo..hi]
  }

  /** `StartOfContent` finds the first non-whitespace position: any position with only whitespace before it and none at it is the one. */
  lemma {:induction false} StartOfContentUnique(s: string, from: nat, k: nat)
    requires from <= k <= |s|
    requires SpaceBetween(s, from, k)
    requires k == |s| || !IsSpace(s[k])
    ensures StartOfContent(s, from) == k
    decreases k - from
  {
    if from < k {
      StartOfContentUnique(s, from + 1, k);
    }
  }

  /** `EndOfContent` finds the end of the last non-whitespace run, uniquely. */
  lemma {:induction false} EndOfContentUnique(s: string, lo: nat, end: nat, k: nat)
    requires lo <= k <= end <= |s|
    requires SpaceBetween(s, k, end)
    requires k == lo || !IsSpace(s[k - 1])
    ensures EndOfContent(s, lo, end) == k
    decreases end
  {
    if k < end {
      EndOfContentUnique(s, lo, end - 1, k);
    }
  }

  /**
   Names that differ only by surrounding whitespace strip to the same name:
   padding a stripped name with whitespace on either side and stripping gives
   the name back.
   */
  lemma StripRemovesPadding(before: string, name: string, after: string)
    requires AllSpace(before) && AllSpace(after)
    requires IsStripped(name)
    ensures Strip(before + name + after) == name
  {
    var s := before + name + after;
    var lo, hi := |before|, |before| + |name|;
    assert forall i :: 0 <= i < lo ==> s[i] == before[i];
    assert forall i :: hi <= i < |s| ==> s[i] == after[i - hi];
    if |name| > 0 {
      assert s[lo] == name[0] && s[hi - 1] == name[|name| - 1];
      StartOfContentUnique(s, 0, lo);
      EndOfContentUnique(s, lo, |s|, hi);
      assert s[lo..hi] == name;
    } else {
      StartOfContentUnique(s, 0, |s|);
    }
  }

  /** Stripping twice is stripping once. */
  lemma StripIdempotent(s: string)
    ensures Strip(Strip(s)) == Strip(s)
  {
    StripRemovesPadding("", Strip(s), "");
    assert "" + Strip(s) + "" == Strip(s);
  }

  /** Python's `<` on `str`: code-point lexicographic order, a proper prefix first. */
  predicate StrLt(a: string, b: string)
  {
    if |a| == 0 then |b| > 0
    else if |b| == 0 then false
    else a[0] < b[0] || (a[0] == b[0] && StrLt(a[1..], b[1..]))
  }

  lemma {:induction false} StrLtIrreflexive(a: string)
    ensures !StrLt(a, a)
  {
    if |a| > 0 {
      StrLtIrreflexive(a[1..]);
    }
  }

  lemma {:induction false} StrLtTransitive(a: string, b: string, c: string)
    requires StrLt(a, b) && StrLt(b, c)
    ensures StrLt(a, c)
  {
    if |a| > 0 && |b| > 0 && |c| > 0 && a[0] == b[0] == c[0] {
      StrLtTransitive(a[1..], b[1..], c[1..]);
    }
  }

  lemma {:induction false} StrLtConnected(a: string, b: string)
    requires a != b
    ensures StrLt(a, b) || StrLt(b, a)
  {
    if |a| > 0 && |b| > 0 && a[0] == b[0] {
      assert a == [a[0]] + a[1..] && b == [b[0]] + b[1..];
      StrLtConnected(a[1..], b[1..]);
    }
  }

  /** Python's string order is a strict total order, so sorting names is well defined. */
  lemma StrLtIsStrictTotalOrder()
    ensures Ordering.StrictTotalOrder(StrLt)
  {
    forall a ensures !StrLt(a, a) {
      StrLtIrreflexive(a);
    }
    forall a, b, c | StrLt(a, b) && StrLt(b, c) ensures StrLt(a, c) {
      StrLtTransitive(a, b, c);
    }
    forall a, b | a != b ensures StrLt(a, b) || StrLt(b, a) {
      StrLtConnected(a, b);
    }
  }
}
