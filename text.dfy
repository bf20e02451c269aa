/**
 * String helpers the scrapers get from Python: `str.strip()`, `str.startswith`,
 * `sep.join(parts)`, and duplicate-freedom of a list.
 */
module Text {

  /** Python's `str.isspace()` on one character (the characters `str.strip()` removes). */
  predicate IsSpace(c: char) {
    || c == ' '
    || ('\t' <= c <= '\r')
    || ('\U{1C}' <= c <= '\U{1F}')
    || c == '\U{85}' || c == '\U{A0}' || c == '\U{1680}'
    || ('\U{2000}' <= c <= '\U{200A}')
    || c == '\U{2028}' || c == '\U{2029}' || c == '\U{202F}' || c == '\U{205F}' || c == '\U{3000}'
  }

  /** `s.lstrip()`: drop whitespace from the front. */
  function TrimStart(s: string): string {
    if |s| > 0 && IsSpace(s[0]) then TrimStart(s[1..]) else s
  }

  /** `s.rstrip()`: drop whitespace from the back. */
  function TrimEnd(s: string): string {
    if |s| > 0 && IsSpace(s[|s| - 1]) then TrimEnd(s[..|s| - 1]) else s
  }

  /** `s.strip()`: `s` with its leading and trailing whitespace removed. */
  function Strip(s: string): string {
    TrimEnd(TrimStart(s))
  }

  /** `TrimStart` keeps the longest suffix of `s` that does not start with whitespace. */
  lemma {:induction false} TrimStartSpec(s: string)
    ensures |TrimStart(s)| <= |s| && TrimStart(s) == s[|s| - |TrimStart(s)|..]
    ensures |TrimStart(s)| == 0 || !IsSpace(TrimStart(s)[0])
    ensures forall k :: 0 <= k < |s| - |TrimStart(s)| ==> IsSpace(s[k])
  {
    if |s| > 0 && IsSpace(s[0]) {
      TrimStartSpec(s[1..]);
      var r := TrimStart(s[1..]);
      assert s[1..][|s| - 1 - |r|..] == s[|s| - |r|..];
      forall k | 0 <= k < |s| - |r| ensures IsSpace(s[k]) {
        if k > 0 { assert s[k] == s[1..][k - 1]; }
      }
    }
  }

  /** `TrimEnd` keeps the longest prefix of `s` that does not end with whitespace. */
  lemma {:induction false} TrimEndSpec(s: string)
    ensures |TrimEnd(s)| <= |s| && TrimEnd(s) == s[..|TrimEnd(s)|]
    ensures |TrimEnd(s)| == 0 || !IsSpace(TrimEnd(s)[|TrimEnd(s)| - 1])
    ensures forall k :: |TrimEnd(s)| <= k < |s| ==> IsSpace(s[k])
  {
    if |s| > 0 && IsSpace(s[|s| - 1]) {
      TrimEndSpec(s[..|s| - 1]);
      var r := TrimEnd(s[..|s| - 1]);
      assert s[..|s| - 1][..|r|] == s[..|r|];
      forall k | |r| <= k < |s| ensures IsSpace(s[k]) {
        if k < |s| - 1 { assert s[k] == s[..|s| - 1][k]; }
      }
    }
  }

  /** A stripped string is no longer than the input and neither starts nor ends with whitespace. */
  lemma StripEnds(s: string)
    ensures |Strip(s)| <= |s|
    ensures |Strip(s)| == 0 || (!IsSpace(Strip(s)[0]) && !IsSpace(Strip(s)[|Strip(s)| - 1]))
  {
    var t := TrimStart(s);
    TrimStartSpec(s);
    TrimEndSpec(t);
    if |Strip(s)| > 0 {
      assert Strip(s)[0] == t[0];
    }
  }

  /** What `Strip` removes is whitespace at either end: the result is a slice of the input. */
  lemma StripIsTrimmedSlice(s: string)
    ensures exists i :: 0 <= i <= |s| - |Strip(s)| && Strip(s) <= s[i..]
                        && (forall k :: 0 <= k < i ==> IsSpace(s[k]))
                        && (forall k :: i + |Strip(s)| <= k < |s| ==> IsSpace(s[k]))
  {
    var t := TrimStart(s);
    TrimStartSpec(s);
    TrimEndSpec(t);
    var i := |s| - |t|;
    assert Strip(s) <= s[i..];
    forall k | i + |Strip(s)| <= k < |s| ensures IsSpace(s[k]) {
      assert s[k] == t[k - i];
    }
  }

  /** Stripping twice is stripping once. */
  lemma StripIdempotent(s: string)
    ensures Strip(Strip(s)) == Strip(s)
  {
    var r := Strip(s);
    StripEnds(s);
    assert TrimStart(r) == r;
    assert TrimEnd(r) == r;
  }

  /** A string made only of whitespace strips to the empty string. */
  lemma StripBlank(s: string)
    requires forall k :: 0 <= k < |s| ==> IsSpace(s[k])
    ensures Strip(s) == ""
  {
    TrimStartSpec(s);
  }

  /** `s.startswith(p)`. */
  predicate StartsWith(s: string, p: string) {
    |p| <= |s| && s[..|p|] == p
  }

  /** `sep.join(parts)`. */
  function Join(sep: string, parts: seq<string>): string {
    if |parts| == 0 then ""
    else if |parts| == 1 then parts[0]
    else Join(sep, parts[..|parts| - 1]) + sep + parts[|parts| - 1]
  }

  /** The total length of a list of strings. */
  function TotalLength(parts: seq<string>): nat {
    if parts == [] then 0 else TotalLength(parts[..|parts| - 1]) + |parts[|parts| - 1]|
  }

  /** A joined string is as long as its parts together plus one separator per gap. */
  lemma {:induction false} JoinLength(sep: string, parts: seq<string>)
    requires parts != []
    ensures |Join(sep, parts)| == TotalLength(parts) + (|parts| - 1) * |sep|
  {
    if |parts| > 1 {
      var init := parts[..|parts| - 1];
      JoinLength(sep, init);
      assert TotalLength(init) == TotalLength(init[..|init| - 1]) + |init[|init| - 1]|;
    } else {
      assert parts[..0] == [];
    }
  }

  /** Where part `k` starts in `sep.join(parts)`: after the first `k` parts and `k` separators. */
  function JoinOffset(sep: string, parts: seq<string>, k: nat): nat
    requires k <= |parts|
  {
    TotalLength(parts[..k]) + k * |sep|
  }

  /** Part `k` is followed by one separator and then part `k + 1`. */
  lemma JoinOffsetStep(sep: string, parts: seq<string>, k: nat)
    requires k < |parts|
    ensures JoinOffset(sep, parts, k + 1) == JoinOffset(sep, parts, k) + |parts[k]| + |sep|
  {
    assert parts[..k + 1][..k] == parts[..k];
  }

  /** Offsets of the first parts do not depend on the parts after them. */
  lemma JoinOffsetPrefix(sep: string, parts: seq<string>, m: nat, k: nat)
    requires k <= m <= |parts|
    ensures JoinOffset(sep, parts[..m], k) == JoinOffset(sep, parts, k)
  {
    assert parts[..m][..k] == parts[..k];
  }

  /** The whole joined string ends where a separator after its last part would start. */
  lemma JoinEnd(sep: string, parts: seq<string>)
    requires parts != []
    ensures |Join(sep, parts)| + |sep| == JoinOffset(sep, parts, |parts|)
  {
    JoinLength(sep, parts);
    assert parts[..|parts|] == parts;
  }

  /** Part `k` of `sep.join(parts)` occupies its place: from its offset on, for its length. */
  lemma {:induction false} JoinPartAt(sep: string, parts: seq<string>, k: nat)
    requires k < |parts|
    ensures JoinOffset(sep, parts, k) + |parts[k]| <= |Join(sep, parts)|
    ensures Join(sep, parts)[JoinOffset(sep, parts, k)..JoinOffset(sep, parts, k) + |parts[k]|] == parts[k]
  {
    if |parts| == 1 {
      assert parts[..0] == [];
    } else {
      var n := |parts|;
      var init := parts[..n - 1];
      var head := Join(sep, init);
      assert Join(sep, parts) == head + sep + parts[n - 1];
      JoinEnd(sep, init);
      if k < n - 1 {
        JoinPartAt(sep, init, k);
        JoinOffsetPrefix(sep, parts, n - 1, k);
        assert init[k] == parts[k];
        var o := JoinOffset(sep, parts, k);
        assert (head + sep + parts[n - 1])[o..o + |parts[k]|] == head[o..o + |parts[k]|];
      } else {
        JoinOffsetPrefix(sep, parts, n - 1, n - 1);
        assert init[..n - 1] == init;
        assert JoinOffset(sep, parts, k) == |head| + |sep|;
      }
    }
  }

  /** Between parts `k` and `k + 1` of `sep.join(parts)` stands exactly one separator. */
  lemma {:induction false} JoinSepAt(sep: string, parts: seq<string>, k: nat)
    requires k + 1 < |parts|
    ensures JoinOffset(sep, parts, k) + |parts[k]| + |sep| == JoinOffset(sep, parts, k + 1) <= |Join(sep, parts)|
    ensures Join(sep, parts)[JoinOffset(sep, parts, k) + |parts[k]|..JoinOffset(sep, parts, k + 1)] == sep
  {
    var n := |parts|;
    var init := parts[..n - 1];
    var head := Join(sep, init);
    assert Join(sep, parts) == head + sep + parts[n - 1];
    JoinOffsetStep(sep, parts, k);
    JoinPartAt(sep, parts, k + 1);
    var o := JoinOffset(sep, parts, k) + |parts[k]|;
    if k + 2 < n {
      JoinSepAt(sep, init, k);
      JoinOffsetPrefix(sep, parts, n - 1, k);
      JoinOffsetPrefix(sep, parts, n - 1, k + 1);
      assert init[k] == parts[k];
      assert (head + sep + parts[n - 1])[o..o + |sep|] == head[o..o + |sep|];
    } else {
      JoinEnd(sep, init);
      JoinOffsetPrefix(sep, parts, n - 1, n - 1);
      assert init[..n - 1] == init;
      assert o == |head|;
    }
  }

  /** A list without repeated elements (a Python set turned into a list). */
  predicate NoDup<T(==)>(s: seq<T>) {
    forall i, j :: 0 <= i < j < |s| ==> s[i] != s[j]
  }
}
