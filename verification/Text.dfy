/** Character classes, trimming and UTF-8 lengths over Dafny strings.

    A Dafny `string` is a sequence of Unicode scalar values, which is what a Rust
    `&str` is once decoded. Rust measures `len()` and slices `[..n]` in UTF-8
    bytes, so the byte length of a string is modelled by `ByteLen`.
 */
module Text {

  /** The Unicode White_Space property. Rust's `char::is_whitespace` (used by
      `str::trim`) and the regex class `\s` (Unicode mode) both mean this set. */
  predicate IsSpace(c: char) {
    || ('\t' <= c <= '\r')
    || c == ' '
    || c == '\U{0085}'
    || c == '\U{00A0}'
    || c == '\U{1680}'
    || ('\U{2000}' <= c <= '\U{200A}')
    || c == '\U{2028}'
    || c == '\U{2029}'
    || c == '\U{202F}'
    || c == '\U{205F}'
    || c == '\U{3000}'
  }

  predicate NoSpace(s: string) {
    forall i :: 0 <= i < |s| ==> !IsSpace(s[i])
  }

  predicate AllSpace(s: string) {
    forall i :: 0 <= i < |s| ==> IsSpace(s[i])
  }

  lemma NoSpaceConcat(a: string, b: string)
    requires NoSpace(a) && NoSpace(b)
    ensures NoSpace(a + b)
  {
    forall i | 0 <= i < |a + b| ensures !IsSpace((a + b)[i]) {
      if i >= |a| {
        assert (a + b)[i] == b[i - |a|];
      }
    }
  }

  /** The first index at or after `i` that holds no whitespace, or `|s|`. */
  function SkipSpace(s: string, i: nat): (e: nat)
    requires i <= |s|
    ensures i <= e <= |s|
    ensures forall k :: i <= k < e ==> IsSpace(s[k])
    ensures e == |s| || !IsSpace(s[e])
    decreases |s| - i
  {
    if i == |s| || !IsSpace(s[i]) then i else SkipSpace(s, i + 1)
  }

  /** The index just past the last character in `s[lo..hi]` that is not
      whitespace, or `lo` when there is none. */
  function SkipSpaceBack(s: string, lo: nat, hi: nat): (e: nat)
    requires lo <= hi <= |s|
    ensures lo <= e <= hi
    ensures forall k :: e <= k < hi ==> IsSpace(s[k])
    ensures e == lo || !IsSpace(s[e - 1])
    decreases hi - lo
  {
    if hi == lo || !IsSpace(s[hi - 1]) then hi else SkipSpaceBack(s, lo, hi - 1)
  }

  /** Rust's `str::trim`: `s` without its leading and trailing whitespace. */
  function Trim(s: string): (r: string)
    ensures exists a :: 0 <= a <= |s| - |r| && r == s[a..a + |r|] && AllSpace(s[..a]) && AllSpace(s[a + |r|..])
    ensures |r| > 0 ==> !IsSpace(r[0]) && !IsSpace(r[|r| - 1])
    ensures r == [] <==> AllSpace(s)
  {
    var a := SkipSpace(s, 0);
    var e := SkipSpaceBack(s, a, |s|);
    TrimCut(s, a, e);
    s[a..e]
  }

  /** Cutting the maximal leading run `s[..a]` and trailing run `s[e..]` of
      whitespace leaves a slice whose ends are not whitespace. */
  lemma TrimCut(s: string, a: nat, e: nat)
    requires a <= e <= |s|
    requires forall k :: 0 <= k < a ==> IsSpace(s[k])
    requires a == |s| || !IsSpace(s[a])
    requires forall k :: e <= k < |s| ==> IsSpace(s[k])
    requires e == a || !IsSpace(s[e - 1])
    ensures var r := s[a..e];
      && r == s[a..a + |r|] && AllSpace(s[..a]) && AllSpace(s[a + |r|..])
      && (|r| > 0 ==> !IsSpace(r[0]) && !IsSpace(r[|r| - 1]))
      && (r == [] <==> AllSpace(s))
  {
    if a == |s| {
      assert s[..a] == s;
    } else {
      assert e > a;
      assert s[a..e][0] == s[a];
    }
  }

  /** A string whose first and last characters are not whitespace is its own trim. */
  lemma TrimOfTrimmed(s: string)
    requires |s| > 0 && !IsSpace(s[0]) && !IsSpace(s[|s| - 1])
    ensures Trim(s) == s
  {
  }

  lemma TrimIdempotent(s: string)
    ensures Trim(Trim(s)) == Trim(s)
  {
    if |Trim(s)| > 0 {
      TrimOfTrimmed(Trim(s));
    }
  }

  /** Rust's `line.trim().is_empty()`: the line is blank exactly when every
      character of it is whitespace. */
  predicate IsBlank(line: string): (b: bool)
    ensures b <==> AllSpace(line)
  {
    Trim(line) == []
  }

  /** Length of the UTF-8 encoding of one scalar value. */
  function Utf8Width(c: char): (w: nat)
    ensures 1 <= w <= 4
    ensures c < '\U{0080}' <==> w == 1
  {
    if c < '\U{0080}' then 1
    else if c < '\U{0800}' then 2
    else if c < '\U{10000}' then 3
    else 4
  }

  /** Rust's `str::len`: the length of the UTF-8 encoding of `s`. */
  function ByteLen(s: string): (n: nat)
    ensures |s| <= n <= 4 * |s|
  {
    if |s| == 0 then 0 else ByteLen(s[..|s| - 1]) + Utf8Width(s[|s| - 1])
  }

  lemma ByteLenPrefixStep(s: string, k: nat)
    requires k < |s|
    ensures ByteLen(s[..k + 1]) == ByteLen(s[..k]) + Utf8Width(s[k])
  {
    assert s[..k + 1][..k] == s[..k];
  }

  lemma {:induction false} ByteLenConcat(a: string, b: string)
    ensures ByteLen(a + b) == ByteLen(a) + ByteLen(b)
    decreases |b|
  {
    if |b| == 0 {
      assert a + b == a;
    } else {
      var b' := b[..|b| - 1];
      assert (a + b)[..|a + b| - 1] == a + b';
      ByteLenConcat(a, b');
    }
  }

  /** An all-ASCII string has one byte per character. */
  lemma {:induction false} ByteLenAscii(s: string)
    requires forall i :: 0 <= i < |s| ==> s[i] < '\U{0080}'
    ensures ByteLen(s) == |s|
    decreases |s|
  {
    if |s| > 0 {
      ByteLenAscii(s[..|s| - 1]);
    }
  }

  /** Byte offsets of character boundaries grow strictly with the character index. */
  lemma {:induction false} ByteLenPrefixMonotone(s: string, j: nat, k: nat)
    requires j < k <= |s|
    ensures ByteLen(s[..j]) < ByteLen(s[..k])
    decreases k - j
  {
    ByteLenPrefixStep(s, k - 1);
    if j < k - 1 {
      ByteLenPrefixMonotone(s, j, k - 1);
    }
  }

  /** The longest prefix of `s`, counted in characters, whose encoding fits in
      `limit` bytes: the last character boundary at or before byte `limit`. */
  function FitPrefix(s: string, limit: nat): (k: nat)
    ensures k <= |s|
    ensures ByteLen(s[..k]) <= limit
    ensures k == |s| || ByteLen(s[..k + 1]) > limit
    decreases |s|
  {
    if ByteLen(s) <= limit then
      assert s[..|s|] == s;
      |s|
    else
      var init := s[..|s| - 1];
      var k := FitPrefix(init, limit);
      assert init[..k] == s[..k];
      assert k < |init| ==> init[..k + 1] == s[..k + 1];
      assert k == |init| ==> s[..k + 1] == s;
      k
  }

  /** Byte offset `n` falls between two characters of `s` (or at either end). */
  ghost predicate IsCharBoundary(s: string, n: nat) {
    exists k :: 0 <= k <= |s| && ByteLen(s[..k]) == n
  }

  /** `FitPrefix` lands exactly on byte `n` precisely when `n` is a boundary. */
  lemma FitPrefixAtBoundary(s: string, n: nat)
    ensures IsCharBoundary(s, n) <==> ByteLen(s[..FitPrefix(s, n)]) == n
  {
    if IsCharBoundary(s, n) {
      var k :| 0 <= k <= |s| && ByteLen(s[..k]) == n;
      BoundaryIsFit(s, n, k);
    }
  }

  /** A prefix of exactly `n` bytes is the one `FitPrefix` picks. */
  lemma BoundaryIsFit(s: string, n: nat, k: nat)
    requires k <= |s| && ByteLen(s[..k]) == n
    ensures FitPrefix(s, n) == k
  {
    var f := FitPrefix(s, n);
    if k < f {
      ByteLenPrefixMonotone(s, k, f);
    } else if f + 1 < k {
      ByteLenPrefixMonotone(s, f + 1, k);
    }
  }
}
