/**
 * Python's `str.strip()` with no argument: remove the longest run of
 * whitespace characters from each end of a string. As in CPython, a left
 * index moves right past whitespace, then a right index moves left past
 * whitespace without crossing the left one, and the slice between them is
 * the result. "Whitespace" is what `str.isspace()` accepts for one character.
 */
module PyStr {

  /** The characters for which Python's `str.isspace()` is true. */
  function IsSpace(c: char): (space: bool)
    // the ASCII whitespace characters are all included
    ensures c == ' ' || c == '\t' || c == '\n' || c == '\r' || c == '\U{000B}' || c == '\U{000C}' ==> space
    // no character of an IPv4 or IPv6 address is
    ensures space ==> !('0' <= c <= '9' || 'a' <= c <= 'f' || 'A' <= c <= 'F' || c == '.' || c == ':')
  {
    || ('\t' <= c <= '\r')               // \t \n \v \f \r
    || ('\U{001C}' <= c <= '\U{001F}')   // file, group, record and unit separators
    || c == ' '
    || c == '\U{0085}' || c == '\U{00A0}' || c == '\U{1680}'
    || ('\U{2000}' <= c <= '\U{200A}')
    || c == '\U{2028}' || c == '\U{2029}' || c == '\U{202F}'
    || c == '\U{205F}' || c == '\U{3000}'
  }

  /** Every character of `s` at a position in `[lo, hi)` is whitespace. */
  ghost predicate SpaceBetween(s: string, lo: int, hi: int)
    requires 0 <= lo && hi <= |s|
  {
    forall m :: lo <= m < hi ==> IsSpace(s[m])
  }

  /** Neither the first nor the last character of `s` is whitespace. */
  predicate NoOuterSpace(s: string) {
    s == [] || (!IsSpace(s[0]) && !IsSpace(s[|s| - 1]))
  }

  /** The first position at or after `i` that does not hold whitespace (or `|s|`). */
  function SkipSpace(s: string, i: nat): (k: nat)
    requires i <= |s|
    ensures i <= k <= |s|
    ensures k < |s| ==> !IsSpace(s[k])
    decreases |s| - i
  {
    if i < |s| && IsSpace(s[i]) then SkipSpace(s, i + 1) else i
  }

  /** The end of `s[lo..j]` once its trailing whitespace is dropped. */
  function SkipSpaceBack(s: string, lo: nat, j: nat): (k: nat)
    requires lo <= j <= |s|
    ensures lo <= k <= j
    ensures lo < k ==> !IsSpace(s[k - 1])
  {
    if lo < j && IsSpace(s[j - 1]) then SkipSpaceBack(s, lo, j - 1) else j
  }

  /** Python's `s.strip()`. */
  function Strip(s: string): (r: string)
    ensures |r| <= |s|
    ensures NoOuterSpace(r)
  {
    var a := SkipSpace(s, 0);
    s[a..SkipSpaceBack(s, a, |s|)]
  }

  /**
   * `s[a..b]` is what remains of `s` once the whitespace on both ends is
   * cut off: everything outside it is whitespace and it does not itself
   * begin or end with whitespace.
   */
  ghost predicate StrippedSlice(s: string, a: int, b: int) {
    && 0 <= a <= b <= |s|
    && SpaceBetween(s, 0, a)
    && SpaceBetween(s, b, |s|)
    && (a < b ==> !IsSpace(s[a]) && !IsSpace(s[b - 1]))
  }

  /** Everything `SkipSpace` passes over is whitespace. */
  lemma {:induction false} SkipSpaceSkipsSpace(s: string, i: nat)
    requires i <= |s|
    ensures SpaceBetween(s, i, SkipSpace(s, i))
    decreases |s| - i
  {
    if i < |s| && IsSpace(s[i]) {
      SkipSpaceSkipsSpace(s, i + 1);
    }
  }

  /** Everything `SkipSpaceBack` passes over is whitespace. */
  lemma {:induction false} SkipSpaceBackSkipsSpace(s: string, lo: nat, j: nat)
    requires lo <= j <= |s|
    ensures SpaceBetween(s, SkipSpaceBack(s, lo, j), j)
  {
    if lo < j && IsSpace(s[j - 1]) {
      SkipSpaceBackSkipsSpace(s, lo, j - 1);
    }
  }

  /** `Strip` cuts off exactly the outer whitespace of its argument. */
  lemma StripIsSlice(s: string)
    ensures exists a, b :: StrippedSlice(s, a, b) && Strip(s) == s[a..b]
  {
    var a := SkipSpace(s, 0);
    var b := SkipSpaceBack(s, a, |s|);
    SkipSpaceSkipsSpace(s, 0);
    SkipSpaceBackSkipsSpace(s, a, |s|);
    if a == b {
      // the right index stopped at the left one: nothing but whitespace is outside
      assert SpaceBetween(s, b, |s|);
    }
    assert StrippedSlice(s, a, b);
  }

  /** `SkipSpace` stops at the first character that is not whitespace. */
  lemma {:induction false} SkipSpaceStopsAt(s: string, i: nat, a: nat)
    requires i <= a <= |s| && SpaceBetween(s, i, a) && (a < |s| ==> !IsSpace(s[a]))
    ensures SkipSpace(s, i) == a
    decreases a - i
  {
    if i < a {
      SkipSpaceStopsAt(s, i + 1, a);
    }
  }

  /** `SkipSpaceBack` stops after the last character that is not whitespace. */
  lemma {:induction false} SkipSpaceBackStopsAt(s: string, lo: nat, b: nat, j: nat)
    requires lo <= b <= j <= |s| && SpaceBetween(s, b, j) && (lo < b ==> !IsSpace(s[b - 1]))
    ensures SkipSpaceBack(s, lo, j) == b
    decreases j - b
  {
    if b < j {
      SkipSpaceBackStopsAt(s, lo, b, j - 1);
    }
  }

  /**
   * The outer whitespace is determined uniquely: any slice that is
   * surrounded only by whitespace and has none at its own ends is the
   * one `Strip` returns.
   */
  lemma StripUnique(s: string, a: int, b: int)
    requires StrippedSlice(s, a, b)
    ensures Strip(s) == s[a..b]
  {
    if a == b {
      // every character of s is whitespace, so both indices end at |s|
      assert SpaceBetween(s, 0, |s|) by {
        forall m | 0 <= m < |s| ensures IsSpace(s[m]) {
          assert SpaceBetween(s, 0, a) && SpaceBetween(s, b, |s|);
        }
      }
      SkipSpaceStopsAt(s, 0, |s|);
    } else {
      SkipSpaceStopsAt(s, 0, a);
      SkipSpaceBackStopsAt(s, a, b, |s|);
    }
  }

  /** Stripping twice is the same as stripping once. */
  lemma StripIdempotent(s: string)
    ensures Strip(Strip(s)) == Strip(s)
  {
    var r := Strip(s);
    assert r[0..|r|] == r;
    StripUnique(r, 0, |r|);
  }
}
