/** Python's `str.strip()` with no argument, on strings of Unicode code points. */
module Text {

  /** The code points for which Python's `str.isspace()` holds. */
  predicate IsSpace(c: char) {
    var n := c as int;
    || n == 0x20
    || 0x09 <= n <= 0x0D
    || 0x1C <= n <= 0x1F
    || n == 0x85 || n == 0xA0 || n == 0x1680
    || 0x2000 <= n <= 0x200A
    || n == 0x2028 || n == 0x2029 || n == 0x202F || n == 0x205F || n == 0x3000
  }

  predicate AllSpace(s: string) {
    forall i :: 0 <= i < |s| ==> IsSpace(s[i])
  }

  /** A string with no white space at either end: what `strip` produces. */
  predicate IsStripped(s: string) {
    s == [] || (!IsSpace(s[0]) && !IsSpace(s[|s| - 1]))
  }

  /** The position of the first character at or after `i` that is not white space (or |s|). */
  function SkipLeading(s: string, i: nat): (k: nat)
    requires i <= |s|
    requires forall j :: 0 <= j < i ==> IsSpace(s[j])
    ensures i <= k <= |s|
    ensures forall j :: 0 <= j < k ==> IsSpace(s[j])
    ensures k < |s| ==> !IsSpace(s[k])
    decreases |s| - i
  {
    if i < |s| && IsSpace(s[i]) then SkipLeading(s, i + 1) else i
  }

  /** Moving down from `j` but not below `lo`, the position just after the last character that is not white space. */
  function SkipTrailing(s: string, lo: nat, j: nat): (k: nat)
    requires lo <= j <= |s|
    requires forall x :: j <= x < |s| ==> IsSpace(s[x])
    ensures lo <= k <= j
    ensures forall x :: k <= x < |s| ==> IsSpace(s[x])
    ensures k > lo ==> !IsSpace(s[k - 1])
    decreases j
  {
    if j > lo && IsSpace(s[j - 1]) then SkipTrailing(s, lo, j - 1) else j
  }

  /**
   * `s.strip()`: `s` without its leading and trailing white space. What is left
   * is a contiguous middle part of `s`, and everything cut off is white space.
   */
  function Strip(s: string): (r: string)
    ensures IsStripped(r)
    ensures var a := SkipLeading(s, 0);
      && a + |r| <= |s|
      && r == s[a..a + |r|]
      && (forall i :: 0 <= i < a ==> IsSpace(s[i]))
      && (forall i :: a + |r| <= i < |s| ==> IsSpace(s[i]))
  {
    var a := SkipLeading(s, 0);
    var b := SkipTrailing(s, a, |s|);
    s[a..b]
  }

  /** Stripping removes exactly the white space added around a stripped string. */
  lemma StripPadded(p: string, x: string, q: string)
    requires AllSpace(p) && AllSpace(q) && IsStripped(x)
    ensures Strip(p + x + q) == x
  {
    var s := p + x + q;
    forall j | 0 <= j < |p| ensures IsSpace(s[j]) {
      assert s[j] == p[j];
    }
    forall j | |p| + |x| <= j < |s| ensures IsSpace(s[j]) {
      assert s[j] == q[j - |p| - |x|];
    }
    if x == [] {
      assert SkipLeading(s, 0) == |s|;
    } else {
      assert s[|p|] == x[0];
      assert s[|p| + |x| - 1] == x[|x| - 1];
      var a := SkipLeading(s, 0);
      assert a == |p|;
      assert SkipTrailing(s, a, |s|) == |p| + |x|;
      assert s[|p|..|p| + |x|] == x;
    }
  }

  /** `strip` yields the empty string exactly when the input is all white space. */
  lemma StripEmptyIff(s: string)
    ensures Strip(s) == [] <==> AllSpace(s)
  {
  }

  /** Stripping twice is the same as stripping once. */
  lemma StripIdempotent(s: string)
    ensures Strip(Strip(s)) == Strip(s)
  {
    StripPadded([], Strip(s), []);
    assert [] + Strip(s) + [] == Strip(s);
  }
}
