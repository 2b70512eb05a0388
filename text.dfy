/** Python's `str.strip()` with no argument, as used on every field the
    broadcaster reads (client_win.py:48-49, 125-127). */
module Text {

  /** The characters that `str.isspace()` accepts, and therefore the ones
      `str.strip()` removes: the ASCII controls TAB..CR, the separators
      FS..US, SPACE, NEL, NO-BREAK SPACE and the Unicode space separators. */
  predicate IsSpace(c: char) {
    var n := c as int;
    (0x09 <= n <= 0x0D) || (0x1C <= n <= 0x20) || n == 0x85 || n == 0xA0 ||
    n == 0x1680 || (0x2000 <= n <= 0x200A) || n == 0x2028 || n == 0x2029 ||
    n == 0x202F || n == 0x205F || n == 0x3000
  }

  /** True when every character of `s` is whitespace (vacuously for ""). */
  predicate AllSpace(s: string) {
    forall k :: 0 <= k < |s| ==> IsSpace(s[k])
  }

  /** Removes leading whitespace. */
  function StripStart(s: string): string {
    if s != [] && IsSpace(s[0]) then StripStart(s[1..]) else s
  }

  /** Removes trailing whitespace. */
  function StripEnd(s: string): string {
    if s != [] && IsSpace(s[|s| - 1]) then StripEnd(s[..|s| - 1]) else s
  }

  /** `s.strip()`. */
  function Strip(s: string): string {
    StripEnd(StripStart(s))
  }

  /** `StripStart(s)` is the suffix of `s` that starts at its first
      non-space character. */
  lemma {:induction false} StripStartSpec(s: string)
    ensures var r := StripStart(s);
            |r| <= |s| && r == s[|s| - |r|..] &&
            (r == [] || !IsSpace(r[0])) &&
            AllSpace(s[..|s| - |r|])
  {
    if s != [] && IsSpace(s[0]) {
      StripStartSpec(s[1..]);
      var r := StripStart(s);
      assert s[..|s| - |r|] == [s[0]] + s[1..][..|s| - 1 - |r|];
    }
  }

  /** `StripEnd(s)` is the prefix of `s` that ends at its last non-space
      character. */
  lemma {:induction false} StripEndSpec(s: string)
    ensures var r := StripEnd(s);
            |r| <= |s| && r == s[..|r|] &&
            (r == [] || !IsSpace(r[|r| - 1])) &&
            AllSpace(s[|r|..])
  {
    if s != [] && IsSpace(s[|s| - 1]) {
      var init := s[..|s| - 1];
      StripEndSpec(init);
      var r := StripEnd(s);
      assert s[|r|..] == init[|r|..] + [s[|s| - 1]];
    }
  }

  /** `s.strip()` is the largest infix of `s` that neither starts nor ends
      with whitespace: everything cut off on either side is whitespace, and
      nothing is left exactly when `s` is all whitespace. */
  lemma StripSpec(s: string)
    ensures var r := Strip(s);
            (r == [] || (!IsSpace(r[0]) && !IsSpace(r[|r| - 1]))) &&
            (exists lo :: 0 <= lo <= |s| - |r| && r == s[lo..lo + |r|] &&
                          AllSpace(s[..lo]) && AllSpace(s[lo + |r|..])) &&
            (r == [] <==> AllSpace(s))
  {
    var t := StripStart(s);
    StripStartSpec(s);
    StripEndSpec(t);
    var r := StripEnd(t);
    var lo := |s| - |t|;
    assert r == s[lo..lo + |r|];
    assert AllSpace(s[..lo]);
    assert AllSpace(s[lo + |r|..]) by {
      forall k | lo + |r| <= k < |s| ensures IsSpace(s[k]) {
        assert s[k] == t[k - lo];
        assert t[|r|..][k - lo - |r|] == t[k - lo];
      }
    }
    if r == [] {
      assert t[|r|..] == t;
      assert s[..lo] == s;
    }
  }

  /** Stripping twice is stripping once. */
  lemma StripIdempotent(s: string)
    ensures Strip(Strip(s)) == Strip(s)
  {
    var r := Strip(s);
    StripSpec(s);
    assert StripStart(r) == r;
    assert StripEnd(r) == r;
  }
}
