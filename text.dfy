/**
 * The few pieces of Python's `str` behaviour the configuration parser relies on:
 * `str.isspace` for one character, `str.strip()` with no argument, the position of
 * the first occurrence of a character (what `str.split(sep, 1)` cuts at), and the
 * ASCII test that `hmac.compare_digest` applies to `str` arguments.
 */
module Text {

  /** Python's `str.isspace` on one character (Unicode white space, as CPython lists it). */
  predicate IsSpace(c: char) {
    var n := c as int;
    || (0x09 <= n <= 0x0D) || (0x1C <= n <= 0x20)
    || n == 0x85 || n == 0xA0 || n == 0x1680
    || (0x2000 <= n <= 0x200A)
    || n == 0x2028 || n == 0x2029 || n == 0x202F || n == 0x205F || n == 0x3000
  }

  predicate AllSpace(s: string) {
    forall i :: 0 <= i < |s| ==> IsSpace(s[i])
  }

  /** Neither end of `s` is white space. */
  predicate Trimmed(s: string) {
    s == [] || (!IsSpace(s[0]) && !IsSpace(s[|s| - 1]))
  }

  /** `s.lstrip()`: what is left after dropping all leading white space. */
  function TrimLeft(s: string): string {
    if s != [] && IsSpace(s[0]) then TrimLeft(s[1..]) else s
  }

  /** `s.rstrip()`: what is left after dropping all trailing white space. */
  function TrimRight(s: string): string {
    if s != [] && IsSpace(s[|s| - 1]) then TrimRight(s[..|s| - 1]) else s
  }

  /** TrimLeft keeps a suffix, drops only white space, and stops at a non-space character. */
  lemma {:induction false} TrimLeftKeepsSuffix(s: string)
    ensures var r := TrimLeft(s);
      && |r| <= |s| && r == s[|s| - |r|..]
      && AllSpace(s[..|s| - |r|])
      && (r != [] ==> !IsSpace(r[0]))
  {
    if s != [] && IsSpace(s[0]) {
      TrimLeftKeepsSuffix(s[1..]);
      var r := TrimLeft(s);
      assert s[1..][|s[1..]| - |r|..] == s[|s| - |r|..];
      assert s[..|s| - |r|] == [s[0]] + s[1..][..|s[1..]| - |r|];
    }
  }

  /** TrimRight keeps a prefix, drops only white space, and stops at a non-space character. */
  lemma {:induction false} TrimRightKeepsPrefix(s: string)
    ensures var r := TrimRight(s);
      && |r| <= |s| && r == s[..|r|]
      && AllSpace(s[|r|..])
      && (r != [] ==> !IsSpace(r[|r| - 1]))
  {
    if s != [] && IsSpace(s[|s| - 1]) {
      var s' := s[..|s| - 1];
      TrimRightKeepsPrefix(s');
      var r := TrimRight(s);
      assert s'[..|r|] == s[..|r|];
      assert s[|r|..] == s'[|r|..] + [s[|s| - 1]];
    }
  }

  /** `s.strip()`: white space gone from both ends. */
  function Strip(s: string): (r: string)
    ensures |r| <= |s|
    ensures Trimmed(r)
  {
    TrimLeftKeepsSuffix(s);
    TrimRightKeepsPrefix(TrimLeft(s));
    TrimRight(TrimLeft(s))
  }

  /** What `Strip` removes is white space at the two ends and nothing else. */
  lemma StripCutsOnlySpace(s: string)
    ensures exists p, q :: s == p + Strip(s) + q && AllSpace(p) && AllSpace(q)
  {
    TrimLeftKeepsSuffix(s);
    var l := TrimLeft(s);
    TrimRightKeepsPrefix(l);
    var r := TrimRight(l);
    var p, q := s[..|s| - |l|], l[|r|..];
    assert AllSpace(p) && AllSpace(q);
    assert l == r + q;
    assert s == p + l;
    assert p + (r + q) == p + r + q;
    assert s == p + Strip(s) + q;
  }

  lemma {:induction false} TrimLeftSkipsSpace(p: string, x: string)
    requires AllSpace(p)
    ensures TrimLeft(p + x) == TrimLeft(x)
  {
    if p != [] {
      assert (p + x)[0] == p[0] && IsSpace(p[0]);
      assert (p + x)[1..] == p[1..] + x;
      TrimLeftSkipsSpace(p[1..], x);
    } else {
      assert p + x == x;
    }
  }

  lemma {:induction false} TrimRightSkipsSpace(y: string, q: string)
    requires AllSpace(q)
    ensures TrimRight(y + q) == TrimRight(y)
  {
    if q != [] {
      assert (y + q)[|y + q| - 1] == q[|q| - 1] && IsSpace(q[|q| - 1]);
      assert (y + q)[..|y + q| - 1] == y + q[..|q| - 1];
      TrimRightSkipsSpace(y, q[..|q| - 1]);
    } else {
      assert y + q == y;
    }
  }

  /**
   * The converse of StripCutsOnlySpace: a trimmed core wrapped in white space is
   * exactly what `Strip` recovers. Together the two lemmas pin `Strip` down.
   */
  lemma StripRecoversCore(p: string, r: string, q: string)
    requires AllSpace(p) && AllSpace(q) && Trimmed(r)
    ensures Strip(p + r + q) == r
  {
    assert p + r + q == p + (r + q);
    TrimLeftSkipsSpace(p, r + q);
    if r == [] {
      assert r + q == q;
      TrimLeftKeepsSuffix(q);
    } else {
      assert TrimLeft(r + q) == r + q;
      TrimRightSkipsSpace(r, q);
    }
  }

  /** Stripping twice is stripping once. */
  lemma StripIdempotent(s: string)
    ensures Strip(Strip(s)) == Strip(s)
  {
    var r := Strip(s);
    assert [] + r + [] == r;
    StripRecoversCore([], r, []);
  }

  /** The index of the first `c` in `s`: where `s.split(c, 1)` cuts. */
  function FirstIndexOf(s: string, c: char): (i: nat)
    requires c in s
    ensures i < |s| && s[i] == c && c !in s[..i]
  {
    if s[0] == c then 0 else 1 + FirstIndexOf(s[1..], c)
  }

  /** Every character is ASCII. */
  predicate IsAscii(s: string) {
    forall i :: 0 <= i < |s| ==> s[i] as int < 128
  }
}
