/** The recursive substring test that the library's tests state their
    rendering assertions with (lib_test.go, containsSubstring). */
module Substring {

  /** `sub` occurs in `s` starting at index `i`. */
  predicate OccursAt(s: string, sub: string, i: int)
  {
    0 <= i && i + |sub| <= |s| && s[i..i + |sub|] == sub
  }

  /** Go's `containsSubstring(s, substr)`: `s` is at least as long as `sub` and
      is either equal to it, starts with it, or contains it after its first
      character. Go's `len` and slicing count bytes; here they count characters. */
  function ContainsSubstring(s: string, sub: string): (r: bool)
    ensures |sub| > |s| ==> !r
    ensures sub == [] ==> r
    ensures s == sub ==> r
    decreases |s|
  {
    |s| >= |sub| && (s == sub || (|s| > 0 && (s[0..|sub|] == sub || ContainsSubstring(s[1..], sub))))
  }

  /** The recursive test means exactly "there is an index at which `sub` occurs". */
  lemma {:induction false} ContainsIffOccurs(s: string, sub: string)
    ensures ContainsSubstring(s, sub) <==> exists i :: OccursAt(s, sub, i)
    decreases |s|
  {
    if ContainsSubstring(s, sub) {
      if s == sub || s[0..|sub|] == sub {
        assert OccursAt(s, sub, 0);
      } else {
        ContainsIffOccurs(s[1..], sub);
        var i :| OccursAt(s[1..], sub, i);
        assert s[1..][i..i + |sub|] == s[i + 1..i + 1 + |sub|];
        assert OccursAt(s, sub, i + 1);
      }
    }
    if i :| OccursAt(s, sub, i) {
      if i == 0 {
        assert s[0..|sub|] == sub;
      } else {
        assert s[1..][i - 1..i - 1 + |sub|] == s[i..i + |sub|];
        assert OccursAt(s[1..], sub, i - 1);
        ContainsIffOccurs(s[1..], sub);
      }
    }
  }

  /** A prefix of `s` is contained in `s`. */
  lemma PrefixContained(s: string, sub: string)
    requires sub <= s
    ensures ContainsSubstring(s, sub)
  {
  }

  /** Whatever the tail of `s` contains, `s` contains. */
  lemma TailContained(s: string, sub: string)
    requires |s| > 0 && ContainsSubstring(s[1..], sub)
    ensures ContainsSubstring(s, sub)
  {
  }

  /** The middle part of a three-way concatenation is contained in it. */
  lemma InfixContained(a: string, b: string, c: string)
    ensures ContainsSubstring(a + b + c, b)
  {
    var s := a + b + c;
    assert s[|a|..|a| + |b|] == b;
    assert OccursAt(s, b, |a|);
    ContainsIffOccurs(s, b);
  }

  /** A suffix of `s`, and every prefix of that suffix, is contained in `s`. */
  lemma SuffixContained(s: string, t: string, u: string)
    requires |t| <= |s| && s[|s| - |t|..] == t
    requires u <= t
    ensures ContainsSubstring(s, t) && ContainsSubstring(s, u)
  {
    var k := |s| - |t|;
    assert s[k..k + |t|] == t;
    assert OccursAt(s, t, k);
    assert s[k..k + |u|] == u;
    assert OccursAt(s, u, k);
    ContainsIffOccurs(s, t);
    ContainsIffOccurs(s, u);
  }

}
