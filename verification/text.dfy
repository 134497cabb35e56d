/**
 * Substring containment on strings, the `t in s` test that decides whether
 * an update section is appended, with the facts about it that the update
 * rule relies on.
 */
module Text {

  /** True when `t` occurs in `s` starting at offset `i`. */
  predicate OccursAt(s: string, t: string, i: int) {
    0 <= i <= |s| - |t| && s[i..i + |t|] == t
  }

  /** True when `t` occurs as a contiguous block somewhere in `s`. */
  predicate Contains(s: string, t: string) {
    exists i :: 0 <= i <= |s| - |t| && OccursAt(s, t, i)
  }

  /** A block found at offset `i` is a witness of containment. */
  lemma ContainsAt(s: string, t: string, i: int)
    requires OccursAt(s, t, i)
    ensures Contains(s, t)
  {
  }

  /** A string longer than `s` cannot occur in it. */
  lemma TooLongNotContained(s: string, t: string)
    requires |s| < |t|
    ensures !Contains(s, t)
  {
  }

  /** A string occurs in any concatenation it stands in the middle of. */
  lemma {:induction false} ContainsInMiddle(p: string, t: string, q: string)
    ensures Contains(p + t + q, t)
  {
    var s := p + t + q;
    assert s[|p|..|p| + |t|] == t;
    ContainsAt(s, t, |p|);
  }

  /** Appending text after `s` keeps every block that already occurs in `s`. */
  lemma {:induction false} ContainsExtend(s: string, u: string, t: string)
    requires Contains(s, t)
    ensures Contains(s + u, t)
  {
    var i :| 0 <= i <= |s| - |t| && OccursAt(s, t, i);
    assert (s + u)[i..i + |t|] == s[i..i + |t|];
    ContainsAt(s + u, t, i);
  }

  /** Containment is transitive: a block of a block of `s` is a block of `s`. */
  lemma {:induction false} ContainsTransitive(s: string, m: string, t: string)
    requires Contains(s, m) && Contains(m, t)
    ensures Contains(s, t)
  {
    var i :| 0 <= i <= |s| - |m| && OccursAt(s, m, i);
    var j :| 0 <= j <= |m| - |t| && OccursAt(m, t, j);
    forall k | 0 <= k < |t|
      ensures s[i + j + k] == t[k]
    {
      assert m[j + k] == t[k];
      assert s[i + (j + k)] == m[j + k];
    }
    assert s[i + j..i + j + |t|] == t;
    ContainsAt(s, t, i + j);
  }
}
