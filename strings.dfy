/** Substring occurrence, the relation behind Python's `x in s` on strings. */
module Strings {

  /** `t` occurs in `s` starting at index `i`. */
  predicate OccursAt(t: string, s: string, i: int)
  {
    0 <= i <= |s| - |t| && s[i..i + |t|] == t
  }

  /** `t` occurs as a contiguous piece of `s`. */
  ghost predicate Occurs(t: string, s: string)
  {
    exists i :: OccursAt(t, s, i)
  }

  lemma OccursSelf(t: string)
    ensures Occurs(t, t)
  {
    assert OccursAt(t, t, 0);
  }

  /** An occurrence in `a` is an occurrence in `pre + a`. */
  lemma OccursAfter(t: string, pre: string, a: string)
    requires Occurs(t, a)
    ensures Occurs(t, pre + a)
  {
    var i :| OccursAt(t, a, i);
    var s := pre + a;
    assert s[|pre| + i..|pre| + i + |t|] == a[i..i + |t|];
    assert OccursAt(t, s, |pre| + i);
  }

  /** An occurrence in `a` is an occurrence in `a + post`. */
  lemma OccursBefore(t: string, a: string, post: string)
    requires Occurs(t, a)
    ensures Occurs(t, a + post)
  {
    var i :| OccursAt(t, a, i);
    var s := a + post;
    assert s[i..i + |t|] == a[i..i + |t|];
    assert OccursAt(t, s, i);
  }

  /** Occurrence is transitive. */
  lemma OccursTrans(t: string, u: string, s: string)
    requires Occurs(t, u) && Occurs(u, s)
    ensures Occurs(t, s)
  {
    var i :| OccursAt(t, u, i);
    var j :| OccursAt(u, s, j);
    forall k | 0 <= k < |t|
      ensures s[j + i + k] == t[k]
    {
      assert t[k] == u[i..i + |t|][k] == u[i + k];
      assert u[i + k] == s[j..j + |u|][i + k];
    }
    assert s[j + i..j + i + |t|] == t;
    assert OccursAt(t, s, j + i);
  }
}
