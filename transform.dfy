/**
 * The meaning of `for_each`, the primitive every mutator is built on. The
 * loop visits the indices in ascending order and replaces element `i` by
 * `f(vector, element i, i)`, where the vector handed to `f` is the live
 * receiver: the elements before `i` already hold their new values and the
 * rest still hold their old ones.
 */
module Transform {

  /** The per-element function: the vector as it stands, the old value of element `i`, and `i`. */
  type Step = (seq<int>, int, nat) --> int

  /** `f` may be applied at every index `i` of `s` to the element `s[i]`, whatever the vector looks like. */
  ghost predicate Admits(f: Step, s: seq<int>) {
    forall u: seq<int>, i: nat :: i < |s| ==> f.requires(u, s[i], i)
  }

  /** What `f` sees when the loop reaches element `i`: `t` is the final contents, `s` the original. */
  function View(s: seq<int>, t: seq<int>, i: nat): seq<int>
    requires i <= |s| && i <= |t|
  {
    t[..i] + s[i..]
  }

  /** `t` is what `for_each(f)` leaves behind when it starts from `s`. */
  ghost predicate IsForEach(f: Step, s: seq<int>, t: seq<int>) {
    && |t| == |s|
    && forall i: nat :: i < |s| ==> f.requires(View(s, t, i), s[i], i) && t[i] == f(View(s, t, i), s[i], i)
  }

  /** The first `k` results of `for_each` are determined by `f` and the original contents. */
  lemma {:induction false} ForEachPrefixDetermined(f: Step, s: seq<int>, t1: seq<int>, t2: seq<int>, k: nat)
    requires IsForEach(f, s, t1) && IsForEach(f, s, t2)
    requires k <= |s|
    ensures t1[..k] == t2[..k]
  {
    if k > 0 {
      ForEachPrefixDetermined(f, s, t1, t2, k - 1);
      assert View(s, t1, k - 1) == View(s, t2, k - 1);
      assert t1[..k] == t1[..k - 1] + [t1[k - 1]];
      assert t2[..k] == t2[..k - 1] + [t2[k - 1]];
    }
  }

  /** `for_each` has at most one outcome, though `f` may look at the elements already rewritten. */
  lemma ForEachDeterministic(f: Step, s: seq<int>, t1: seq<int>, t2: seq<int>)
    requires IsForEach(f, s, t1) && IsForEach(f, s, t2)
    ensures t1 == t2
  {
    ForEachPrefixDetermined(f, s, t1, t2, |s|);
    assert t1 == t1[..|s|] && t2 == t2[..|s|];
  }

  /** When `f` ignores the vector, as every mutator of the source does, `for_each` is an elementwise map. */
  lemma ForEachPointwise(g: (int, nat) -> int, s: seq<int>, t: seq<int>)
    ensures Admits((u: seq<int>, x: int, i: nat) => g(x, i), s)
    ensures IsForEach((u: seq<int>, x: int, i: nat) => g(x, i), s, t)
        <==> t == seq(|s|, i requires 0 <= i < |s| => g(s[i], i))
  {
  }

  /** `for_each` with the identity function leaves the contents unchanged, and only the identity outcome qualifies. */
  lemma ForEachIdentity(s: seq<int>, t: seq<int>)
    ensures Admits((u: seq<int>, x: int, i: nat) => x, s)
    ensures IsForEach((u: seq<int>, x: int, i: nat) => x, s, t) <==> t == s
  {
  }

  /** The sum of the elements of `s`. */
  function Sum(s: seq<int>): int {
    if s == [] then 0 else Sum(s[..|s| - 1]) + s[|s| - 1]
  }

  /** A step that adds the element just before `i` in the vector it is shown to the element `i` itself. */
  function AddPrevious(): Step {
    (u: seq<int>, x: int, i: nat) => if 0 < i <= |u| then u[i - 1] + x else x
  }

  /**
   * Because `f` sees the elements already rewritten, adding the previous
   * element turns the vector into its running sums rather than adding
   * neighbours pairwise.
   */
  lemma {:induction false} ForEachSeesRewrittenPrefix(s: seq<int>, t: seq<int>, k: nat)
    requires IsForEach(AddPrevious(), s, t)
    requires k < |s|
    ensures t[k] == Sum(s[..k + 1])
  {
    assert t[k] == AddPrevious()(View(s, t, k), s[k], k);
    assert s[..k + 1][..k] == s[..k];
    if k > 0 {
      ForEachSeesRewrittenPrefix(s, t, k - 1);
      assert View(s, t, k)[k - 1] == t[k - 1];
    } else {
      assert s[..1][..0] == [];
    }
  }
}
