/** Vocabulary shared by the other modules. */
module Prelude {

  /** A value that may be missing. */
  datatype Option<+T> = None | Some(value: T)

  function Min(a: nat, b: nat): nat { if a < b then a else b }

  /** Products with a name, so that proofs can treat them as one term. */
  function Times(a: nat, b: nat): nat { a * b }

  function Mul(a: real, b: real): real { a * b }

  /** The dot product of the first `n` entries. */
  function Dot(x: seq<real>, y: seq<real>, n: nat): real
    requires n <= |x| && n <= |y|
  {
    if n == 0 then 0.0 else Dot(x, y, n - 1) + Mul(x[n - 1], y[n - 1])
  }

  // ----- Lists without repetition ---------------------------------------------------------------

  ghost predicate NoDup<T>(s: seq<T>) { forall i, j :: 0 <= i < j < |s| ==> s[i] != s[j] }

  ghost function Elems<T>(s: seq<T>): set<T> { set x | x in s }

  lemma {:induction false} PrefixSize<T>(s: seq<T>, n: nat)
    requires NoDup(s) && n <= |s|
    ensures |Elems(s[..n])| == n
  {
    if n == 0 {
      assert s[..0] == [];
    } else {
      PrefixSize(s, n - 1);
      assert s[..n] == s[..n - 1] + [s[n - 1]];
      assert Elems(s[..n]) == Elems(s[..n - 1]) + {s[n - 1]};
    }
  }

  lemma {:induction false} SubsetSize<T>(a: set<T>, b: set<T>)
    requires a <= b
    ensures |a| <= |b|
    ensures a != b ==> |a| < |b|
  {
    assert b == a + (b - a);
  }
}
