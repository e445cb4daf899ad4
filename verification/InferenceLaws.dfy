/** ai_subsystem/src/inference.rs: what rounding, scales, activations and rows of a layer mean. */
module InferenceLaws {
  import opened Prelude
  import opened Inference

  // ----- Activations ---------------------------------------------------------------------------

  /** ReLU keeps what is positive and nothing else: it is never negative and never below its
      argument, and it equals one of the two. */
  lemma {:induction false} ReluIsPositivePart(sig: real -> real, x: real)
    ensures Activate(sig, x, ReLU) >= 0.0 && Activate(sig, x, ReLU) >= x
    ensures Mul(Activate(sig, x, ReLU), Activate(sig, x, ReLU) - x) == 0.0
    ensures Activate(sig, x, ReLU) - Activate(sig, -x, ReLU) == x
  {}

  /** The linear activation is the identity, and the sigmoid is left to its own routine. */
  lemma {:induction false} PassThrough(sig: real -> real, x: real)
    ensures Activate(sig, x, Linear) == x && Activate(sig, x, Sigmoid) == sig(x) && Activate(sig, x, Tanh) == FastTanh(x)
  {}

  /** What the rational tanh lacks to one is (3 - x)^3 / (27 + 9 x^2), and it is odd. */
  lemma {:induction false} TanhGap(x: real)
    ensures Mul(1.0 - FastTanh(x), 27.0 + 9.0 * Mul(x, x)) == Mul(Mul(3.0 - x, 3.0 - x), 3.0 - x)
    ensures FastTanh(-x) == -FastTanh(x)
  {
    var t, b := FastTanh(x), TanhBottom(x);
    assert t * b == TanhTop(x);
    assert b == 27.0 + 9.0 * Mul(x, x);
    Cube(x);
    assert TanhBottom(-x) == b && TanhTop(-x) == -TanhTop(x);
    Negated(TanhTop(x), b);
  }

  lemma {:induction false} Cube(x: real)
    ensures Mul(Mul(3.0 - x, 3.0 - x), 3.0 - x) == 27.0 + 9.0 * (x * x) - TanhTop(x)
  {
    assert (3.0 - x) * (3.0 - x) == 9.0 - 6.0 * x + x * x;
    assert (9.0 - 6.0 * x + x * x) * (3.0 - x) == 27.0 - 27.0 * x + 9.0 * (x * x) - x * x * x;
    assert TanhTop(x) == 27.0 * x + x * x * x;
  }

  lemma {:induction false} Negated(a: real, b: real)
    requires b > 0.0
    ensures (-a) / b == -(a / b)
  {}

  // ----- Rounding and scales -------------------------------------------------------------------

  /** Rounding is symmetric, exact on whole numbers, and takes halves away from zero. */
  lemma {:induction false} RoundLaws(x: real, n: nat)
    ensures Round(-x) == -Round(x)
    ensures Round(n as real) == n && Round(n as real + 0.5) == n + 1
  {
    if x == 0.0 { assert Round(x) == 0; }
  }

  /** The largest weight of a row uses the whole range: it becomes 127 or -127, unless the whole row
      is tiny. */
  lemma {:induction false} LargestIsFull(row: seq<real>, i: nat)
    requires i < |row| && Abs(row[i]) >= TINY && forall k :: 0 <= k < |row| ==> Abs(row[k]) <= Abs(row[i])
    ensures Round(row[i] / ScaleOf(row)) == if row[i] > 0.0 then 127 else -127
  {
    var m := MaxAbs(row, |row|);
    assert m == Abs(row[i]);
    Full(Abs(row[i]));
    RoundLaws(127.0, 127);
    if row[i] < 0.0 {
      assert row[i] / ScaleOf(row) == -127.0 by { Negated(-row[i], ScaleOf(row)); }
    }
  }

  lemma {:induction false} Full(m: real)
    requires m > 0.0
    ensures m / (m / 127.0) == 127.0
  {
    var s := m / 127.0;
    assert s * 127.0 == m && s > 0.0;
  }

  /** The norm of the error bound, on an input with a single entry. */
  lemma {:induction false} L1Single(x: seq<real>, i: nat, n: nat)
    requires i < |x| && n <= |x| && forall k :: 0 <= k < |x| && k != i ==> x[k] == 0.0
    ensures L1(x, n) == if i < n then Abs(x[i]) else 0.0
  {
    if n > 0 { L1Single(x, i, n - 1); }
  }

  // ----- Rows ------------------------------------------------------------------------------------

  /** The products of `x` with the weights from position `at` on. */
  ghost function FlatDot(w: seq<real>, at: nat, x: seq<real>, n: nat): real
    requires at + n <= |w| && n <= |x|
  {
    if n == 0 then 0.0 else FlatDot(w, at, x, n - 1) + Mul(w[at + n - 1], x[n - 1])
  }

  /** Output `i` before the activation uses bias `i` and the weights from i * inSize on. */
  lemma {:induction false} PreIsFlat(l: DenseLayer, x: seq<real>, i: nat)
    requires l.Valid() && i < l.outSize
    ensures Times(i, l.inSize) + Min(l.inSize, |x|) <= |l.weights|
    ensures Pre(l, x, i) == l.biases[i] + FlatDot(l.weights, Times(i, l.inSize), x, Min(l.inSize, |x|))
  {
    RowFits(i, l.outSize, l.inSize);
    FlatIsRow(l.weights, Times(i, l.inSize), Row(l.weights, i, l.outSize, l.inSize), x, Min(l.inSize, |x|));
  }

  lemma {:induction false} FlatIsRow(w: seq<real>, at: nat, row: seq<real>, x: seq<real>, n: nat)
    requires at + |row| <= |w| && row == w[at..at + |row|] && n <= |row| && n <= |x|
    ensures Dot(row, x, n) == FlatDot(w, at, x, n)
  {
    if n > 0 { FlatIsRow(w, at, row, x, n - 1); }
  }

  /** The quantised layer uses the same places, with scale `i`. */
  lemma {:induction false} PreInt8IsFlat(l: QuantizedLayer, x: seq<real>, i: nat)
    requires l.Valid() && i < l.outSize
    ensures Times(i, l.inSize) + Min(l.inSize, |x|) <= |l.qweights|
    ensures PreInt8(l, x, i)
         == l.biases[i] + Mul(FlatDot(Floats(l.qweights), Times(i, l.inSize), x, Min(l.inSize, |x|)), l.scales[i])
  {
    RowFits(i, l.outSize, l.inSize);
    var row, at := Row(l.qweights, i, l.outSize, l.inSize), Times(i, l.inSize);
    assert Floats(row) == Floats(l.qweights)[at..at + |row|];
    FlatIsRow(Floats(l.qweights), at, Floats(row), x, Min(l.inSize, |x|));
  }
}
