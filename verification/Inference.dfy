/** ai_subsystem/src/inference.rs: dense layers in floats and in INT8, with their scalar and
    eight-lane dot products.  Floats are reals. */
module Inference {
  import opened Prelude

  const LANES: nat := 8
  const TINY: real := 0.0000000001

  type i8 = x: int | -128 <= x < 128

  function Abs(x: real): (r: real)
    ensures r >= 0.0 && r >= x && r >= -x && (r == x || r == -x)
  {
    if x < 0.0 then -x else x
  }

  function MaxR(a: real, b: real): real { if a > b then a else b }

  // ----- Dot products ----------------------------------------------------------------------------

  function LaneSum(lanes: seq<real>, n: nat): real
    requires n <= |lanes|
  {
    if n == 0 then 0.0 else LaneSum(lanes, n - 1) + lanes[n - 1]
  }

  /** One multiply-add of all lanes, from position `i`. */
  function AddLanes(lanes: seq<real>, w: seq<real>, x: seq<real>, i: nat): (r: seq<real>)
    requires |lanes| == LANES && i + LANES <= |w| && i + LANES <= |x|
    ensures |r| == LANES && forall j :: 0 <= j < LANES ==> r[j] == lanes[j] + Mul(w[i + j], x[i + j])
  {
    seq(LANES, j requires 0 <= j < LANES => lanes[j] + Mul(w[i + j], x[i + j]))
  }

  lemma {:induction false} LanesAdvance(lanes: seq<real>, w: seq<real>, x: seq<real>, i: nat, n: nat)
    requires |lanes| == LANES && i + LANES <= |w| && i + LANES <= |x| && n <= LANES
    ensures LaneSum(AddLanes(lanes, w, x, i), n) - LaneSum(lanes, n) == Dot(w, x, i + n) - Dot(w, x, i)
  {
    if n > 0 { LanesAdvance(lanes, w, x, i, n - 1); }
  }

  lemma {:induction false} LanesEmpty(n: nat)
    requires n <= LANES
    ensures LaneSum(seq(LANES, _ => 0.0), n) == 0.0
  {
    if n > 0 { LanesEmpty(n - 1); }
  }

  method SumLanes(lanes: seq<real>) returns (total: real)
    requires |lanes| == LANES
    ensures total == LaneSum(lanes, LANES)
  {
    total := 0.0;
    for j := 0 to LANES
      invariant total == LaneSum(lanes, j)
    {
      total := total + lanes[j];
    }
  }

  /** `avx2_dot_product_impl`: eight partial sums and a scalar tail. */
  method LaneDot(w: seq<real>, x: seq<real>) returns (total: real)
    ensures total == Dot(w, x, Min(|w|, |x|))
  {
    var lanes := seq(LANES, _ => 0.0);
    var i := 0;
    LanesEmpty(LANES);
    while i + LANES <= |w| && i + LANES <= |x|
      invariant i <= |w| && i <= |x| && |lanes| == LANES
      invariant LaneSum(lanes, LANES) == Dot(w, x, i)
    {
      LanesAdvance(lanes, w, x, i, LANES);
      lanes := AddLanes(lanes, w, x, i);
      i := i + LANES;
    }
    total := SumLanes(lanes);
    while i < |w| && i < |x|
      invariant i <= |w| && i <= |x| && total == Dot(w, x, i)
    {
      total := total + Mul(w[i], x[i]);
      i := i + 1;
    }
  }

  /** The plain loop over the shorter of the two. */
  method ScalarDot(w: seq<real>, x: seq<real>, start: real) returns (sum: real)
    ensures sum == start + Dot(w, x, Min(|w|, |x|))
  {
    sum := start;
    for i := 0 to Min(|w|, |x|)
      invariant sum == start + Dot(w, x, i)
    {
      sum := sum + Mul(w[i], x[i]);
    }
  }

  /** Integer weights as floats. */
  function Floats(q: seq<i8>): (r: seq<real>)
    ensures |r| == |q| && forall i :: 0 <= i < |q| ==> r[i] == q[i] as real
  {
    seq(|q|, i requires 0 <= i < |q| => q[i] as real)
  }

  lemma {:induction false} SliceLanes(lanes: seq<real>, q: seq<i8>, x: seq<real>, i: nat)
    requires |lanes| == LANES && i + LANES <= |q| && i + LANES <= |x|
    ensures AddLanes(lanes, Floats(q[i..i + LANES]), x[i..i + LANES], 0) == AddLanes(lanes, Floats(q), x, i)
  {
    var a, b := AddLanes(lanes, Floats(q[i..i + LANES]), x[i..i + LANES], 0), AddLanes(lanes, Floats(q), x, i);
    forall j | 0 <= j < LANES
      ensures a[j] == b[j]
    {
      assert x[i..i + LANES][0 + j] == x[i + j];
    }
  }

  /** `avx2_int8_dot_product_impl`: eight weights at a time are widened into a buffer. */
  method LaneDotInt8(q: seq<i8>, x: seq<real>, scale: real) returns (r: real)
    ensures r == Mul(Dot(Floats(q), x, Min(|q|, |x|)), scale)
  {
    var lanes := seq(LANES, _ => 0.0);
    var i := 0;
    ghost var w := Floats(q);
    LanesEmpty(LANES);
    while i + LANES <= |q| && i + LANES <= |x|
      invariant i <= |q| && i <= |x| && |lanes| == LANES
      invariant LaneSum(lanes, LANES) == Dot(w, x, i)
    {
      var buf := Floats(q[i..i + LANES]);
      var xs := x[i..i + LANES];
      LanesAdvance(lanes, w, x, i, LANES);
      SliceLanes(lanes, q, x, i);
      lanes := AddLanes(lanes, buf, xs, 0);
      i := i + LANES;
    }
    var total := SumLanes(lanes);
    while i < |q| && i < |x|
      invariant i <= |q| && i <= |x| && total == Dot(w, x, i)
    {
      total := total + Mul(q[i] as real, x[i]);
      i := i + 1;
    }
    r := Mul(total, scale);
  }

  /** `scalar_int8_dot_product` */
  method ScalarDotInt8(q: seq<i8>, x: seq<real>, scale: real) returns (r: real)
    ensures r == Mul(Dot(Floats(q), x, Min(|q|, |x|)), scale)
  {
    var sum := 0.0;
    for i := 0 to Min(|q|, |x|)
      invariant sum == Dot(Floats(q), x, i)
    {
      sum := sum + Mul(q[i] as real, x[i]);
    }
    r := Mul(sum, scale);
  }

  // ----- Quantisation ------------------------------------------------------------------------------

  /** `roundf`: to the nearest integer, halves away from zero. */
  function Round(x: real): int {
    if x >= 0.0 then (x + 0.5).Floor else -(0.5 - x).Floor
  }

  function Clamp(n: int, lo: int, hi: int): int
    requires lo <= hi
  {
    if n < lo then lo else if n > hi then hi else n
  }

  function MaxAbs(row: seq<real>, n: nat): (r: real)
    requires n <= |row|
    ensures r >= 0.0 && forall i :: 0 <= i < n ==> Abs(row[i]) <= r
    ensures n > 0 ==> exists i :: 0 <= i < n && Abs(row[i]) == r
  {
    if n == 0 then 0.0 else
      var r := MaxAbs(row, n - 1);
      if Abs(row[n - 1]) > r then Abs(row[n - 1]) else
        assert n == 1 ==> r == Abs(row[0]);
        r
  }

  /** The scale of a row: its largest magnitude, at least 1e-10, is 127 steps. */
  function ScaleOf(row: seq<real>): (s: real)
    ensures s > 0.0 && forall i :: 0 <= i < |row| ==> Abs(row[i]) <= 127.0 * s
  {
    MaxR(MaxAbs(row, |row|), TINY) / 127.0
  }

  /** Within half a step of the weight, inside [-127, 127]. */
  ghost predicate Close(w: real, q: int, scale: real) {
    -127 <= q <= 127 && Abs(w - Mul(q as real, scale)) <= scale / 2.0
  }

  lemma {:induction false} Quotient(w: real, scale: real)
    requires scale > 0.0 && Abs(w) <= 127.0 * scale
    ensures Abs(w / scale) <= 127.0 && Mul(w / scale, scale) == w
  {
    var x := w / scale;
    assert x * scale == w;
  }

  lemma {:induction false} ScaledGap(q: real, x: real, scale: real)
    requires scale > 0.0 && Abs(q - x) <= 0.5
    ensures Abs(Mul(x, scale) - Mul(q, scale)) <= scale / 2.0
  {
    var d := x - q;
    assert Mul(x, scale) - Mul(q, scale) == d * scale;
  }

  /** Rounding a weight to its row's scale: the clamp to [-128, 127] never changes anything, the
      value -128 is never used, and the error is at most half a step. */
  lemma {:induction false} QuantisedClose(w: real, scale: real)
    requires scale > 0.0 && Abs(w) <= 127.0 * scale
    ensures Close(w, Round(w / scale), scale) && Clamp(Round(w / scale), -128, 127) == Round(w / scale)
  {
    Quotient(w, scale);
    ScaledGap(Round(w / scale) as real, w / scale, scale);
  }

  // ----- Activations ----------------------------------------------------------------------------------

  datatype Activation = Linear | ReLU | Tanh | Sigmoid

  function TanhTop(x: real): real { x * (27.0 + x * x) }

  function TanhBottom(x: real): (r: real)
    ensures r > 0.0
  {
    Square(x);
    27.0 + 9.0 * (x * x)
  }

  function FastTanh(x: real): real { TanhTop(x) / TanhBottom(x) }

  /** `apply_activation`; the bit-level sigmoid is the parameter `sig`. */
  function Activate(sig: real -> real, x: real, act: Activation): real {
    match act
    case Linear => x
    case ReLU => if x > 0.0 then x else 0.0
    case Sigmoid => sig(x)
    case Tanh => FastTanh(x)
  }

  lemma {:induction false} Square(x: real)
    ensures x * x >= 0.0
  {
    if x < 0.0 { assert x * x == (-x) * (-x); }
  }

  lemma {:induction false} CrossLe(a: real, b: real, c: real, d: real)
    requires b > 0.0 && d > 0.0 && a * d <= c * b
    ensures a / b <= c / d
  {
    var x, y := a / b, c / d;
    assert x * b == a && y * d == c;
    assert x * (b * d) == a * d && y * (b * d) == c * b;
  }

  ghost function TanhSlack(x: real, y: real): (s: real)
    ensures s >= 0.0
  {
    Square(x - y);
    Square(x * y - 9.0);
    27.0 * ((x - y) * (x - y)) + 9.0 * ((x * y - 9.0) * (x * y - 9.0))
  }

  lemma {:induction false} TanhFactor(x: real, y: real)
    ensures TanhTop(x) * TanhBottom(y) - TanhTop(y) * TanhBottom(x) == Mul(x - y, TanhSlack(x, y))
  {
  }

  lemma {:induction false} TanhCross(x: real, y: real)
    requires y <= x
    ensures TanhTop(y) * TanhBottom(x) <= TanhTop(x) * TanhBottom(y)
  {
    TanhFactor(x, y);
  }

  /** The rational approximation of tanh never decreases. */
  lemma {:induction false} TanhMonotone(x: real, y: real)
    requires y <= x
    ensures FastTanh(y) <= FastTanh(x)
  {
    TanhCross(x, y);
    CrossLe(TanhTop(y), TanhBottom(y), TanhTop(x), TanhBottom(x));
  }

  /** What the approximation takes away: x - FastTanh(x) = 8 x^3 / (27 + 9 x^2). */
  function Gap(x: real): real { 8.0 * (x * x * x) / TanhBottom(x) }

  ghost function GapSlack(x: real, y: real): (s: real)
    ensures s >= 0.0
  {
    Square(x);
    Square(y);
    Square(x + y);
    Square(x * y);
    108.0 * (x * x) + 108.0 * (y * y) + 108.0 * ((x + y) * (x + y)) + 72.0 * ((x * y) * (x * y))
  }

  lemma {:induction false} GapFactor(x: real, y: real)
    ensures 8.0 * (x * x * x) * TanhBottom(y) - 8.0 * (y * y * y) * TanhBottom(x) == Mul(x - y, GapSlack(x, y))
  {
  }

  lemma {:induction false} GapMonotone(x: real, y: real)
    requires y <= x
    ensures Gap(y) <= Gap(x)
  {
    GapFactor(x, y);
    CrossLe(8.0 * (y * y * y), TanhBottom(y), 8.0 * (x * x * x), TanhBottom(x));
  }

  /** Linear, ReLU and the tanh approximation never spread two values apart. */
  lemma {:induction false} ActivationContracts(sig: real -> real, a: real, b: real, act: Activation)
    requires act != Sigmoid
    ensures Abs(Activate(sig, a, act) - Activate(sig, b, act)) <= Abs(a - b)
  {
    if act == Tanh {
      var x, y := if a >= b then a else b, if a >= b then b else a;
      TanhMonotone(x, y);
      GapMonotone(x, y);
    }
  }

  lemma {:induction false} CubeSign(d: real)
    ensures Mul(d * d, d) <= 0.0 <==> d <= 0.0
  {
    Square(d);
  }

  lemma {:induction false} TanhAtMostOne(x: real)
    ensures FastTanh(x) <= 1.0 <==> x <= 3.0
  {
    var b := TanhBottom(x);
    assert FastTanh(x) * b == TanhTop(x);
    CubeSign(x - 3.0);
  }

  /** The approximation is said to be valid below 4; it stays within [-1, 1], as tanh does, exactly
      up to 3. */
  lemma {:induction false} TanhRangeIff(x: real)
    ensures Abs(FastTanh(x)) <= 1.0 <==> Abs(x) <= 3.0
  {
    TanhAtMostOne(x);
    TanhAtMostOne(-x);
  }

  /** Below 4 but above 1. */
  lemma {:induction false} TanhOvershoots()
    ensures FastTanh(3.5) > 1.0
  {
    TanhAtMostOne(3.5);
  }

  // ----- Layers -----------------------------------------------------------------------------------------

  datatype DenseLayer = DenseLayer(weights: seq<real>, biases: seq<real>, inSize: nat, outSize: nat, activation: Activation)
  {
    ghost predicate Valid() { Times(outSize, inSize) <= |weights| && outSize <= |biases| }
  }

  datatype QuantizedLayer = QuantizedLayer(qweights: seq<i8>, scales: seq<real>, biases: seq<real>,
                                           inSize: nat, outSize: nat, activation: Activation)
  {
    ghost predicate Valid() {
      Times(outSize, inSize) <= |qweights| && outSize <= |scales| && outSize <= |biases|
    }
  }

  lemma {:induction false} RowFits(i: nat, rows: nat, cols: nat)
    requires i < rows
    ensures Times(i, cols) + cols == Times(i + 1, cols) <= Times(rows, cols)
  {
    assert (i + 1) * cols <= rows * cols;
  }

  /** Row `i` of a matrix stored row by row. */
  function Row<T>(m: seq<T>, i: nat, rows: nat, cols: nat): (r: seq<T>)
    requires i < rows && Times(rows, cols) <= |m|
    ensures |r| == cols
  {
    RowFits(i, rows, cols);
    m[Times(i, cols)..Times(i + 1, cols)]
  }

  /** Output `i` before the activation. */
  ghost function Pre(l: DenseLayer, x: seq<real>, i: nat): real
    requires l.Valid() && i < l.outSize
  {
    l.biases[i] + Dot(Row(l.weights, i, l.outSize, l.inSize), x, Min(l.inSize, |x|))
  }

  ghost function PreInt8(l: QuantizedLayer, x: seq<real>, i: nat): real
    requires l.Valid() && i < l.outSize
  {
    l.biases[i] + Mul(Dot(Floats(Row(l.qweights, i, l.outSize, l.inSize)), x, Min(l.inSize, |x|)), l.scales[i])
  }

  /** `DenseLayer::forward`: with or without the vector unit the outputs are the same, also when
      the input is shorter or longer than a row. */
  method Forward(l: DenseLayer, x: seq<real>, simd: bool, sig: real -> real) returns (out: seq<real>)
    requires l.Valid()
    ensures |out| == l.outSize
    ensures forall i :: 0 <= i < l.outSize ==> out[i] == Activate(sig, Pre(l, x, i), l.activation)
  {
    out := seq(l.outSize, _ => 0.0);
    for i := 0 to l.outSize
      invariant |out| == l.outSize
      invariant forall k :: 0 <= k < i ==> out[k] == Activate(sig, Pre(l, x, k), l.activation)
    {
      var row := Row(l.weights, i, l.outSize, l.inSize);
      var sum := l.biases[i];
      if simd {
        var dot := LaneDot(row, x);
        sum := sum + dot;
      } else {
        sum := ScalarDot(row, x, sum);
      }
      out := out[i := Activate(sig, sum, l.activation)];
    }
  }

  /** `QuantizedDenseLayer::forward` */
  method ForwardInt8(l: QuantizedLayer, x: seq<real>, simd: bool, sig: real -> real) returns (out: seq<real>)
    requires l.Valid()
    ensures |out| == l.outSize
    ensures forall i :: 0 <= i < l.outSize ==> out[i] == Activate(sig, PreInt8(l, x, i), l.activation)
  {
    out := seq(l.outSize, _ => 0.0);
    for i := 0 to l.outSize
      invariant |out| == l.outSize
      invariant forall k :: 0 <= k < i ==> out[k] == Activate(sig, PreInt8(l, x, k), l.activation)
    {
      var row := Row(l.qweights, i, l.outSize, l.inSize);
      var dot;
      if simd {
        dot := LaneDotInt8(row, x, l.scales[i]);
      } else {
        dot := ScalarDotInt8(row, x, l.scales[i]);
      }
      out := out[i := Activate(sig, l.biases[i] + dot, l.activation)];
    }
  }

  /** The rounded row. */
  ghost predicate RowQuantised(row: seq<real>, q: seq<i8>, scale: real) {
    && |q| == |row| && scale == ScaleOf(row)
    && forall j :: 0 <= j < |row| ==> q[j] == Round(row[j] / scale) && Close(row[j], q[j], scale)
  }

  ghost predicate Quantised(l: DenseLayer, r: QuantizedLayer)
    requires l.Valid()
  {
    && r.Valid() && r.biases == l.biases && r.inSize == l.inSize && r.outSize == l.outSize && r.activation == l.activation
    && |r.qweights| == Times(l.outSize, l.inSize) && |r.scales| == l.outSize
    && forall i :: 0 <= i < l.outSize ==>
        RowQuantised(Row(l.weights, i, l.outSize, l.inSize), Row(r.qweights, i, l.outSize, l.inSize), r.scales[i])
  }

  method QuantizeRow(row: seq<real>) returns (q: seq<i8>, scale: real)
    ensures RowQuantised(row, q, scale)
  {
    var maxAbs := 0.0;
    for i := 0 to |row|
      invariant maxAbs == MaxAbs(row, i)
    {
      maxAbs := if Abs(row[i]) > maxAbs then Abs(row[i]) else maxAbs;
    }
    scale := MaxR(maxAbs, TINY) / 127.0;
    assert scale == ScaleOf(row);
    q := [];
    for j := 0 to |row|
      invariant |q| == j
      invariant forall k :: 0 <= k < j ==> q[k] == Round(row[k] / scale) && Close(row[k], q[k], scale)
    {
      QuantisedClose(row[j], scale);
      q := q + [Clamp(Round(row[j] / scale), -128, 127)];
    }
  }

  /** Appending a row keeps the rows before it and adds one. */
  lemma {:induction false} RowsAppend<T>(m: seq<T>, row: seq<T>, n: nat, cols: nat)
    requires |m| == Times(n, cols) && |row| == cols
    ensures |m + row| == Times(n + 1, cols)
    ensures forall i :: 0 <= i < n ==> Row(m + row, i, n + 1, cols) == Row(m, i, n, cols)
    ensures Row(m + row, n, n + 1, cols) == row
  {
    RowFits(n, n + 1, cols);
    forall i | 0 <= i < n
      ensures Row(m + row, i, n + 1, cols) == Row(m, i, n, cols)
    {
      RowFits(i, n, cols);
    }
  }

  /** `DenseLayer::quantize` */
  method Quantize(l: DenseLayer) returns (r: QuantizedLayer)
    requires l.Valid()
    ensures Quantised(l, r)
  {
    var q: seq<i8>, scales := [], [];
    for i := 0 to l.outSize
      invariant |q| == Times(i, l.inSize) && |scales| == i
      invariant forall k :: 0 <= k < i ==>
        RowQuantised(Row(l.weights, k, l.outSize, l.inSize), Row(q, k, i, l.inSize), scales[k])
    {
      var row, scale := QuantizeRow(Row(l.weights, i, l.outSize, l.inSize));
      RowsAppend(q, row, i, l.inSize);
      q, scales := q + row, scales + [scale];
    }
    r := QuantizedLayer(q, scales, l.biases, l.inSize, l.outSize, l.activation);
  }

  // ----- The error of the INT8 path --------------------------------------------------------------------

  ghost function L1(x: seq<real>, n: nat): (r: real)
    requires n <= |x|
    ensures r >= 0.0
  {
    if n == 0 then 0.0 else L1(x, n - 1) + Abs(x[n - 1])
  }

  /** The error of one product. */
  lemma {:induction false} ProductError(w: real, v: real, x: real, eps: real)
    requires Abs(w - v) <= eps
    ensures Abs(Mul(w, x) - Mul(v, x)) <= Mul(eps, Abs(x))
  {
    var d, a := w - v, Abs(x);
    assert Mul(w, x) - Mul(v, x) == d * x;
    assert (eps - d) * a >= 0.0 && (eps + d) * a >= 0.0;
    assert d * x == d * a || d * x == -(d * a);
  }

  lemma {:induction false} ScaleIn(dot: real, q: real, x: real, scale: real)
    ensures Mul(dot + Mul(q, x), scale) == Mul(dot, scale) + Mul(Mul(q, scale), x)
  {
  }

  lemma {:induction false} Spread(eps: real, a: real, b: real)
    ensures Mul(eps, a + b) == Mul(eps, a) + Mul(eps, b)
  {
  }

  /** The scaled integer dot product is within half a step times the L1 norm of the exact one. */
  lemma {:induction false} DotError(row: seq<real>, q: seq<i8>, scale: real, x: seq<real>, n: nat)
    requires RowQuantised(row, q, scale) && n <= |row| && n <= |x|
    ensures Abs(Mul(Dot(Floats(q), x, n), scale) - Dot(row, x, n)) <= Mul(scale / 2.0, L1(x, n))
  {
    if n > 0 {
      var f := Floats(q);
      DotError(row, q, scale, x, n - 1);
      ScaleIn(Dot(f, x, n - 1), f[n - 1], x[n - 1], scale);
      ProductError(row[n - 1], Mul(f[n - 1], scale), x[n - 1], scale / 2.0);
      Spread(scale / 2.0, L1(x, n - 1), Abs(x[n - 1]));
    }
  }

  /** Every quantised pre-activation is within scale / 2 times the L1 norm of the input of the
      exact one, and the same bound holds after any activation but the sigmoid. */
  lemma {:induction false} QuantisationError(l: DenseLayer, r: QuantizedLayer, x: seq<real>, i: nat, sig: real -> real)
    requires l.Valid() && Quantised(l, r) && i < l.outSize
    ensures var bound := Mul(r.scales[i] / 2.0, L1(x, Min(l.inSize, |x|)));
      && Abs(PreInt8(r, x, i) - Pre(l, x, i)) <= bound
      && (l.activation != Sigmoid ==>
          Abs(Activate(sig, PreInt8(r, x, i), l.activation) - Activate(sig, Pre(l, x, i), l.activation)) <= bound)
  {
    var row, q := Row(l.weights, i, l.outSize, l.inSize), Row(r.qweights, i, l.outSize, l.inSize);
    DotError(row, q, r.scales[i], x, Min(l.inSize, |x|));
    if l.activation != Sigmoid { ActivationContracts(sig, PreInt8(r, x, i), Pre(l, x, i), l.activation); }
  }
}
