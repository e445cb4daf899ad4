/** kernel/src/gla_prefetch.rs: gated linear attention over the page faults of a process.
    A constant-size state (S, z) stands in for attention over the whole fault history.
    Floats are reals; `exp` is a parameter of which only positivity is used. */
module GlaPrefetch {
  import opened Bits
  import opened Prelude

  const DH: nat := 12
  const VOCAB: nat := 128
  const EPS: real := 0.000001
  const DELTA_PAGES: seq<nat> := [1, 2, 4, 8, 16]

  type Vec = v: seq<real> | |v| == DH witness [0.0, 0.0, 0.0, 0.0, 0.0, 0.0, 0.0, 0.0, 0.0, 0.0, 0.0, 0.0]

  /** What one fault feeds to the state: query, key, value, forget gate. */
  datatype Fault = Fault(q: Vec, k: Vec, v: Vec, f: real)

  /** The state: S flattened row by row, and the normaliser z. */
  datatype Mem = Mem(s: seq<real>, z: Vec)
  {
    predicate Valid() { |s| == DH * DH }
  }

  // ----- The recurrence ------------------------------------------------------------

  /** Column `c` of S against q: the loop over rows of the read. */
  function Column(s: seq<real>, q: seq<real>, c: nat, n: nat): real
    requires |s| == DH * DH && n <= DH && n <= |q| && c < DH
  {
    if n == 0 then 0.0 else Column(s, q, c, n - 1) + s[(n - 1) * DH + c] * q[n - 1]
  }

  /** S = f * S + outer(k, v) */
  function NewS(s: seq<real>, x: Fault): (r: seq<real>)
    requires |s| == DH * DH
    ensures |r| == DH * DH
    ensures forall j :: 0 <= j < DH * DH ==> r[j] == x.f * s[j] + x.k[j / DH] * x.v[j % DH]
  {
    seq(DH * DH, j requires 0 <= j < DH * DH => x.f * s[j] + x.k[j / DH] * x.v[j % DH])
  }

  /** z = f * z + k */
  function NewZ(z: Vec, x: Fault): (r: Vec)
    ensures forall i :: 0 <= i < DH ==> r[i] == x.f * z[i] + x.k[i]
  {
    seq(DH, i requires 0 <= i < DH => x.f * z[i] + x.k[i])
  }

  function Update(m: Mem, x: Fault): (r: Mem)
    requires m.Valid()
    ensures r.Valid()
  {
    Mem(NewS(m.s, x), NewZ(m.z, x))
  }

  function Max(a: real, b: real): real { if a > b then a else b }

  /** S^T q / max(q . z, EPS) */
  function ReadOut(m: Mem, q: Vec): (r: Vec)
    requires m.Valid()
    ensures forall c :: 0 <= c < DH ==> r[c] == Column(m.s, q, c, DH) / Max(Dot(q, m.z, DH), EPS)
  {
    seq(DH, c requires 0 <= c < DH => Column(m.s, q, c, DH) / Max(Dot(q, m.z, DH), EPS))
  }

  function Zeros(n: nat): (r: seq<real>)
    ensures |r| == n && forall i :: 0 <= i < n ==> r[i] == 0.0
  {
    seq(n, i => 0.0)
  }

  /** The state after a whole history. */
  ghost function After(hist: seq<Fault>): (m: Mem)
    ensures m.Valid()
  {
    if hist == [] then Mem(Zeros(DH * DH), Zeros(DH)) else Update(After(hist[..|hist| - 1]), hist[|hist| - 1])
  }

  // ----- Attention over the whole history --------------------------------------------

  /** How much of fault `i` is left at the end: the product of all later forget gates. */
  ghost function Decay(hist: seq<Fault>, i: nat): real
    requires i < |hist|
    decreases |hist| - i
  {
    if i == |hist| - 1 then 1.0 else Mul(hist[i + 1].f, Decay(hist, i + 1))
  }

  type Idx = i: nat | i < DH

  /** What is summed over the history: a product k[r] v[c], a key entry, the attention score
      of a fault against a query, or the score times a value entry. */
  datatype Term = KV(r: Idx, c: Idx) | K(r: Idx) | Score(q: Vec) | ScoredValue(q: Vec, c: Idx)

  ghost function Eval(g: Term, x: Fault): real {
    match g
    case KV(r, c) => x.k[r] * x.v[c]
    case K(r) => x.k[r]
    case Score(q) => Dot(q, x.k, DH)
    case ScoredValue(q, c) => Mul(Dot(q, x.k, DH), x.v[c])
  }

  ghost function Weighted(hist: seq<Fault>, g: Term, n: nat): real
    requires n <= |hist|
  {
    if n == 0 then 0.0 else Weighted(hist, g, n - 1) + Mul(Decay(hist, n - 1), Eval(g, hist[n - 1]))
  }

  /** One gated accumulation step. */
  ghost function Mix(f: real, acc: real, new': real): real { f * acc + new' }

  /** The forget-weighted sum of `g` over all faults so far. */
  ghost function Attend(hist: seq<Fault>, g: Term): real {
    if hist == [] then 0.0
    else Mix(hist[|hist| - 1].f, Attend(hist[..|hist| - 1], g), Eval(g, hist[|hist| - 1]))
  }

  lemma {:induction false} DecayAppend(hist: seq<Fault>, x: Fault, i: nat)
    requires i < |hist|
    ensures Decay(hist + [x], i) == Mul(x.f, Decay(hist, i))
    decreases |hist| - i
  {
    if i == |hist| - 1 {
      assert Decay(hist + [x], i + 1) == 1.0;
    } else {
      DecayAppend(hist, x, i + 1);
    }
  }

  lemma {:induction false} WeightedAppend(hist: seq<Fault>, x: Fault, g: Term, n: nat)
    requires n <= |hist|
    ensures Weighted(hist + [x], g, n) == Mul(x.f, Weighted(hist, g, n))
  {
    if n != 0 {
      WeightedAppend(hist, x, g, n - 1);
      DecayAppend(hist, x, n - 1);
      assert (hist + [x])[n - 1] == hist[n - 1];
      Factor(x.f, Weighted(hist, g, n - 1), Decay(hist, n - 1), Eval(g, hist[n - 1]));
    }
  }

  lemma Factor(f: real, w: real, d: real, v: real)
    ensures Mul(f, w) + Mul(Mul(f, d), v) == Mul(f, w + Mul(d, v))
  {}

  /** Every past fault contributes, scaled by the product of the later gates. */
  lemma {:induction false} AttendIsSum(hist: seq<Fault>, g: Term)
    ensures Attend(hist, g) == Weighted(hist, g, |hist|)
  {
    if hist != [] {
      var rest, x := hist[..|hist| - 1], hist[|hist| - 1];
      assert hist == rest + [x];
      AttendIsSum(rest, g);
      WeightedAppend(rest, x, g, |rest|);
    }
  }

  /** For every history, S is the decayed sum of k v^T and z the decayed sum of k. */
  lemma {:induction false} StateIsAttention(hist: seq<Fault>, r: nat, c: nat)
    requires r < DH && c < DH
    ensures After(hist).s[r * DH + c] == Attend(hist, KV(r, c))
    ensures After(hist).z[r] == Attend(hist, K(r))
  {
    if hist != [] {
      var rest, x := hist[..|hist| - 1], hist[|hist| - 1];
      StateIsAttention(rest, r, c);
      EntryUpdate(After(rest).s, x, r, c);
      NormUpdate(After(rest).z, x, r);
    }
  }

  lemma {:induction false} NormUpdate(z: Vec, x: Fault, r: nat)
    requires r < DH
    ensures NewZ(z, x)[r] == Mix(x.f, z[r], Eval(K(r), x))
  {}

  lemma {:induction false} Flat(r: nat, c: nat)
    requires r < DH && c < DH
    ensures r * DH + c < DH * DH && (r * DH + c) / DH == r && (r * DH + c) % DH == c
  {}

  lemma {:induction false} EntryUpdate(s: seq<real>, x: Fault, r: nat, c: nat)
    requires |s| == DH * DH && r < DH && c < DH
    ensures r * DH + c < DH * DH && NewS(s, x)[r * DH + c] == Mix(x.f, s[r * DH + c], Eval(KV(r, c), x))
  {
    Flat(r, c);
  }

  /** Entry (r, c) of `s'` is the updated entry of `s`. */
  ghost predicate Entry(s: seq<real>, s': seq<real>, x: Fault, r: nat, c: nat)
    requires |s| == |s'| == DH * DH && r < DH && c < DH
  {
    s'[r * DH + c] == x.f * s[r * DH + c] + x.k[r] * x.v[c]
  }

  lemma {:induction false} ColumnUpdate(s: seq<real>, s': seq<real>, x: Fault, q: Vec, c: nat, n: nat)
    requires |s| == |s'| == DH * DH && c < DH && n <= DH
    requires forall r :: 0 <= r < DH ==> Entry(s, s', x, r, c)
    ensures Column(s', q, c, n) == Mix(x.f, Column(s, q, c, n), Mul(Dot(q, x.k, n), x.v[c]))
  {
    if n != 0 {
      ColumnUpdate(s, s', x, q, c, n - 1);
      assert Entry(s, s', x, n - 1, c);
    }
  }

  lemma {:induction false} DotUpdate(z: Vec, x: Fault, q: Vec, n: nat)
    requires n <= DH
    ensures Dot(q, NewZ(z, x), n) == Mix(x.f, Dot(q, z, n), Dot(q, x.k, n))
  {
    if n != 0 {
      DotUpdate(z, x, q, n - 1);
    }
  }

  lemma {:induction false} ReadZero(q: Vec, c: nat, n: nat)
    requires c < DH && n <= DH
    ensures Column(Zeros(DH * DH), q, c, n) == 0.0 && Dot(q, Zeros(DH), n) == 0.0
  {
    if n != 0 { ReadZero(q, c, n - 1); }
  }

  lemma ReadStep(m: Mem, x: Fault, q: Vec, c: nat)
    requires m.Valid() && c < DH
    ensures Column(Update(m, x).s, q, c, DH) == Mix(x.f, Column(m.s, q, c, DH), Eval(ScoredValue(q, c), x))
    ensures Dot(q, Update(m, x).z, DH) == Mix(x.f, Dot(q, m.z, DH), Eval(Score(q), x))
  {
    forall r | 0 <= r < DH
      ensures Entry(m.s, NewS(m.s, x), x, r, c)
    {
      EntryUpdate(m.s, x, r, c);
    }
    ColumnUpdate(m.s, NewS(m.s, x), x, q, c, DH);
    DotUpdate(m.z, x, q, DH);
  }

  /** Reading the constant-size state is attention over the full history. */
  lemma {:induction false} ReadIsAttention(hist: seq<Fault>, q: Vec, c: nat)
    requires c < DH
    ensures Column(After(hist).s, q, c, DH) == Attend(hist, ScoredValue(q, c))
  {
    if hist == [] {
      ReadZero(q, c, DH);
    } else {
      var rest, x := hist[..|hist| - 1], hist[|hist| - 1];
      ReadIsAttention(rest, q, c);
      ReadStep(After(rest), x, q, c);
    }
  }

  lemma {:induction false} NormIsAttention(hist: seq<Fault>, q: Vec)
    ensures Dot(q, After(hist).z, DH) == Attend(hist, Score(q))
  {
    if hist == [] {
      ReadZero(q, 0, DH);
    } else {
      var rest, x := hist[..|hist| - 1], hist[|hist| - 1];
      NormIsAttention(rest, q);
      ReadStep(After(rest), x, q, 0);
    }
  }

  // ----- The read is a convex combination ----------------------------------------------

  ghost predicate Positive(v: Vec) { forall i :: 0 <= i < DH ==> v[i] > 0.0 }

  ghost predicate PositiveFault(x: Fault) { Positive(x.q) && Positive(x.k) && x.f > 0.0 }

  /** Positive faults whose value coordinate `c` lies in [lo, hi]. */
  ghost predicate InRange(hist: seq<Fault>, c: nat, lo: real, hi: real)
    requires c < DH
  {
    forall i :: 0 <= i < |hist| ==> PositiveFault(hist[i]) && lo <= hist[i].v[c] <= hi
  }

  lemma {:induction false} DotPositive(a: Vec, b: Vec, n: nat)
    requires Positive(a) && Positive(b) && n <= DH
    ensures Dot(a, b, n) >= 0.0 && (n > 0 ==> Dot(a, b, n) > 0.0)
  {
    if n != 0 { DotPositive(a, b, n - 1); }
  }

  lemma BoundsStep(f: real, num: real, den: real, w: real, v: real, wv: real, lo: real, hi: real)
    requires f > 0.0 && w > 0.0 && lo <= v <= hi && wv == w * v && Squeezed(num, den, lo, hi)
    ensures Squeezed(Mix(f, num, wv), Mix(f, den, w), lo, hi) && Mix(f, den, w) > 0.0
  {
    MulMono(f, 0.0, den);
    MulMono(f, lo * den, num);
    MulMono(f, num, hi * den);
    MulMono(w, lo, v);
    MulMono(w, v, hi);
    assert lo * (f * den + w) == f * (lo * den) + w * lo;
    assert hi * (f * den + w) == f * (hi * den) + w * hi;
  }

  lemma MulMono(a: real, x: real, y: real)
    requires a >= 0.0 && x <= y
    ensures a * x <= a * y
  {}

  /** The weights are positive and the weighted sum is squeezed between the bounds. */
  ghost predicate Squeezed(num: real, den: real, lo: real, hi: real) {
    den >= 0.0 && lo * den <= num <= hi * den
  }

  lemma {:induction false} AttendBounds(hist: seq<Fault>, q: Vec, c: nat, lo: real, hi: real)
    requires c < DH && Positive(q) && InRange(hist, c, lo, hi)
    ensures Squeezed(Attend(hist, ScoredValue(q, c)), Attend(hist, Score(q)), lo, hi)
    ensures hist != [] ==> Attend(hist, Score(q)) > 0.0
  {
    if hist != [] {
      var rest, x := hist[..|hist| - 1], hist[|hist| - 1];
      assert InRange(rest, c, lo, hi);
      AttendBounds(rest, q, c, lo, hi);
      DotPositive(q, x.k, DH);
      BoundsStep(x.f, Attend(rest, ScoredValue(q, c)), Attend(rest, Score(q)),
                 Eval(Score(q), x), x.v[c], Eval(ScoredValue(q, c), x), lo, hi);
    }
  }

  /** Normalised attention over the whole history: a weighted mean of all past values. */
  ghost function Mean(hist: seq<Fault>, q: Vec, c: nat): real
    requires c < DH && Attend(hist, Score(q)) != 0.0
  {
    Attend(hist, ScoredValue(q, c)) / Attend(hist, Score(q))
  }

  /** The mean lies between the smallest and the largest past value. */
  lemma MeanBounded(hist: seq<Fault>, q: Vec, c: nat, lo: real, hi: real)
    requires hist != [] && c < DH && Positive(q)
    requires InRange(hist, c, lo, hi)
    ensures Attend(hist, Score(q)) > 0.0
    ensures lo <= Mean(hist, q, c) <= hi
  {
    AttendBounds(hist, q, c, lo, hi);
    var num, den := Attend(hist, ScoredValue(q, c)), Attend(hist, Score(q));
    Quotient(num, den, lo, hi);
  }

  lemma ReadIsMean(hist: seq<Fault>, q: Vec, c: nat)
    requires c < DH && Attend(hist, Score(q)) > 0.0
    ensures var den := Attend(hist, Score(q));
      ReadOut(After(hist), q)[c] == if den >= EPS then Mean(hist, q, c) else den / EPS * Mean(hist, q, c)
  {
    ReadIsAttention(hist, q, c);
    NormIsAttention(hist, q);
    Rescale(Attend(hist, ScoredValue(q, c)), Attend(hist, Score(q)));
  }

  lemma Rescale(num: real, den: real)
    requires den > 0.0
    ensures num / EPS == den / EPS * (num / den)
  {
    var mean := num / den;
    assert num == mean * den;
  }

  /** Coordinate `c` read after `hist` with query `q` is the attention mean over the history,
      inside [lo, hi], shrunk by the normaliser over EPS when that is below one. */
  ghost predicate ReadOk(hist: seq<Fault>, q: Vec, c: nat, lo: real, hi: real)
    requires c < DH
  {
    var den := Attend(hist, Score(q));
    && den > 0.0
    && lo <= Mean(hist, q, c) <= hi
    && ReadOut(After(hist), q)[c] == if den >= EPS then Mean(hist, q, c) else den / EPS * Mean(hist, q, c)
  }

  /** After any history, each output coordinate is the attention mean of that coordinate over
      all past faults, between their smallest and largest value; it is scaled towards zero
      exactly when the normaliser is below EPS. */
  lemma ReadBounded(hist: seq<Fault>, q: Vec, c: nat, lo: real, hi: real)
    requires hist != [] && c < DH && Positive(q)
    requires InRange(hist, c, lo, hi)
    ensures ReadOk(hist, q, c, lo, hi)
  {
    MeanBounded(hist, q, c, lo, hi);
    ReadIsMean(hist, q, c);
  }

  lemma Quotient(num: real, den: real, lo: real, hi: real)
    requires den > 0.0 && Squeezed(num, den, lo, hi)
    ensures lo <= num / den <= hi
  {
    assert num / den * den == num;
  }

  // ----- Feature maps and gates ----------------------------------------------------------

  function Elu1(exp: real -> real, x: real): real { if x >= 0.0 then x + 1.0 else exp(x) }

  function Sigmoid(exp: real -> real, x: real): real
    requires exp(-x) > 0.0
  {
    1.0 / (1.0 + exp(-x))
  }

  datatype Model = Model(embed: seq<Vec>, wq: seq<Vec>, wk: seq<Vec>, wv: seq<Vec>, wfg: Vec, bg: real)
  {
    predicate Valid() { |embed| == VOCAB && |wq| == DH && |wk| == DH && |wv| == DH }
  }

  /** The vocabulary token of a page number. */
  function Encode(vpn: nat): (t: nat)
    ensures t < VOCAB
  {
    Xor(vpn, vpn / 128) % VOCAB
  }

  ghost predicate PositiveExp(exp: real -> real) { forall x :: exp(x) > 0.0 }

  /** `w` applied to `x`, row by row, then the feature map. */
  ghost function Feature(exp: real -> real, w: seq<Vec>, x: Vec): (r: Vec)
    requires |w| == DH
    ensures forall i :: 0 <= i < DH ==> r[i] == Elu1(exp, Dot(w[i], x, DH))
  {
    seq(DH, i requires 0 <= i < DH => Elu1(exp, Dot(w[i], x, DH)))
  }

  ghost function Linear(w: seq<Vec>, x: Vec): (r: Vec)
    requires |w| == DH
    ensures forall i :: 0 <= i < DH ==> r[i] == Dot(w[i], x, DH)
  {
    seq(DH, i requires 0 <= i < DH => Dot(w[i], x, DH))
  }

  /** The projection loops of `qkv`, row by row, and the feature map on q and k. */
  method Qkv(m: Model, exp: real -> real, x: Vec) returns (q: Vec, k: Vec, v: Vec)
    requires m.Valid()
    ensures q == Feature(exp, m.wq, x) && k == Feature(exp, m.wk, x) && v == Linear(m.wv, x)
  {
    var qs, ks, vs: seq<real> := [], [], [];
    for r := 0 to DH
      invariant |qs| == |ks| == |vs| == r
      invariant forall i :: 0 <= i < r ==> qs[i] == Elu1(exp, Dot(m.wq[i], x, DH))
      invariant forall i :: 0 <= i < r ==> ks[i] == Elu1(exp, Dot(m.wk[i], x, DH))
      invariant forall i :: 0 <= i < r ==> vs[i] == Dot(m.wv[i], x, DH)
    {
      var a, b, d := 0.0, 0.0, 0.0;
      for c := 0 to DH
        invariant a == Dot(m.wq[r], x, c) && b == Dot(m.wk[r], x, c) && d == Dot(m.wv[r], x, c)
      {
        a, b, d := a + m.wq[r][c] * x[c], b + m.wk[r][c] * x[c], d + m.wv[r][c] * x[c];
      }
      qs, ks, vs := qs + [Elu1(exp, a)], ks + [Elu1(exp, b)], vs + [d];
    }
    q, k, v := qs, ks, vs;
  }

  /** What a fault on page `vpn` feeds to the state. */
  ghost function FaultOf(m: Model, exp: real -> real, vpn: nat): Fault
    requires m.Valid() && PositiveExp(exp)
  {
    var x := m.embed[Encode(vpn)];
    Fault(Feature(exp, m.wq, x), Feature(exp, m.wk, x), Linear(m.wv, x), Sigmoid(exp, Dot(m.wfg, x, DH) + m.bg))
  }

  lemma FaultPositive(m: Model, exp: real -> real, vpn: nat)
    requires m.Valid() && PositiveExp(exp)
    ensures PositiveFault(FaultOf(m, exp, vpn)) && FaultOf(m, exp, vpn).f < 1.0
  {
    var y := Dot(m.wfg, m.embed[Encode(vpn)], DH) + m.bg;
    var e := exp(-y);
  }

  ghost function HistoryOf(m: Model, exp: real -> real, vpns: seq<nat>): (h: seq<Fault>)
    requires m.Valid() && PositiveExp(exp)
    ensures |h| == |vpns| && forall i :: 0 <= i < |vpns| ==> h[i] == FaultOf(m, exp, vpns[i])
  {
    seq(|vpns|, i requires 0 <= i < |vpns| => FaultOf(m, exp, vpns[i]))
  }

  /** End to end: whatever the weights and whatever pages fault, the advisor's read at the
      last fault stays within the range of the values of the faults so far, up to scaling
      towards zero. */
  lemma AdvisorReadBounded(m: Model, exp: real -> real, vpns: seq<nat>, c: nat, lo: real, hi: real)
    requires m.Valid() && PositiveExp(exp) && vpns != [] && c < DH
    requires forall i :: 0 <= i < |vpns| ==> lo <= FaultOf(m, exp, vpns[i]).v[c] <= hi
    ensures var hist := HistoryOf(m, exp, vpns); ReadOk(hist, hist[|hist| - 1].q, c, lo, hi)
  {
    var hist := HistoryOf(m, exp, vpns);
    HistoryInRange(m, exp, vpns, c, lo, hi);
    ReadBounded(hist, hist[|hist| - 1].q, c, lo, hi);
  }

  lemma HistoryInRange(m: Model, exp: real -> real, vpns: seq<nat>, c: nat, lo: real, hi: real)
    requires m.Valid() && PositiveExp(exp) && c < DH
    requires forall i :: 0 <= i < |vpns| ==> lo <= FaultOf(m, exp, vpns[i]).v[c] <= hi
    ensures InRange(HistoryOf(m, exp, vpns), c, lo, hi)
    ensures vpns != [] ==> Positive(HistoryOf(m, exp, vpns)[|vpns| - 1].q)
  {
    var hist := HistoryOf(m, exp, vpns);
    forall i | 0 <= i < |hist|
      ensures PositiveFault(hist[i])
    {
      FaultPositive(m, exp, vpns[i]);
    }
  }

  /** What is read at the last fault of a history. */
  ghost function LastRead(m: Model, exp: real -> real, vpns: seq<nat>): Vec
    requires m.Valid() && PositiveExp(exp) && vpns != []
  {
    ReadOut(After(HistoryOf(m, exp, vpns)), FaultOf(m, exp, vpns[|vpns| - 1]).q)
  }

  lemma {:induction false} AfterMore(m: Model, exp: real -> real, vpns: seq<nat>, vpn: nat)
    requires m.Valid() && PositiveExp(exp)
    ensures After(HistoryOf(m, exp, vpns + [vpn])) == Update(After(HistoryOf(m, exp, vpns)), FaultOf(m, exp, vpn))
  {
    var h, h' := HistoryOf(m, exp, vpns), HistoryOf(m, exp, vpns + [vpn]);
    assert h' == h + [FaultOf(m, exp, vpn)];
    assert h'[..|h|] == h;
  }

  method FaultFor(m: Model, exp: real -> real, vpn: nat) returns (x: Fault)
    requires m.Valid() && PositiveExp(exp)
    ensures x == FaultOf(m, exp, vpn)
  {
    var e := m.embed[Encode(vpn)];
    var q, k, v := Qkv(m, exp, e);
    x := Fault(q, k, v, Sigmoid(exp, Dot(m.wfg, e, DH) + m.bg));
  }

  // ----- The read in terms of the weights -----------------------------------------------------

  /** The embedding of a page. */
  ghost function Embedded(m: Model, vpn: nat): Vec
    requires m.Valid()
  {
    m.embed[Encode(vpn)]
  }

  /** How strongly page `a` attends to page `b`: its query features against the key features of `b`. */
  ghost function Affinity(m: Model, exp: real -> real, a: nat, b: nat): real
    requires m.Valid()
  {
    Dot(Feature(exp, m.wq, Embedded(m, a)), Feature(exp, m.wk, Embedded(m, b)), DH)
  }

  /** The forget gate of a page. */
  ghost function GateOf(m: Model, exp: real -> real, vpn: nat): real
    requires m.Valid() && PositiveExp(exp)
  {
    Sigmoid(exp, Dot(m.wfg, Embedded(m, vpn), DH) + m.bg)
  }

  /** The product of the gates of all faults after fault `i`. */
  ghost function GatesAfter(m: Model, exp: real -> real, vpns: seq<nat>, i: nat): real
    requires m.Valid() && PositiveExp(exp) && i < |vpns|
    decreases |vpns| - i
  {
    if i == |vpns| - 1 then 1.0 else Mul(GateOf(m, exp, vpns[i + 1]), GatesAfter(m, exp, vpns, i + 1))
  }

  /** Those products, the affinities of the last page to every page, and coordinate `c` of every
      page's value. */
  ghost function Gates(m: Model, exp: real -> real, vpns: seq<nat>): (r: seq<real>)
    requires m.Valid() && PositiveExp(exp)
    ensures |r| == |vpns| && forall i :: 0 <= i < |vpns| ==> r[i] == GatesAfter(m, exp, vpns, i)
  {
    seq(|vpns|, i requires 0 <= i < |vpns| => GatesAfter(m, exp, vpns, i))
  }

  ghost function Affinities(m: Model, exp: real -> real, vpns: seq<nat>): (r: seq<real>)
    requires m.Valid() && PositiveExp(exp)
    ensures |r| == |vpns| && forall i :: 0 <= i < |vpns| ==> r[i] == Affinity(m, exp, vpns[|vpns| - 1], vpns[i])
  {
    seq(|vpns|, i requires 0 <= i < |vpns| => Affinity(m, exp, vpns[|vpns| - 1], vpns[i]))
  }

  ghost function ValuesOf(m: Model, vpns: seq<nat>, c: nat): (r: seq<real>)
    requires m.Valid() && c < DH
    ensures |r| == |vpns| && forall i :: 0 <= i < |vpns| ==> r[i] == Dot(m.wv[c], Embedded(m, vpns[i]), DH)
  {
    seq(|vpns|, i requires 0 <= i < |vpns| => Dot(m.wv[c], Embedded(m, vpns[i]), DH))
  }

  ghost function Products(a: seq<real>, b: seq<real>): (r: seq<real>)
    requires |a| == |b|
    ensures |r| == |a| && forall i :: 0 <= i < |a| ==> r[i] == Mul(a[i], b[i])
  {
    seq(|a|, i requires 0 <= i < |a| => Mul(a[i], b[i]))
  }

  lemma {:induction false} WeightedIsDot(hist: seq<Fault>, g: Term, gates: seq<real>, xs: seq<real>, n: nat)
    requires n <= |hist| == |gates| == |xs|
    requires forall i :: 0 <= i < |hist| ==> gates[i] == Decay(hist, i)
    requires forall i :: 0 <= i < |hist| ==> xs[i] == Eval(g, hist[i])
    ensures Weighted(hist, g, n) == Dot(gates, xs, n)
  {
    if n > 0 { WeightedIsDot(hist, g, gates, xs, n - 1); }
  }

  lemma {:induction false} DecayIsGates(m: Model, exp: real -> real, vpns: seq<nat>, i: nat)
    requires m.Valid() && PositiveExp(exp) && i < |vpns|
    ensures Decay(HistoryOf(m, exp, vpns), i) == GatesAfter(m, exp, vpns, i)
    decreases |vpns| - i
  {
    if i < |vpns| - 1 { DecayIsGates(m, exp, vpns, i + 1); }
  }

  lemma {:induction false} TermsInWeights(m: Model, exp: real -> real, a: nat, b: nat, c: nat)
    requires m.Valid() && PositiveExp(exp) && c < DH
    ensures var q, x := FaultOf(m, exp, a).q, FaultOf(m, exp, b);
      && Eval(Score(q), x) == Affinity(m, exp, a, b)
      && Eval(ScoredValue(q, c), x) == Mul(Affinity(m, exp, a, b), Dot(m.wv[c], Embedded(m, b), DH))
  {}

  lemma {:induction false} SumsInWeights(m: Model, exp: real -> real, vpns: seq<nat>, c: nat)
    requires m.Valid() && PositiveExp(exp) && vpns != [] && c < DH
    ensures var h, q := HistoryOf(m, exp, vpns), FaultOf(m, exp, vpns[|vpns| - 1]).q;
      var gates, links := Gates(m, exp, vpns), Affinities(m, exp, vpns);
      && Weighted(h, Score(q), |h|) == Dot(gates, links, |vpns|)
      && Weighted(h, ScoredValue(q, c), |h|) == Dot(gates, Products(links, ValuesOf(m, vpns, c)), |vpns|)
  {
    var h, q := HistoryOf(m, exp, vpns), FaultOf(m, exp, vpns[|vpns| - 1]).q;
    var gates, links := Gates(m, exp, vpns), Affinities(m, exp, vpns);
    var vs := Products(links, ValuesOf(m, vpns, c));
    forall i | 0 <= i < |h|
      ensures gates[i] == Decay(h, i) && links[i] == Eval(Score(q), h[i]) && vs[i] == Eval(ScoredValue(q, c), h[i])
    {
      DecayIsGates(m, exp, vpns, i);
      TermsInWeights(m, exp, vpns[|vpns| - 1], vpns[i], c);
    }
    WeightedIsDot(h, Score(q), gates, links, |h|);
    WeightedIsDot(h, ScoredValue(q, c), gates, vs, |h|);
  }

  /** The read at the last fault, from the weights: affinities of the last page to every page so
      far, gated by everything that came after it, weigh those pages' values. */
  lemma {:induction false} ReadInWeights(m: Model, exp: real -> real, vpns: seq<nat>, c: nat)
    requires m.Valid() && PositiveExp(exp) && vpns != [] && c < DH
    ensures var gates, links := Gates(m, exp, vpns), Affinities(m, exp, vpns);
      Mul(LastRead(m, exp, vpns)[c], Max(Dot(gates, links, |vpns|), EPS))
      == Dot(gates, Products(links, ValuesOf(m, vpns, c)), |vpns|)
  {
    var h, q := HistoryOf(m, exp, vpns), FaultOf(m, exp, vpns[|vpns| - 1]).q;
    ReadIsAttention(h, q, c);
    NormIsAttention(h, q);
    AttendIsSum(h, ScoredValue(q, c));
    AttendIsSum(h, Score(q));
    SumsInWeights(m, exp, vpns, c);
    TimesQuotient(Column(After(h).s, q, c, DH), Max(Dot(q, After(h).z, DH), EPS));
  }

  lemma {:induction false} TimesQuotient(a: real, b: real)
    requires b > 0.0
    ensures Mul(a / b, b) == a
  {}

  // ----- The feature map, the gate and the tokens -----------------------------------------------

  /** What is used of the exponential function below. */
  ghost predicate IsExp(exp: real -> real) {
    && PositiveExp(exp) && exp(0.0) == 1.0
    && (forall x, y :: x < y ==> exp(x) < exp(y))
    && (forall x :: Mul(exp(x), exp(-x)) == 1.0)
  }

  /** ELU + 1 grows strictly, by exactly as much as its argument from zero on, and is below one for
      negative arguments only. */
  lemma {:induction false} FeatureGrows(exp: real -> real, x: real, y: real)
    requires IsExp(exp) && x < y
    ensures Elu1(exp, x) < Elu1(exp, y)
    ensures x >= 0.0 ==> Elu1(exp, y) - Elu1(exp, x) == y - x
    ensures Elu1(exp, x) < 1.0 <==> x < 0.0
  {
    if x < 0.0 { assert exp(x) < exp(0.0); }
  }

  lemma {:induction false} DotOfUnit(w: Vec, x: Vec, c: nat, n: nat)
    requires c < DH && n <= DH && forall k :: 0 <= k < DH ==> x[k] == if k == c then 1.0 else 0.0
    ensures Dot(w, x, n) == if c < n then w[c] else 0.0
  {
    if n > 0 { DotOfUnit(w, x, c, n - 1); }
  }

  /** A unit embedding selects a column of the weights. */
  lemma {:induction false} ProjectionsOfUnit(exp: real -> real, w: seq<Vec>, x: Vec, c: nat, i: nat)
    requires |w| == DH && c < DH && i < DH && forall k :: 0 <= k < DH ==> x[k] == if k == c then 1.0 else 0.0
    ensures Feature(exp, w, x)[i] == Elu1(exp, w[i][c]) && Linear(w, x)[i] == w[i][c]
  {
    DotOfUnit(w[i], x, c, DH);
  }

  /** The gate grows with its argument, and a gate and its opposite share one. */
  lemma {:induction false} GateLaws(exp: real -> real, x: real, y: real)
    requires IsExp(exp) && x < y
    ensures Sigmoid(exp, x) < Sigmoid(exp, y)
    ensures Sigmoid(exp, x) + Sigmoid(exp, -x) == 1.0
  {
    assert exp(-y) < exp(-x);
    SmallerShare(exp(-y), exp(-x));
    Shares(exp(-x), exp(x));
    assert Mul(exp(x), exp(-x)) == 1.0;
  }

  lemma {:induction false} SmallerShare(a: real, b: real)
    requires 0.0 < a < b
    ensures 1.0 / (1.0 + b) < 1.0 / (1.0 + a)
  {
    var x, y := 1.0 / (1.0 + b), 1.0 / (1.0 + a);
    assert x * (1.0 + b) == 1.0 && y * (1.0 + a) == 1.0;
    assert x > 0.0;
    assert (y - x) * (1.0 + a) == x * (b - a);
  }

  lemma {:induction false} Shares(a: real, b: real)
    requires a > 0.0 && b > 0.0
    ensures Mul(b, a) == 1.0 ==> 1.0 / (1.0 + a) + 1.0 / (1.0 + b) == 1.0
  {
    var x, y := 1.0 / (1.0 + a), 1.0 / (1.0 + b);
    assert x * (1.0 + a) == 1.0 && y * (1.0 + b) == 1.0;
    if Mul(b, a) == 1.0 {
      assert (1.0 + a) * (1.0 + b) == (1.0 + a) + (1.0 + b);
      assert (x + y) * ((1.0 + a) * (1.0 + b)) == (1.0 + b) + (1.0 + a);
    }
  }

  lemma {:induction false} ShiftSeven(a: nat)
    ensures Shift(7, a) == 128 * a
  {
    assert Shift(0, a) == a;
    assert Shift(2, a) == 4 * Shift(0, a);
    assert Shift(4, a) == 4 * Shift(2, a);
    assert Shift(6, a) == 4 * Shift(4, a);
  }

  /** The token combines the low seven bits of the page number with the next seven: page b of
      block a gets the exclusive or of both, whatever the higher bits are. */
  lemma {:induction false} TokenOf(c: nat, a: nat, b: nat)
    requires a < 128 && b < 128
    ensures Encode(128 * (128 * c + a) + b) == Xor(a, b)
  {
    var block := 128 * c + a;
    BlockOf(block, b);
    ShiftSeven(1);
    ShiftSeven(block);
    ShiftSeven(c);
    ShiftSeven(Xor(block, c));
    XorDigits(7, block, c, b, a);
    XorCommutes(a, b);
    LowPart(Xor(block, c), Xor(b, a));
  }

  lemma {:induction false} BlockOf(block: nat, b: nat)
    requires b < 128
    ensures (128 * block + b) / 128 == block
  {}

  lemma {:induction false} LowPart(q: nat, r: nat)
    requires r < 128
    ensures (128 * q + r) % VOCAB == r
  {}

  // ----- Training target -----------------------------------------------------------------

  function Distance(a: nat, b: nat): nat { if a >= b then a - b else b - a }

  /** The pages moved forward; a backward jump counts as zero pages. */
  function Forward(prev: nat, vpn: nat): nat { if vpn >= prev then vpn - prev else 0 }

  /** `best` is the first of the classes nearest to `d`. */
  ghost predicate Nearest(d: nat, best: nat) {
    && best < |DELTA_PAGES|
    && (forall i :: 0 <= i < |DELTA_PAGES| ==> Distance(d, DELTA_PAGES[best]) <= Distance(d, DELTA_PAGES[i]))
    && (forall i :: 0 <= i < best ==> Distance(d, DELTA_PAGES[best]) < Distance(d, DELTA_PAGES[i]))
  }

  /** The class in numbers: nearest of 1, 2, 4, 8 and 16 pages, the smaller one at 3, 6 and 12. */
  lemma {:induction false} ClassIs(d: nat, best: nat)
    ensures Nearest(d, best) <==>
      best == if d <= 1 then 0 else if d <= 3 then 1 else if d <= 6 then 2 else if d <= 12 then 3 else 4
  {
    var all := DELTA_PAGES;
    assert |all| == 5 && all[0] == 1 && all[1] == 2 && all[2] == 4 && all[3] == 8 && all[4] == 16;
    if Nearest(d, best) {
      Beats(d, best, 0);
      Beats(d, best, 1);
      Beats(d, best, 2);
      Beats(d, best, 3);
      Beats(d, best, 4);
    }
  }

  lemma {:induction false} Beats(d: nat, best: nat, i: nat)
    requires Nearest(d, best) && i < |DELTA_PAGES|
    ensures Distance(d, DELTA_PAGES[best]) <= Distance(d, DELTA_PAGES[i])
    ensures i < best ==> Distance(d, DELTA_PAGES[best]) < Distance(d, DELTA_PAGES[i])
  {}

  lemma {:induction false} MovedForward(prev: nat, k: nat)
    ensures Forward(prev, prev + k) == k && (k <= prev ==> Forward(prev, prev - k) == 0)
  {}

  /** The delta class a fault trains. */
  method TargetClass(prev: nat, vpn: nat) returns (best: nat)
    ensures Nearest(Forward(prev, vpn), best)
  {
    var d := Forward(prev, vpn);
    best := 0;
    for k := 1 to |DELTA_PAGES|
      invariant best < k
      invariant forall i :: 0 <= i < k ==> Distance(d, DELTA_PAGES[best]) <= Distance(d, DELTA_PAGES[i])
      invariant forall i :: 0 <= i < best ==> Distance(d, DELTA_PAGES[best]) < Distance(d, DELTA_PAGES[i])
    {
      if Distance(d, DELTA_PAGES[k]) < Distance(d, DELTA_PAGES[best]) { best := k; }
    }
  }

  // ----- The code ------------------------------------------------------------------

  class GlaPageState {
    const s: array<real>
    const z: array<real>
    var prevVpn: nat
    var prevRead: Option<Vec>
    ghost var vpns: seq<nat>         // the pages that faulted so far

    /** The state is that of the whole fault history, and the last fault and its read are kept. */
    ghost predicate Tracks(m: Model, exp: real -> real)
      requires m.Valid() && PositiveExp(exp)
      reads this, s, z
    {
      && Valid() && State() == After(HistoryOf(m, exp, vpns))
      && (vpns == [] ==> prevRead == None)
      && (vpns != [] ==> prevVpn == vpns[|vpns| - 1] && prevRead == Some(LastRead(m, exp, vpns)))
    }

    /** `on_fault` for one process: the state moves on by one fault; if there was a fault before, its
        read is trained towards the class of the distance now seen; and the page predicted is the
        one that the output head `head` chooses for the current read. */
    method OnFault(m: Model, exp: real -> real, head: Vec -> nat, vpn: nat)
        returns (train: Option<(Vec, nat)>, page: nat)
      requires m.Valid() && PositiveExp(exp) && Tracks(m, exp) && forall v :: head(v) < |DELTA_PAGES|
      modifies this, s, z
      ensures Tracks(m, exp) && vpns == old(vpns) + [vpn]
      ensures page == vpn + DELTA_PAGES[head(LastRead(m, exp, vpns))]
      ensures train.Some? <==> old(vpns) != []
      ensures train.Some? ==>
        && train.value.0 == LastRead(m, exp, old(vpns))
        && Nearest(Forward(old(vpns)[|old(vpns)| - 1], vpn), train.value.1)
    {
      var x := FaultFor(m, exp, vpn);
      AfterMore(m, exp, vpns, vpn);
      var read := Step(x);
      train := None;
      if prevRead.Some? {
        var best := TargetClass(prevVpn, vpn);
        train := Some((prevRead.value, best));
      }
      prevVpn, prevRead := vpn, Some(read);
      vpns := vpns + [vpn];
      page := vpn + DELTA_PAGES[head(read)];
    }

    ghost predicate Valid()
      reads this
    {
      s.Length == DH * DH && z.Length == DH && s != z
    }

    ghost function State(): (m: Mem)
      requires Valid()
      reads this, s, z
      ensures m.Valid()
    {
      Mem(s[..], z[..])
    }

    constructor ()
      ensures Valid() && fresh(s) && fresh(z) && State() == After([]) && vpns == [] && prevRead == None
    {
      s := new real[DH * DH](i => 0.0);
      z := new real[DH](i => 0.0);
      prevVpn, prevRead, vpns := 0, None, [];
      new;
      assert s[..] == Zeros(DH * DH) && z[..] == Zeros(DH);
    }

    method Step(x: Fault) returns (out: Vec)
      requires Valid()
      modifies s, z
      ensures State() == Update(old(State()), x)
      ensures out == ReadOut(State(), x.q)
    {
      UpdateS(x);
      UpdateZ(x);
      out := Read(x.q);
    }

    method UpdateS(x: Fault)
      requires Valid()
      modifies s
      ensures s[..] == NewS(old(s[..]), x)
    {
      for r := 0 to DH
        invariant forall j :: 0 <= j < r * DH ==> s[j] == x.f * old(s[j]) + x.k[j / DH] * x.v[j % DH]
        invariant forall j :: r * DH <= j < DH * DH ==> s[j] == old(s[j])
      {
        UpdateRow(x, r);
      }
      ghost var was := old(s[..]);
      forall j | 0 <= j < DH * DH
        ensures s[j] == NewS(was, x)[j]
      {
        assert was[j] == old(s[j]);
      }
    }

    method UpdateRow(x: Fault, r: nat)
      requires Valid() && r < DH
      modifies s
      ensures forall j :: 0 <= j < DH * DH ==>
        s[j] == if r * DH <= j < (r + 1) * DH then x.f * old(s[j]) + x.k[j / DH] * x.v[j % DH] else old(s[j])
    {
      for c := 0 to DH
        invariant forall j :: r * DH <= j < r * DH + c ==> s[j] == x.f * old(s[j]) + x.k[j / DH] * x.v[j % DH]
        invariant forall j :: 0 <= j < DH * DH && !(r * DH <= j < r * DH + c) ==> s[j] == old(s[j])
      {
        s[r * DH + c] := x.f * s[r * DH + c] + x.k[r] * x.v[c];
      }
    }

    method UpdateZ(x: Fault)
      requires Valid()
      modifies z
      ensures z[..] == NewZ(old(z[..]), x)
    {
      for i := 0 to DH
        invariant forall j :: 0 <= j < i ==> z[j] == x.f * old(z[j]) + x.k[j]
        invariant forall j :: i <= j < DH ==> z[j] == old(z[j])
      {
        z[i] := x.f * z[i] + x.k[i];
      }
      ghost var was := old(z[..]);
      forall j | 0 <= j < DH
        ensures z[j] == NewZ(was, x)[j]
      {
        assert was[j] == old(z[j]);
      }
    }

    method Read(q: Vec) returns (out: Vec)
      requires Valid()
      ensures out == ReadOut(State(), q)
    {
      var dot := Norm(q);
      var denom := Max(dot, EPS);
      var acc := Columns(q);
      for c := 0 to DH
        invariant forall j :: 0 <= j < c ==> acc[j] == Column(s[..], q, j, DH) / denom
        invariant forall j :: c <= j < DH ==> acc[j] == Column(s[..], q, j, DH)
      {
        acc[c] := acc[c] / denom;
      }
      out := acc[..];
    }

    method Norm(q: Vec) returns (dot: real)
      requires Valid()
      ensures dot == Dot(q, z[..], DH)
    {
      dot := 0.0;
      for i := 0 to DH
        invariant dot == Dot(q, z[..], i)
      {
        dot := dot + q[i] * z[i];
      }
    }

    method Columns(q: Vec) returns (acc: array<real>)
      requires Valid()
      ensures fresh(acc) && acc.Length == DH && forall c :: 0 <= c < DH ==> acc[c] == Column(s[..], q, c, DH)
    {
      acc := new real[DH](i => 0.0);
      for r := 0 to DH
        invariant forall c :: 0 <= c < DH ==> acc[c] == Column(s[..], q, c, r)
      {
        AddRow(q, r, acc);
      }
    }

    method AddRow(q: Vec, r: nat, acc: array<real>)
      requires Valid() && r < DH && acc.Length == DH && acc != s && acc != z
      requires forall c :: 0 <= c < DH ==> acc[c] == Column(s[..], q, c, r)
      modifies acc
      ensures forall c :: 0 <= c < DH ==> acc[c] == Column(s[..], q, c, r + 1)
    {
      for c := 0 to DH
        invariant forall j :: 0 <= j < c ==> acc[j] == Column(s[..], q, j, r + 1)
        invariant forall j :: c <= j < DH ==> acc[j] == Column(s[..], q, j, r)
      {
        acc[c] := acc[c] + s[r * DH + c] * q[r];
      }
    }
  }
}
