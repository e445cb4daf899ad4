/** kernel/src/anomaly.rs and kernel/src/autotune.rs: how the readings and running scores of the
    detector, and the threshold's target, behave. */
module AnomalyLaws {
  import opened Prelude
  import opened Anomaly

  // ----- The target of the threshold ----------------------------------------------------------

  /** A higher entropy reading lowers the target: each tenth of it takes a twentieth of the base off. */
  lemma {:induction false} ChaosTightens(load: real, a: real, b: real, mod: real)
    requires a <= b
    ensures RawTarget(load, a, mod) - RawTarget(load, b, mod) == 0.0005 * (b - a)
    ensures Target(load, b, mod) <= Target(load, a, mod)
    ensures Target(load, b, mod) < Target(load, a, mod) <==>
      a < b && RawTarget(load, a, mod) > LOW && RawTarget(load, b, mod) < HIGH
  {
    assert RawTarget(load, a, mod) - RawTarget(load, b, mod) == BASE_THRESHOLD * (b * 0.5 - a * 0.5);
  }

  /** The modulation moves the target the same way, by a thousandth of itself. */
  lemma {:induction false} ModulationTightens(load: real, chaos: real, mod: real, mod': real)
    ensures RawTarget(load, chaos, mod) - RawTarget(load, chaos, mod') == 0.001 * (mod' - mod)
  {
    assert BASE_THRESHOLD * mod' - BASE_THRESHOLD * mod == BASE_THRESHOLD * (mod' - mod);
  }

  /** Scheduler-to-memory coupling and anomaly retention tighten; memory-to-anomaly coupling and memory
      retention relax. */
  lemma {:induction false} ModulationMonotone(s: real, m: real, a: real, r: real, s': real, m': real, a': real, r': real)
    requires s <= s' && m' <= m && a <= a' && r' <= r
    ensures Modulation(s, m, a, r) <= Modulation(s', m', a', r')
  {}

  /** Two units of the first coupling outweigh three of the second, one of the first retention two
      of the second; and neither pair ever counts for more than 0.3, reached exactly one unit of the
      first coupling, or three quarters of the first retention, away from balance. */
  lemma {:induction false} ModulationBalance(s: real, m: real, a: real, r: real)
    ensures 3.0 * s == 2.0 * m && 2.0 * a == r ==> Modulation(s, m, a, r) == 0.0
    ensures -0.6 <= Modulation(s, m, a, r) <= 0.6
    ensures 2.0 * a == r ==> (Modulation(s, m, a, r) == 0.3 <==> 3.0 * s >= 2.0 * m + 3.0)
    ensures 3.0 * s == 2.0 * m ==> (Modulation(s, m, a, r) == 0.3 <==> 2.0 * a >= r + 1.5)
  {}

  // ----- The reading -----------------------------------------------------------------------------

  lemma {:induction false} SumShift(xs: seq<u16>, ys: seq<u16>, k: int, n: nat)
    requires n <= |xs| == |ys| && forall i :: 0 <= i < |xs| ==> ys[i] == xs[i] + k
    ensures Sum(ys, n) == Sum(xs, n) + n * k
  {
    if n > 0 { SumShift(xs, ys, k, n - 1); }
  }

  /** The reading does not depend on the level of the samples. */
  lemma {:induction false} AutocorrShift(xs: seq<u16>, ys: seq<u16>, k: int)
    requires |xs| == |ys| == AC_WINDOW && forall i :: 0 <= i < AC_WINDOW ==> ys[i] == xs[i] + k
    ensures Autocorr(ys, Mean(ys)) == Autocorr(xs, Mean(xs))
  {
    SumShift(xs, ys, k, AC_WINDOW);
    assert Mean(ys) == Mean(xs) + k as real;
    assert Centred(ys, Mean(ys)) == Centred(xs, Mean(xs));
  }

  ghost predicate Alternates(xs: seq<u16>, a: u16, b: u16) {
    |xs| == AC_WINDOW && forall i :: 0 <= i < AC_WINDOW ==> xs[i] == if i % 2 == 0 then a else b
  }

  lemma {:induction false} SumAlternates(xs: seq<u16>, a: u16, b: u16, n: nat)
    requires Alternates(xs, a, b) && 2 * n <= AC_WINDOW
    ensures Sum(xs, 2 * n) == n * (a + b)
  {
    if n > 0 {
      SumAlternates(xs, a, b, n - 1);
      assert Sum(xs, 2 * n) == Sum(xs, 2 * n - 1) + xs[2 * n - 1];
      assert Sum(xs, 2 * n - 1) == Sum(xs, 2 * (n - 1)) + xs[2 * (n - 1)];
    }
  }

  lemma {:induction false} AlternatingSums(y: seq<real>, d: real, n: nat)
    requires |y| == AC_WINDOW && n <= AC_WINDOW
    requires forall i :: 0 <= i < AC_WINDOW ==> y[i] == if i % 2 == 0 then d else -d
    ensures Var(y, n) == n as real * Sq(d) && Cov(y, n) == -(n as real) * Sq(d)
  {
    if n > 0 {
      AlternatingSums(y, d, n - 1);
      Opposites(d);
      assert Before(y, n - 1) == -y[n - 1];
      OneMore(n, Sq(d));
    }
  }

  lemma {:induction false} Opposites(d: real)
    ensures Sq(-d) == Sq(d) && Mul(d, -d) == -Sq(d) && Mul(-d, d) == -Sq(d)
  {}

  lemma {:induction false} OneMore(n: nat, v: real)
    requires n > 0
    ensures n as real * v == (n - 1) as real * v + v
  {
    assert n as real == (n - 1) as real + 1.0;
  }

  /** Two syscalls taking turns give the lowest reading there is. */
  lemma {:induction false} TurnsAreChaotic(xs: seq<u16>, a: u16, b: u16)
    requires Alternates(xs, a, b) && a != b
    ensures Autocorr(xs, Mean(xs)) == -1.0
  {
    SumAlternates(xs, a, b, AC_WINDOW / 2);
    var d := (a - b) as real / 2.0;
    var y := Centred(xs, Mean(xs));
    AlternatingSums(y, d, AC_WINDOW);
    HalfSquare(a - b);
    MinusOne(Sq(d));
  }

  lemma {:induction false} HalfSquare(n: int)
    requires n != 0
    ensures Sq(n as real / 2.0) >= 0.25
  {
    var x := n as real / 2.0;
    if x > 0.0 { assert x * x >= 0.5 * 0.5; } else { assert (-x) * (-x) >= 0.5 * 0.5; }
  }

  lemma {:induction false} MinusOne(v: real)
    requires v > 0.0
    ensures -(16.0 * v) / (16.0 * v) == -1.0
  {}

  // ----- Counts ------------------------------------------------------------------------------------

  /** Observation `i` came right after `a`; the first one comes after 0. */
  ghost predicate CameAfter(hist: seq<u16>, i: nat, a: u16) {
    i < |hist| && if i == 0 then a == 0 else hist[i - 1] == a
  }

  /** The observations of `b` right after `a`. */
  ghost function Occurrences(hist: seq<u16>, a: u16, b: u16): set<nat> {
    set i: nat | i < |hist| && CameAfter(hist, i, a) && hist[i] == b
  }

  /** The observations right after `a`, of anything. */
  ghost function Departures(hist: seq<u16>, a: u16): set<nat> {
    set i: nat | i < |hist| && CameAfter(hist, i, a)
  }

  /** The bigram and marginal counts count exactly those. */
  lemma {:induction false} CountsMean(hist: seq<u16>, a: u16, b: u16)
    ensures CountTr(hist, (a, b)) == |Occurrences(hist, a, b)| && CountFrom(hist, a) == |Departures(hist, a)|
  {
    if hist == [] {
      assert Occurrences(hist, a, b) == {} && Departures(hist, a) == {};
    } else {
      var n := |hist| - 1;
      var rest := hist[..n];
      CountsMean(rest, a, b);
      LastOccurrence(hist, a, b);
      LastDeparture(hist, a);
    }
  }

  lemma {:induction false} LastOccurrence(hist: seq<u16>, a: u16, b: u16)
    requires hist != []
    ensures var n := |hist| - 1;
      |Occurrences(hist, a, b)| == |Occurrences(hist[..n], a, b)| + if hist[n] == b && CameAfter(hist, n, a) then 1 else 0
  {
    var n := |hist| - 1;
    assert forall i: nat :: i < n ==> (CameAfter(hist[..n], i, a) <==> CameAfter(hist, i, a));
    var before := Occurrences(hist[..n], a, b);
    if n in Occurrences(hist, a, b) {
      assert Occurrences(hist, a, b) == before + {n};
    } else {
      assert Occurrences(hist, a, b) == before;
    }
  }

  lemma {:induction false} LastDeparture(hist: seq<u16>, a: u16)
    requires hist != []
    ensures var n := |hist| - 1;
      |Departures(hist, a)| == |Departures(hist[..n], a)| + if CameAfter(hist, n, a) then 1 else 0
  {
    var n := |hist| - 1;
    assert forall i: nat :: i < n ==> (CameAfter(hist[..n], i, a) <==> CameAfter(hist, i, a));
    var before := Departures(hist[..n], a);
    if n in Departures(hist, a) {
      assert Departures(hist, a) == before + {n};
    } else {
      assert Departures(hist, a) == before;
    }
  }

  // ----- The anomaly score -----------------------------------------------------------------------

  /** The course of the score: each suspicious observation adds a tenth, up to one. */
  lemma {:induction false} ScoreRises(hist: seq<u16>, n: nat, k: nat)
    requires n + k <= |hist| && forall i :: n <= i < n + k ==> Suspicious(hist, i)
    ensures ScoreOf(hist[..n + k]) == MinR(ScoreOf(hist[..n]) + k as real / 10.0, 1.0)
  {
    if k > 0 {
      ScoreRises(hist, n, k - 1);
      var i := n + k - 1;
      ScoreStep(hist, i);
      assert Suspicious(hist, i) && n + (k - 1) == i && k as real / 10.0 == (k - 1) as real / 10.0 + 0.1;
    }
  }

  /** Each other one takes a fiftieth off, down to zero. */
  lemma {:induction false} ScoreFalls(hist: seq<u16>, n: nat, k: nat)
    requires n + k <= |hist| && forall i :: n <= i < n + k ==> !Suspicious(hist, i)
    ensures ScoreOf(hist[..n + k]) == -MinR(k as real / 50.0 - ScoreOf(hist[..n]), 0.0)
  {
    if k > 0 {
      ScoreFalls(hist, n, k - 1);
      var i := n + k - 1;
      ScoreStep(hist, i);
      assert !Suspicious(hist, i) && n + (k - 1) == i && k as real / 50.0 == (k - 1) as real / 50.0 + 0.02;
    }
  }

  lemma {:induction false} ScoreStep(hist: seq<u16>, i: nat)
    requires i < |hist|
    ensures i + 1 >= WARMUP_CALLS ==> ScoreOf(hist[..i + 1]) == ScoreNext(ScoreOf(hist[..i]), Suspicious(hist, i))
    ensures i + 1 < WARMUP_CALLS ==> ScoreOf(hist[..i + 1]) == ScoreOf(hist[..i]) == 0.0
  {
    assert hist[..i + 1][..i] == hist[..i];
    NovelPrefix(hist, i + 1, i);
  }

  /** From zero, the score is full exactly from the tenth suspicious observation in a row on. */
  lemma {:induction false} TenthSaturates(hist: seq<u16>, n: nat, k: nat)
    requires n + k <= |hist| && (forall i :: n <= i < n + k ==> Suspicious(hist, i)) && ScoreOf(hist[..n]) == 0.0
    ensures ScoreOf(hist[..n + k]) == 1.0 <==> k >= 10
  {
    ScoreRises(hist, n, k);
  }

  // ----- Predictability and valence --------------------------------------------------------------

  function Pow(x: real, n: nat): real { if n == 0 then 1.0 else Mul(x, Pow(x, n - 1)) }

  /** The average after `n` transitions alike. */
  ghost function PhiAfter(phi: real, p: real, ac: real, n: nat): (r: real)
    requires 0.0 <= phi <= 1.0 && 0.0 <= p <= 1.0 && -1.0 <= ac <= 1.0
    ensures 0.0 <= r <= 1.0
  {
    if n == 0 then phi else PhiNext(PhiAfter(phi, p, ac, n - 1), p, ac)
  }

  /** It closes a twentieth of its distance to seven parts frequency and three parts reading, mapped to
      [0, 1], each time. */
  lemma {:induction false} PhiConverges(phi: real, p: real, ac: real, n: nat)
    requires 0.0 <= phi <= 1.0 && 0.0 <= p <= 1.0 && -1.0 <= ac <= 1.0
    ensures var goal := (7.0 * p + 3.0 * ((ac + 1.0) / 2.0)) / 10.0;
      PhiAfter(phi, p, ac, n) - goal == Mul(Pow(0.95, n), phi - goal)
  {
    if n > 0 {
      PhiConverges(phi, p, ac, n - 1);
      var goal := (7.0 * p + 3.0 * ((ac + 1.0) / 2.0)) / 10.0;
      Shrinks(Pow(0.95, n - 1), phi - goal);
    }
  }

  lemma {:induction false} Shrinks(x: real, d: real)
    ensures Mul(Mul(0.95, x), d) == 0.95 * Mul(x, d)
  {}

  /** Without predictability what the valence lacks to one shrinks by a hundredth of the valence;
      predictability adds its own two-hundredth of it, up to one. */
  lemma {:induction false} ValenceGrows(q: real, phi: real)
    requires 0.0 <= q <= 1.0 && 0.0 <= phi <= 1.0
    ensures 1.0 - ValenceNext(q, 0.0, false) == Mul(1.0 - q, 1.0 - q / 100.0)
    ensures ValenceNext(q, phi, false) == MinR(ValenceNext(q, 0.0, false) + Mul(phi, q) / 200.0, 1.0)
  {
    NonNegativeProduct(q, 1.0 - q);
    NonNegativeProduct(phi, q);
    NonNegativeProduct(1.0 - q, 1.0 - q / 100.0);
    assert Mul(1.0 - q, 1.0 - q / 100.0) == 1.0 - q - Mul(q, 1.0 - q) / 100.0;
    assert Mul(0.0, q) == 0.0;
  }

  /** A new transition costs a twentieth, but never below zero. */
  lemma {:induction false} ValenceDrops(q: real, phi: real)
    requires 0.0 <= q <= 1.0 && 0.0 <= phi <= 1.0
    ensures var calm := ValenceNext(q, phi, false);
      ValenceNext(q, phi, true) == -MinR(0.05 - calm, 0.0)
  {}
}
