/** kernel/src/anomaly.rs and kernel/src/autotune.rs: the per-task syscall bigram detector and
    the self-tuning threshold it compares against.  Floats are reals. */
module Anomaly {
  import opened Prelude

  const WARMUP_CALLS: nat := 200
  const AC_WINDOW: nat := 16
  const CHAOTIC_AC_THRESHOLD: real := -0.2
  const CHAOTIC_STREAK_LIMIT: nat := 3
  const U32_MAX: nat := 0xFFFF_FFFF
  const U16: nat := 0x1_0000

  type u16 = x: int | 0 <= x < 0x1_0000

  // ----- The auto-tuned threshold (autotune.rs) ----------------------------------------

  const BASE_THRESHOLD: real := 0.001
  const EMA_ALPHA: real := 0.3
  const LOW: real := 0.00005
  const HIGH: real := 0.01

  function Clamp(x: real, lo: real, hi: real): (r: real)
    requires lo <= hi
    ensures lo <= r <= hi && (lo <= x <= hi ==> r == x)
  {
    if x < lo then lo else if x > hi then hi else x
  }

  function MinR(a: real, b: real): real { if a < b then a else b }

  /** What couplings and retentions take off the threshold. */
  function Modulation(schedToMem: real, memToAnom: real, anomalyRet: real, memoryRet: real): real {
    Clamp(schedToMem * 0.3 - memToAnom * 0.2, -0.3, 0.3) + Clamp(anomalyRet * 0.4 - memoryRet * 0.2, -0.3, 0.3)
  }

  function RawTarget(load: real, chaos: real, mod: real): real {
    BASE_THRESHOLD * (1.0 - chaos * 0.5 - MinR(load * 0.01, 0.3) - mod)
  }

  /** Where the threshold is headed. */
  function Target(load: real, chaos: real, mod: real): real { Clamp(RawTarget(load, chaos, mod), LOW, HIGH) }

  /** `adapt` is documented to relax the threshold (raise it) under load.  More load never raises the
      target, and lowers it strictly exactly while the load is below 30 tasks and the unclamped
      targets are not both beyond the same bound. */
  lemma {:induction false} LoadTightens(a: real, b: real, chaos: real, mod: real)
    requires a <= b
    ensures Target(b, chaos, mod) <= Target(a, chaos, mod)
    ensures Target(b, chaos, mod) < Target(a, chaos, mod) <==>
      a < b && a < 30.0 && RawTarget(a, chaos, mod) > LOW && RawTarget(b, chaos, mod) < HIGH
  {
    assert RawTarget(a, chaos, mod) - RawTarget(b, chaos, mod)
        == BASE_THRESHOLD * (MinR(b * 0.01, 0.3) - MinR(a * 0.01, 0.3));
  }

  /** Ten tasks instead of none take a tenth off the target of a calm system. */
  lemma {:induction false} TenTasksTighten()
    ensures Target(0.0, 0.0, 0.0) == 0.001 && Target(10.0, 0.0, 0.0) == 0.0009
  {
  }

  class AutoTune {
    var currentThreshold: real

    ghost predicate Valid()
      reads this
    {
      LOW <= currentThreshold <= HIGH
    }

    constructor ()
      ensures Valid() && currentThreshold == BASE_THRESHOLD
    {
      currentThreshold := BASE_THRESHOLD;
    }

    /** `adapt`, for any load, entropy reading, coupling and retention signals whatever: the
        threshold moves 30% of the way to the target and never leaves [0.00005, 0.01]. */
    method Adapt(load: real, chaos: real, schedToMem: real, memToAnom: real, anomalyRet: real, memoryRet: real)
        returns (target: real)
      requires Valid()
      modifies this
      ensures Valid() && LOW <= target <= HIGH
      ensures target == Target(load, chaos, Modulation(schedToMem, memToAnom, anomalyRet, memoryRet))
      ensures currentThreshold - old(currentThreshold) == 0.3 * (target - old(currentThreshold))
    {
      var couplingMod := Clamp(schedToMem * 0.3 - memToAnom * 0.2, -0.3, 0.3);
      var retentionMod := Clamp(anomalyRet * 0.4 - memoryRet * 0.2, -0.3, 0.3);
      var totalMod := couplingMod + retentionMod;
      var raw := BASE_THRESHOLD * (1.0 - chaos * 0.5 - MinR(load * 0.01, 0.3) - totalMod);
      target := Clamp(raw, LOW, HIGH);
      currentThreshold := EMA_ALPHA * target + (1.0 - EMA_ALPHA) * currentThreshold;
    }
  }

  // ----- Lag-1 autocorrelation -----------------------------------------------------------

  /** The value before `t` in a circular sequence. */
  function Before(y: seq<real>, t: nat): real
    requires t < |y|
  {
    if t == 0 then y[|y| - 1] else y[t - 1]
  }

  function Sq(a: real): real { a * a }

  function Cov(y: seq<real>, n: nat): real
    requires n <= |y|
  {
    if n == 0 then 0.0 else Cov(y, n - 1) + Mul(y[n - 1], Before(y, n - 1))
  }

  function Var(y: seq<real>, n: nat): real
    requires n <= |y|
  {
    if n == 0 then 0.0 else Var(y, n - 1) + Sq(y[n - 1])
  }

  lemma Young(a: real, b: real)
    ensures -(Sq(a) + Sq(b)) <= 2.0 * Mul(a, b) <= Sq(a) + Sq(b)
  {
    SquareNonNegative(a - b);
    SquareNonNegative(a + b);
    assert Sq(a - b) == Sq(a) - 2.0 * Mul(a, b) + Sq(b);
    assert Sq(a + b) == Sq(a) + 2.0 * Mul(a, b) + Sq(b);
  }

  lemma SquareNonNegative(a: real)
    ensures Sq(a) >= 0.0
  {
    if a >= 0.0 { assert a * a >= 0.0; } else { assert (-a) * (-a) >= 0.0; }
  }

  lemma {:induction false} CovPartial(y: seq<real>, n: nat)
    requires 1 <= n <= |y|
    ensures var s := Var(y, n) + Var(y, n - 1) + Sq(y[|y| - 1]); -s <= 2.0 * Cov(y, n) <= s
  {
    Young(y[n - 1], Before(y, n - 1));
    if n == 1 {
      assert Cov(y, 0) == 0.0 && Var(y, 0) == 0.0;
    } else {
      CovPartial(y, n - 1);
    }
  }

  lemma {:induction false} VarNonNegative(y: seq<real>, n: nat)
    requires n <= |y|
    ensures Var(y, n) >= 0.0
  {
    if n != 0 {
      VarNonNegative(y, n - 1);
      SquareNonNegative(y[n - 1]);
    }
  }

  /** The circular lag-1 covariance never exceeds the variance in magnitude. */
  lemma {:induction false} CovBounded(y: seq<real>)
    requires |y| >= 1
    ensures -Var(y, |y|) <= Cov(y, |y|) <= Var(y, |y|)
  {
    CovPartial(y, |y|);
  }

  function Sum(ring: seq<u16>, n: nat): int
    requires n <= |ring|
  {
    if n == 0 then 0 else Sum(ring, n - 1) + ring[n - 1]
  }

  function Mean(ring: seq<u16>): real
    requires |ring| > 0
  {
    Sum(ring, |ring|) as real / |ring| as real
  }

  /** Samples minus their mean, in the order they are given. */
  ghost function Centred(xs: seq<u16>, mean: real): (y: seq<real>)
    ensures |y| == |xs| && forall t :: 0 <= t < |xs| ==> y[t] == xs[t] as real - mean
  {
    seq(|xs|, t requires 0 <= t < |xs| => xs[t] as real - mean)
  }

  /** A ring read from its oldest element. */
  ghost function Unrolled(ring: seq<u16>, head: nat): (r: seq<u16>)
    requires |ring| == AC_WINDOW && head < AC_WINDOW
    ensures |r| == AC_WINDOW && forall t :: 0 <= t < AC_WINDOW ==> r[t] == ring[(head + t) % AC_WINDOW]
  {
    seq(AC_WINDOW, t requires 0 <= t < AC_WINDOW => ring[(head + t) % AC_WINDOW])
  }

  /** The autocorrelation of sixteen samples, oldest first, around a given mean. */
  ghost function Autocorr(xs: seq<u16>, mean: real): real
    requires |xs| == AC_WINDOW
  {
    var y := Centred(xs, mean);
    if Var(y, AC_WINDOW) < 0.000001 then 1.0 else Cov(y, AC_WINDOW) / Var(y, AC_WINDOW)
  }

  lemma {:induction false} AutocorrBounded(xs: seq<u16>, mean: real)
    requires |xs| == AC_WINDOW
    ensures -1.0 <= Autocorr(xs, mean) <= 1.0
  {
    var y := Centred(xs, mean);
    CovBounded(y);
  }

  /** `lag1_autocorr`: over reals the final clamp never changes the value. */
  method Lag1Autocorr(ring: seq<u16>, head: nat) returns (ac: real)
    requires |ring| == AC_WINDOW && head < AC_WINDOW
    ensures ac == Autocorr(Unrolled(ring, head), Mean(ring))
    ensures -1.0 <= ac <= 1.0
  {
    var sum: int := 0;
    for i := 0 to AC_WINDOW
      invariant sum == Sum(ring, i)
    {
      sum := sum + ring[i];
    }
    var mean := sum as real / AC_WINDOW as real;
    ghost var xs := Unrolled(ring, head);
    ghost var y := Centred(xs, mean);
    var cov, va := 0.0, 0.0;
    for t := 0 to AC_WINDOW
      invariant cov == Cov(y, t) && va == Var(y, t)
    {
      var x := ring[(head + t) % AC_WINDOW] as real - mean;
      var x1 := ring[(head + t + AC_WINDOW - 1) % AC_WINDOW] as real - mean;
      PreviousSlot(head, t);
      assert y[t] == x && Before(y, t) == x1;
      cov := cov + Mul(x, x1);
      va := va + Sq(x);
    }
    AutocorrBounded(xs, mean);
    if va < 0.000001 { return 1.0; }
    ac := Clamp(cov / va, -1.0, 1.0);
  }

  lemma PreviousSlot(head: nat, t: nat)
    requires head < AC_WINDOW && t < AC_WINDOW
    ensures (head + t + AC_WINDOW - 1) % AC_WINDOW
         == if t == 0 then (head + AC_WINDOW - 1) % AC_WINDOW else (head + (t - 1)) % AC_WINDOW
  {}

  lemma {:induction false} SumConcat(a: seq<u16>, b: seq<u16>, n: nat)
    requires n <= |b|
    ensures Sum(a + b, |a| + n) == Sum(a, |a|) + Sum(b, n)
  {
    if n == 0 {
      SumPrefix(a, b, |a|);
    } else {
      SumConcat(a, b, n - 1);
    }
  }

  lemma {:induction false} SumPrefix(a: seq<u16>, b: seq<u16>, n: nat)
    requires n <= |a|
    ensures Sum(a + b, n) == Sum(a, n)
  {
    if n != 0 { SumPrefix(a, b, n - 1); }
  }

  lemma {:induction false} UnrolledMean(ring: seq<u16>, head: nat)
    requires |ring| == AC_WINDOW && head < AC_WINDOW
    ensures Mean(Unrolled(ring, head)) == Mean(ring)
  {
    var a, b := ring[..head], ring[head..];
    assert ring == a + b && Unrolled(ring, head) == b + a;
    SumConcat(a, b, |b|);
    SumConcat(b, a, |a|);
  }

  // ----- The history of a task -----------------------------------------------------------

  /** The transition made by observation `i`; the very first one comes from syscall 0. */
  ghost function Tr(hist: seq<u16>, i: nat): (u16, u16)
    requires i < |hist|
  {
    (if i == 0 then 0 else hist[i - 1], hist[i])
  }

  ghost function CountTr(hist: seq<u16>, key: (u16, u16)): nat {
    if hist == [] then 0 else
      CountTr(hist[..|hist| - 1], key) + if Tr(hist, |hist| - 1) == key then 1 else 0
  }

  ghost function CountFrom(hist: seq<u16>, prev: u16): nat {
    if hist == [] then 0 else
      CountFrom(hist[..|hist| - 1], prev) + if Tr(hist, |hist| - 1).0 == prev then 1 else 0
  }

  /** Observation `i` made a transition never made before in the whole history. */
  ghost predicate NovelAt(hist: seq<u16>, i: nat)
    requires i < |hist|
  {
    forall j :: 0 <= j < i ==> Tr(hist, j) != Tr(hist, i)
  }

  /** Scored (past the warm-up) and novel. */
  ghost predicate Suspicious(hist: seq<u16>, i: nat)
    requires i < |hist|
  {
    i + 1 >= WARMUP_CALLS && NovelAt(hist, i)
  }

  lemma {:induction false} CountZeroIff(hist: seq<u16>, key: (u16, u16))
    ensures CountTr(hist, key) == 0 <==> forall j :: 0 <= j < |hist| ==> Tr(hist, j) != key
  {
    if hist != [] {
      var n := |hist| - 1;
      CountZeroIff(hist[..n], key);
      assert forall j :: 0 <= j < n ==> Tr(hist[..n], j) == Tr(hist, j);
    }
  }

  lemma {:induction false} NovelPrefix(hist: seq<u16>, m: nat, i: nat)
    requires i < m <= |hist|
    ensures NovelAt(hist[..m], i) == NovelAt(hist, i) && Suspicious(hist[..m], i) == Suspicious(hist, i)
  {
    assert forall j :: 0 <= j <= i ==> Tr(hist[..m], j) == Tr(hist, j);
  }

  /** The number of suspicious observations in a row at the end. */
  ghost function Streak(hist: seq<u16>): (s: nat)
    ensures s <= |hist|
  {
    if hist != [] && Suspicious(hist, |hist| - 1) then Streak(hist[..|hist| - 1]) + 1 else 0
  }

  lemma {:induction false} StreakIff(hist: seq<u16>, k: nat)
    ensures Streak(hist) >= k <==> k <= |hist| && forall i :: |hist| - k <= i < |hist| ==> Suspicious(hist, i)
    decreases k
  {
    if k > 0 && hist != [] {
      var n := |hist| - 1;
      StreakIff(hist[..n], k - 1);
      forall i | 0 <= i < n
        ensures Suspicious(hist[..n], i) == Suspicious(hist, i)
      {
        NovelPrefix(hist, n, i);
      }
    }
  }

  // ----- Marginals are row sums ------------------------------------------------------------

  ghost function RowSum(hist: seq<u16>, prev: u16, n: nat): nat
    requires n <= U16
  {
    if n == 0 then 0 else RowSum(hist, prev, n - 1) + CountTr(hist, (prev, n - 1))
  }

  lemma {:induction false} RowSumStep(hist: seq<u16>, prev: u16, n: nat)
    requires hist != [] && n <= U16
    ensures RowSum(hist, prev, n) == RowSum(hist[..|hist| - 1], prev, n)
      + if Tr(hist, |hist| - 1).0 == prev && Tr(hist, |hist| - 1).1 < n then 1 else 0
  {
    if n != 0 { RowSumStep(hist, prev, n - 1); }
  }

  lemma {:induction false} RowSumEmpty(prev: u16, n: nat)
    requires n <= U16
    ensures RowSum([], prev, n) == 0
  {
    if n != 0 { RowSumEmpty(prev, n - 1); }
  }

  /** How often a syscall was left equals the sum of its bigram counts, in every history. */
  lemma {:induction false} MarginalIsRowSum(hist: seq<u16>, prev: u16)
    ensures CountFrom(hist, prev) == RowSum(hist, prev, U16)
  {
    if hist == [] {
      RowSumEmpty(prev, U16);
    } else {
      MarginalIsRowSum(hist[..|hist| - 1], prev);
      RowSumStep(hist, prev, U16);
    }
  }

  lemma {:induction false} BigramAtMostMarginal(hist: seq<u16>, key: (u16, u16))
    ensures CountTr(hist, key) <= CountFrom(hist, key.0)
  {
    if hist != [] { BigramAtMostMarginal(hist[..|hist| - 1], key); }
  }

  // ----- The ring --------------------------------------------------------------------------

  /** The autocorrelation reading after `hist`, once sixteen samples are there. */
  ghost function Reading(hist: seq<u16>): real
    requires |hist| >= AC_WINDOW
  {
    var xs := hist[|hist| - AC_WINDOW..];
    Autocorr(xs, Mean(xs))
  }

  /** The covariance of the last sixteen samples is below -0.2 times their variance. */
  ghost predicate Chaotic(hist: seq<u16>) {
    && |hist| >= AC_WINDOW
    && var xs := hist[|hist| - AC_WINDOW..]; var y := Centred(xs, Mean(xs));
       Var(y, AC_WINDOW) >= 0.000001 && Cov(y, AC_WINDOW) < CHAOTIC_AC_THRESHOLD * Var(y, AC_WINDOW)
  }

  lemma {:induction false} ChaoticIff(hist: seq<u16>)
    requires |hist| >= AC_WINDOW
    ensures Chaotic(hist) <==> Reading(hist) < CHAOTIC_AC_THRESHOLD
  {
    var xs := hist[|hist| - AC_WINDOW..];
    var y := Centred(xs, Mean(xs));
  }

  /** Which observations of a history ended in a chaotic reading. */
  ghost function Chaos(hist: seq<u16>): (c: seq<bool>)
    ensures |c| == |hist|
  {
    if hist == [] then [] else Chaos(hist[..|hist| - 1]) + [Chaotic(hist)]
  }

  lemma {:induction false} ChaosAt(hist: seq<u16>, i: nat)
    requires i < |hist|
    ensures Chaos(hist)[i] <==> Chaotic(hist[..i + 1])
  {
    var n := |hist| - 1;
    if i < n {
      ChaosAt(hist[..n], i);
      assert hist[..n][..i + 1] == hist[..i + 1];
    } else {
      assert hist[..i + 1] == hist;
    }
  }

  /** The number of flags set in a row at the end. */
  ghost function Tail(c: seq<bool>): nat {
    if c != [] && c[|c| - 1] then Tail(c[..|c| - 1]) + 1 else 0
  }

  lemma {:induction false} TailIff(c: seq<bool>, k: nat)
    ensures Tail(c) >= k <==> k <= |c| && forall i :: |c| - k <= i < |c| ==> c[i]
    decreases k
  {
    if k > 0 && c != [] { TailIff(c[..|c| - 1], k - 1); }
  }

  /** The ring after writing every sample of a history in turn. */
  ghost function RingOf(hist: seq<u16>): (ring: seq<u16>)
    ensures |ring| == AC_WINDOW
  {
    if hist == [] then seq(AC_WINDOW, _ => 0)
    else var n := |hist| - 1; RingOf(hist[..n])[n % AC_WINDOW := hist[n]]
  }

  lemma {:induction false} SlotsDiffer(i: nat, n: nat)
    requires i < n < i + AC_WINDOW
    ensures i % AC_WINDOW != n % AC_WINDOW
  {}

  lemma {:induction false} NextSlot(n: nat)
    ensures (n % AC_WINDOW + 1) % AC_WINDOW == (n + 1) % AC_WINDOW
  {}

  lemma {:induction false} RingPush(hist: seq<u16>, nr: u16)
    ensures RingOf(hist + [nr]) == RingOf(hist)[|hist| % AC_WINDOW := nr]
  {
    assert (hist + [nr])[..|hist|] == hist;
  }

  /** It holds the last sixteen samples. */
  lemma {:induction false} RingAt(hist: seq<u16>, i: nat)
    requires i < |hist| <= i + AC_WINDOW
    ensures RingOf(hist)[i % AC_WINDOW] == hist[i]
  {
    var n := |hist| - 1;
    if i < n {
      RingAt(hist[..n], i);
      SlotsDiffer(i, n);
    }
  }

  lemma {:induction false} SlotOf(n: nat, t: nat)
    requires n >= AC_WINDOW && t < AC_WINDOW
    ensures (n % AC_WINDOW + t) % AC_WINDOW == (n - AC_WINDOW + t) % AC_WINDOW
  {
  }

  lemma {:induction false} RingUnrolls(hist: seq<u16>)
    requires |hist| >= AC_WINDOW
    ensures Unrolled(RingOf(hist), |hist| % AC_WINDOW) == hist[|hist| - AC_WINDOW..]
  {
    var r, w := Unrolled(RingOf(hist), |hist| % AC_WINDOW), hist[|hist| - AC_WINDOW..];
    forall t | 0 <= t < AC_WINDOW
      ensures r[t] == w[t]
    {
      SlotOf(|hist|, t);
      RingAt(hist, |hist| - AC_WINDOW + t);
    }
  }

  /** So the autocorrelation of the ring is that of the last sixteen samples in order. */
  lemma {:induction false} RingReading(hist: seq<u16>)
    requires |hist| >= AC_WINDOW
    ensures Autocorr(Unrolled(RingOf(hist), |hist| % AC_WINDOW), Mean(RingOf(hist))) == Reading(hist)
  {
    UnrolledMean(RingOf(hist), |hist| % AC_WINDOW);
    RingUnrolls(hist);
  }

  ghost predicate RingOk(ring: seq<u16>, head: nat, len: nat, hist: seq<u16>) {
    ring == RingOf(hist) && head == |hist| % AC_WINDOW && len == Min(|hist|, AC_WINDOW)
  }

  // ----- The running scores ------------------------------------------------------------------

  function ScoreNext(score: real, anomalous: bool): (r: real)
    requires 0.0 <= score <= 1.0
    ensures 0.0 <= r <= 1.0
    ensures anomalous ==> r == 1.0 || r == score + 0.1
    ensures !anomalous ==> r == 0.0 || r == score - 0.02
  {
    if anomalous then MinR(score + 0.1, 1.0) else if score - 0.02 < 0.0 then 0.0 else score - 0.02
  }

  /** The anomaly score after a history. */
  ghost function ScoreOf(hist: seq<u16>): (s: real)
    ensures 0.0 <= s <= 1.0
  {
    if |hist| < WARMUP_CALLS then 0.0
    else
      var before := ScoreOf(hist[..|hist| - 1]);
      ScoreNext(before, Suspicious(hist, |hist| - 1))
  }

  /** A run of `k` suspicious transitions lifts the score to at least a tenth of `k`: ten in a row saturate it. */
  lemma {:induction false} ScoreFollowsStreak(hist: seq<u16>)
    ensures ScoreOf(hist) >= MinR(Streak(hist) as real * 0.1, 1.0)
  {
    if hist != [] && Suspicious(hist, |hist| - 1) { ScoreFollowsStreak(hist[..|hist| - 1]); }
  }

  /** The fraction `seen` out of `left`. */
  function Share(seen: nat, left: nat): (p: real)
    requires 0 < left && seen <= left
    ensures 0.0 <= p <= 1.0
    ensures seen == 0 ==> p == 0.0
    ensures seen == left ==> p == 1.0
  {
    seen as real / left as real
  }

  /** The predictability average after one scored transition of conditional frequency `p`. */
  function PhiNext(phi: real, p: real, ac: real): (r: real)
    requires 0.0 <= phi <= 1.0 && 0.0 <= p <= 1.0 && -1.0 <= ac <= 1.0
    ensures 0.0 <= r <= 1.0
    ensures p == 1.0 && ac == 1.0 ==> 1.0 - r == 0.95 * (1.0 - phi)
    ensures p == 0.0 && ac == -1.0 ==> r == 0.95 * phi
  {
    phi * 0.95 + (p * 0.7 + (ac + 1.0) * 0.5 * 0.3) * 0.05
  }

  function ValenceNext(q: real, phi: real, anomalous: bool): (r: real)
    requires 0.0 <= q <= 1.0 && 0.0 <= phi <= 1.0
    ensures 0.0 <= r <= 1.0
    ensures !anomalous ==> r >= q
    ensures anomalous ==> r <= 0.95
  {
    NonNegativeProduct(q, 1.0 - q);
    NonNegativeProduct(phi, q);
    var grown := Clamp(q + (0.01 * Mul(q, 1.0 - q) + 0.005 * Mul(phi, q)), 0.0, 1.0);
    if !anomalous then grown else if grown - 0.05 < 0.0 then 0.0 else grown - 0.05
  }

  lemma {:induction false} NonNegativeProduct(a: real, b: real)
    requires a >= 0.0 && b >= 0.0
    ensures Mul(a, b) >= 0.0
  {
  }

  // ----- The detector -------------------------------------------------------------------------

  function Seen(m: map<(u16, u16), nat>, key: (u16, u16)): nat { if key in m then m[key] else 0 }

  function Leaving(m: map<u16, nat>, prev: u16): nat { if prev in m then m[prev] else 0 }

  ghost predicate CountsOk(bigrams: map<(u16, u16), nat>, marginals: map<u16, nat>, hist: seq<u16>) {
    && (forall key :: Seen(bigrams, key) == CountTr(hist, key))
    && (forall p :: Leaving(marginals, p) == CountFrom(hist, p))
  }

  function LastOf(hist: seq<u16>): u16 { if hist == [] then 0 else hist[|hist| - 1] }

  lemma {:induction false} CountsPush(bigrams: map<(u16, u16), nat>, marginals: map<u16, nat>, hist: seq<u16>, nr: u16)
    requires CountsOk(bigrams, marginals, hist)
    ensures var prev := LastOf(hist); var key := (prev, nr);
      && key == Tr(hist + [nr], |hist|)
      && Seen(bigrams, key) == CountTr(hist, key) <= Leaving(marginals, prev) == CountFrom(hist, prev)
      && CountsOk(bigrams[key := Seen(bigrams, key) + 1], marginals[prev := Leaving(marginals, prev) + 1], hist + [nr])
  {
    var h := hist + [nr];
    assert h[..|hist|] == hist;
    BigramAtMostMarginal(hist, Tr(h, |hist|));
    forall k
      ensures CountTr(h, k) == CountTr(hist, k) + if Tr(h, |hist|) == k then 1 else 0
    {
      assert CountTr(h, k) == CountTr(h[..|h| - 1], k) + if Tr(h, |h| - 1) == k then 1 else 0;
    }
    forall p
      ensures CountFrom(h, p) == CountFrom(hist, p) + if Tr(h, |hist|).0 == p then 1 else 0
    {
      assert CountFrom(h, p) == CountFrom(h[..|h| - 1], p) + if Tr(h, |h| - 1).0 == p then 1 else 0;
    }
  }

  /** The reading and the chaotic streak after a history. */
  ghost predicate ReadingOk(autocorr: real, chaoticStreak: nat, hist: seq<u16>) {
    && autocorr == (if |hist| < AC_WINDOW then 1.0 else Reading(hist))
    && -1.0 <= autocorr <= 1.0
    && chaoticStreak == Min(Tail(Chaos(hist)), 255)
  }

  lemma {:induction false} Quiet(hist: seq<u16>)
    requires |hist| < AC_WINDOW
    ensures Tail(Chaos(hist)) == 0
  {
  }

  /** One more sample whose reading is `autocorr`. */
  lemma {:induction false} ReadingPush(was: real, chaoticStreak: nat, hist: seq<u16>, nr: u16, autocorr: real, next: nat)
    requires ReadingOk(was, chaoticStreak, hist)
    requires if |hist| + 1 < AC_WINDOW then autocorr == was && next == chaoticStreak
      else
        && autocorr == Reading(hist + [nr]) && -1.0 <= autocorr <= 1.0
        && next == if autocorr < CHAOTIC_AC_THRESHOLD then Min(chaoticStreak + 1, 255) else 0
    ensures ReadingOk(autocorr, next, hist + [nr])
  {
    var h := hist + [nr];
    assert h[..|h| - 1] == hist;
    if |h| >= AC_WINDOW { ChaoticIff(h); } else { Quiet(h); Quiet(hist); }
  }

  /** The last three transitions are past the warm-up and were never made before. */
  ghost predicate Alerts(hist: seq<u16>) {
    var n := |hist|;
    n >= WARMUP_CALLS + 2 && NovelAt(hist, n - 1) && NovelAt(hist, n - 2) && NovelAt(hist, n - 3)
  }

  /** The last three readings were below the chaotic threshold. */
  ghost predicate Escalates(hist: seq<u16>) {
    var n := |hist|;
    n >= WARMUP_CALLS && Chaos(hist)[n - 3] && Chaos(hist)[n - 2] && Chaos(hist)[n - 1]
  }

  method Measure(ring: seq<u16>, head: nat, ghost hist: seq<u16>) returns (ac: real)
    requires RingOk(ring, head, AC_WINDOW, hist)
    ensures |hist| >= AC_WINDOW && ac == Reading(hist) && -1.0 <= ac <= 1.0
  {
    ac := Lag1Autocorr(ring, head);
    RingReading(hist);
  }

  class TaskAnomaly {
    var prevNr: u16
    var total: nat
    var bigrams: map<(u16, u16), nat>
    var marginals: map<u16, nat>
    var phi: real
    var autocorr: real
    var acRing: seq<u16>
    var acHead: nat
    var acLen: nat
    var acChaoticStreak: nat
    var valence: real
    var score: real
    var streak: nat
    ghost var hist: seq<u16>

    /** The counts, the score and the streak are those of the whole history. */
    ghost predicate Learned()
      reads this
    {
      && total == Min(|hist|, U32_MAX)
      && prevNr == LastOf(hist)
      && CountsOk(bigrams, marginals, hist)
      && score == ScoreOf(hist) && streak == Streak(hist)
    }

    ghost predicate Sampled()
      reads this
    {
      RingOk(acRing, acHead, acLen, hist) && ReadingOk(autocorr, acChaoticStreak, hist)
    }

    ghost predicate Valid()
      reads this
    {
      Learned() && Sampled() && 0.0 <= phi <= 1.0 && 0.0 <= valence <= 1.0
    }

    constructor ()
      ensures Valid() && hist == [] && phi == 1.0 && valence == 0.5
    {
      prevNr, total, bigrams, marginals := 0, 0, map[], map[];
      phi, autocorr, acRing, acHead, acLen, acChaoticStreak := 1.0, 1.0, seq(AC_WINDOW, _ => 0), 0, 0, 0;
      valence, score, streak, hist := 0.5, 0.0, 0, [];
    }

    method Push(nr: u16)
      requires RingOk(acRing, acHead, acLen, hist)
      modifies this`acRing, this`acHead, this`acLen
      ensures RingOk(acRing, acHead, acLen, hist + [nr])
    {
      RingPush(hist, nr);
      NextSlot(|hist|);
      acRing := acRing[acHead := nr];
      acHead := (acHead + 1) % AC_WINDOW;
      if acLen < AC_WINDOW { acLen := acLen + 1; }
    }

    /** The ring, the reading and its chaotic streak. */
    method Sample(nr: u16)
      requires RingOk(acRing, acHead, acLen, hist) && ReadingOk(autocorr, acChaoticStreak, hist)
      modifies this`acRing, this`acHead, this`acLen, this`autocorr, this`acChaoticStreak
      ensures RingOk(acRing, acHead, acLen, hist + [nr]) && ReadingOk(autocorr, acChaoticStreak, hist + [nr])
    {
      Push(nr);
      var ac, chaotic := autocorr, acChaoticStreak;
      if acLen == AC_WINDOW {
        ac := Measure(acRing, acHead, hist + [nr]);
        chaotic := if ac < CHAOTIC_AC_THRESHOLD then Min(chaotic + 1, 255) else 0;
      }
      ReadingPush(autocorr, acChaoticStreak, hist, nr, ac, chaotic);
      autocorr, acChaoticStreak := ac, chaotic;
    }

    method Count(nr: u16) returns (seen: nat, left: nat)
      requires CountsOk(bigrams, marginals, hist) && prevNr == LastOf(hist)
      modifies this`bigrams, this`marginals
      ensures CountsOk(bigrams, marginals, hist + [nr])
      ensures var key := Tr(hist + [nr], |hist|); seen == CountTr(hist, key) <= left == CountFrom(hist, key.0)
    {
      CountsPush(bigrams, marginals, hist, nr);
      var key := (prevNr, nr);
      left := Leaving(marginals, prevNr);
      seen := Seen(bigrams, key);
      marginals := marginals[prevNr := left + 1];
      bigrams := bigrams[key := seen + 1];
    }

    method Blend(seen: nat, left: nat)
      requires 0.0 <= phi <= 1.0 && -1.0 <= autocorr <= 1.0 && seen <= left
      modifies this`phi
      ensures 0.0 <= phi <= 1.0
      ensures phi == if total < WARMUP_CALLS || left == 0 then old(phi) else PhiNext(old(phi), Share(seen, left), autocorr)
    {
      if total >= WARMUP_CALLS && left > 0 {
        phi := PhiNext(phi, Share(seen, left), autocorr);
      }
    }

    method Judge(seen: nat, tune: AutoTune) returns (anomalous: bool)
      requires total > 0 && tune.Valid()
      ensures anomalous <==> seen == 0
    {
      anomalous := seen as real / total as real < tune.currentThreshold && seen == 0;
    }

    /** The counts, the score and the streak: how often this transition, and its source, were seen before. */
    method Detect(nr: u16, tune: AutoTune) returns (alert: bool, anomalous: bool, seen: nat, left: nat)
      requires Learned() && tune.Valid()
      modifies this`prevNr, this`total, this`bigrams, this`marginals, this`hist, this`score, this`streak
      ensures Learned() && hist == old(hist) + [nr]
      ensures var key := Tr(hist, |old(hist)|); seen == CountTr(old(hist), key) <= left == CountFrom(old(hist), key.0)
      ensures alert <==> Alerts(hist)
      ensures |hist| >= WARMUP_CALLS ==> (anomalous <==> NovelAt(hist, |hist| - 1))
    {
      Pushed(hist, nr);
      AlertIff(hist + [nr]);
      seen, left := Count(nr);
      total := Min(total + 1, U32_MAX);
      prevNr := nr;
      hist := hist + [nr];
      if total < WARMUP_CALLS { return false, false, seen, left; }
      anomalous := Judge(seen, tune);
      score := ScoreNext(score, anomalous);
      streak := if anomalous then streak + 1 else 0;
      alert := anomalous && streak >= 3;
    }

    method Escalation() returns (escalate: bool)
      requires ReadingOk(autocorr, acChaoticStreak, hist) && hist != [] && total == Min(|hist|, U32_MAX)
      ensures escalate <==> Escalates(hist)
    {
      EscalateIff(hist);
      escalate := total >= WARMUP_CALLS && acChaoticStreak >= CHAOTIC_STREAK_LIMIT;
    }

    /** Everything but the two running averages. */
    method Watch(nr: u16, tune: AutoTune) returns (alert: bool, escalate: bool, anomalous: bool, seen: nat, left: nat)
      requires Learned() && Sampled() && tune.Valid()
      modifies this`acRing, this`acHead, this`acLen, this`autocorr, this`acChaoticStreak,
        this`prevNr, this`total, this`bigrams, this`marginals, this`hist, this`score, this`streak
      ensures Learned() && Sampled() && -1.0 <= autocorr <= 1.0 && hist == old(hist) + [nr]
      ensures var key := Tr(hist, |old(hist)|); seen == CountTr(old(hist), key) <= left == CountFrom(old(hist), key.0)
      ensures alert <==> Alerts(hist)
      ensures escalate <==> Escalates(hist)
      ensures |hist| >= WARMUP_CALLS ==> (anomalous <==> NovelAt(hist, |hist| - 1))
    {
      Sample(nr);
      alert, anomalous, seen, left := Detect(nr, tune);
      escalate := Escalation();
    }

    method Weigh(anomalous: bool)
      requires 0.0 <= valence <= 1.0 && 0.0 <= phi <= 1.0
      modifies this`valence
      ensures 0.0 <= valence <= 1.0
      ensures valence == if total < WARMUP_CALLS then old(valence) else ValenceNext(old(valence), phi, anomalous)
    {
      if total >= WARMUP_CALLS { valence := ValenceNext(valence, phi, anomalous); }
    }

    /** `observe`: for every sequence of syscalls, an alert is raised exactly when the last three
        transitions, all past the warm-up, had never happened before, whatever the threshold; and
        confinement is escalated exactly when the last three readings were chaotic. */
    method Observe(nr: u16, tune: AutoTune) returns (alert: bool, current: real, escalate: bool)
      requires Valid() && tune.Valid()
      modifies this
      ensures Valid() && hist == old(hist) + [nr]
      ensures alert <==> Alerts(hist)
      ensures escalate <==> Escalates(hist)
      ensures current == ScoreOf(hist)
      ensures var key := Tr(hist, |old(hist)|); var left := CountFrom(old(hist), key.0);
        if |hist| < WARMUP_CALLS || left == 0 then phi == old(phi)
        else CountTr(old(hist), key) <= left && phi == PhiNext(old(phi), Share(CountTr(old(hist), key), left), autocorr)
      ensures valence == if |hist| < WARMUP_CALLS then old(valence)
        else ValenceNext(old(valence), phi, NovelAt(hist, |hist| - 1))
    {
      var anomalous, seen, left;
      alert, escalate, anomalous, seen, left := Watch(nr, tune);
      Blend(seen, left);
      Weigh(anomalous);
      current := if total < WARMUP_CALLS then 0.0 else score;
    }
  }

  lemma {:induction false} NovelIffUncounted(hist: seq<u16>, nr: u16)
    ensures NovelAt(hist + [nr], |hist|) <==> CountTr(hist, Tr(hist + [nr], |hist|)) == 0
  {
    var h := hist + [nr];
    CountZeroIff(hist, Tr(h, |hist|));
    assert forall j :: 0 <= j < |hist| ==> Tr(h, j) == Tr(hist, j);
  }

  /** What one more observation does to the streak and the score. */
  lemma {:induction false} Pushed(hist: seq<u16>, nr: u16)
    ensures var h := hist + [nr]; var n := |hist|;
      if n + 1 < WARMUP_CALLS then
        Streak(h) == Streak(hist) == 0 && ScoreOf(h) == ScoreOf(hist) == 0.0
      else
        var novel := CountTr(hist, Tr(h, n)) == 0;
        NovelAt(h, n) == novel && ScoreOf(h) == ScoreNext(ScoreOf(hist), novel)
        && Streak(h) == if novel then Streak(hist) + 1 else 0
  {
    assert (hist + [nr])[..|hist|] == hist;
    NovelIffUncounted(hist, nr);
  }

  lemma {:induction false} AlertIff(hist: seq<u16>)
    requires hist != []
    ensures Streak(hist) >= 3 <==> Alerts(hist)
  {
    StreakIff(hist, 3);
    if |hist| >= 3 {
      var n := |hist|;
      assert Suspicious(hist, n - 1) && Suspicious(hist, n - 2) && Suspicious(hist, n - 3) <==>
        forall i :: n - 3 <= i < n ==> Suspicious(hist, i);
    }
  }

  lemma {:induction false} EscalateIff(hist: seq<u16>)
    requires hist != []
    ensures |hist| >= WARMUP_CALLS && Tail(Chaos(hist)) >= 3 <==> Escalates(hist)
  {
    TailIff(Chaos(hist), 3);
  }

  // ----- The streak counter never overflows ------------------------------------------------------

  /** The transitions of the last `k` observations, each never made before, and the very first one. */
  ghost function Keys(hist: seq<u16>, k: nat): set<int>
    requires k < |hist|
  {
    if k == 0 then {Code(Tr(hist, 0))} else Keys(hist, k - 1) + {Code(Tr(hist, |hist| - k))}
  }

  function Code(key: (u16, u16)): (c: int)
    ensures 0 <= c < U32_MAX + 1
  {
    key.0 * U16 + key.1
  }

  lemma {:induction false} CardBelow(s: set<int>, n: nat)
    requires forall x :: x in s ==> 0 <= x < n
    ensures |s| <= n
  {
    if n != 0 {
      CardBelow(s - {n - 1}, n - 1);
      assert s <= s - {n - 1} + {n - 1};
    } else {
      assert forall x :: x !in s;
    }
  }

  lemma {:induction false} KeysDistinct(hist: seq<u16>, k: nat)
    requires k < |hist| && forall i :: |hist| - k <= i < |hist| ==> NovelAt(hist, i)
    ensures |Keys(hist, k)| == k + 1
    ensures forall x :: x in Keys(hist, k) ==> 0 <= x < U32_MAX + 1
    ensures forall x :: x in Keys(hist, k) ==>
      x == Code(Tr(hist, 0)) || exists i :: |hist| - k <= i < |hist| && x == Code(Tr(hist, i))
  {
    if k != 0 {
      KeysDistinct(hist, k - 1);
      var i := |hist| - k;
      var key := Tr(hist, i);
      forall j | i < j < |hist|
        ensures Code(key) != Code(Tr(hist, j))
      {
        NovelDiffers(hist, i, j);
      }
      NovelDiffers(hist, 0, i);
      assert Code(key) !in Keys(hist, k - 1);
    }
  }

  lemma {:induction false} NovelDiffers(hist: seq<u16>, i: nat, j: nat)
    requires i < j < |hist| && NovelAt(hist, j)
    ensures Code(Tr(hist, i)) != Code(Tr(hist, j))
  {
  }

  /** The 32-bit streak counter cannot overflow: there are only 2^32 transitions to be new, and one is used up in the warm-up. */
  lemma {:induction false} StreakFits(hist: seq<u16>)
    ensures Streak(hist) <= U32_MAX
  {
    var k := Streak(hist);
    StreakIff(hist, k);
    if k > 0 {
      assert Suspicious(hist, |hist| - k);
      assert forall i :: |hist| - k <= i < |hist| ==> Suspicious(hist, i) && NovelAt(hist, i);
      KeysDistinct(hist, k);
      CardBelow(Keys(hist, k), U32_MAX + 1);
    }
  }
}
