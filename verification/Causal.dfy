/** kernel/src/causal.rs: the rolling window of the last 512 wakeups, kept in a ring, and the
    questions the scheduler asks of it.  `log` is every edge ever recorded, oldest first. */
module Causal {
  import opened Bits
  import opened Prelude
  import opened Ranking

  const N_EDGES: nat := 512
  const RECENT: nat := 64
  const MAX_SUCCESSORS: nat := 4
  const USIZE_MAX: nat := U64 - 1

  datatype Edge = Edge(waker: nat, wakee: nat, uptimeMs: nat)

  /** The last `n` edges of a log, or all of them. */
  function Last(log: seq<Edge>, n: nat): (r: seq<Edge>)
    ensures |r| == Min(|log|, n) && r == log[|log| - |r|..]
  {
    if |log| <= n then log else log[|log| - n..]
  }

  function Live(log: seq<Edge>): seq<Edge> { Last(log, N_EDGES) }

  // ----- The ring -----------------------------------------------------------------------

  /** The ring after writing every edge of a log in turn. */
  ghost function RingOf(log: seq<Edge>): (ring: seq<Edge>)
    ensures |ring| == N_EDGES
  {
    if log == [] then seq(N_EDGES, _ => Edge(0, 0, 0))
    else var n := |log| - 1; RingOf(log[..n])[n % N_EDGES := log[n]]
  }

  lemma {:induction false} SlotsDiffer(i: nat, n: nat)
    requires i < n < i + N_EDGES
    ensures i % N_EDGES != n % N_EDGES
  {}

  lemma {:induction false} NextSlot(n: nat)
    ensures (n % N_EDGES + 1) % N_EDGES == (n + 1) % N_EDGES
  {}

  lemma {:induction false} RingPush(log: seq<Edge>, e: Edge)
    ensures RingOf(log + [e]) == RingOf(log)[|log| % N_EDGES := e]
  {
    assert (log + [e])[..|log|] == log;
  }

  lemma {:induction false} RingAt(log: seq<Edge>, i: nat)
    requires i < |log| <= i + N_EDGES
    ensures RingOf(log)[i % N_EDGES] == log[i]
  {
    var n := |log| - 1;
    if i < n {
      RingAt(log[..n], i);
      SlotsDiffer(i, n);
    }
  }

  lemma {:induction false} SlotBack(n: nat, i: nat)
    requires i < n && i < N_EDGES
    ensures (n % N_EDGES + N_EDGES - 1 - i) % N_EDGES == (n - 1 - i) % N_EDGES
  {}

  /** The slot computed for the `i`-th newest edge holds it, as long as it is live: the ring
      represents exactly the last min(n, 512) edges. */
  lemma {:induction false} RingHoldsLive(log: seq<Edge>, i: nat)
    requires i < |Live(log)|
    ensures RingOf(log)[(|log| % N_EDGES + N_EDGES - 1 - i) % N_EDGES] == Live(log)[|Live(log)| - 1 - i]
  {
    SlotBack(|log|, i);
    RingAt(log, |log| - 1 - i);
  }

  // ----- Who woke whom ------------------------------------------------------------------

  /** The waker of the oldest edge into `wakee`. */
  function OldestWaker(es: seq<Edge>, wakee: nat): Option<nat> {
    if es == [] then None else if es[0].wakee == wakee then Some(es[0].waker) else OldestWaker(es[1..], wakee)
  }

  /** It is the waker of some live edge, and missing only when there is no such edge. */
  lemma {:induction false} OldestWakerLive(es: seq<Edge>, wakee: nat)
    ensures match OldestWaker(es, wakee)
      case Some(w) => exists e :: e in es && e.waker == w && e.wakee == wakee
      case None => forall e :: e in es ==> e.wakee != wakee
  {
    if es != [] {
      assert es[0] in es;
      if es[0].wakee != wakee {
        OldestWakerLive(es[1..], wakee);
        assert forall e :: e in es <==> e == es[0] || e in es[1..];
      }
    }
  }

  lemma {:induction false} OldestStep(es: seq<Edge>, wakee: nat, k: nat)
    requires k < |es|
    ensures OldestWaker(es[k..], wakee)
         == if es[k].wakee == wakee then Some(es[k].waker) else OldestWaker(es[k + 1..], wakee)
  {
    assert es[k..][1..] == es[k + 1..];
  }

  /** The first and the last edge into `wakee`. */
  ghost predicate Spans(es: seq<Edge>, wakee: nat, first: nat, last: nat) {
    && first <= last < |es| && es[first].wakee == wakee == es[last].wakee
    && forall k :: 0 <= k < first || last < k < |es| ==> es[k].wakee != wakee
  }

  lemma {:induction false} OldestIsFirst(es: seq<Edge>, wakee: nat, first: nat)
    requires first < |es| && es[first].wakee == wakee && forall k :: 0 <= k < first ==> es[k].wakee != wakee
    ensures OldestWaker(es, wakee) == Some(es[first].waker)
  {
    if first > 0 { OldestIsFirst(es[1..], wakee, first - 1); }
  }

  /** The newest edge into `wakee` came from `w`. */
  ghost predicate MostRecent(es: seq<Edge>, wakee: nat, w: nat) {
    exists last :: 0 <= last < |es| && es[last] == Edge(w, wakee, es[last].uptimeMs)
      && forall k :: last < k < |es| ==> es[k].wakee != wakee
  }

  /** `last_waker` promises the most recent waker and returns the oldest live one: the promise is
      kept exactly when the first and the last live edge into the process have one waker. */
  lemma {:induction false} LastWakerIff(es: seq<Edge>, wakee: nat, first: nat, last: nat)
    requires Spans(es, wakee, first, last)
    ensures OldestWaker(es, wakee) == Some(es[first].waker)
    ensures MostRecent(es, wakee, es[first].waker) <==> es[first].waker == es[last].waker
  {
    OldestIsFirst(es, wakee, first);
    if es[first].waker == es[last].waker {
      assert es[last] == Edge(es[first].waker, wakee, es[last].uptimeMs);
    }
  }

  /** Process 9 was woken by 1, then by 2; process 1 is named. */
  lemma {:induction false} LastWakerStale()
    ensures var es := [Edge(1, 9, 0), Edge(2, 9, 5)];
      OldestWaker(es, 9) == Some(1) && MostRecent(es, 9, 2) && !MostRecent(es, 9, 1)
  {
    var es := [Edge(1, 9, 0), Edge(2, 9, 5)];
    LastWakerIff(es, 9, 0, 1);
    assert es[1] == Edge(2, 9, es[1].uptimeMs);
  }

  // ----- Edges of one process -------------------------------------------------------------

  predicate Involves(e: Edge, pid: nat) { e.waker == pid || e.wakee == pid }

  /** The edges that involve `pid` among the first `n`, newest first. */
  function NewestOf(es: seq<Edge>, pid: nat, n: nat): seq<Edge>
    requires n <= |es|
  {
    if n == 0 then []
    else if Involves(es[n - 1], pid) then [es[n - 1]] + NewestOf(es, pid, n - 1)
    else NewestOf(es, pid, n - 1)
  }

  function AtMost(es: seq<Edge>, limit: nat): seq<Edge> { es[..Min(limit, |es|)] }

  lemma {:induction false} Regroup(a: seq<Edge>, e: Edge, b: seq<Edge>)
    ensures a + ([e] + b) == a + [e] + b
  {}

  lemma {:induction false} AtMostPrefix(a: seq<Edge>, b: seq<Edge>)
    ensures AtMost(a + b, |a|) == a
  {}

  lemma {:induction false} NewestOfEmptyIff(es: seq<Edge>, pid: nat, n: nat)
    requires n <= |es|
    ensures NewestOf(es, pid, n) == [] <==> forall i :: 0 <= i < n ==> !Involves(es[i], pid)
  {
    if n > 0 { NewestOfEmptyIff(es, pid, n - 1); }
  }

  /** `edges_for_pid` returns no more edges than asked for, except that one edge is returned when
      none was asked for and there is one. */
  lemma {:induction false} LimitKeptIff(es: seq<Edge>, pid: nat, limit: nat)
    ensures |AtMost(NewestOf(es, pid, |es|), if limit == 0 then 1 else limit)| <= limit
        <==> limit > 0 || forall i :: 0 <= i < |es| ==> !Involves(es[i], pid)
  {
    NewestOfEmptyIff(es, pid, |es|);
  }

  // ----- Habits ----------------------------------------------------------------------------

  predicate Wakes(e: Edge, pid: nat, w: nat) { e.waker == pid && e.wakee == w && w != 0 }

  /** How often `pid` woke `w`; process 0 is never counted. */
  function Woken(es: seq<Edge>, pid: nat, w: nat): nat {
    if es == [] then 0 else (if Wakes(es[0], pid, w) then 1 else 0) + Woken(es[1..], pid, w)
  }

  lemma {:induction false} WokenIff(es: seq<Edge>, pid: nat, w: nat)
    ensures Woken(es, pid, w) > 0 <==> exists e :: e in es && Wakes(e, pid, w)
  {
    if es != [] {
      WokenIff(es[1..], pid, w);
      assert forall e :: e in es <==> e == es[0] || e in es[1..];
    }
  }

  /** The table holds exactly the processes `pid` woke, with how often. */
  ghost predicate Counts(freq: map<nat, nat>, es: seq<Edge>, pid: nat) {
    forall w :: if w in freq then freq[w] == Woken(es, pid, w) > 0 else Woken(es, pid, w) == 0
  }

  /** `*freq.entry(wakee).or_insert(0) += 1` for an edge from `pid`. */
  function Tally(freq: map<nat, nat>, e: Edge, pid: nat): map<nat, nat> {
    if e.waker == pid && e.wakee != 0
    then freq[e.wakee := if e.wakee in freq then freq[e.wakee] + 1 else 1] else freq
  }

  lemma {:induction false} CountsStep(freq: map<nat, nat>, es: seq<Edge>, pid: nat, k: nat)
    requires k < |es| && Counts(freq, es[k + 1..], pid)
    ensures Counts(Tally(freq, es[k], pid), es[k..], pid)
  {
    assert es[k..][1..] == es[k + 1..];
  }

  /** The processes `pid` woke at least `n` times. */
  ghost function WokenBy(es: seq<Edge>, pid: nat, n: nat): set<nat>
  {
    set e | e in es && Woken(es, pid, e.wakee) >= n && n > 0 :: e.wakee
  }

  lemma {:induction false} WokenByIff(es: seq<Edge>, pid: nat, n: nat, w: nat)
    requires n > 0
    ensures w in WokenBy(es, pid, n) <==> Woken(es, pid, w) >= n
  {
    WokenIff(es, pid, w);
    if Woken(es, pid, w) >= n {
      var e :| e in es && Wakes(e, pid, w);
    }
  }

  /** `a` is a likelier successor than `b`: woken more often, or as often with a smaller number. */
  predicate Likelier(es: seq<Edge>, pid: nat, a: nat, b: nat) {
    Woken(es, pid, a) > Woken(es, pid, b) || (Woken(es, pid, a) == Woken(es, pid, b) && a < b)
  }

  ghost function Rivals(es: seq<Edge>, pid: nat, w: nat): set<nat> {
    set v | v in WokenBy(es, pid, 2) && Likelier(es, pid, v, w)
  }

  /** The predicted successors: the processes woken at least twice that have fewer than four rivals. */
  ghost function Successors(log: seq<Edge>, pid: nat): set<nat> {
    var es := Last(log, RECENT);
    set w | w in WokenBy(es, pid, 2) && |Rivals(es, pid, w)| < MAX_SUCCESSORS
  }

  ghost predicate ByLikelihood(es: seq<Edge>, pid: nat, r: seq<nat>) {
    forall i, j :: 0 <= i < j < |r| ==> Likelier(es, pid, r[i], r[j])
  }

  /** In a list of all habitual wakees, likeliest first, place `i` has exactly `i` rivals. */
  lemma {:induction false} RivalsAt(es: seq<Edge>, pid: nat, all: seq<nat>, i: nat)
    requires ByLikelihood(es, pid, all) && i < |all| && forall w :: w in all <==> w in WokenBy(es, pid, 2)
    ensures |Rivals(es, pid, all[i])| == i
  {
    forall k | i <= k < |all|
      ensures !Likelier(es, pid, all[k], all[i])
    {
      assert k == i || Likelier(es, pid, all[i], all[k]);
    }
    assert Rivals(es, pid, all[i]) == Elems(all[..i]) by {
      forall v
        ensures v in Rivals(es, pid, all[i]) <==> v in all[..i]
      {
        if v in Rivals(es, pid, all[i]) {
          var k :| 0 <= k < |all| && all[k] == v;
          assert k < i;
        }
        if v in all[..i] {
          var k :| 0 <= k < i && all[..i][k] == v;
          assert Likelier(es, pid, all[k], all[i]) && all[k] in all;
        }
      }
    }
    PrefixSize(all, i);
  }

  /** So the first four of that list are the predicted successors. */
  lemma {:induction false} FirstFour(log: seq<Edge>, pid: nat, all: seq<nat>)
    requires var es := Last(log, RECENT);
      ByLikelihood(es, pid, all) && forall w :: w in all <==> w in WokenBy(es, pid, 2)
    ensures forall w :: w in all[..Min(MAX_SUCCESSORS, |all|)] <==> w in Successors(log, pid)
    ensures |all| == |WokenBy(Last(log, RECENT), pid, 2)|
  {
    var es, n := Last(log, RECENT), Min(MAX_SUCCESSORS, |all|);
    forall w
      ensures w in all[..n] <==> w in Successors(log, pid)
    {
      if w in all {
        var i :| 0 <= i < |all| && all[i] == w;
        RivalsAt(es, pid, all, i);
        if w in all[..n] {
          var k :| 0 <= k < n && all[..n][k] == w;
          RivalsAt(es, pid, all, k);
        }
      }
    }
    assert all[..|all|] == all && Elems(all) == WokenBy(es, pid, 2);
    PrefixSize(all, |all|);
  }

  // ----- Chains ----------------------------------------------------------------------------

  /** The blame chain of `pid`: each link is woken by the next, nobody is blamed twice, and it
      only ends at the depth limit, at a process nobody woke, at process 0 or before a cycle. */
  ghost predicate IsChain(live: seq<Edge>, pid: nat, depth: nat, chain: seq<nat>) {
    && 1 <= |chain| <= depth + 1 && chain[0] == pid && NoDup(chain)
    && (forall i :: 0 < i < |chain| ==> OldestWaker(live, chain[i - 1]) == Some(chain[i]) && chain[i] != 0)
    && (|chain| == depth + 1 || Ends(live, chain))
  }

  ghost predicate Ends(live: seq<Edge>, chain: seq<nat>)
    requires chain != []
  {
    match OldestWaker(live, chain[|chain| - 1])
    case None => true
    case Some(w) => w == 0 || w in chain
  }

  lemma {:induction false} GoesOn(live: seq<Edge>, pid: nat, depth: nat, chain: seq<nat>, n: nat)
    requires IsChain(live, pid, depth, chain) && 1 <= n < |chain|
    ensures !Ends(live, chain[..n])
  {
    assert OldestWaker(live, chain[n - 1]) == Some(chain[n]) && chain[n] !in chain[..n];
  }

  /** There is only one such chain. */
  lemma {:induction false} ChainUnique(live: seq<Edge>, pid: nat, depth: nat, a: seq<nat>, b: seq<nat>)
    requires IsChain(live, pid, depth, a) && IsChain(live, pid, depth, b) && |a| <= |b|
    ensures a == b
  {
    var n := 1;
    while n < |a|
      invariant 1 <= n <= |a| && a[..n] == b[..n]
    {
      assert OldestWaker(live, a[n - 1]) == Some(a[n]) && OldestWaker(live, b[n - 1]) == Some(b[n]);
      assert a[n - 1] == a[..n][n - 1] == b[..n][n - 1] == b[n - 1];
      n := n + 1;
    }
    assert a == b[..n];
    if |a| < |b| { GoesOn(live, pid, depth, b, n); }
  }

  // ----- The code --------------------------------------------------------------------------

  class CausalGraph {
    const edges: array<Edge>
    var head: nat
    var count: nat
    ghost var log: seq<Edge>

    ghost predicate Valid()
      reads this, edges
    {
      && edges.Length == N_EDGES && edges[..] == RingOf(log)
      && head == |log| % N_EDGES && count == Min(|log|, USIZE_MAX)
    }

    constructor ()
      ensures Valid() && log == [] && fresh(edges)
    {
      edges := new Edge[N_EDGES](i => Edge(0, 0, 0));
      head, count, log := 0, 0, [];
      new;
      assert edges[..] == RingOf([]);
    }

    /** `record`: after any number of calls the ring represents the last min(n, 512) edges. */
    method Record(waker: nat, wakee: nat, uptimeMs: nat)
      requires Valid()
      modifies this, edges
      ensures Valid() && log == old(log) + [Edge(waker, wakee, uptimeMs)]
    {
      ghost var e, was := Edge(waker, wakee, uptimeMs), edges[..];
      RingPush(log, e);
      NextSlot(|log|);
      edges[head] := Edge(waker, wakee, uptimeMs);
      assert edges[..] == was[head := e];
      head := (head + 1) % N_EDGES;
      count := if count < USIZE_MAX then count + 1 else count;
      log := log + [e];
    }

    /** The slot that every query computes for the `i`-th newest edge. */
    function Newest(i: nat): (e: Edge)
      requires Valid() && i < |Live(log)|
      reads this, edges
      ensures e == Live(log)[|Live(log)| - 1 - i]
    {
      RingHoldsLive(log, i);
      edges[(head + N_EDGES - 1 - i) % N_EDGES]
    }

    /** `last_waker`, whose reversed loop starts at the oldest live edge. */
    method LastWaker(wakee: nat) returns (r: Option<nat>)
      requires Valid()
      ensures r == OldestWaker(Live(log), wakee)
    {
      var len := Min(count, N_EDGES);
      ghost var live := Live(log);
      for i := len downto 0
        invariant OldestWaker(live, wakee) == OldestWaker(live[len - i..], wakee)
      {
        var e := Newest(i);
        OldestStep(live, wakee, len - i - 1);
        if e.wakee == wakee { return Some(e.waker); }
      }
      r := None;
    }

    /** `edges_for_pid`: the newest `limit` edges of a process, but at least one even for limit 0. */
    method EdgesForPid(pid: nat, limit: nat) returns (r: seq<Edge>)
      requires Valid()
      ensures r == AtMost(NewestOf(Live(log), pid, |Live(log)|), if limit == 0 then 1 else limit)
    {
      var len := Min(count, N_EDGES);
      ghost var live := Live(log);
      r := [];
      for i := 0 to len
        invariant r + NewestOf(live, pid, len - i) == NewestOf(live, pid, len)
        invariant |r| < if limit == 0 then 1 else limit
      {
        Regroup(r, live[len - i - 1], NewestOf(live, pid, len - i - 1));
        if Involves(Newest(i), pid) {
          r := r + [Newest(i)];
          if |r| >= limit {
            AtMostPrefix(r, NewestOf(live, pid, len - i - 1));
            return;
          }
        }
      }
    }

    /** The frequency scan shared by `predict_successors` and `fanout_pids`: the last 64 edges. */
    method Frequencies(pid: nat) returns (freq: map<nat, nat>)
      requires Valid()
      ensures Counts(freq, Last(log, RECENT), pid)
    {
      var len := Min(Min(count, N_EDGES), RECENT);
      ghost var es := Last(log, RECENT);
      freq := map[];
      for i := 0 to len
        invariant Counts(freq, es[len - i..], pid)
      {
        CountsStep(freq, es, pid, len - i - 1);
        freq := Tally(freq, Newest(i), pid);
      }
      assert es[0..] == es;
    }

    /** `predict_successors`: at most four processes, each woken at least twice in the last 64
        edges, most frequent first and smaller numbers first among equals; nobody left out beats
        anybody listed. */
    method PredictSuccessors(pid: nat) returns (r: seq<nat>)
      requires Valid()
      ensures ByLikelihood(Last(log, RECENT), pid, r)
      ensures forall w :: w in r <==> w in Successors(log, pid)
      ensures |r| == Min(MAX_SUCCESSORS, |WokenBy(Last(log, RECENT), pid, 2)|)
    {
      ghost var es := Last(log, RECENT);
      var freq := Frequencies(pid);
      var ks := Iterate(freq.Keys);
      var cand, ranks := AtLeastTwice(freq, ks);
      var p := Order(ranks, |ranks|);
      var all := seq(|p|, i requires 0 <= i < |p| => cand[p[i]]);
      Likeliest(es, pid, freq, ks, cand, ranks, p, all);
      FirstFour(log, pid, all);
      r := all[..Min(MAX_SUCCESSORS, |all|)];
    }

    /** `fanout_pids`: exactly the processes woken in the last 64 edges, in ascending order. */
    method FanoutPids(pid: nat) returns (r: seq<nat>)
      requires Valid()
      ensures Ascending(r)
      ensures forall w :: w in r <==> exists e :: e in Last(log, RECENT) && Wakes(e, pid, w)
    {
      var freq := Frequencies(pid);
      r := Iterate(freq.Keys);
      forall w
        ensures w in r <==> exists e :: e in Last(log, RECENT) && Wakes(e, pid, w)
      {
        WokenIff(Last(log, RECENT), pid, w);
      }
    }

    /** `waker_chain` */
    method WakerChain(pid: nat, depth: nat) returns (chain: seq<nat>)
      requires Valid()
      ensures IsChain(Live(log), pid, depth, chain)
    {
      chain := [pid];
      var cur := pid;
      for d := 0 to depth
        invariant |chain| == d + 1 && chain[0] == pid && chain[d] == cur && NoDup(chain)
        invariant forall i :: 0 < i < |chain| ==> OldestWaker(Live(log), chain[i - 1]) == Some(chain[i]) && chain[i] != 0
      {
        var w := LastWaker(cur);
        if w.None? || w.value == 0 || w.value in chain { return; }
        chain := chain + [w.value];
        cur := w.value;
      }
    }
  }

  /** The keys counted at least twice, and their counts. */
  method AtLeastTwice(freq: map<nat, nat>, ks: seq<nat>) returns (cand: seq<nat>, ranks: seq<nat>)
    requires (forall k :: k in ks ==> k in freq) && Ascending(ks)
    ensures Ascending(cand) && |cand| == |ranks|
    ensures forall k :: k in cand <==> k in ks && freq[k] >= 2
    ensures forall i :: 0 <= i < |cand| ==> cand[i] in freq && ranks[i] == freq[cand[i]]
  {
    cand, ranks := [], [];
    for n := 0 to |ks|
      invariant Ascending(cand) && |cand| == |ranks|
      invariant forall k :: k in cand <==> k in ks[..n] && freq[k] >= 2
      invariant forall i :: 0 <= i < |cand| ==> cand[i] in ks[..n] && cand[i] in freq && ranks[i] == freq[cand[i]]
    {
      if freq[ks[n]] >= 2 {
        cand, ranks := cand + [ks[n]], ranks + [freq[ks[n]]];
      }
    }
    assert ks[..|ks|] == ks;
  }

  /** Sorting the candidates by count, stably, sorts them by likelihood. */
  lemma {:induction false} Likeliest(es: seq<Edge>, pid: nat, freq: map<nat, nat>, ks: seq<nat>, cand: seq<nat>,
                                     ranks: seq<nat>, p: seq<nat>, all: seq<nat>)
    requires Counts(freq, es, pid) && forall k :: k in ks <==> k in freq
    requires Ascending(cand) && |cand| == |ranks| == |p| == |all| && InRange(ranks, p) && InOrder(ranks, p)
    requires forall k :: k in cand <==> k in ks && freq[k] >= 2
    requires forall i :: 0 <= i < |cand| ==> cand[i] in freq && ranks[i] == freq[cand[i]]
    requires forall y: nat :: y < |p| ==> y in p
    requires forall i :: 0 <= i < |p| ==> all[i] == cand[p[i]]
    ensures ByLikelihood(es, pid, all) && forall w :: w in all <==> w in WokenBy(es, pid, 2)
  {
    forall i, j | 0 <= i < j < |all|
      ensures Likelier(es, pid, all[i], all[j])
    {
      assert Ahead(ranks, p[i], p[j]);
    }
    forall w
      ensures w in all <==> w in WokenBy(es, pid, 2)
    {
      WokenByIff(es, pid, 2, w);
      if w in cand {
        var y :| 0 <= y < |cand| && cand[y] == w;
        assert y in p;
        var i :| 0 <= i < |p| && p[i] == y;
        assert all[i] == w;
      }
    }
  }
}
