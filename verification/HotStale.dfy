/** kernel/src/hot_lock.rs: runs in which threads use the global map after the split. */
module HotStale {
  import opened Prelude
  import opened HotShards
  import opened HotLock

  /** What a step of thread `t` does, as far as the atomic map is concerned. */
  ghost predicate Moves<V>(s: State<V>, t: Tid, s': State<V>) {
    && t < |s.pcs| == |s'.pcs|
    && (forall u :: 0 <= u < |s.pcs| && u != t ==> SpecOf(s'.pcs[u]) == SpecOf(s.pcs[u]))
    && (if StaleCall(s, t)
        then Contents(s') == Contents(s) && SpecOf(s'.pcs[t]) == Returned(Apply(s.pcs[t].op, s.global).1)
        else SpecStep(Contents(s), SpecOf(s.pcs[t]), Contents(s'), SpecOf(s'.pcs[t])))
    && (s.pcs[t].AtShard? || s.pcs[t].InGlobal? ==> SpecOf(s'.pcs[t]).Returned?)
  }

  /** A run, seen through `Moves`. */
  ghost predicate Run<V>(ss: seq<State<V>>, acts: seq<(Tid, Action<V>)>) {
    && |ss| == |acts| + 1
    && forall i :: 0 <= i < |acts| ==> acts[i].0 < |ss[i].pcs| && Moves(ss[i], acts[i].0, ss[i + 1])
  }

  lemma StepMoves<V>(s: State<V>, t: Tid, a: Action<V>)
    requires Inv(s) && t < |s.pcs| && Next(s, t, a).Some?
    ensures Moves(s, t, Next(s, t, a).value)
  {
    if StaleCall(s, t) { StaleStep(s, t, a); } else { StepRefines(s, t, a); }
  }

  lemma {:induction false} WalkRuns<V>(ss: seq<State<V>>, acts: seq<(Tid, Action<V>)>)
    requires Walk(ss, acts) && Inv(ss[0])
    ensures Run(ss, acts)
  {
    forall i | 0 <= i < |acts|
      ensures Moves(ss[i], acts[i].0, ss[i + 1])
    {
      WalkInv(ss, acts, i);
      assert Next(ss[i], acts[i].0, acts[i].1) == Some(ss[i + 1]);
      StepMoves(ss[i], acts[i].0, acts[i].1);
    }
  }

  ghost predicate StaleAt<V>(ss: seq<State<V>>, acts: seq<(Tid, Action<V>)>, i: nat)
    requires Run(ss, acts) && i < |acts|
  {
    StaleCall(ss[i], acts[i].0)
  }

  /** Thread `u` is inside one call of `op` from moment `j` to moment `n`. */
  ghost predicate InCall<V>(ss: seq<State<V>>, u: Tid, op: Op<V>, j: nat, n: nat)
    requires n < |ss|
  {
    forall i :: j <= i <= n ==> u < |ss[i].pcs| && SpecOf(ss[i].pcs[u]) == Called(op)
  }

  /** Step `j` stores a new value for `k`, whatever `k` was bound to. */
  ghost predicate Overwrites<V>(ss: seq<State<V>>, acts: seq<(Tid, Action<V>)>, j: nat, k: Key)
    requires Run(ss, acts) && j < |acts|
  {
    var pc := ss[j].pcs[acts[j].0];
    (pc.AtShard? || (pc.InGlobal? && !ss[j].sharded)) && pc.op.Insert? && pc.op.key == k
  }

  /** The stale call of step `n` can be thought to take effect at moment `j` of its call: there it is
      unseen, or it is an insert that the next step overwrites. */
  ghost predicate PlacedAt<V>(ss: seq<State<V>>, acts: seq<(Tid, Action<V>)>, n: nat, j: nat)
    requires Run(ss, acts) && n < |acts| && StaleAt(ss, acts, n)
  {
    var u := acts[n].0;
    var op := ss[n].pcs[u].op;
    && j <= n && InCall(ss, u, op, j, n)
    && (Unseen(op, ss[n].global, Contents(ss[j])) || (op.Insert? && Overwrites(ss, acts, j, op.key)))
  }

  /** `at` gives every stale call of the run a moment. */
  ghost predicate Placed<V>(ss: seq<State<V>>, acts: seq<(Tid, Action<V>)>, at: map<nat, nat>)
    requires Run(ss, acts)
  {
    forall n :: 0 <= n < |acts| && StaleAt(ss, acts, n) ==> n in at && PlacedAt(ss, acts, n, at[n])
  }

  /** The next stale call of thread `t` from step `i` on. */
  ghost function NextStale<V>(ss: seq<State<V>>, acts: seq<(Tid, Action<V>)>, i: nat, t: Tid): (r: Option<nat>)
    requires Run(ss, acts) && i <= |acts|
    ensures r.Some? ==> i <= r.value < |acts| && acts[r.value].0 == t && StaleAt(ss, acts, r.value)
    decreases |acts| - i
  {
    if i == |acts| then None
    else if acts[i].0 == t && StaleAt(ss, acts, i) then Some(i)
    else NextStale(ss, acts, i + 1, t)
  }

  /** Where thread `t` of the atomic map stands at moment `i`: as `SpecOf`, except that a stale call
      takes effect at its own moment. */
  ghost function View<V>(ss: seq<State<V>>, acts: seq<(Tid, Action<V>)>, at: map<nat, nat>, i: nat, t: Tid): SpecPc<V>
    requires Run(ss, acts) && Placed(ss, acts, at) && i < |ss| && t < |ss[i].pcs|
  {
    var n := NextStale(ss, acts, i, t);
    if n.Some? && at[n.value] < i
    then Returned(Apply(ss[n.value].pcs[t].op, ss[n.value].global).1)
    else SpecOf(ss[i].pcs[t])
  }

  /** Before the step of the acting thread from `q` to `q'`, another thread inserts a binding
      that this step overwrites. */
  ghost predicate Absorbed<V>(p: SpecPc<V>, p': SpecPc<V>, m: map<Key, V>, q: SpecPc<V>, m': map<Key, V>, q': SpecPc<V>) {
    && p.Called? && p.op.Insert? && p' == Returned(None)
    && q.Called? && q.op.Insert? && q.op.key == p.op.key && q' == Returned(None)
    && m' == m[q.op.key := q.op.value]
  }

  /** Any number of absorbed inserts may come first: each is a step of the atomic map that changes
      only its key, and the overwriting step is a step from whatever they leave. */
  lemma AbsorbedFirst<V>(p: SpecPc<V>, p': SpecPc<V>, m: map<Key, V>, q: SpecPc<V>, m': map<Key, V>, q': SpecPc<V>,
                         m0: map<Key, V>)
    requires Absorbed(p, p', m, q, m', q') && m0 - {p.op.key} == m - {p.op.key}
    ensures var m1 := m0[p.op.key := p.op.value];
      SpecStep(m0, p, m1, p') && m1 - {p.op.key} == m - {p.op.key} && SpecStep(m1, q, m', q')
  {
    var k, m1 := p.op.key, m0[p.op.key := p.op.value];
    assert m1 - {k} == m0 - {k};
    SameOffKey(m1, m, k, q.op.value);
  }

  /** Step `i` in the atomic map's view: other threads may take effect first, each unseen or
      absorbed, then the acting thread takes one step. */
  ghost predicate ViewStepAt<V>(ss: seq<State<V>>, acts: seq<(Tid, Action<V>)>, at: map<nat, nat>, i: nat)
    requires Run(ss, acts) && Placed(ss, acts, at) && i < |acts| && |ss[i + 1].pcs| == |ss[i].pcs|
  {
    var t, m, m' := acts[i].0, Contents(ss[i]), Contents(ss[i + 1]);
    var q, q' := View(ss, acts, at, i, t), View(ss, acts, at, i + 1, t);
    && SpecStep(m, q, m', q')
    && forall u :: 0 <= u < |ss[i].pcs| && u != t ==>
        var p, p' := View(ss, acts, at, i, u), View(ss, acts, at, i + 1, u);
        SpecStep(m, p, m, p') || Absorbed(p, p', m, q, m', q')
  }

  /** A thread outside a call, or inside a call whose moment has not come, is viewed as it is. */
  lemma ViewIs<V>(ss: seq<State<V>>, acts: seq<(Tid, Action<V>)>, at: map<nat, nat>, i: nat, t: Tid)
    requires Run(ss, acts) && Placed(ss, acts, at) && i < |ss| && t < |ss[i].pcs|
    ensures View(ss, acts, at, i, t) == SpecOf(ss[i].pcs[t]) || SpecOf(ss[i].pcs[t]).Called?
  {
    var n := NextStale(ss, acts, i, t);
    if n.Some? && at[n.value] < i {
      assert PlacedAt(ss, acts, n.value, at[n.value]);
    }
  }

  lemma ActorViewStep<V>(ss: seq<State<V>>, acts: seq<(Tid, Action<V>)>, at: map<nat, nat>, i: nat)
    requires Run(ss, acts) && Placed(ss, acts, at) && i < |acts|
    ensures |ss[i + 1].pcs| == |ss[i].pcs|
    ensures var t := acts[i].0;
      SpecStep(Contents(ss[i]), View(ss, acts, at, i, t), Contents(ss[i + 1]), View(ss, acts, at, i + 1, t))
  {
    var t := acts[i].0;
    assert Moves(ss[i], t, ss[i + 1]);
    if StaleAt(ss, acts, i) {
      assert PlacedAt(ss, acts, i, at[i]);
      ViewIs(ss, acts, at, i + 1, t);
    } else {
      var n := NextStale(ss, acts, i, t);
      assert n == NextStale(ss, acts, i + 1, t);
      if n.Some? && at[n.value] <= i {
        assert PlacedAt(ss, acts, n.value, at[n.value]);
        assert InCall(ss, t, ss[n.value].pcs[t].op, at[n.value], n.value);
      }
    }
  }

  lemma OtherViewStep<V>(ss: seq<State<V>>, acts: seq<(Tid, Action<V>)>, at: map<nat, nat>, i: nat, u: Tid)
    requires Run(ss, acts) && Placed(ss, acts, at) && i < |acts|
    requires u < |ss[i].pcs| == |ss[i + 1].pcs| && u != acts[i].0
    ensures var t, m, m' := acts[i].0, Contents(ss[i]), Contents(ss[i + 1]);
      var p, p' := View(ss, acts, at, i, u), View(ss, acts, at, i + 1, u);
      || SpecStep(m, p, m, p')
      || Absorbed(p, p', m, View(ss, acts, at, i, t), m', View(ss, acts, at, i + 1, t))
  {
    assert Moves(ss[i], acts[i].0, ss[i + 1]);
    var n := NextStale(ss, acts, i, u);
    assert n == NextStale(ss, acts, i + 1, u);
    if n.Some? && at[n.value] == i {
      assert PlacedAt(ss, acts, n.value, i);
      var op := ss[n.value].pcs[u].op;
      if !Unseen(op, ss[n.value].global, Contents(ss[i])) {
        OverwriteAbsorbs(ss, acts, at, i, op.key);
      }
    }
  }

  /** The overwriting step is viewed as it is. */
  lemma OverwriteAbsorbs<V>(ss: seq<State<V>>, acts: seq<(Tid, Action<V>)>, at: map<nat, nat>, i: nat, k: Key)
    requires Run(ss, acts) && Placed(ss, acts, at) && i < |acts| && Overwrites(ss, acts, i, k)
    ensures |ss[i + 1].pcs| == |ss[i].pcs|
    ensures var t := acts[i].0;
      var q := View(ss, acts, at, i, t);
      && q.Called? && q.op.Insert? && q.op.key == k && View(ss, acts, at, i + 1, t) == Returned(None)
      && Contents(ss[i + 1]) == Contents(ss[i])[k := q.op.value]
  {
    var t := acts[i].0;
    assert Moves(ss[i], t, ss[i + 1]);
    assert NextStale(ss, acts, i, t) == NextStale(ss, acts, i + 1, t);
    WindowGoesOn(ss, acts, at, i, t);
  }

  /** Inside the window of a stale call the call has not returned. */
  lemma WindowGoesOn<V>(ss: seq<State<V>>, acts: seq<(Tid, Action<V>)>, at: map<nat, nat>, i: nat, t: Tid)
    requires Run(ss, acts) && Placed(ss, acts, at) && i < |acts| && t < |ss[i + 1].pcs|
    ensures var n := NextStale(ss, acts, i + 1, t);
      n.Some? && at[n.value] <= i ==> SpecOf(ss[i + 1].pcs[t]).Called?
  {
    var n := NextStale(ss, acts, i + 1, t);
    if n.Some? {
      assert PlacedAt(ss, acts, n.value, at[n.value]);
    }
  }

  lemma SameOffKey<V>(m0: map<Key, V>, m: map<Key, V>, k: Key, v: V)
    requires m0 - {k} == m - {k}
    ensures m0[k := v] == m[k := v]
  {
    var a, b := m0[k := v], m[k := v];
    forall k'
      ensures Lookup(a, k') == Lookup(b, k')
    {
      assert Lookup(m0 - {k}, k') == Lookup(m - {k}, k');
    }
    MapEq(a, b);
  }

  /** A run with stale calls is still a run of the atomic map, with the same invocations and the
      same answers, if every stale call has a moment inside its call at which it is unseen or
      overwritten at once. */
  lemma {:induction false} PlacedRunRefines<V>(ss: seq<State<V>>, acts: seq<(Tid, Action<V>)>, at: map<nat, nat>)
    requires Run(ss, acts) && Placed(ss, acts, at)
    ensures forall i :: 0 <= i < |acts| ==> |ss[i + 1].pcs| == |ss[i].pcs| && ViewStepAt(ss, acts, at, i)
    ensures forall i, t :: 0 <= i < |ss| && 0 <= t < |ss[i].pcs| ==>
      View(ss, acts, at, i, t) == SpecOf(ss[i].pcs[t]) || SpecOf(ss[i].pcs[t]).Called?
  {
    forall i | 0 <= i < |acts|
      ensures |ss[i + 1].pcs| == |ss[i].pcs| && ViewStepAt(ss, acts, at, i)
    {
      assert Moves(ss[i], acts[i].0, ss[i + 1]);
      ActorViewStep(ss, acts, at, i);
      forall u | 0 <= u < |ss[i].pcs| && u != acts[i].0
        ensures var t, m, m' := acts[i].0, Contents(ss[i]), Contents(ss[i + 1]);
          var p, p' := View(ss, acts, at, i, u), View(ss, acts, at, i + 1, u);
          || SpecStep(m, p, m, p')
          || Absorbed(p, p', m, View(ss, acts, at, i, t), m', View(ss, acts, at, i + 1, t))
      {
        OtherViewStep(ss, acts, at, i, u);
      }
    }
    forall i, t | 0 <= i < |ss| && 0 <= t < |ss[i].pcs|
      ensures View(ss, acts, at, i, t) == SpecOf(ss[i].pcs[t]) || SpecOf(ss[i].pcs[t]).Called?
    {
      ViewIs(ss, acts, at, i, t);
    }
  }

  /** One call of `op` with answer `res` fits in front of a step of another thread: it takes effect
      on `m`, and the step, which led from `m` to `m'`, still is that step afterwards. */
  ghost predicate Fits<V>(op: Op<V>, res: Option<V>, m: map<Key, V>, q: SpecPc<V>, m': map<Key, V>, q': SpecPc<V>) {
    Apply(op, m).1 == res && SpecStep(Apply(op, m).0, q, m', q')
  }

  /** Exactly when: the answer is right, and the call changes nothing or the step overwrites its key. */
  lemma FitsIff<V>(op: Op<V>, res: Option<V>, m: map<Key, V>, q: SpecPc<V>, m': map<Key, V>, q': SpecPc<V>)
    requires SpecStep(m, q, m', q')
    ensures Fits(op, res, m, q, m', q') <==>
      && Apply(op, m).1 == res
      && (Apply(op, m).0 == m || (q' != q && q.Called? && q.op.Insert? && q.op.key == op.key))
  {
    var m0, k := Apply(op, m).0, op.key;
    if m0 != m && q' != q && q.Called? {
      assert q' == Returned(Apply(q.op, m).1) && m' == Apply(q.op, m).0;
      EffectFitsIff(op, q.op, m);
    }
  }

  lemma EffectFitsIff<V>(op: Op<V>, next: Op<V>, m: map<Key, V>)
    requires Apply(op, m).0 != m
    ensures Apply(next, Apply(op, m).0) == Apply(next, m) <==> next.Insert? && next.key == op.key
  {
    var m0, k := Apply(op, m).0, op.key;
    assert Lookup(m0, k) != Lookup(m, k) by {
      if Lookup(m0, k) == Lookup(m, k) {
        forall k'
          ensures Lookup(m0, k') == Lookup(m, k')
        {}
        MapEq(m0, m);
      }
    }
    if next.Insert? && next.key == k {
      assert m0 - {k} == m - {k};
      SameOffKey(m0, m, k, next.value);
    } else if next.Insert? {
      assert Lookup(Apply(next, m0).0, k) == Lookup(m0, k);
      assert Lookup(Apply(next, m).0, k) == Lookup(m, k);
    } else if next.Remove? && next.key != k {
      assert Lookup(Apply(next, m0).0, k) == Lookup(m0, k);
      assert Lookup(Apply(next, m).0, k) == Lookup(m, k);
    }
  }

  /** The exact moments for a stale get: those at which the map agrees with what it read.  For a
      stale removal that is to go unseen: those at which the key is absent, if it found nothing. */
  lemma StaleWindowIff<V>(ss: seq<State<V>>, acts: seq<(Tid, Action<V>)>, n: nat, j: nat)
    requires Run(ss, acts) && n < |acts| && StaleAt(ss, acts, n)
    requires j <= n && InCall(ss, acts[n].0, ss[n].pcs[acts[n].0].op, j, n)
    ensures var op := ss[n].pcs[acts[n].0].op;
      && (op.Get? ==> (PlacedAt(ss, acts, n, j) <==> Lookup(Contents(ss[j]), op.key) == Lookup(ss[n].global, op.key)))
      && (op.Remove? ==> (PlacedAt(ss, acts, n, j) <==> op.key !in Contents(ss[j]) && op.key !in ss[n].global))
  {
    UnseenIff(ss[n].pcs[acts[n].0].op, ss[n].global, Contents(ss[j]));
  }
}
