/** kernel/src/hot_lock.rs: the split race does happen, shown by runs of three threads. */
module HotTraces {
  import opened Prelude
  import opened HotShards
  import opened HotLock

  datatype Trace<V> = Begin | Then(prev: Trace<V>, t: Tid, a: Action<V>)

  /** Runs a trace from `s`, stale steps included. */
  ghost function Exec<V>(s: State<V>, tr: Trace<V>): Option<State<V>> {
    match tr
    case Begin => Some(s)
    case Then(prev, t, a) =>
      match Exec(s, prev)
      case None => None
      case Some(m) => if t < |m.pcs| && |m.shards| == SHARD_COUNT then Next(m, t, a) else None
  }

  lemma More<V>(s: State<V>, tr: Trace<V>, m: State<V>, t: Tid, a: Action<V>)
      returns (longer: Trace<V>, m': State<V>)
    requires Exec(s, tr) == Some(m) && t < |m.pcs| && |m.shards| == SHARD_COUNT && Next(m, t, a).Some?
    ensures longer == Then(tr, t, a) && Exec(s, longer) == Some(m') && Next(m, t, a) == Some(m')
  {
    longer, m' := Then(tr, t, a), Next(m, t, a).value;
  }

  /** Three threads at the given points, `g` in the global map, empty shards, `n` lost races for
      the global lock. */
  ghost predicate Three<V>(s: State<V>, g: map<Key, V>, n: nat, holder: Option<Tid>, split: bool,
                           p0: Pc<V>, p1: Pc<V>, p2: Pc<V>) {
    && s.global == g && |s.shards| == SHARD_COUNT && Empty(s.shards) && s.sharded == split
    && s.contention == n && s.holder == holder
    && |s.pcs| == 3 && s.pcs[0] == p0 && s.pcs[1] == p1 && s.pcs[2] == p2
  }

  lemma ZeroLocks<V>(s: State<V>, tr: Trace<V>, m: State<V>, g: map<Key, V>, n: nat, p2: Pc<V>)
      returns (r: Trace<V>, m': State<V>)
    requires Exec(s, tr) == Some(m) && Three(m, g, n, None, false, Idle, Idle, p2)
    ensures Exec(s, r) == Some(m') && Three(m', g, n, Some(0), false, InGlobal(Get([]), false), Idle, p2)
  {
    r, m' := More(s, tr, m, 0, Invoke(Get([])));
    r, m' := More(s, r, m', 0, Internal([]));
    r, m' := More(s, r, m', 0, Internal([]));
  }

  lemma OneCalls<V>(s: State<V>, tr: Trace<V>, m: State<V>, g: map<Key, V>, n: nat, p0: Pc<V>, p2: Pc<V>)
      returns (r: Trace<V>, m': State<V>)
    requires Exec(s, tr) == Some(m) && Three(m, g, n, Some(0), false, p0, Idle, p2)
    ensures Exec(s, r) == Some(m') && Three(m', g, n, Some(0), false, p0, AtTry(Get([])), p2)
  {
    r, m' := More(s, tr, m, 1, Invoke(Get([])));
    r, m' := More(s, r, m', 1, Internal([]));
  }

  lemma OneFails<V>(s: State<V>, tr: Trace<V>, m: State<V>, g: map<Key, V>, n: nat, p0: Pc<V>, p2: Pc<V>)
      returns (r: Trace<V>, m': State<V>)
    requires n <= SPLIT_THRESHOLD && Exec(s, tr) == Some(m)
    requires Three(m, g, n, Some(0), false, p0, AtTry(Get([])), p2)
    ensures Exec(s, r) == Some(m') && Three(m', g, n + 1, Some(0), false, p0, Waiting(Get([])), p2)
  {
    r, m' := More(s, tr, m, 1, Internal([]));
    r, m' := More(s, r, m', 1, Internal([]));
  }

  lemma BothFinish<V>(s: State<V>, tr: Trace<V>, m: State<V>, g: map<Key, V>, n: nat, p2: Pc<V>)
      returns (r: Trace<V>, m': State<V>)
    requires Exec(s, tr) == Some(m)
    requires Three(m, g, n, Some(0), false, InGlobal(Get([]), false), Waiting(Get([])), p2)
    ensures Exec(s, r) == Some(m') && Three(m', g, n, None, false, Idle, Checking(Lookup(g, [])), p2)
  {
    r, m' := More(s, tr, m, 0, Internal([]));
    r, m' := More(s, r, m', 0, Internal([]));
    r, m' := More(s, r, m', 1, Internal([]));
    r, m' := More(s, r, m', 1, Internal([]));
  }

  /** Threads 0 and 1 race for the lock once; thread 2 rests. */
  lemma Race<V>(s: State<V>, tr: Trace<V>, m: State<V>, g: map<Key, V>, n: nat, p2: Pc<V>)
      returns (r: Trace<V>, m': State<V>)
    requires n <= SPLIT_THRESHOLD && Exec(s, tr) == Some(m) && Three(m, g, n, None, false, Idle, Idle, p2)
    ensures Exec(s, r) == Some(m') && Three(m', g, n + 1, None, false, Idle, Checking(Lookup(g, [])), p2)
  {
    r, m' := ZeroLocks(s, tr, m, g, n, p2);
    r, m' := OneCalls(s, r, m', g, n, InGlobal(Get([]), false), p2);
    r, m' := OneFails(s, r, m', g, n, InGlobal(Get([]), false), p2);
    r, m' := BothFinish(s, r, m', g, n + 1, p2);
  }

  lemma {:induction false} Races<V>(n: nat) returns (r: Trace<V>, m: State<V>)
    requires n <= SPLIT_THRESHOLD
    ensures Exec(Init(3), r) == Some(m) && Three(m, map[], n, None, false, Idle, Idle, Idle)
  {
    if n == 0 {
      r, m := Begin, Init<V>(3);
    } else {
      r, m := Races(n - 1);
      r, m := Race(Init(3), r, m, map[], n - 1, Idle);
      r, m := More(Init(3), r, m, 1, Internal([]));
      r, m := More(Init(3), r, m, 1, Internal([]));
    }
  }

  /** One race too many: thread 1 takes the lock to split the map. */
  lemma OneStartsSplit<V>(s: State<V>, tr: Trace<V>, m: State<V>, g: map<Key, V>, n: nat, res: Option<V>, p2: Pc<V>)
      returns (r: Trace<V>, m': State<V>)
    requires n > SPLIT_THRESHOLD && Exec(s, tr) == Some(m) && Three(m, g, n, None, false, Idle, Checking(res), p2)
    ensures Exec(s, r) == Some(m') && Three(m', g, n, Some(1), false, Idle, Migrating(res, g.Keys), p2)
  {
    r, m' := More(s, tr, m, 1, Internal([]));
    r, m' := More(s, r, m', 1, Internal([]));
    r, m' := More(s, r, m', 1, Internal([]));
  }

  /** It splits an empty map. */
  lemma OneSplits<V>(s: State<V>, tr: Trace<V>, m: State<V>, n: nat, res: Option<V>, p2: Pc<V>)
      returns (r: Trace<V>, m': State<V>)
    requires n > SPLIT_THRESHOLD && Exec(s, tr) == Some(m) && Three(m, map[], n, None, false, Idle, Checking(res), p2)
    ensures Exec(s, r) == Some(m') && Three(m', map[], n, None, true, Idle, Done(res), p2)
  {
    r, m' := OneStartsSplit(s, tr, m, map[], n, res, p2);
    r, m' := More(s, r, m', 1, Internal([]));
    r, m' := More(s, r, m', 1, Internal([]));
  }

  lemma TwoCalls<V>(s: State<V>, tr: Trace<V>, m: State<V>, n: nat, k: Key, v: V) returns (r: Trace<V>, m': State<V>)
    requires Exec(s, tr) == Some(m) && Three(m, map[], n, None, false, Idle, Idle, Idle)
    ensures Exec(s, r) == Some(m') && Three(m', map[], n, None, false, Idle, Idle, AtTry(Insert(k, v)))
  {
    r, m' := More(s, tr, m, 2, Invoke(Insert(k, v)));
    r, m' := More(s, r, m', 2, Internal([]));
  }

  /** Three threads do reach the bad interleaving: the map has been split, and thread 2,
      which read the flag before, is about to insert into the global map. */
  lemma StaleReachable<V>(k: Key, v: V) returns (r: Trace<V>, m: State<V>)
    ensures Exec(Init(3), r) == Some(m)
    ensures Three(m, map[], SPLIT_THRESHOLD + 1, Some(2), true, Idle, Done(None), InGlobal(Insert(k, v), false))
    ensures StaleCall(m, 2)
  {
    var s := Init<V>(3);
    r, m := Races(SPLIT_THRESHOLD);
    r, m := TwoCalls(s, r, m, SPLIT_THRESHOLD, k, v);
    r, m := Race(s, r, m, map[], SPLIT_THRESHOLD, AtTry(Insert(k, v)));
    r, m := OneSplits(s, r, m, SPLIT_THRESHOLD + 1, None, AtTry(Insert(k, v)));
    r, m := TwoTakesLock(s, r, m, SPLIT_THRESHOLD + 1, k, v);
  }

  lemma TwoTakesLock<V>(s: State<V>, tr: Trace<V>, m: State<V>, n: nat, k: Key, v: V)
      returns (r: Trace<V>, m': State<V>)
    requires Exec(s, tr) == Some(m) && Three(m, map[], n, None, true, Idle, Done(None), AtTry(Insert(k, v)))
    ensures Exec(s, r) == Some(m')
    ensures Three(m', map[], n, Some(2), true, Idle, Done(None), InGlobal(Insert(k, v), false))
  {
    r, m' := More(s, tr, m, 2, Internal([]));
  }

  /** From there thread 2's insert returns, and thread 0's next `get` misses the key. */
  lemma LostInsert<V>(m: State<V>, k: Key, v: V) returns (r: Trace<V>, m': State<V>)
    requires Three(m, map[], SPLIT_THRESHOLD + 1, Some(2), true, Idle, Done(None), InGlobal(Insert(k, v), false))
    ensures Exec(m, r) == Some(m')
    ensures r == Then(Then(Then(Then(Begin, 2, Internal([])), 0, Invoke(Get(k))), 0, Internal([])), 0, Internal([]))
    ensures |m'.pcs| == 3 && m'.pcs[2] == Done(None) && m'.pcs[0] == Done(None)
  {
    r, m' := More(m, Begin, m, 2, Internal([]));
    r, m' := More(m, r, m', 0, Invoke(Get(k)));
    r, m' := More(m, r, m', 0, Internal([]));
    r, m' := More(m, r, m', 0, Internal([]));
  }

  /** What a stale insert left behind misleads a later stale get: the map is empty, the get finds `v`. */
  lemma LeftoverMisleads<V>(k: Key, v: V) returns (s: State<V>)
    ensures Inv(s) && Contents(s) == map[] && |s.pcs| == 1 && StaleCall(s, 0) && s.pcs[0].op == Get(k)
    ensures SpecOf(Next(s, 0, Internal([])).value.pcs[0]) == Returned(Some(v))
    ensures !Harmless(Get(k), s.global, Contents(s))
  {
    s := State(map[k := v], seq(SHARD_COUNT, i => map[]), true, SPLIT_THRESHOLD + 1, Some(0), [InGlobal(Get(k), false)]);
    UnionEmpty(s.shards);
  }

  /** Thread 2 stores one binding, undisturbed, and starts a snapshot. */
  lemma TwoStoresThenLists<V>(k: Key, v: V) returns (r: Trace<V>, m: State<V>)
    ensures Exec(Init(3), r) == Some(m)
    ensures Three(m, map[k := v], SPLIT_THRESHOLD, None, false, Idle, Idle, SnapStart)
  {
    var s := Init<V>(3);
    r, m := Races(SPLIT_THRESHOLD);
    r, m := TwoCalls(s, r, m, SPLIT_THRESHOLD, k, v);
    r, m := More(s, r, m, 2, Internal([]));
    r, m := More(s, r, m, 2, Internal([]));
    assert m.global == map[k := v];
    r, m := More(s, r, m, 2, Internal([]));
    r, m := More(s, r, m, 2, InvokeSnapshot);
  }

  /** Thread 1 moves the one binding and stores the flag. */
  lemma OneMoves<V>(s: State<V>, tr: Trace<V>, m: State<V>, k: Key, v: V, n: nat, res: Option<V>, p2: Pc<V>)
      returns (r: Trace<V>, m': State<V>)
    requires Exec(s, tr) == Some(m) && Three(m, map[k := v], n, Some(1), false, Idle, Migrating(res, {k}), p2)
    ensures Exec(s, r) == Some(m') && m'.holder == None && m'.sharded && m'.global == map[]
    ensures |m'.shards| == SHARD_COUNT && m'.shards == m.shards[ShardIdx(k) := map[k := v]]
    ensures |m'.pcs| == 3 && m'.pcs[2] == p2
  {
    r, m' := More(s, tr, m, 1, Internal(k));
    assert m'.global == map[] && m'.pcs[1] == Carrying(res, {}, k, v);
    r, m' := More(s, r, m', 1, Internal([]));
    r, m' := More(s, r, m', 1, Internal([]));
    r, m' := More(s, r, m', 1, Internal([]));
  }

  /** A snapshot can miss a binding that was there when it began and is there when it lists: it
      read the flag, the map was split, and it now copies the empty global map. */
  lemma SnapshotMisses<V>(k: Key, v: V) returns (r0: Trace<V>, m0: State<V>, r: Trace<V>, m: State<V>)
    ensures Exec(Init(3), r0) == Some(m0) && |m0.pcs| == 3 && m0.pcs[2] == SnapStart
    ensures Contents(m0) == map[k := v]
    ensures Exec(m0, r) == Some(m) && |m.pcs| == 3 && StaleSnapshot(m, 2) && |m.shards| == SHARD_COUNT
    ensures Contents(m) == map[k := v]
    ensures Next(m, 2, Internal([])).value.pcs[2] == SnapDone(map[])
  {
    r0, m0 := TwoStoresThenLists(k, v);
    UnionEmpty(m0.shards);
    r, m := SplitUnderSnapshot(m0, k, v);
    OneShard(m.shards, k, v);
    r, m := TwoLocks(m0, r, m);
  }

  lemma SplitUnderSnapshot<V>(s: State<V>, k: Key, v: V) returns (r: Trace<V>, m: State<V>)
    requires Three(s, map[k := v], SPLIT_THRESHOLD, None, false, Idle, Idle, SnapStart)
    ensures Exec(s, r) == Some(m) && m.holder == None && m.sharded && m.global == map[]
    ensures |m.shards| == SHARD_COUNT && m.shards == s.shards[ShardIdx(k) := map[k := v]]
    ensures |m.pcs| == 3 && m.pcs[2] == SnapWait
  {
    var g := map[k := v];
    r, m := TwoReadsFlag(s, g);
    r, m := Race(s, r, m, g, SPLIT_THRESHOLD, SnapWait);
    r, m := OneStartsSplit(s, r, m, g, SPLIT_THRESHOLD + 1, Lookup(g, []), SnapWait);
    assert g.Keys == {k} && m.shards == s.shards;
    r, m := OneMoves(s, r, m, k, v, SPLIT_THRESHOLD + 1, Lookup(g, []), SnapWait);
  }

  lemma TwoReadsFlag<V>(s: State<V>, g: map<Key, V>) returns (r: Trace<V>, m: State<V>)
    requires Three(s, g, SPLIT_THRESHOLD, None, false, Idle, Idle, SnapStart)
    ensures Exec(s, r) == Some(m) && Three(m, g, SPLIT_THRESHOLD, None, false, Idle, Idle, SnapWait)
  {
    r, m := More(s, Begin, s, 2, Internal([]));
  }

  lemma TwoLocks<V>(s: State<V>, tr: Trace<V>, m: State<V>) returns (r: Trace<V>, m': State<V>)
    requires Exec(s, tr) == Some(m) && |m.shards| == SHARD_COUNT && m.sharded && m.holder == None && m.global == map[]
    requires |m.pcs| == 3 && m.pcs[2] == SnapWait
    ensures Exec(s, r) == Some(m') && |m'.pcs| == 3 && StaleSnapshot(m', 2) && m'.shards == m.shards && m'.sharded
    ensures Next(m', 2, Internal([])).value.pcs[2] == SnapDone(map[])
  {
    r, m' := More(s, tr, m, 2, Internal([]));
  }

  lemma OneShard<V>(shards: seq<map<Key, V>>, k: Key, v: V)
    requires |shards| == SHARD_COUNT && shards[ShardIdx(k)] == map[k := v]
    requires forall i :: 0 <= i < |shards| && i != ShardIdx(k) ==> shards[i] == map[]
    ensures Union(shards) == map[k := v]
  {
    var one := map[k := v];
    forall k'
      ensures Lookup(Union(shards), k') == Lookup(one, k')
    {
      UnionLookup(shards, k');
    }
    MapEq(Union(shards), one);
  }
}
