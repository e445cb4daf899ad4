/** kernel/src/hot_lock.rs: a map that starts under one lock and moves its contents into eight
    hash shards once contention is high, as a concurrent protocol: any number of threads, one
    atomic access (an atomic load or store, a lock acquisition, one critical-section body) per
    step. */
module HotLock {
  import opened Bits
  import opened Prelude
  import opened HotShards

  type Tid = nat

  // ----- The concurrent protocol -------------------------------------------------

  /** Where a thread stands in one call; `res` is what the call will return. */
  datatype Pc<V> =
    | Idle
    | Start(op: Op<V>)                                    // about to load `sharded`
    | AtShard(op: Op<V>)                                  // read true
    | AtTry(op: Op<V>)                                    // read false, about to try_lock
    | Contended(op: Op<V>)                                // try_lock failed, about to count it
    | Waiting(op: Op<V>)                                  // blocked in lock()
    | InGlobal(op: Op<V>, contended: bool)                // holds the global lock
    | Checking(res: Option<V>)                            // check_split: about to load contention
    | WantSplit(res: Option<V>)                           // blocked in check_split's lock()
    | SplitTest(res: Option<V>)                           // holds the lock, about to reload `sharded`
    | Migrating(res: Option<V>, todo: set<Key>)           // holds the lock
    | Carrying(res: Option<V>, todo: set<Key>, key: Key, value: V) // removed, not yet in its shard
    | Unlocking(res: Option<V>)                           // flag is set, guard about to drop
    | Done(res: Option<V>)
    | SnapStart                                           // snapshot: about to load `sharded`
    | SnapWait                                            // blocked in snapshot's lock()
    | SnapGlobal                                          // holds the global lock
    | SnapShards(next: nat, acc: map<Key, V>)             // has read shards[..next]
    | SnapDone(acc: map<Key, V>)
  {
    predicate Holds() {
      InGlobal? || SplitTest? || Migrating? || Carrying? || Unlocking? || SnapGlobal?
    }
  }

  datatype Action<V> = Invoke(op: Op<V>) | InvokeSnapshot | Internal(pick: Key)

  datatype State<V> = State(
    global: map<Key, V>,
    shards: seq<map<Key, V>>,
    sharded: bool,
    contention: nat,
    holder: Option<Tid>,
    pcs: seq<Pc<V>>)
  {
    ghost function Go(t: Tid, pc: Pc<V>): State<V>
      requires t < |pcs|
    {
      this.(pcs := pcs[t := pc])
    }

    ghost function Acquire(t: Tid, pc: Pc<V>): Option<State<V>>
      requires t < |pcs|
    {
      if holder.None? then Some(this.(holder := Some(t)).Go(t, pc)) else None
    }

    ghost function Release(t: Tid, pc: Pc<V>): State<V>
      requires t < |pcs|
    {
      this.(holder := None).Go(t, pc)
    }
  }

  ghost function Init<V>(threads: nat): State<V> {
    State(map[], seq(SHARD_COUNT, i => map[]), false, 0, None, seq(threads, i => Idle))
  }

  /** One atomic step of thread `t`; `None` when it cannot move (a lock it waits for is held). */
  ghost function Next<V>(s: State<V>, t: Tid, a: Action<V>): Option<State<V>>
    requires t < |s.pcs| && |s.shards| == SHARD_COUNT
  {
    match s.pcs[t]
    case Idle =>
      if a.Invoke? then Some(s.Go(t, Start(a.op)))
      else if a.InvokeSnapshot? then Some(s.Go(t, SnapStart))
      else None
    case Start(op) => Some(s.Go(t, if s.sharded then AtShard(op) else AtTry(op)))
    case AtShard(op) =>
      var i := ShardIdx(op.key);
      var r := Apply(op, s.shards[i]);
      Some(s.(shards := s.shards[i := r.0]).Go(t, Done(r.1)))
    case AtTry(op) =>
      if s.holder.None? then s.Acquire(t, InGlobal(op, false)) else Some(s.Go(t, Contended(op)))
    case Contended(op) =>
      Some(s.(contention := Inc64(s.contention)).Go(t, Waiting(op)))
    case Waiting(op) => s.Acquire(t, InGlobal(op, true))
    case InGlobal(op, contended) =>
      var r := Apply(op, s.global);
      Some(s.(global := r.0).Release(t, if contended then Checking(r.1) else Done(r.1)))
    case Checking(res) =>
      Some(s.Go(t, if s.contention > SPLIT_THRESHOLD then WantSplit(res) else Done(res)))
    case WantSplit(res) => s.Acquire(t, SplitTest(res))
    case SplitTest(res) =>
      Some(s.Go(t, if s.sharded then Unlocking(res) else Migrating(res, s.global.Keys)))
    case Migrating(res, todo) =>
      if todo == {} then Some(s.(sharded := true).Go(t, Unlocking(res)))
      else if a.Internal? && a.pick in todo then
        if a.pick in s.global then
          Some(s.(global := s.global - {a.pick}).Go(t, Carrying(res, todo - {a.pick}, a.pick, s.global[a.pick])))
        else Some(s.Go(t, Migrating(res, todo - {a.pick})))
      else None
    case Carrying(res, todo, k, v) =>
      var i := ShardIdx(k);
      Some(s.(shards := s.shards[i := s.shards[i][k := v]]).Go(t, Migrating(res, todo)))
    case Unlocking(res) => Some(s.Release(t, Done(res)))
    case Done(res) => Some(s.Go(t, Idle))
    case SnapStart => Some(s.Go(t, if s.sharded then SnapShards(0, map[]) else SnapWait))
    case SnapWait => s.Acquire(t, SnapGlobal)
    case SnapGlobal => Some(s.Release(t, SnapDone(s.global)))
    case SnapShards(next, acc) =>
      if next < SHARD_COUNT then Some(s.Go(t, SnapShards(next + 1, acc + s.shards[next])))
      else Some(s.Go(t, SnapDone(acc)))
    case SnapDone(acc) => Some(s.Go(t, Idle))
  }

  /** The bad interleaving: `t` read `sharded == false`, and is about to use the global map
      although the split has stored the flag since. */
  ghost predicate StaleCall<V>(s: State<V>, t: Tid)
    requires t < |s.pcs|
  {
    s.sharded && s.pcs[t].InGlobal?
  }

  ghost predicate StaleSnapshot<V>(s: State<V>, t: Tid)
    requires t < |s.pcs|
  {
    s.sharded && s.pcs[t].SnapGlobal?
  }

  // ----- The specification: one atomic map ----------------------------------------------

  /** The specification: a call is invoked, takes effect at once on one map, returns. */
  datatype SpecPc<V> = Ready | Called(op: Op<V>) | Returned(res: Option<V>) | Listing

  ghost function SpecOf<V>(pc: Pc<V>): SpecPc<V> {
    match pc
    case Idle => Ready
    case Start(op) => Called(op)
    case AtShard(op) => Called(op)
    case AtTry(op) => Called(op)
    case Contended(op) => Called(op)
    case Waiting(op) => Called(op)
    case InGlobal(op, _) => Called(op)
    case Checking(res) => Returned(res)
    case WantSplit(res) => Returned(res)
    case SplitTest(res) => Returned(res)
    case Migrating(res, _) => Returned(res)
    case Carrying(res, _, _, _) => Returned(res)
    case Unlocking(res) => Returned(res)
    case Done(res) => Returned(res)
    case _ => Listing
  }

  /** One step of the atomic map `m` by a thread at `p`. */
  ghost predicate SpecStep<V>(m: map<Key, V>, p: SpecPc<V>, m': map<Key, V>, p': SpecPc<V>) {
    || (m' == m && p' == p)
    || (m' == m && p.Ready? && (p'.Called? || p'.Listing?))
    || (p.Called? && (m', p') == (Apply(p.op, m).0, Returned(Apply(p.op, m).1)))
    || (m' == m && (p.Returned? || p.Listing?) && p'.Ready?)
  }

  // ----- Invariant ---------------------------------------------------------------

  /** The binding the migrating thread has taken out of the global map. */
  ghost function Hand<V>(s: State<V>): map<Key, V> {
    if s.holder.Some? && s.holder.value < |s.pcs| && s.pcs[s.holder.value].Carrying?
    then map[s.pcs[s.holder.value].key := s.pcs[s.holder.value].value] else map[]
  }

  /** The one map the callers see. */
  ghost function Contents<V>(s: State<V>): map<Key, V> {
    if s.sharded then Union(s.shards) else s.global + Hand(s) + Union(s.shards)
  }

  ghost predicate LockInv<V>(s: State<V>) {
    && (s.holder.Some? ==> s.holder.value < |s.pcs|)
    && forall t :: 0 <= t < |s.pcs| ==> (s.pcs[t].Holds() <==> s.holder == Some(t))
  }

  ghost predicate PcInv<V>(s: State<V>, pc: Pc<V>) {
    match pc
    case AtShard(_) => s.sharded
    case SnapShards(n, _) => s.sharded && n <= SHARD_COUNT
    case Migrating(_, todo) => !s.sharded && todo == s.global.Keys
    case Carrying(_, todo, k, _) =>
      && !s.sharded && todo == s.global.Keys && k !in s.global
      && forall i :: 0 <= i < |s.shards| ==> k !in s.shards[i]
    case Unlocking(_) => s.sharded
    case _ => true
  }

  ghost predicate Splitting<V>(s: State<V>) {
    s.holder.Some? && s.holder.value < |s.pcs|
    && (s.pcs[s.holder.value].Migrating? || s.pcs[s.holder.value].Carrying?)
  }

  /** Holds of every reachable state.  Once the map is split, the global map is unused and may
      hold what stale calls left there. */
  ghost predicate Inv<V>(s: State<V>) {
    && |s.shards| == SHARD_COUNT
    && Home(s.shards)
    && LockInv(s)
    && (forall t :: 0 <= t < |s.pcs| ==> PcInv(s, s.pcs[t]))
    && (!s.sharded ==> Disjoint(s.global, s.shards))
    && (!s.sharded && !Splitting(s) ==> Empty(s.shards))
  }

  /** No stale call has left anything in the global map. */
  ghost predicate Clean<V>(s: State<V>) { s.sharded ==> s.global == map[] }

  lemma InitInv<V>(threads: nat)
    ensures Inv(Init<V>(threads)) && Clean(Init<V>(threads)) && Contents(Init<V>(threads)) == map[]
  {
    var s := Init<V>(threads);
    forall k
      ensures Lookup(Union(s.shards), k) == None
    {
      UnionLookup(s.shards, k);
    }
    MapEq(Union(s.shards), map[]);
  }

  lemma StepPcs<V>(s: State<V>, t: Tid, a: Action<V>)
    requires |s.shards| == SHARD_COUNT && t < |s.pcs| && Next(s, t, a).Some?
    ensures var s' := Next(s, t, a).value; |s'.pcs| == |s.pcs| && s'.pcs == s.pcs[t := s'.pcs[t]]
  {}

  /** A step keeps the lock, takes a free lock, or gives up its own. */
  ghost predicate LockMove<V>(s: State<V>, s': State<V>, t: Tid)
    requires t < |s.pcs| && t < |s'.pcs|
  {
    || (s'.holder == s.holder && s'.pcs[t].Holds() == s.pcs[t].Holds())
    || (s.holder == None && s'.holder == Some(t) && s'.pcs[t].Holds())
    || (s.pcs[t].Holds() && s'.holder == None && !s'.pcs[t].Holds())
  }

  lemma StepHolder<V>(s: State<V>, t: Tid, a: Action<V>)
    requires |s.shards| == SHARD_COUNT && t < |s.pcs| && Next(s, t, a).Some?
    ensures t < |Next(s, t, a).value.pcs| && LockMove(s, Next(s, t, a).value, t)
  {
    if s.pcs[t].Holds() { HolderStep(s, t, a); } else { WaiterStep(s, t, a); }
  }

  lemma HolderStep<V>(s: State<V>, t: Tid, a: Action<V>)
    requires |s.shards| == SHARD_COUNT && t < |s.pcs| && s.pcs[t].Holds() && Next(s, t, a).Some?
    ensures t < |Next(s, t, a).value.pcs| && LockMove(s, Next(s, t, a).value, t)
  {}

  lemma WaiterStep<V>(s: State<V>, t: Tid, a: Action<V>)
    requires |s.shards| == SHARD_COUNT && t < |s.pcs| && !s.pcs[t].Holds() && Next(s, t, a).Some?
    ensures t < |Next(s, t, a).value.pcs| && LockMove(s, Next(s, t, a).value, t)
  {
    match s.pcs[t]
    case AtTry(_) =>
    case Waiting(_) =>
    case WantSplit(_) =>
    case SnapWait =>
    case _ =>
  }

  lemma StepLock<V>(s: State<V>, t: Tid, a: Action<V>)
    requires LockInv(s) && |s.shards| == SHARD_COUNT && t < |s.pcs| && Next(s, t, a).Some?
    ensures LockInv(Next(s, t, a).value)
  {
    StepHolder(s, t, a);
    StepPcs(s, t, a);
    LockKept(s, Next(s, t, a).value, t);
  }

  lemma LockKept<V>(s: State<V>, s': State<V>, t: Tid)
    requires LockInv(s) && t < |s.pcs| == |s'.pcs| && s'.pcs == s.pcs[t := s'.pcs[t]]
    requires LockMove(s, s', t)
    ensures LockInv(s')
  {
    assert s.pcs[t].Holds() ==> s.holder == Some(t);
    forall u | 0 <= u < |s'.pcs|
      ensures s'.pcs[u].Holds() <==> s'.holder == Some(u)
    {
      assert s.pcs[u].Holds() <==> s.holder == Some(u);
    }
  }

  /** Steps that touch no map and no flag. */
  ghost predicate Quiet<V>(s: State<V>, t: Tid)
    requires t < |s.pcs|
  {
    match s.pcs[t]
    case AtShard(_) => false
    case InGlobal(_, _) => false
    case Migrating(_, _) => false
    case Carrying(_, _, _, _) => false
    case _ => true
  }

  lemma QuietFrame<V>(s: State<V>, t: Tid, a: Action<V>)
    requires |s.shards| == SHARD_COUNT && t < |s.pcs| && Next(s, t, a).Some? && Quiet(s, t)
    ensures var s' := Next(s, t, a).value;
      && s'.global == s.global && s'.shards == s.shards && s'.sharded == s.sharded
      && |s'.pcs| == |s.pcs| && !s'.pcs[t].Carrying?
  {}

  lemma QuietSpec<V>(s: State<V>, t: Tid, a: Action<V>, m: map<Key, V>)
    requires |s.shards| == SHARD_COUNT && t < |s.pcs| && Next(s, t, a).Some? && Quiet(s, t)
    ensures var s' := Next(s, t, a).value;
      |s'.pcs| == |s.pcs| && SpecStep(m, SpecOf(s.pcs[t]), m, SpecOf(s'.pcs[t]))
  {}

  lemma QuietPc<V>(s: State<V>, t: Tid, a: Action<V>)
    requires Inv(s) && t < |s.pcs| && Next(s, t, a).Some? && Quiet(s, t)
    ensures var s' := Next(s, t, a).value; PcInv(s', s'.pcs[t])
  {
    assert PcInv(s, s.pcs[t]);
  }

  lemma QuietInv<V>(s: State<V>, t: Tid, a: Action<V>)
    requires Inv(s) && t < |s.pcs| && Next(s, t, a).Some? && Quiet(s, t)
    ensures Inv(Next(s, t, a).value) && Contents(Next(s, t, a).value) == Contents(s)
  {
    var s' := Next(s, t, a).value;
    StepLock(s, t, a);
    StepPcs(s, t, a);
    QuietFrame(s, t, a);
    QuietPc(s, t, a);
    SameBut(s, s', t);
  }

  /** Only thread `t` moved, and it neither was nor is carrying a binding. */
  lemma SameBut<V>(s: State<V>, s': State<V>, t: Tid)
    requires Inv(s) && LockInv(s') && t < |s.pcs| && |s'.pcs| == |s.pcs|
    requires s'.global == s.global && s'.shards == s.shards && s'.sharded == s.sharded
    requires s'.pcs == s.pcs[t := s'.pcs[t]] && PcInv(s', s'.pcs[t])
    requires !s.pcs[t].Carrying? && !s.pcs[t].Migrating? && !s'.pcs[t].Carrying?
    ensures Inv(s') && Contents(s') == Contents(s)
  {
    forall u | 0 <= u < |s'.pcs|
      ensures PcInv(s', s'.pcs[u])
    {
      assert PcInv(s, s.pcs[u]);
    }
    if Splitting(s) {
      var h := s.holder.value;
      assert s'.pcs[h].Holds() && s'.holder == Some(h);
    }
    assert Hand(s') == Hand(s);
  }

  lemma GlobalOp<V>(s: State<V>, t: Tid, a: Action<V>)
    requires Inv(s) && t < |s.pcs| && s.pcs[t].InGlobal? && !s.sharded
    ensures var s', r := Next(s, t, a).value, Apply(s.pcs[t].op, Contents(s));
      && Inv(s') && Contents(s') == r.0
      && (s'.pcs[t] == Done(r.1) || s'.pcs[t] == Checking(r.1))
  {
    var s' := Next(s, t, a).value;
    StepLock(s, t, a);
    assert s.holder == Some(t) by { assert s.pcs[t].Holds(); }
    UnionEmpty(s.shards);
    assert Contents(s) == s.global;
    assert Contents(s') == s'.global;
    forall u | 0 <= u < |s'.pcs|
      ensures PcInv(s', s'.pcs[u])
    {
      assert PcInv(s, s.pcs[u]) && (s.pcs[u].Holds() ==> u == t);
    }
  }

  lemma ShardOp<V>(s: State<V>, t: Tid, a: Action<V>)
    requires Inv(s) && t < |s.pcs| && s.pcs[t].AtShard?
    ensures var s', r := Next(s, t, a).value, Apply(s.pcs[t].op, Contents(s));
      Inv(s') && Contents(s') == r.0 && s'.pcs[t] == Done(r.1)
  {
    var s', op := Next(s, t, a).value, s.pcs[t].op;
    StepLock(s, t, a);
    assert PcInv(s, s.pcs[t]);
    var i := ShardIdx(op.key);
    var r := Apply(op, s.shards[i]);
    assert Home(s'.shards);
    forall k
      ensures Lookup(Contents(s'), k) == Lookup(Apply(op, Contents(s)).0, k)
    {
      ShardUpdate(s.shards, i, r.0, k);
      UnionLookup(s.shards, k);
    }
    MapEq(Contents(s'), Apply(op, Contents(s)).0);
    UnionLookup(s.shards, op.key);
    forall u | 0 <= u < |s'.pcs|
      ensures PcInv(s', s'.pcs[u])
    {
      assert PcInv(s, s.pcs[u]);
    }
  }

  /** Taking a binding out of the global map, with the lock held. */
  lemma MigrateOut<V>(s: State<V>, t: Tid, a: Action<V>)
    requires Inv(s) && t < |s.pcs| && s.pcs[t].Migrating? && s.pcs[t].todo != {} && Next(s, t, a).Some?
    ensures Inv(Next(s, t, a).value) && Contents(Next(s, t, a).value) == Contents(s)
  {
    var s' := Next(s, t, a).value;
    StepLock(s, t, a);
    assert PcInv(s, s.pcs[t]) && s.holder == Some(t) by { assert s.pcs[t].Holds(); }
    assert a.pick in s.global;
    forall u | 0 <= u < |s'.pcs|
      ensures PcInv(s', s'.pcs[u])
    {
      assert PcInv(s, s.pcs[u]) && (s.pcs[u].Holds() ==> u == t);
    }
    assert Contents(s') == Contents(s);
  }

  /** Putting the carried binding into its shard. */
  lemma MigrateIn<V>(s: State<V>, t: Tid, a: Action<V>)
    requires Inv(s) && t < |s.pcs| && s.pcs[t].Carrying?
    ensures Inv(Next(s, t, a).value) && Contents(Next(s, t, a).value) == Contents(s)
  {
    var s', k0, v0 := Next(s, t, a).value, s.pcs[t].key, s.pcs[t].value;
    StepLock(s, t, a);
    assert PcInv(s, s.pcs[t]) && s.holder == Some(t) by { assert s.pcs[t].Holds(); }
    var i := ShardIdx(k0);
    assert Home(s'.shards);
    forall u | 0 <= u < |s'.pcs|
      ensures PcInv(s', s'.pcs[u])
    {
      assert PcInv(s, s.pcs[u]) && (s.pcs[u].Holds() ==> u == t);
    }
    forall k
      ensures Lookup(Contents(s'), k) == Lookup(Contents(s), k)
    {
      ShardUpdate(s.shards, i, s.shards[i][k0 := v0], k);
      UnionLookup(s.shards, k);
    }
    MapEq(Contents(s'), Contents(s));
  }

  /** The flag store: nothing is left behind in the global map. */
  lemma StoreFlag<V>(s: State<V>, t: Tid, a: Action<V>)
    requires Inv(s) && t < |s.pcs| && s.pcs[t].Migrating? && s.pcs[t].todo == {}
    ensures Inv(Next(s, t, a).value) && Contents(Next(s, t, a).value) == Contents(s)
  {
    var s' := Next(s, t, a).value;
    StepLock(s, t, a);
    assert PcInv(s, s.pcs[t]) && s.holder == Some(t) by { assert s.pcs[t].Holds(); }
    forall u | 0 <= u < |s'.pcs|
      ensures PcInv(s', s'.pcs[u])
    {
      assert PcInv(s, s.pcs[u]) && (s.pcs[u].Holds() ==> u == t);
    }
    assert Contents(s') == Contents(s);
  }

  // ----- Refinement --------------------------------------------------------------

  /** From `s` to `s'` thread `t` takes a step of the atomic map, and the invariant is kept. */
  ghost predicate Refines<V>(s: State<V>, t: Tid, s': State<V>) {
    && Inv(s')
    && (Clean(s) ==> Clean(s'))
    && t < |s.pcs| == |s'.pcs|
    && SpecStep(Contents(s), SpecOf(s.pcs[t]), Contents(s'), SpecOf(s'.pcs[t]))
  }

  lemma QuietRefines<V>(s: State<V>, t: Tid, a: Action<V>)
    requires Inv(s) && t < |s.pcs| && Next(s, t, a).Some? && Quiet(s, t)
    ensures Refines(s, t, Next(s, t, a).value)
  {
    QuietInv(s, t, a);
    QuietFrame(s, t, a);
    QuietSpec(s, t, a, Contents(s));
  }

  lemma CallRefines<V>(s: State<V>, t: Tid, a: Action<V>)
    requires Inv(s) && t < |s.pcs| && (s.pcs[t].InGlobal? || s.pcs[t].AtShard?) && !StaleCall(s, t)
    ensures Next(s, t, a).Some? && Refines(s, t, Next(s, t, a).value)
  {
    if s.pcs[t].InGlobal? {
      GlobalOp(s, t, a);
    } else {
      ShardOp(s, t, a);
    }
  }

  lemma MigrationRefines<V>(s: State<V>, t: Tid, a: Action<V>)
    requires Inv(s) && t < |s.pcs| && (s.pcs[t].Migrating? || s.pcs[t].Carrying?) && Next(s, t, a).Some?
    ensures Refines(s, t, Next(s, t, a).value)
  {
    if s.pcs[t].Carrying? {
      MigrateIn(s, t, a);
    } else if s.pcs[t].todo != {} {
      MigrateOut(s, t, a);
    } else {
      StoreFlag(s, t, a);
    }
    assert PcInv(s, s.pcs[t]);
  }

  /** Every step except a stale call is a step of the atomic map, taken by the same thread. */
  lemma StepRefines<V>(s: State<V>, t: Tid, a: Action<V>)
    requires Inv(s) && t < |s.pcs| && Next(s, t, a).Some? && !StaleCall(s, t)
    ensures var s' := Next(s, t, a).value;
      && Refines(s, t, s')
      && (forall u :: 0 <= u < |s.pcs| && u != t ==> s'.pcs[u] == s.pcs[u])
  {
    StepPcs(s, t, a);
    if s.pcs[t].InGlobal? || s.pcs[t].AtShard? {
      CallRefines(s, t, a);
    } else if s.pcs[t].Migrating? || s.pcs[t].Carrying? {
      MigrationRefines(s, t, a);
    } else {
      QuietRefines(s, t, a);
    }
  }

  /** A stale call keeps the invariant too.  It changes nothing any later call will see in the
      map, and answers from what earlier stale calls left behind. */
  lemma StaleStep<V>(s: State<V>, t: Tid, a: Action<V>)
    requires Inv(s) && t < |s.pcs| && StaleCall(s, t)
    ensures var s' := Next(s, t, a).value;
      && Inv(s') && Contents(s') == Contents(s)
      && |s'.pcs| == |s.pcs|
      && (forall u :: 0 <= u < |s.pcs| && u != t ==> s'.pcs[u] == s.pcs[u])
      && SpecOf(s'.pcs[t]) == Returned(Apply(s.pcs[t].op, s.global).1)
  {
    var s' := Next(s, t, a).value;
    StepLock(s, t, a);
    StepPcs(s, t, a);
    assert s.holder == Some(t) by { assert s.pcs[t].Holds(); }
    forall u | 0 <= u < |s'.pcs|
      ensures PcInv(s', s'.pcs[u])
    {
      assert PcInv(s, s.pcs[u]) && (s.pcs[u].Holds() ==> u == t);
    }
  }

  /** `op`, answered from the map `left`, has the answer it would have on `m`, and leaves `m` as it is. */
  ghost predicate Unseen<V>(op: Op<V>, left: map<Key, V>, m: map<Key, V>) {
    Apply(op, m) == (m, Apply(op, left).1)
  }

  /** The same, key by key: an insert of a binding that is there, a get that reads the right
      binding, a removal that finds nothing where there is nothing. */
  ghost predicate Harmless<V>(op: Op<V>, left: map<Key, V>, m: map<Key, V>) {
    match op
    case Insert(k, v) => Lookup(m, k) == Some(v)
    case Get(k) => Lookup(left, k) == Lookup(m, k)
    case Remove(k) => k !in left && k !in m
  }

  lemma UnseenIff<V>(op: Op<V>, left: map<Key, V>, m: map<Key, V>)
    ensures Unseen(op, left, m) <==> Harmless(op, left, m)
  {
    if op.Insert? {
      assert Lookup(m[op.key := op.value], op.key) == Some(op.value);
      assert Lookup(m, op.key) == Some(op.value) ==> m[op.key := op.value] == m;
    } else if op.Remove? {
      assert op.key !in m - {op.key};
      assert op.key !in m ==> m - {op.key} == m;
    }
  }

  /** A stale call, taking effect at that step, is a step of the atomic map if and only if it is harmless. */
  lemma StaleRefinesIff<V>(s: State<V>, t: Tid, a: Action<V>)
    requires Inv(s) && t < |s.pcs| && StaleCall(s, t)
    ensures var s' := Next(s, t, a).value;
      SpecStep(Contents(s), SpecOf(s.pcs[t]), Contents(s'), SpecOf(s'.pcs[t]))
      <==> Harmless(s.pcs[t].op, s.global, Contents(s))
  {
    StaleStep(s, t, a);
    UnseenIff(s.pcs[t].op, s.global, Contents(s));
  }

  // ----- Whole runs ----------------------------------------------------------------

  /** A stretch of an execution: `acts[i]` takes `ss[i]` to `ss[i + 1]`. */
  ghost predicate Walk<V>(ss: seq<State<V>>, acts: seq<(Tid, Action<V>)>) {
    && |ss| == |acts| + 1
    && forall i :: 0 <= i < |acts| ==>
        && |ss[i].shards| == SHARD_COUNT && acts[i].0 < |ss[i].pcs|
        && Next(ss[i], acts[i].0, acts[i].1) == Some(ss[i + 1])
  }

  /** Step `i` of a run is a step of the atomic map by thread `acts[i].0`; the others rest. */
  ghost predicate SpecStepAt<V>(ss: seq<State<V>>, acts: seq<(Tid, Action<V>)>, i: nat)
    requires |ss| == |acts| + 1 && i < |acts|
  {
    var s, s', t := ss[i], ss[i + 1], acts[i].0;
    && t < |s.pcs| == |s'.pcs|
    && (forall u :: 0 <= u < |s.pcs| && u != t ==> SpecOf(s'.pcs[u]) == SpecOf(s.pcs[u]))
    && SpecStep(Contents(s), SpecOf(s.pcs[t]), Contents(s'), SpecOf(s'.pcs[t]))
  }

  lemma WalkStep<V>(ss: seq<State<V>>, acts: seq<(Tid, Action<V>)>, i: nat)
    requires Walk(ss, acts) && i < |acts| && Inv(ss[i])
    ensures Inv(ss[i + 1]) && |ss[i + 1].pcs| == |ss[i].pcs|
    ensures forall u :: 0 <= u < |ss[i].pcs| && u != acts[i].0 ==> ss[i + 1].pcs[u] == ss[i].pcs[u]
    ensures !StaleCall(ss[i], acts[i].0) ==> SpecStepAt(ss, acts, i) && (Clean(ss[i]) ==> Clean(ss[i + 1]))
  {
    assert Next(ss[i], acts[i].0, acts[i].1) == Some(ss[i + 1]);
    if StaleCall(ss[i], acts[i].0) {
      StaleStep(ss[i], acts[i].0, acts[i].1);
    } else {
      StepRefines(ss[i], acts[i].0, acts[i].1);
    }
  }

  /** The invariant holds throughout every run, stale calls included. */
  lemma {:induction false} WalkInv<V>(ss: seq<State<V>>, acts: seq<(Tid, Action<V>)>, n: nat)
    requires Walk(ss, acts) && Inv(ss[0]) && n < |ss|
    ensures Inv(ss[n]) && |ss[n].pcs| == |ss[0].pcs|
  {
    if n > 0 {
      WalkInv(ss, acts, n - 1);
      WalkStep(ss, acts, n - 1);
    }
  }

  lemma {:induction false} WalkClean<V>(ss: seq<State<V>>, acts: seq<(Tid, Action<V>)>, n: nat)
    requires Walk(ss, acts) && Inv(ss[0]) && Clean(ss[0]) && n < |ss|
    requires forall i :: 0 <= i < |acts| ==> !StaleCall(ss[i], acts[i].0)
    ensures Clean(ss[n])
  {
    if n > 0 {
      WalkClean(ss, acts, n - 1);
      WalkInv(ss, acts, n - 1);
      WalkStep(ss, acts, n - 1);
    }
  }

  /** In every interleaving of every set of threads, each reachable state is well formed, and each
      step except a stale call is a step of one atomic map, starting empty.  Without stale
      calls, nothing is left in the global map. */
  lemma {:induction false} RunRefines<V>(threads: nat, ss: seq<State<V>>, acts: seq<(Tid, Action<V>)>)
    requires Walk(ss, acts) && ss[0] == Init(threads)
    ensures Contents(ss[0]) == map[]
    ensures forall i :: 0 <= i < |ss| ==> Inv(ss[i])
    ensures forall i :: 0 <= i < |acts| ==> SpecStepAt(ss, acts, i) || StaleCall(ss[i], acts[i].0)
    ensures (forall i :: 0 <= i < |acts| ==> !StaleCall(ss[i], acts[i].0)) ==> forall i :: 0 <= i < |ss| ==> Clean(ss[i])
  {
    InitInv<V>(threads);
    forall i | 0 <= i < |ss|
      ensures Inv(ss[i])
    {
      WalkInv(ss, acts, i);
    }
    forall i | 0 <= i < |acts|
      ensures SpecStepAt(ss, acts, i) || StaleCall(ss[i], acts[i].0)
    {
      WalkStep(ss, acts, i);
    }
    if forall i :: 0 <= i < |acts| ==> !StaleCall(ss[i], acts[i].0) {
      forall i | 0 <= i < |ss|
        ensures Clean(ss[i])
      {
        WalkClean(ss, acts, i);
      }
    }
  }

  // ----- Snapshots --------------------------------------------------------------------

  /** What the stretch has shown so far about a snapshot being taken by thread `u`. */
  ghost predicate SeenSometime<V>(ss: seq<State<V>>, acc: map<Key, V>, k: Key) {
    exists j :: 0 <= j < |ss| && Lookup(acc, k) == Lookup(Contents(ss[j]), k)
  }

  ghost predicate Regular<V>(ss: seq<State<V>>, acc: map<Key, V>) {
    forall k :: SeenSometime(ss, acc, k)
  }

  ghost predicate MissingSometime<V>(ss: seq<State<V>>, k: Key) {
    exists j :: 0 <= j < |ss| && k !in Contents(ss[j])
  }

  ghost predicate SnapOk<V>(ss: seq<State<V>>, pc: Pc<V>) {
    match pc
    case SnapShards(n, acc) =>
      forall k :: if ShardIdx(k) < n then SeenSometime(ss, acc, k) else k !in acc
    case SnapDone(acc) => Regular(ss, acc)
    case _ => pc.SnapStart? || pc.SnapWait? || pc.SnapGlobal?
  }

  /** The whole stretch is one snapshot by thread `u`. */
  ghost predicate Snapshotting<V>(ss: seq<State<V>>, acts: seq<(Tid, Action<V>)>, u: Tid) {
    && Walk(ss, acts) && Inv(ss[0]) && u < |ss[0].pcs| && ss[0].pcs[u].SnapStart?
    && forall i :: 0 <= i < |ss| ==> u < |ss[i].pcs| && SpecOf(ss[i].pcs[u]).Listing?
  }

  /** A snapshot is not atomic, but unless it is stale itself, every key it lists (or omits) was
      bound (or absent) like that at some moment while it ran, whatever stale calls run beside it. */
  lemma {:induction false} SnapshotRegular<V>(ss: seq<State<V>>, acts: seq<(Tid, Action<V>)>, u: Tid)
    requires Snapshotting(ss, acts, u)
    requires forall i :: 0 <= i < |acts| && acts[i].0 == u ==> !StaleSnapshot(ss[i], u)
    ensures SnapOk(ss, ss[|ss| - 1].pcs[u])
  {
    var n := 0;
    while n < |acts|
      invariant 0 <= n <= |acts|
      invariant SnapOk(ss[..n + 1], ss[n].pcs[u])
    {
      WalkInv(ss, acts, n);
      SnapStep(ss, acts, u, n);
      n := n + 1;
    }
    assert ss[..n + 1] == ss;
  }

  lemma StillSeen<V>(ss: seq<State<V>>, n: nat, acc: map<Key, V>, k: Key)
    requires n + 1 < |ss| && SeenSometime(ss[..n + 1], acc, k)
    ensures SeenSometime(ss[..n + 2], acc, k)
  {
    var j :| 0 <= j < n + 1 && Lookup(acc, k) == Lookup(Contents(ss[..n + 1][j]), k);
    assert ss[..n + 2][j] == ss[..n + 1][j];
  }

  lemma SeenNow<V>(ss: seq<State<V>>, n: nat, acc: map<Key, V>, k: Key)
    requires n + 1 < |ss| && Lookup(acc, k) == Lookup(Contents(ss[n]), k)
    ensures SeenSometime(ss[..n + 2], acc, k)
  {
    assert ss[..n + 2][n] == ss[n];
  }

  /** The snapshot reads one shard. */
  lemma ReadShard<V>(ss: seq<State<V>>, n: nat, m: nat, acc: map<Key, V>, k: Key)
    requires n + 1 < |ss| && Inv(ss[n]) && ss[n].sharded && m < SHARD_COUNT
    requires if ShardIdx(k) < m then SeenSometime(ss[..n + 1], acc, k) else k !in acc
    ensures var acc' := acc + ss[n].shards[m];
      if ShardIdx(k) < m + 1 then SeenSometime(ss[..n + 2], acc', k) else k !in acc'
  {
    var acc' := acc + ss[n].shards[m];
    UnionLookup(ss[n].shards, k);
    if ShardIdx(k) == m {
      SeenNow(ss, n, acc', k);
    } else if ShardIdx(k) < m {
      StillSeen(ss, n, acc, k);
      assert Lookup(acc', k) == Lookup(acc, k);
    }
  }

  /** The next point of a snapshot that has not returned. */
  ghost function SnapNext<V>(s: State<V>, pc: Pc<V>): Pc<V>
    requires |s.shards| == SHARD_COUNT && SpecOf(pc).Listing? && !pc.SnapDone?
  {
    match pc
    case SnapShards(n, acc) => if n < SHARD_COUNT then SnapShards(n + 1, acc + s.shards[n]) else SnapDone(acc)
    case SnapGlobal => SnapDone(s.global)
    case SnapWait => SnapGlobal
    case _ => if s.sharded then SnapShards(0, map[]) else SnapWait
  }

  lemma SnapMoves<V>(s: State<V>, u: Tid, a: Action<V>)
    requires |s.shards| == SHARD_COUNT && u < |s.pcs| && SpecOf(s.pcs[u]).Listing? && Next(s, u, a).Some?
    ensures var s' := Next(s, u, a).value;
      |s'.pcs| == |s.pcs| && s'.pcs[u] == if s.pcs[u].SnapDone? then Idle else SnapNext(s, s.pcs[u])
  {}

  /** The snapshot's own steps. */
  lemma SnapOwn<V>(ss: seq<State<V>>, n: nat, pc: Pc<V>)
    requires n + 1 < |ss| && Inv(ss[n]) && SpecOf(pc).Listing? && !pc.SnapDone? && PcInv(ss[n], pc)
    requires pc.SnapGlobal? ==> Contents(ss[n]) == ss[n].global
    requires SnapOk(ss[..n + 1], pc)
    ensures SnapOk(ss[..n + 2], SnapNext(ss[n], pc))
  {
    var s, later := ss[n], ss[..n + 2];
    if pc.SnapShards? && pc.next < SHARD_COUNT {
      var m, acc := pc.next + 1, pc.acc + s.shards[pc.next];
      forall k
        ensures if ShardIdx(k) < m then SeenSometime(later, acc, k) else k !in acc
      {
        ReadShard(ss, n, pc.next, pc.acc, k);
      }
    } else if pc.SnapGlobal? {
      forall k
        ensures SeenSometime(later, s.global, k)
      {
        SeenNow(ss, n, s.global, k);
      }
    } else if pc.SnapShards? {
      StillOk(ss, n, pc);
    }
  }

  lemma StillOk<V>(ss: seq<State<V>>, n: nat, pc: Pc<V>)
    requires n + 1 < |ss| && SnapOk(ss[..n + 1], pc)
    ensures SnapOk(ss[..n + 2], pc)
  {
    if pc.SnapShards? || pc.SnapDone? {
      var earlier, later := ss[..n + 1], ss[..n + 2];
      forall k | SeenSometime(earlier, pc.acc, k)
        ensures SeenSometime(later, pc.acc, k)
      {
        StillSeen(ss, n, pc.acc, k);
      }
    }
  }

  lemma GlobalIsContents<V>(s: State<V>, u: Tid)
    requires Inv(s) && u < |s.pcs| && s.pcs[u].SnapGlobal? && !s.sharded
    ensures Contents(s) == s.global
  {
    assert s.holder == Some(u) by { assert s.pcs[u].Holds(); }
    UnionEmpty(s.shards);
  }

  lemma SnapStep<V>(ss: seq<State<V>>, acts: seq<(Tid, Action<V>)>, u: Tid, n: nat)
    requires Walk(ss, acts) && n < |acts| && Inv(ss[n])
    requires u < |ss[n].pcs| && u < |ss[n + 1].pcs|
    requires SpecOf(ss[n].pcs[u]).Listing? && SpecOf(ss[n + 1].pcs[u]).Listing?
    requires acts[n].0 == u ==> !StaleSnapshot(ss[n], u)
    requires SnapOk(ss[..n + 1], ss[n].pcs[u])
    ensures SnapOk(ss[..n + 2], ss[n + 1].pcs[u])
  {
    if acts[n].0 == u {
      assert Next(ss[n], u, acts[n].1) == Some(ss[n + 1]);
      SnapMoves(ss[n], u, acts[n].1);
      assert PcInv(ss[n], ss[n].pcs[u]);
      if ss[n].pcs[u].SnapGlobal? { GlobalIsContents(ss[n], u); }
      SnapOwn(ss, n, ss[n].pcs[u]);
    } else {
      WalkStep(ss, acts, n);
      StillOk(ss, n, ss[n].pcs[u]);
    }
  }

  /** A snapshot taken while the map does not change is the map. */
  lemma QuiescentSnapshot<V>(ss: seq<State<V>>, acts: seq<(Tid, Action<V>)>, u: Tid, m: map<Key, V>)
    requires Snapshotting(ss, acts, u) && ss[|ss| - 1].pcs[u].SnapDone?
    requires forall i :: 0 <= i < |acts| && acts[i].0 == u ==> !StaleSnapshot(ss[i], u)
    requires forall i :: 0 <= i < |ss| ==> Contents(ss[i]) == m
    ensures ss[|ss| - 1].pcs[u].acc == m
  {
    SnapshotRegular(ss, acts, u);
    var acc := ss[|ss| - 1].pcs[u].acc;
    forall k
      ensures Lookup(acc, k) == Lookup(m, k)
    {
      assert SeenSometime(ss, acc, k);
    }
    MapEq(acc, m);
  }

  /** A stale snapshot lists what stale calls left behind.  It is regular if and only if each key
      was, at some moment while it ran, bound in the map as it is among the leftovers. */
  lemma StaleSnapshotIff<V>(ss: seq<State<V>>, acts: seq<(Tid, Action<V>)>, u: Tid)
    requires Snapshotting(ss, acts, u) && acts != []
    requires var n := |acts| - 1; acts[n].0 == u && StaleSnapshot(ss[n], u)
    ensures var n := |acts| - 1; ss[n + 1].pcs[u] == SnapDone(ss[n].global)
    ensures SnapOk(ss, ss[|ss| - 1].pcs[u]) <==> Regular(ss, ss[|acts| - 1].global)
    ensures Clean(ss[|acts| - 1]) ==>
      (SnapOk(ss, ss[|ss| - 1].pcs[u]) <==> forall k: Key :: MissingSometime(ss, k))
  {
    var n := |acts| - 1;
    assert Next(ss[n], u, acts[n].1) == Some(ss[n + 1]);
    if Clean(ss[n]) {
      forall k: Key
        ensures SeenSometime(ss, map[], k) <==> MissingSometime(ss, k)
      {
        MissedIff(ss, k);
      }
    }
  }

  lemma MissedIff<V>(ss: seq<State<V>>, k: Key)
    ensures SeenSometime(ss, map[], k) <==> MissingSometime(ss, k)
  {
    if SeenSometime(ss, map[], k) {
      var j :| 0 <= j < |ss| && Lookup<V>(map[], k) == Lookup(Contents(ss[j]), k);
      assert k !in Contents(ss[j]);
    }
    if MissingSometime(ss, k) {
      var j :| 0 <= j < |ss| && k !in Contents(ss[j]);
      assert Lookup<V>(map[], k) == Lookup(Contents(ss[j]), k);
    }
  }
}
