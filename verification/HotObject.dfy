/** kernel/src/hot_lock.rs: the self-sharding map as the object it is, run by one thread, with its
    migration loop. */
module HotObject {
  import opened Bits
  import opened Prelude
  import opened HotShards

  /** `HotMap` as one thread runs it.  Whether `try_lock` found the lock taken is the
      parameter `busy`; everything else is the code. */
  class HotMap<V(==)> {
    var global: map<Key, V>
    var shards: seq<map<Key, V>>
    var sharded: bool
    var contention: nat

    ghost predicate Valid()
      reads this
    {
      && |shards| == SHARD_COUNT && Home(shards)
      && (if sharded then global == map[] else Empty(shards))
    }

    /** The map the object stands for. */
    ghost function View(): map<Key, V>
      reads this
    {
      if sharded then Union(shards) else global
    }

    constructor ()
      ensures Valid() && View() == map[] && !sharded && contention == 0
    {
      global, shards, sharded, contention := map[], seq(SHARD_COUNT, i => map[]), false, 0;
    }

    method Insert(k: Key, v: V, busy: bool)
      requires Valid()
      modifies this
      ensures Valid() && View() == old(View())[k := v]
      ensures contention == if !old(sharded) && busy then Inc64(old(contention)) else old(contention)
      ensures sharded <==> old(sharded) || (busy && contention > SPLIT_THRESHOLD)
    {
      if sharded {
        var idx := ComputeShardIdx(k);
        ghost var before := shards;
        shards := shards[idx := shards[idx][k := v]];
        ShardWrite(before, Op.Insert(k, v));
      } else {
        if busy { contention := Inc64(contention); }
        global := global[k := v];
        if busy { CheckSplit(); }
      }
    }

    method Get(k: Key, busy: bool) returns (r: Option<V>)
      requires Valid()
      modifies this
      ensures Valid() && View() == old(View()) && r == Lookup(old(View()), k)
      ensures contention == if !old(sharded) && busy then Inc64(old(contention)) else old(contention)
      ensures sharded <==> old(sharded) || (busy && contention > SPLIT_THRESHOLD)
    {
      if sharded {
        var idx := ComputeShardIdx(k);
        UnionLookup(shards, k);
        r := if k in shards[idx] then Some(shards[idx][k]) else None;
      } else {
        if busy { contention := Inc64(contention); }
        r := if k in global then Some(global[k]) else None;
        if busy { CheckSplit(); }
      }
    }

    method Remove(k: Key, busy: bool) returns (r: Option<V>)
      requires Valid()
      modifies this
      ensures Valid() && View() == old(View()) - {k} && r == Lookup(old(View()), k)
      ensures contention == if !old(sharded) && busy then Inc64(old(contention)) else old(contention)
      ensures sharded <==> old(sharded) || (busy && contention > SPLIT_THRESHOLD)
    {
      if sharded {
        var idx := ComputeShardIdx(k);
        UnionLookup(shards, k);
        r := if k in shards[idx] then Some(shards[idx][k]) else None;
        ghost var before := shards;
        shards := shards[idx := shards[idx] - {k}];
        ShardWrite(before, Op.Remove(k));
      } else {
        if busy { contention := Inc64(contention); }
        r := if k in global then Some(global[k]) else None;
        global := global - {k};
        if busy { CheckSplit(); }
      }
    }

    method Snapshot() returns (m: map<Key, V>)
      requires Valid()
      ensures m == View()
    {
      if sharded {
        m := map[];
        for i := 0 to SHARD_COUNT
          invariant m == Union(shards[..i])
        {
          assert shards[..i + 1][..i] == shards[..i];
          m := m + shards[i];
        }
        assert shards[..SHARD_COUNT] == shards;
      } else {
        m := global;
      }
    }

    /** The migration: the split happens exactly above the threshold, conserves every binding
        and leaves the global map empty.  A map that is already split is left alone. */
    method CheckSplit()
      requires Valid()
      modifies `global, `shards, `sharded
      ensures Valid() && View() == old(View())
      ensures sharded <==> old(sharded) || contention > SPLIT_THRESHOLD
    {
      if contention <= SPLIT_THRESHOLD || sharded { return; }
      UnionEmpty(shards);
      while global != map[]
        invariant |shards| == SHARD_COUNT && Home(shards) && Disjoint(global, shards)
        invariant global + Union(shards) == old(global)
        invariant !sharded
        decreases global.Keys
      {
        assert global.Keys != {};
        var k :| k in global.Keys;
        var idx := ComputeShardIdx(k);
        ghost var before := shards;
        shards := shards[idx := shards[idx][k := global[k]]];
        MoveOne(global, before, k);
        global := global - {k};
      }
      sharded := true;
    }
  }
}
