/** kernel/src/hot_lock.rs: the hash that chooses a key's shard, and maps spread over shards. */
module HotShards {
  import opened Bits
  import opened Prelude

  /** `AsRef<[u8]>`: all the map ever looks at in a key. */
  type Key = seq<byte>

  const SHARD_COUNT: nat := 8
  const SPLIT_THRESHOLD: nat := 1000
  const FNV_OFFSET: nat := 0xcbf29ce484222325
  const FNV_PRIME: nat := 0x100000001b3

  // ----- Hashing ---------------------------------------------------------------

  /** `hash ^= b; hash = hash.wrapping_mul(PRIME)` */
  function FnvStep(hash: nat, b: byte): (r: nat)
    ensures r < U64
  {
    Xor(hash, b) * FNV_PRIME % U64
  }

  function Fnv(key: Key): nat {
    if key == [] then FNV_OFFSET else FnvStep(Fnv(key[..|key| - 1]), key[|key| - 1])
  }

  function ShardIdx(key: Key): (i: nat)
    ensures i < SHARD_COUNT
  {
    Fnv(key) % SHARD_COUNT
  }

  method ComputeShardIdx(key: Key) returns (idx: nat)
    ensures idx == ShardIdx(key)
  {
    var hash := FNV_OFFSET;
    for i := 0 to |key|
      invariant hash == Fnv(key[..i])
    {
      assert key[..i + 1][..i] == key[..i];
      hash := FnvStep(hash, key[i]);
    }
    assert key[..|key|] == key;
    idx := hash % SHARD_COUNT;
  }

  /** The shard as an automaton with eight states over the low three bits of each byte. */
  function Low3(key: Key): (r: nat)
    ensures r < 8
  {
    if key == [] then 5 else
      Xor(Low3(key[..|key| - 1]), key[|key| - 1] % 8) * 3 % 8
  }

  lemma ModShift(a: int, b: int)
    ensures (8 * a + b) % 8 == b % 8
  {}

  lemma MulLow3(q: nat, r: nat)
    requires r < 8
    ensures (8 * q + r) * FNV_PRIME % U64 % 8 == r * 3 % 8
  {
    var n := (8 * q + r) * FNV_PRIME;
    assert n == 8 * (q * FNV_PRIME + r * 137438953526) + r * 3;
    ModShift(q * FNV_PRIME + r * 137438953526, r * 3);
    ModShift(n / U64 * (U64 / 8), n % U64);
  }

  lemma FnvStepLow3(h: nat, b: byte)
    ensures FnvStep(h, b) % 8 == Xor(h % 8, b % 8) * 3 % 8
  {
    var hq, hr, bq, br := h / 8, h % 8, b / 8, b % 8;
    XorLow3(hq, bq, hr, br);
    MulLow3(Xor(hq, bq), Xor(hr, br));
    assert 8 * hq + hr == h && 8 * bq + br == b;
  }

  /** Only the low three bits of each key byte choose the shard: the 64-bit FNV-1a
      loop is an eight-state automaton, so keys that agree on those bits always collide. */
  lemma {:induction false} ShardUsesLowBits(key: Key)
    ensures ShardIdx(key) == Low3(key)
  {
    if key != [] {
      var p, b := key[..|key| - 1], key[|key| - 1];
      ShardUsesLowBits(p);
      var h := Fnv(p);
      FnvStepLow3(h, b);
    }
  }

  // ----- Maps and operations ---------------------------------------------------

  ghost function Lookup<V>(m: map<Key, V>, k: Key): Option<V> {
    if k in m then Some(m[k]) else None
  }

  datatype Op<V> = Insert(key: Key, value: V) | Get(key: Key) | Remove(key: Key)

  /** What one operation does to one ordered map, and what it returns. */
  ghost function Apply<V>(op: Op<V>, m: map<Key, V>): (map<Key, V>, Option<V>) {
    match op
    case Insert(k, v) => (m[k := v], None)
    case Get(k) => (m, Lookup(m, k))
    case Remove(k) => (m - {k}, Lookup(m, k))
  }

  /** The loop of `snapshot`: later shards are inserted over earlier ones. */
  ghost function Union<V>(shards: seq<map<Key, V>>): map<Key, V> {
    if shards == [] then map[] else Union(shards[..|shards| - 1]) + shards[|shards| - 1]
  }

  /** A key only ever sits in its own hash shard. */
  ghost predicate Home<V>(shards: seq<map<Key, V>>) {
    forall i, k :: 0 <= i < |shards| && k in shards[i] ==> ShardIdx(k) == i
  }

  ghost function InShard<V>(shards: seq<map<Key, V>>, k: Key): Option<V> {
    if ShardIdx(k) < |shards| then Lookup(shards[ShardIdx(k)], k) else None
  }

  lemma {:induction false} UnionLookup<V>(shards: seq<map<Key, V>>, k: Key)
    requires Home(shards)
    ensures Lookup(Union(shards), k) == InShard(shards, k)
  {
    if shards != [] {
      var n := |shards| - 1;
      UnionLookup(shards[..n], k);
    }
  }

  lemma MapEq<V>(a: map<Key, V>, b: map<Key, V>)
    requires forall k :: Lookup(a, k) == Lookup(b, k)
    ensures a == b
  {
    forall k
      ensures k in a <==> k in b
      ensures k in a ==> a[k] == b[k]
    {
      assert Lookup(a, k) == Lookup(b, k);
    }
  }

  ghost predicate Empty<V>(shards: seq<map<Key, V>>) {
    forall i :: 0 <= i < |shards| ==> shards[i] == map[]
  }

  ghost predicate Disjoint<V>(global: map<Key, V>, shards: seq<map<Key, V>>) {
    forall i, k :: 0 <= i < |shards| && k in shards[i] ==> k !in global
  }

  /** `Union` after one shard changed at keys that belong to it. */
  lemma ShardUpdate<V>(shards: seq<map<Key, V>>, i: nat, m: map<Key, V>, k: Key)
    requires Home(shards) && i < |shards| && Home(shards[i := m])
    ensures Lookup(Union(shards[i := m]), k) == if ShardIdx(k) == i then Lookup(m, k) else Lookup(Union(shards), k)
  {
    UnionLookup(shards, k);
    UnionLookup(shards[i := m], k);
  }

  lemma UnionEmpty<V>(shards: seq<map<Key, V>>)
    requires Empty(shards)
    ensures Union(shards) == map[]
  {
    forall k
      ensures Lookup(Union(shards), k) == None
    {
      UnionLookup(shards, k);
    }
    MapEq(Union(shards), map[]);
  }

  /** One sharded write is the same write on the union. */
  lemma ShardWrite<V>(shards: seq<map<Key, V>>, op: Op<V>)
    requires |shards| == SHARD_COUNT && Home(shards)
    ensures var i := ShardIdx(op.key);
      var after := shards[i := Apply(op, shards[i]).0];
      Home(after) && Union(after) == Apply(op, Union(shards)).0
  {
    var i := ShardIdx(op.key);
    var after := shards[i := Apply(op, shards[i]).0];
    assert Home(after);
    forall k
      ensures Lookup(Union(after), k) == Lookup(Apply(op, Union(shards)).0, k)
    {
      ShardUpdate(shards, i, Apply(op, shards[i]).0, k);
      UnionLookup(shards, k);
    }
    MapEq(Union(after), Apply(op, Union(shards)).0);
  }

  /** Moving one binding to its shard conserves the union of everything. */
  lemma MoveOne<V>(global: map<Key, V>, shards: seq<map<Key, V>>, k: Key)
    requires |shards| == SHARD_COUNT && Home(shards) && Disjoint(global, shards) && k in global
    ensures var i := ShardIdx(k);
      var after := shards[i := shards[i][k := global[k]]];
      && Home(after) && Disjoint(global - {k}, after)
      && global - {k} + Union(after) == global + Union(shards)
  {
    var i := ShardIdx(k);
    var after := shards[i := shards[i][k := global[k]]];
    assert Home(after);
    forall k'
      ensures Lookup(global - {k} + Union(after), k') == Lookup(global + Union(shards), k')
    {
      ShardUpdate(shards, i, shards[i][k := global[k]], k');
      UnionLookup(shards, k');
    }
    MapEq(global - {k} + Union(after), global + Union(shards));
  }
}
