/** kernel/src/intel_storage.rs: what an access is worth, and the order of paths. */
module StorageLaws {
  import opened Bits
  import opened Prelude
  import opened IntelStorage

  /** One access outweighs a thousand seconds: of two files that are still recent, the one with `d`
      more accesses that is `age` seconds older is hotter exactly when 1000 * d is above `age`. */
  lemma {:induction false} AccessWorth(f: FileScore, g: FileScore, now: nat, d: nat, age: nat)
    requires f.accessCount == g.accessCount + d && f.lastAccess + 1000 * age == g.lastAccess <= now
    requires now < f.lastAccess + 1000 * DECAY && f.accessCount * 1000 + DECAY < U64
    ensures Score(f, now) > Score(g, now) <==> 1000 * d > age
  {
    Older(now, g.lastAccess, age);
    assert g.accessCount * 1000 <= f.accessCount * 1000;
    assert Recency(g, now) == Recency(f, now) + age;
  }

  lemma {:induction false} Older(now: nat, last: nat, age: nat)
    requires last <= now && 1000 * age <= last
    ensures (now - (last - 1000 * age)) / 1000 == (now - last) / 1000 + age
  {}

  /** Paths are compared at their first difference; a proper prefix comes first. */
  lemma {:induction false} FirstDifference(p: string, a: string, b: string)
    requires a != [] && (b == [] || a[0] != b[0])
    ensures Less(p + a, p + b) <==> b != [] && a[0] < b[0]
    ensures b == [] ==> Less(p + b, p + a)
  {
    if p == [] {
      assert p + a == a && p + b == b;
    } else {
      FirstDifference(p[1..], a, b);
      assert (p + a)[1..] == p[1..] + a && (p + b)[1..] == p[1..] + b;
    }
  }

  /** A run is its length, then its byte. */
  lemma {:induction false} OneRun(n: byte, b: byte)
    requires n > 0
    ensures Canonical([n, b]) && |Decode([n, b])| == n && forall i :: 0 <= i < n ==> Decode([n, b])[i] == b
  {
    var enc: seq<byte> := [n, b];
    assert enc[2..] == [];
    assert Decode(enc) == Repeat(b, n) + [];
  }
}
