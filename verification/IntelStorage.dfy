/** kernel/src/intel_storage.rs: run-length compression, and the tier every tracked file is
    moved to by its heat. */
module IntelStorage {
  import opened Bits
  import opened Prelude
  import opened Ranking

  // ----- Run-length encoding ------------------------------------------------------------------

  const MAX_RUN: nat := 255

  ghost function Repeat(b: byte, n: nat): (r: seq<byte>)
    ensures |r| == n && forall i :: 0 <= i < n ==> r[i] == b
  {
    seq(n, _ => b)
  }

  /** The meaning of a list of (run, byte) pairs. */
  ghost function Decode(enc: seq<byte>): seq<byte> {
    if |enc| < 2 then [] else Repeat(enc[1], enc[0]) + Decode(enc[2..])
  }

  /** Pairs whose runs are not empty and as long as they can be: a run stops before a different
      byte or at 255. */
  ghost predicate Canonical(enc: seq<byte>) {
    |enc| % 2 == 0 && (enc != [] ==>
      && enc[0] > 0
      && (|enc| > 2 && enc[0] < MAX_RUN ==> enc[1] != enc[3])
      && Canonical(enc[2..]))
  }

  lemma {:induction false} DecodeLength(enc: seq<byte>)
    requires Canonical(enc)
    ensures |enc| <= 2 * |Decode(enc)| && (enc != [] ==> |Decode(enc)| > 0 && Decode(enc)[0] == enc[1])
  {
    if enc != [] { DecodeLength(enc[2..]); }
  }

  lemma {:induction false} RunEnds(enc: seq<byte>)
    requires Canonical(enc) && enc != []
    ensures enc[0] <= |Decode(enc)|
    ensures enc[0] == MAX_RUN || enc[0] == |Decode(enc)| || Decode(enc)[enc[0]] != enc[1]
  {
    DecodeLength(enc[2..]);
    if |enc| > 2 {
      assert Decode(enc)[enc[0]] == Decode(enc[2..])[0];
    }
  }

  /** The first run of a canonical encoding is as long as any run at the start of the data can be. */
  lemma {:induction false} FirstRunLongest(enc: seq<byte>, r: byte, b: byte, rest: seq<byte>)
    requires Canonical(enc) && r > 0 && Decode(enc) == Repeat(b, r) + rest
    ensures enc != [] && enc[1] == b && r <= enc[0] && Decode(enc[2..]) == (Repeat(b, r) + rest)[enc[0]..]
  {
    var data := Decode(enc);
    assert enc != [] by { assert |data| > 0; }
    assert data[0] == enc[1] == b;
    RunEnds(enc);
    assert Decode(enc[2..]) == data[enc[0]..];
  }

  /** A pair list without its first `k` decoded bytes: pairs are dropped or shortened. */
  ghost function Drop(enc: seq<byte>, k: nat): (r: seq<byte>)
    requires k <= |Decode(enc)|
    ensures |r| <= |enc|
  {
    if |enc| < 2 || k == 0 then enc
    else if k < enc[0] then [enc[0] - k] + enc[1..]
    else Drop(enc[2..], k - enc[0])
  }

  lemma {:induction false} DropDecodes(enc: seq<byte>, k: nat)
    requires k <= |Decode(enc)|
    ensures Decode(Drop(enc, k)) == Decode(enc)[k..]
  {
    if |enc| < 2 || k == 0 {
    } else if k < enc[0] {
      var d := Drop(enc, k);
      assert d[2..] == enc[2..];
      assert Repeat(enc[1], enc[0] - k) == Repeat(enc[1], enc[0])[k..];
    } else {
      DropDecodes(enc[2..], k - enc[0]);
      assert Decode(enc)[k..] == Decode(enc[2..])[k - enc[0]..];
    }
  }

  /** A canonical encoding is the shortest of all pair lists with its meaning. */
  lemma {:induction false} CanonicalShortest(enc: seq<byte>, other: seq<byte>)
    requires Canonical(enc) && Decode(other) == Decode(enc)
    ensures |enc| <= |other|
    decreases |other|, |enc|
  {
    if enc != [] {
      DecodeLength(enc);
      var r, b, rest := other[0], other[1], Decode(other[2..]);
      if r == 0 {
        assert Repeat(b, r) + rest == rest;
        CanonicalShortest(enc, other[2..]);
      } else {
        FirstRunLongest(enc, r, b, rest);
        var k := enc[0] - r;
        assert (Repeat(b, r) + rest)[enc[0]..] == rest[k..];
        DropDecodes(other[2..], k);
        CanonicalShortest(enc[2..], Drop(other[2..], k));
      }
    }
  }

  /** There is only one canonical encoding of any data. */
  lemma {:induction false} CanonicalUnique(a: seq<byte>, b: seq<byte>)
    requires Canonical(a) && Canonical(b) && Decode(a) == Decode(b)
    ensures a == b
  {
    DecodeLength(a);
    DecodeLength(b);
    if a != [] {
      FirstRunLongest(a, b[0], b[1], Decode(b[2..]));
      FirstRunLongest(b, a[0], a[1], Decode(a[2..]));
      CanonicalUnique(a[2..], b[2..]);
      assert a == [a[0], a[1]] + a[2..] && b == [b[0], b[1]] + b[2..];
    }
  }

  lemma {:induction false} CanonicalPush(out: seq<byte>, run: byte, b: byte)
    requires Canonical(out) && run > 0
    requires |out| >= 2 ==> out[|out| - 2] == MAX_RUN || out[|out| - 1] != b
    ensures Canonical(out + [run, b]) && Decode(out + [run, b]) == Decode(out) + Repeat(b, run)
  {
    var next := out + [run, b];
    if out == [] {
      assert next[2..] == [];
      assert Decode(next[2..]) == [];
    } else {
      CanonicalPush(out[2..], run, b);
      assert next[2..] == out[2..] + [run, b];
    }
  }

  /** The inner loop: the longest run from `i`, at most 255. */
  method RunAt(data: seq<byte>, i: nat) returns (run: byte)
    requires i < |data|
    ensures 1 <= run && i + run <= |data| && data[i..i + run] == Repeat(data[i], run)
    ensures run == MAX_RUN || i + run == |data| || data[i + run] != data[i]
  {
    run := 1;
    while i + run < |data| && data[i + run] == data[i] && run < 255
      invariant 1 <= run && i + run <= |data|
      invariant forall k :: i <= k < i + run ==> data[k] == data[i]
    {
      run := run + 1;
    }
  }

  /** `rle_compress`: the canonical encoding, which is unique, shortest and decodes to the data. */
  method RleCompress(data: seq<byte>) returns (out: seq<byte>)
    ensures Canonical(out) && Decode(out) == data && |out| <= 2 * |data|
  {
    out := [];
    var i := 0;
    while i < |data|
      invariant i <= |data| && Canonical(out) && Decode(out) == data[..i]
      invariant |out| >= 2 && i < |data| ==> out[|out| - 2] == MAX_RUN || out[|out| - 1] != data[i]
    {
      var run := RunAt(data, i);
      CanonicalPush(out, run, data[i]);
      assert data[..i] + data[i..i + run] == data[..i + run];
      out := out + [run, data[i]];
      i := i + run;
    }
    assert data[..i] == data;
    DecodeLength(out);
  }

  // ----- Heat -------------------------------------------------------------------------------------

  datatype Tier = Ram | Nvme | Sata | Cold
  {
    function Ordinal(): nat {
      match this
      case Ram => 0
      case Nvme => 1
      case Sata => 2
      case Cold => 3
    }
  }

  datatype FileScore = FileScore(accessCount: nat, lastAccess: nat, sizeBytes: nat, tier: Tier, compressed: bool)

  const DECAY: nat := 3_600_000

  function SatSub(a: nat, b: nat): nat { if a < b then 0 else a - b }

  function SatMul64(a: nat, b: nat): nat { if a * b < U64 then a * b else U64 - 1 }

  function Recency(f: FileScore, now: nat): (r: nat)
    ensures r <= DECAY
  {
    SatSub(DECAY, SatSub(now, f.lastAccess) / 1000)
  }

  /** The recency part is documented to decay over an hour.  It is gone exactly 3,600,000 seconds
      after the last access. */
  lemma {:induction false} RecencyGoneIff(f: FileScore, now: nat)
    ensures Recency(f, now) == 0 <==> now >= f.lastAccess + 1000 * DECAY
  {
  }

  /** An hour after an access a thousandth of it has decayed. */
  lemma {:induction false} AfterOneHour(f: FileScore)
    ensures Recency(f, f.lastAccess + 3_600_000) == 3_596_400
  {
  }

  /** `FileScore::score`; the last addition is a plain one and wraps in a release build. */
  function Score(f: FileScore, now: nat): nat {
    (SatMul64(f.accessCount, 1000) + Recency(f, now)) % U64
  }

  function Accessed(f: FileScore, n: nat): FileScore { f.(accessCount := n) }

  /** More accesses never cool a file down, exactly as long as the addition does not wrap: when
      it does, the file scores below the same file never accessed at all. */
  lemma {:induction false} ScoreMonotoneIff(f: FileScore, now: nat)
    ensures (forall n :: 0 <= n <= f.accessCount ==> Score(Accessed(f, n), now) <= Score(f, now))
        <==> SatMul64(f.accessCount, 1000) + Recency(f, now) < U64
  {
    assert Accessed(f, 0).lastAccess == f.lastAccess;
    if SatMul64(f.accessCount, 1000) + Recency(f, now) >= U64 {
      assert Score(Accessed(f, 0), now) == Recency(f, now) > Score(f, now);
    }
  }

  /** Just accessed for the 18446744073709551st time, a file is colder than one nobody ever used. */
  lemma {:induction false} HottestTurnsCold()
    ensures var f := FileScore(18446744073709551, 0, 0, Ram, false);
      Score(f, 0) < Score(Accessed(f, 0), 0)
  {
  }

  // ----- Tiers -------------------------------------------------------------------------------------

  /** Byte order of strings. */
  predicate Less(a: string, b: string) {
    b != [] && (a == [] || a[0] < b[0] || (a[0] == b[0] && Less(a[1..], b[1..])))
  }

  lemma {:induction false} LessTotal(a: string, b: string)
    ensures Less(a, b) || Less(b, a) || a == b
    ensures !(Less(a, b) && Less(b, a)) && !Less(a, a)
  {
    if a != [] && b != [] && a[0] == b[0] {
      LessTotal(a[1..], b[1..]);
      assert a == [a[0]] + a[1..] && b == [b[0]] + b[1..];
    }
    if a != [] { LessIrreflexive(a); }
  }

  lemma {:induction false} LessIrreflexive(a: string)
    ensures !Less(a, a)
  {
    if a != [] { LessIrreflexive(a[1..]); }
  }

  lemma {:induction false} LessTransitive(a: string, b: string, c: string)
    requires Less(a, b) && Less(b, c)
    ensures Less(a, c)
  {
    if a != [] && a[0] == b[0] == c[0] { LessTransitive(a[1..], b[1..], c[1..]); }
  }

  ghost predicate Alphabetical(s: seq<string>) { forall i, j :: 0 <= i < j < |s| ==> Less(s[i], s[j]) }

  /** The order the ordered map of files is iterated in. */
  method Paths(s: set<string>) returns (r: seq<string>)
    ensures Alphabetical(r) && NoDup(r) && Elems(r) == s
  {
    var left := s;
    r := [];
    while left != {}
      invariant left <= s && Alphabetical(r)
      invariant forall x :: x in r <==> x in s && x !in left
      invariant forall i, y :: 0 <= i < |r| && y in left ==> Less(r[i], y)
      decreases |left|
    {
      var m := FirstPath(left);
      r := r + [m];
      left := left - {m};
    }
    Irreflexive(r);
  }

  lemma {:induction false} Irreflexive(r: seq<string>)
    requires Alphabetical(r)
    ensures NoDup(r)
  {
    forall i, j | 0 <= i < j < |r|
      ensures r[i] != r[j]
    {
      LessIrreflexive(r[i]);
    }
  }

  method FirstPath(s: set<string>) returns (m: string)
    requires s != {}
    ensures m in s && forall x :: x in s && x != m ==> Less(m, x)
  {
    m :| m in s;
    var left := s - {m};
    while left != {}
      invariant left <= s && m in s
      invariant forall x :: x in s && x !in left && x != m ==> Less(m, x)
      decreases |left|
    {
      var x :| x in left;
      LessTotal(m, x);
      if Less(x, m) {
        forall y | y in s && y !in left && y != m
          ensures Less(x, y)
        {
          LessTransitive(x, m, y);
        }
        m := x;
      }
      left := left - {x};
    }
  }

  type Files = map<string, FileScore>

  /** `a` is placed before `b`: strictly hotter, or as hot and earlier in byte order. */
  ghost predicate Hotter(fs: Files, now: nat, a: string, b: string)
    requires a in fs && b in fs
  {
    Score(fs[a], now) > Score(fs[b], now) || (Score(fs[a], now) == Score(fs[b], now) && Less(a, b))
  }

  /** How many files are placed before `p`. */
  ghost function Place(fs: Files, now: nat, p: string): nat
    requires p in fs
  {
    |set q | q in fs && Hotter(fs, now, q, p)|
  }

  /** The tier of place `i` out of `n`. */
  function TierAt(i: nat, n: nat): Tier {
    if i < n / 10 then Ram else if i < n / 2 then Nvme else if i < n * 4 / 5 then Sata else Cold
  }

  /** The number of places in a tier or a faster one. */
  function UpTo(t: Tier, n: nat): nat {
    match t
    case Ram => n / 10
    case Nvme => n / 2
    case Sata => n * 4 / 5
    case Cold => n
  }

  lemma {:induction false} TierAtIff(i: nat, n: nat, t: Tier)
    requires i < n
    ensures TierAt(i, n).Ordinal() <= t.Ordinal() <==> i < UpTo(t, n)
    ensures UpTo(t, n) <= n
  {
  }

  /** Every file keeps everything but its tier, which is the tier of its place. */
  ghost predicate Rebalanced(was: Files, fs: Files, now: nat) {
    && fs.Keys == was.Keys
    && forall p :: p in was ==> fs[p] == was[p].(tier := TierAt(Place(was, now, p), |was|))
  }

  ghost predicate Sorted(fs: Files, now: nat, order: seq<string>) {
    && NoDup(order) && Elems(order) == fs.Keys
    && (forall i :: 0 <= i < |order| ==> order[i] in fs)
    && forall i, j :: 0 <= i < j < |order| ==> Hotter(fs, now, order[i], order[j])
  }

  lemma {:induction false} HotterOneWay(fs: Files, now: nat, a: string, b: string)
    requires a in fs && b in fs && Hotter(fs, now, a, b)
    ensures !Hotter(fs, now, b, a)
  {
    LessTotal(a, b);
  }

  /** In the sorted list of files place `i` is held by the file that has exactly `i` before it. */
  lemma {:induction false} PlaceOf(fs: Files, now: nat, order: seq<string>, i: nat)
    requires Sorted(fs, now, order) && i < |order|
    ensures Place(fs, now, order[i]) == i
  {
    var p := order[i];
    forall k | i <= k < |order|
      ensures !Hotter(fs, now, order[k], p)
    {
      if k == i { LessIrreflexive(p); } else { HotterOneWay(fs, now, p, order[k]); }
    }
    assert (set q | q in fs && Hotter(fs, now, q, p)) == Elems(order[..i]) by {
      forall q
        ensures q in fs && Hotter(fs, now, q, p) <==> q in order[..i]
      {
        if q in fs {
          assert q in Elems(order);
          var k :| 0 <= k < |order| && order[k] == q;
          assert k < i ==> order[..i][k] == q;
        }
      }
    }
    PrefixSize(order, i);
  }

  lemma {:induction false} SortedSize(fs: Files, now: nat, order: seq<string>)
    requires Sorted(fs, now, order)
    ensures |order| == |fs|
  {
    assert order[..|order|] == order;
    PrefixSize(order, |order|);
  }

  /** A strictly hotter file is never in a slower tier. */
  lemma {:induction false} HotterNeverSlower(was: Files, fs: Files, now: nat, a: string, b: string)
    requires Rebalanced(was, fs, now) && a in was && b in was && Score(was[a], now) > Score(was[b], now)
    ensures fs[a].tier.Ordinal() <= fs[b].tier.Ordinal()
  {
    var before := set q | q in was && Hotter(was, now, q, a);
    var before' := set q | q in was && Hotter(was, now, q, b);
    assert before <= before';
    SubsetSize(before, before');
  }

  lemma {:induction false} FastIff(was: Files, fs: Files, now: nat, order: seq<string>, t: Tier, p: string)
    requires Rebalanced(was, fs, now) && Sorted(was, now, order) && |order| == |was| && UpTo(t, |was|) <= |order|
    ensures p in fs && fs[p].tier.Ordinal() <= t.Ordinal() <==> p in order[..UpTo(t, |was|)]
  {
    var n := UpTo(t, |was|);
    if p in was {
      assert p in Elems(order);
      var i :| 0 <= i < |order| && order[i] == p;
      PlaceOf(was, now, order, i);
      TierAtIff(i, |was|, t);
      assert i < n ==> order[..n][i] == p;
    }
    assert forall k :: 0 <= k < n ==> order[..n][k] == order[k];
  }

  /** The tiers hold n/10, n/2 and 4n/5 files, counted from the fastest and rounded down. */
  lemma {:induction false} TierSizes(was: Files, fs: Files, now: nat, order: seq<string>, t: Tier)
    requires Rebalanced(was, fs, now) && Sorted(was, now, order)
    ensures |Within(fs, t)| == UpTo(t, |fs|)
  {
    SortedSize(was, now, order);
    assert |fs.Keys| == |was.Keys|;
    assert Within(fs, t) == Elems(order[..UpTo(t, |was|)]) by {
      forall p
        ensures p in Within(fs, t) <==> p in order[..UpTo(t, |was|)]
      {
        FastIff(was, fs, now, order, t, p);
      }
    }
    PrefixSize(order, UpTo(t, |was|));
  }

  /** The files in a tier or a faster one. */
  ghost function Within(fs: Files, t: Tier): set<string> {
    set p | p in fs && fs[p].tier.Ordinal() <= t.Ordinal()
  }

  /** Sorting the scores stably sorts the files. */
  lemma {:induction false} StableSort(fs: Files, now: nat, paths: seq<string>, ranks: seq<nat>, p: seq<nat>, order: seq<string>)
    requires Alphabetical(paths) && Elems(paths) == fs.Keys && |paths| == |ranks| == |p| == |order|
    requires forall i :: 0 <= i < |paths| ==> paths[i] in fs && ranks[i] == Score(fs[paths[i]], now)
    requires InRange(ranks, p) && InOrder(ranks, p) && forall y: nat :: y < |p| ==> y in p
    requires forall i :: 0 <= i < |p| ==> order[i] == paths[p[i]]
    ensures Sorted(fs, now, order)
  {
    forall i, j | 0 <= i < j < |order|
      ensures Hotter(fs, now, order[i], order[j]) && order[i] != order[j]
    {
      assert Ahead(ranks, p[i], p[j]);
      LessIrreflexive(order[i]);
    }
    forall q
      ensures q in order <==> q in fs
    {
      if q in fs {
        assert q in Elems(paths);
        var y :| 0 <= y < |paths| && paths[y] == q;
        assert y in p;
        var i :| 0 <= i < |p| && p[i] == y;
        assert order[i] == q;
      }
    }
  }

  class Store {
    var files: Files

    constructor ()
      ensures files == map[]
    {
      files := map[];
    }

    /** The scored and sorted list of paths. */
    method SortedPaths(now: nat) returns (order: seq<string>)
      ensures Sorted(files, now, order) && |order| == |files|
    {
      var paths := Paths(files.Keys);
      assert forall i :: 0 <= i < |paths| ==> paths[i] in Elems(paths);
      var fs := files;
      var ranks := seq(|paths|, i requires 0 <= i < |paths| && paths[i] in fs => Score(fs[paths[i]], now));
      var p := Order(ranks, |ranks|);
      order := seq(|p|, i requires 0 <= i < |p| && p[i] < |paths| => paths[p[i]]);
      StableSort(fs, now, paths, ranks, p, order);
      SortedSize(fs, now, order);
    }

    method Assign(order: seq<string>)
      requires NoDup(order) && Elems(order) == files.Keys
      modifies this
      ensures files.Keys == old(files).Keys
      ensures forall k :: 0 <= k < |order| ==>
        order[k] in files && files[order[k]] == old(files)[order[k]].(tier := TierAt(k, |order|))
    {
      ghost var was := files;
      var total := |order|;
      assert forall k :: 0 <= k < total ==> order[k] in Elems(order);
      for i := 0 to total
        invariant files.Keys == was.Keys
        invariant forall k :: 0 <= k < i ==> files[order[k]] == was[order[k]].(tier := TierAt(k, total))
        invariant forall k :: i <= k < total ==> files[order[k]] == was[order[k]]
      {
        files := files[order[i] := files[order[i]].(tier := TierAt(i, total))];
      }
    }

    /** `rebalance_tiers`: each file gets the tier of the place its heat earns, and the tiers hold
        n/10, n/2 and 4n/5 of the files, counted from the fastest. */
    method RebalanceTiers(now: nat)
      modifies this
      ensures Rebalanced(old(files), files, now)
      ensures forall t :: |Within(files, t)| == UpTo(t, |files|)
    {
      var order := SortedPaths(now);
      ghost var was := files;
      Assign(order);
      forall q | q in was
        ensures files[q] == was[q].(tier := TierAt(Place(was, now, q), |was|))
      {
        assert q in Elems(order);
        var k :| 0 <= k < |order| && order[k] == q;
        PlaceOf(was, now, order, k);
      }
      forall t
        ensures |Within(files, t)| == UpTo(t, |files|)
      {
        TierSizes(was, files, now, order, t);
      }
    }
  }
}
