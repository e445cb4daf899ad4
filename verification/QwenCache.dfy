/** kernel/src/lm_qwen.rs: the flat key/value cache and what attention reads from it. */
module QwenCache {
  import opened Prelude
  import opened QwenMat

  const MAX_CTX: nat := 512

  /** One cell of `headDim` floats per layer, key/value head and position. */
  function Cells(a: Arch): nat { Times(a.nLayers, a.nKv) * MAX_CTX }

  // ----- The flat index --------------------------------------------------------------

  /** The offset computed in `forward`: layer, then head, then position. */
  function Offset(a: Arch, li: nat, h: nat, t: nat): nat {
    var kvStride := a.nKv * MAX_CTX * a.headDim;
    li * kvStride + h * MAX_CTX * a.headDim + t * a.headDim
  }

  /** The same place as a cell number: one cell of `headDim` floats per (layer, head, position). */
  function Cell(a: Arch, li: nat, h: nat, t: nat): nat {
    (Times(li, a.nKv) + h) * MAX_CTX + t
  }

  lemma {:induction false} OffsetIsCell(a: Arch, li: nat, h: nat, t: nat)
    ensures Offset(a, li, h, t) == Times(Cell(a, li, h, t), a.headDim)
  {
    var n, d := a.nKv, a.headDim;
    assert li * (n * MAX_CTX * d) == li * n * MAX_CTX * d;
    assert ((li * n + h) * MAX_CTX + t) * d == li * n * MAX_CTX * d + h * MAX_CTX * d + t * d;
  }

  lemma {:induction false} PairBound(x: nat, y: nat, m: nat, n: nat)
    requires x < m && y < n
    ensures Times(x, n) + y < Times(m, n)
  {
    assert (x + 1) * n <= m * n;
    assert (x + 1) * n == x * n + n;
  }

  lemma {:induction false} PairOrder(x: nat, y: nat, x': nat, n: nat)
    requires y < n && x < x'
    ensures Times(x, n) + y < Times(x', n)
  {
    PairBound(x, y, x', n);
  }

  lemma {:induction false} PairInjective(x: nat, y: nat, x': nat, y': nat, n: nat)
    requires y < n && y' < n && Times(x, n) + y == Times(x', n) + y'
    ensures x == x' && y == y'
  {
    if x < x' { PairOrder(x, y, x', n); }
    if x' < x { PairOrder(x', y', x, n); }
  }

  /** Cells are in bounds and pairwise different. */
  lemma {:induction false} CellsDistinct(a: Arch, li: nat, h: nat, t: nat, li': nat, h': nat, t': nat)
    requires li < a.nLayers && h < a.nKv && t < MAX_CTX
    requires li' < a.nLayers && h' < a.nKv && t' < MAX_CTX
    ensures Cell(a, li, h, t) < Cells(a)
    ensures Cell(a, li, h, t) == Cell(a, li', h', t') ==> li == li' && h == h' && t == t'
  {
    PairBound(li, h, a.nLayers, a.nKv);
    if Cell(a, li, h, t) == Cell(a, li', h', t') {
      PairInjective(li, h, li', h', a.nKv);
    }
  }

  /** The flat (layer, head, position, dim) index is in bounds and injective. */
  lemma {:induction false} FlatIndex(a: Arch, li: nat, h: nat, t: nat, d: nat, li': nat, h': nat, t': nat, d': nat)
    requires li < a.nLayers && h < a.nKv && t < MAX_CTX && d < a.headDim
    requires li' < a.nLayers && h' < a.nKv && t' < MAX_CTX && d' < a.headDim
    ensures Offset(a, li, h, t) + d < Times(Cells(a), a.headDim)
    ensures Offset(a, li, h, t) + d == Offset(a, li', h', t') + d' ==> li == li' && h == h' && t == t' && d == d'
  {
    OffsetIsCell(a, li, h, t);
    OffsetIsCell(a, li', h', t');
    CellsDistinct(a, li, h, t, li', h', t');
    PairBound(Cell(a, li, h, t), d, Cells(a), a.headDim);
    if Offset(a, li, h, t) + d == Offset(a, li', h', t') + d' {
      PairInjective(Cell(a, li, h, t), d, Cell(a, li', h', t'), d', a.headDim);
    }
  }

  /** The key/value head a query head reads stays inside its layer exactly when the number of
      key/value heads divides the number of heads; otherwise the last query heads read the
      next layer. */
  lemma {:induction false} HeadMapIff(nHeads: nat, nKv: nat)
    requires 0 < nKv <= nHeads
    ensures nHeads / nKv > 0
    ensures (forall h :: 0 <= h < nHeads ==> h / (nHeads / nKv) < nKv) <==> nHeads % nKv == 0
  {
    var q, r := nHeads / nKv, nHeads % nKv;
    assert nHeads == q * nKv + r;
    assert q == 0 ==> q * nKv == 0;
    if r == 0 {
      forall h | 0 <= h < nHeads
        ensures h / q < nKv
      {
      }
    } else {
      var h := nHeads - 1;
      DivReaches(h, q, nKv);
      assert h / q >= nKv;
    }
  }

  lemma {:induction false} DivReaches(h: nat, q: nat, n: nat)
    requires q >= 1 && h >= q * n
    ensures h / q >= n
  {
    var d := h / q;
    assert h < q * (d + 1) by { assert h == q * d + h % q; }
    assert d + 1 <= n ==> q * (d + 1) <= q * n;
  }

  // ----- Cells -------------------------------------------------------------------------

  /** Head `h` of a vector of heads, or cell `h` of a cache, each `d` floats wide. */
  function Part(v: seq<real>, d: nat, h: nat): (r: seq<real>)
    requires Times(h, d) + d <= |v|
    ensures |r| == d
  {
    v[Times(h, d)..Times(h, d) + d]
  }

  lemma {:induction false} SlotFits(c: nat, n: nat, d: nat)
    requires c < n
    ensures Times(c, d) + d <= Times(n, d)
  {
    assert (c + 1) * d <= n * d;
    assert (c + 1) * d == c * d + d;
  }

  /** Writing inside one cell leaves every other cell alone. */
  method CopyCell(cache: array<real>, off: nat, d: nat, part: seq<real>, ghost c: nat, ghost n: nat)
    requires cache.Length == Times(n, d) && c < n && |part| == d && off == Times(c, d) && off + d <= cache.Length
    modifies cache
    ensures Part(cache[..], d, c) == part
    ensures forall j :: 0 <= j < cache.Length && !(Times(c, d) <= j < Times(c, d) + d) ==> cache[j] == old(cache[j])
  {
    for i := 0 to d
      invariant forall j :: 0 <= j < i ==> cache[off + j] == part[j]
      invariant forall j :: 0 <= j < cache.Length && !(off <= j < off + i) ==> cache[j] == old(cache[j])
    {
      cache[off + i] := part[i];
    }
  }

  lemma {:induction false} OtherCell(was: seq<real>, now: seq<real>, d: nat, c: nat, c': nat, n: nat)
    requires |was| == |now| == Times(n, d) && c < n && c' < n && c != c'
    requires forall j :: 0 <= j < |was| && !(Times(c, d) <= j < Times(c, d) + d) ==> now[j] == was[j]
    ensures Times(c', d) + d <= |was| && Part(now, d, c') == Part(was, d, c')
  {
    SlotFits(c, n, d);
    SlotFits(c', n, d);
    if c < c' { SlotFits(c, c', d); } else { SlotFits(c', c, d); }
  }

  ghost predicate CacheOk(a: Arch, s: seq<real>) { |s| == Times(Cells(a), a.headDim) }

  /** Cell (li, h, t) holds head `h` of `vec`. */
  ghost predicate CellIs(a: Arch, s: seq<real>, li: nat, h: nat, t: nat, vec: seq<real>)
    requires CacheOk(a, s) && li < a.nLayers && h < a.nKv && t < MAX_CTX && |vec| == a.KvDim()
  {
    CellsDistinct(a, li, h, t, li, h, t);
    SlotFits(Cell(a, li, h, t), Cells(a), a.headDim);
    SlotFits(h, a.nKv, a.headDim);
    Part(s, a.headDim, Cell(a, li, h, t)) == Part(vec, a.headDim, h)
  }

  /** Every cell outside position `pos` of layer `li` keeps what it holds. */
  ghost predicate Kept(a: Arch, was: seq<real>, now: seq<real>, li: nat, pos: nat)
    requires CacheOk(a, was) && CacheOk(a, now)
  {
    forall li', h, t, u ::
      (0 <= li' < a.nLayers && 0 <= h < a.nKv && 0 <= t < MAX_CTX && |u| == a.KvDim()
       && (li', t) != (li, pos) && CellIs(a, was, li', h, t, u)) ==> CellIs(a, now, li', h, t, u)
  }

  /** The store loop of `forward` for one layer and one of the two caches. */
  method StoreLayer(a: Arch, cache: array<real>, li: nat, pos: nat, vec: seq<real>)
    requires CacheOk(a, cache[..]) && li < a.nLayers && pos < MAX_CTX && |vec| == a.KvDim()
    modifies cache
    ensures CacheOk(a, cache[..])
    ensures forall h :: 0 <= h < a.nKv ==> CellIs(a, cache[..], li, h, pos, vec)
    ensures Kept(a, old(cache[..]), cache[..], li, pos)
  {
    ghost var was := cache[..];
    for h := 0 to a.nKv
      invariant CacheOk(a, cache[..])
      invariant forall g :: 0 <= g < h ==> CellIs(a, cache[..], li, g, pos, vec)
      invariant Kept(a, was, cache[..], li, pos)
    {
      ghost var mid := cache[..];
      StoreHead(a, cache, li, h, pos, vec);
      forall li', g, t, u | 0 <= li' < a.nLayers && 0 <= g < a.nKv && 0 <= t < MAX_CTX && |u| == a.KvDim()
          && (li', g, t) != (li, h, pos) && CellIs(a, mid, li', g, t, u)
        ensures CellIs(a, cache[..], li', g, t, u)
      {
        CellsDistinct(a, li, h, pos, li', g, t);
        CellsDistinct(a, li', g, t, li, h, pos);
        OtherCell(mid, cache[..], a.headDim, Cell(a, li, h, pos), Cell(a, li', g, t), Cells(a));
      }
    }
  }

  method StoreHead(a: Arch, cache: array<real>, li: nat, h: nat, pos: nat, vec: seq<real>)
    requires CacheOk(a, cache[..]) && li < a.nLayers && h < a.nKv && pos < MAX_CTX && |vec| == a.KvDim()
    modifies cache
    ensures CacheOk(a, cache[..]) && CellIs(a, cache[..], li, h, pos, vec)
    ensures var c := Cell(a, li, h, pos);
      forall j :: 0 <= j < cache.Length && !(Times(c, a.headDim) <= j < Times(c, a.headDim) + a.headDim)
        ==> cache[j] == old(cache[j])
  {
    OffsetIsCell(a, li, h, pos);
    CellsDistinct(a, li, h, pos, li, h, pos);
    SlotFits(Cell(a, li, h, pos), Cells(a), a.headDim);
    SlotFits(h, a.nKv, a.headDim);
    CopyCell(cache, Offset(a, li, h, pos), a.headDim, Part(vec, a.headDim, h), Cell(a, li, h, pos), Cells(a));
  }

  // ----- What a cache holds ------------------------------------------------------------------

  type Vec = seq<real>

  /** Per layer, the vectors stored so far, one per position. */
  type Rows = seq<seq<Vec>>

  ghost predicate VecsOk(a: Arch, vecs: seq<Vec>) {
    forall t :: 0 <= t < |vecs| ==> |vecs[t]| == a.KvDim()
  }

  ghost predicate RowsOk(a: Arch, rows: Rows) {
    |rows| == a.nLayers && forall li :: 0 <= li < |rows| ==> VecsOk(a, rows[li]) && |rows[li]| <= MAX_CTX
  }

  /** The vector of position `t`: zeros where nothing has been stored. */
  ghost function At(a: Arch, vecs: seq<Vec>, t: nat): (v: Vec)
    requires VecsOk(a, vecs)
    ensures |v| == a.KvDim()
  {
    if t < |vecs| then vecs[t] else seq(a.KvDim(), _ => 0.0)
  }

  ghost predicate Place(a: Arch, li: int, h: int, t: int) { 0 <= li < a.nLayers && 0 <= h < a.nKv && 0 <= t < MAX_CTX }

  /** Every cell of the cache: the stored vectors, and zeros everywhere else. */
  ghost predicate Holds(a: Arch, s: seq<real>, rows: Rows) {
    && CacheOk(a, s) && RowsOk(a, rows)
    && forall li, h, t :: Place(a, li, h, t) ==> CellIs(a, s, li, h, t, At(a, rows[li], t))
  }

  ghost function Push(rows: Rows, li: nat, vec: Vec): Rows
    requires li < |rows|
  {
    rows[li := rows[li] + [vec]]
  }

  /** Storing one position of one layer. */
  method Store(a: Arch, cache: array<real>, li: nat, pos: nat, vec: Vec, ghost rows: Rows)
    requires Holds(a, cache[..], rows) && li < a.nLayers && pos == |rows[li]| < MAX_CTX && |vec| == a.KvDim()
    modifies cache
    ensures Holds(a, cache[..], Push(rows, li, vec))
  {
    ghost var was := cache[..];
    StoreLayer(a, cache, li, pos, vec);
    ghost var next := Push(rows, li, vec);
    forall l, h, t | Place(a, l, h, t)
      ensures CellIs(a, cache[..], l, h, t, At(a, next[l], t))
    {
      assert CellIs(a, was, l, h, t, At(a, rows[l], t));
      if (l, t) != (li, pos) { assert At(a, next[l], t) == At(a, rows[l], t); }
    }
  }

  /** A cleared cache holds nothing. */
  lemma {:induction false} ClearHolds(a: Arch, s: seq<real>, rows: Rows)
    requires CacheOk(a, s) && forall i :: 0 <= i < |s| ==> s[i] == 0.0
    requires |rows| == a.nLayers && forall li :: 0 <= li < |rows| ==> rows[li] == []
    ensures Holds(a, s, rows)
  {
    forall li, h, t | Place(a, li, h, t)
      ensures CellIs(a, s, li, h, t, At(a, rows[li], t))
    {
      CellsDistinct(a, li, h, t, li, h, t);
      SlotFits(Cell(a, li, h, t), Cells(a), a.headDim);
      SlotFits(h, a.nKv, a.headDim);
      assert Part(s, a.headDim, Cell(a, li, h, t)) == Part(At(a, rows[li], t), a.headDim, h);
    }
  }

  // ----- Attention over one layer ---------------------------------------------------------------

  /** Softmax and the score scale. */
  datatype Env = Env(soft: seq<real> -> seq<real>, scale: real)

  ghost predicate SoftOk(env: Env) { forall s :: |env.soft(s)| == |s| }

  predicate ArchOk(a: Arch) { 0 < a.nKv <= a.nHeads && a.nHeads % a.nKv == 0 }

  /** The key/value head that query head `h` shares. */
  function KvHead(a: Arch, h: nat): (r: nat)
    requires ArchOk(a) && h < a.nHeads
    ensures r < a.nKv
  {
    HeadMapIff(a.nHeads, a.nKv);
    h / (a.nHeads / a.nKv)
  }

  /** Query heads share key/value heads in consecutive blocks of nHeads / nKv. */
  lemma {:induction false} KvHeadIff(a: Arch, h: nat, j: nat)
    requires ArchOk(a) && h < a.nHeads
    ensures KvHead(a, h) == j <==> Times(j, a.nHeads / a.nKv) <= h < Times(j + 1, a.nHeads / a.nKv)
  {
    HeadMapIff(a.nHeads, a.nKv);
    BlockIff(h, a.nHeads / a.nKv, j);
  }

  lemma {:induction false} BlockIff(h: nat, g: nat, j: nat)
    requires g > 0
    ensures h / g == j <==> j * g <= h < (j + 1) * g
  {
    var q := h / g;
    assert h == g * q + h % g;
    if j < q { assert (j + 1) * g <= q * g; }
    if q < j { assert (q + 1) * g <= j * g; }
  }

  /** So each key/value head serves exactly that many query heads. */
  lemma {:induction false} KvHeadServes(a: Arch, j: nat)
    requires ArchOk(a) && j < a.nKv
    ensures |set h: nat | h < a.nHeads && KvHead(a, h) == j| == a.nHeads / a.nKv
  {
    var g := a.nHeads / a.nKv;
    assert Times(a.nKv, g) == a.nHeads;
    SlotFits(j, a.nKv, g);
    var served := set h: nat | h < a.nHeads && KvHead(a, h) == j;
    var block := Block(Times(j, g), g);
    forall h: nat
      ensures h in served <==> h in block
    {
      assert Times(j + 1, g) == Times(j, g) + g;
      if h < a.nHeads { KvHeadIff(a, h, j); }
    }
    assert served == block;
  }

  /** With the converter's 14 query heads and two key/value heads, heads 0 to 6 share the first one. */
  lemma {:induction false} FourteenHeads(h: nat)
    requires h < 14
    ensures var a := Arch(24, 896, 14, 2, 4864, 64); ArchOk(a) && KvHead(a, h) == if h <= 6 then 0 else 1
  {}

  /** `n` consecutive numbers. */
  ghost function Block(lo: nat, n: nat): (r: set<nat>)
    ensures |r| == n && forall h :: h in r <==> lo <= h < lo + n
  {
    if n == 0 then {} else Block(lo, n - 1) + {lo + n - 1}
  }

  /** Head `h` of a vector of key/value heads. */
  ghost function HeadOf(a: Arch, vec: Vec, h: nat): (r: Vec)
    requires |vec| == a.KvDim() && h < a.nKv
    ensures |r| == a.headDim
  {
    SlotFits(h, a.nKv, a.headDim);
    Part(vec, a.headDim, h)
  }

  ghost function ScoresOf(a: Arch, keys: seq<Vec>, h: nat, q: Vec, scale: real): (r: seq<real>)
    requires VecsOk(a, keys) && h < a.nKv && |q| == a.headDim
    ensures |r| == |keys|
    ensures forall t :: 0 <= t < |keys| ==> r[t] == Mul(Dot(q, HeadOf(a, keys[t], h), a.headDim), scale)
  {
    seq(|keys|, t requires 0 <= t < |keys| => Mul(Dot(q, HeadOf(a, keys[t], h), a.headDim), scale))
  }

  /** Coordinate `d` of the weighted sum of the first `n` value vectors. */
  ghost function MixAt(a: Arch, values: seq<Vec>, h: nat, w: seq<real>, d: nat, n: nat): real
    requires VecsOk(a, values) && h < a.nKv && d < a.headDim && n <= |w| && n <= |values|
  {
    if n == 0 then 0.0 else MixAt(a, values, h, w, d, n - 1) + Mul(w[n - 1], HeadOf(a, values[n - 1], h)[d])
  }

  ghost function Mix(a: Arch, values: seq<Vec>, h: nat, w: seq<real>): (r: Vec)
    requires VecsOk(a, values) && h < a.nKv && |w| == |values|
    ensures |r| == a.headDim
    ensures forall d :: 0 <= d < a.headDim ==> r[d] == MixAt(a, values, h, w, d, |values|)
  {
    seq(a.headDim, d requires 0 <= d < a.headDim => MixAt(a, values, h, w, d, |values|))
  }

  /** Attention of query head `h` over all positions. */
  ghost function HeadAttention(a: Arch, env: Env, keys: seq<Vec>, values: seq<Vec>, q: Vec, h: nat): (r: Vec)
    requires ArchOk(a) && SoftOk(env) && VecsOk(a, keys) && VecsOk(a, values) && |keys| == |values|
    requires h < a.nHeads && |q| == Times(a.nHeads, a.headDim)
    ensures |r| == a.headDim
  {
    SlotFits(h, a.nHeads, a.headDim);
    Mix(a, values, KvHead(a, h), env.soft(ScoresOf(a, keys, KvHead(a, h), Part(q, a.headDim, h), env.scale)))
  }

  ghost function Attention(a: Arch, env: Env, keys: seq<Vec>, values: seq<Vec>, q: Vec): (r: seq<Vec>)
    requires ArchOk(a) && SoftOk(env) && VecsOk(a, keys) && VecsOk(a, values) && |keys| == |values|
    requires |q| == Times(a.nHeads, a.headDim)
    ensures |r| == a.nHeads
    ensures forall h :: 0 <= h < a.nHeads ==> r[h] == HeadAttention(a, env, keys, values, q, h)
  {
    seq(a.nHeads, h requires 0 <= h < a.nHeads => HeadAttention(a, env, keys, values, q, h))
  }

  /** One at place `i`, zero elsewhere. */
  ghost predicate Unit(v: seq<real>, i: nat) {
    i < |v| && forall k :: 0 <= k < |v| ==> v[k] == if k == i then 1.0 else 0.0
  }

  lemma {:induction false} DotUnit(q: seq<real>, i: nat, x: seq<real>, n: nat)
    requires Unit(q, i) && n <= |q| == |x|
    ensures Dot(q, x, n) == if i < n then x[i] else 0.0
  {
    if n > 0 { DotUnit(q, i, x, n - 1); }
  }

  /** The score of a position is its key at the place the query asks for, times the scale. */
  lemma {:induction false} UnitQueryScores(a: Arch, keys: seq<Vec>, h: nat, q: Vec, scale: real, d: nat, t: nat)
    requires VecsOk(a, keys) && h < a.nKv && |q| == a.headDim && Unit(q, d) && t < |keys|
    ensures Times(h, a.headDim) + d < |keys[t]|
    ensures ScoresOf(a, keys, h, q, scale)[t] == keys[t][Times(h, a.headDim) + d] * scale
  {
    SlotFits(h, a.nKv, a.headDim);
    DotUnit(q, d, HeadOf(a, keys[t], h), a.headDim);
  }

  lemma {:induction false} MixUnit(a: Arch, values: seq<Vec>, h: nat, w: seq<real>, t: nat, d: nat, n: nat)
    requires VecsOk(a, values) && h < a.nKv && d < a.headDim && Unit(w, t) && n <= |w| == |values|
    ensures MixAt(a, values, h, w, d, n) == if t < n then HeadOf(a, values[t], h)[d] else 0.0
  {
    if n > 0 { MixUnit(a, values, h, w, t, d, n - 1); }
  }

  /** Attention all on position `t` returns its value, from the block of heads that the query head
      shares. */
  lemma {:induction false} AttentionPicks(a: Arch, env: Env, keys: seq<Vec>, values: seq<Vec>, q: Vec, h: nat, j: nat, t: nat, d: nat)
    requires ArchOk(a) && SoftOk(env) && VecsOk(a, keys) && VecsOk(a, values) && |keys| == |values|
    requires |q| == Times(a.nHeads, a.headDim) && h < a.nHeads && d < a.headDim && t < |values|
    requires Times(j, a.nHeads / a.nKv) <= h < Times(j + 1, a.nHeads / a.nKv)
    requires forall s :: |s| == |keys| ==> Unit(env.soft(s), t)
    ensures Times(j, a.headDim) + d < |values[t]|
    ensures Attention(a, env, keys, values, q)[h][d] == values[t][Times(j, a.headDim) + d]
  {
    KvHeadIff(a, h, j);
    SlotFits(h, a.nHeads, a.headDim);
    SlotFits(j, a.nKv, a.headDim);
    var w := env.soft(ScoresOf(a, keys, j, Part(q, a.headDim, h), env.scale));
    MixUnit(a, values, j, w, t, d, |values|);
  }

  // ----- The loops ------------------------------------------------------------------------------

  /** Head `h` of layer `li` is in the cache, from position 0 on. */
  ghost predicate Column(a: Arch, s: seq<real>, li: nat, h: nat, vecs: seq<Vec>)
    requires CacheOk(a, s) && VecsOk(a, vecs) && |vecs| <= MAX_CTX && li < a.nLayers && h < a.nKv
  {
    forall t :: 0 <= t < |vecs| ==> CellIs(a, s, li, h, t, vecs[t])
  }

  lemma {:induction false} HeldColumn(a: Arch, s: seq<real>, rows: Rows, li: nat, h: nat)
    requires Holds(a, s, rows) && li < a.nLayers && h < a.nKv
    ensures Column(a, s, li, h, rows[li])
  {
    forall t | 0 <= t < |rows[li]|
      ensures CellIs(a, s, li, h, t, rows[li][t])
    {
      assert Place(a, li, h, t) && At(a, rows[li], t) == rows[li][t];
    }
  }

  /** The floats at the offset of position `t` are its vector's head. */
  lemma {:induction false} Cached(a: Arch, s: seq<real>, li: nat, h: nat, vecs: seq<Vec>, t: nat)
    requires CacheOk(a, s) && VecsOk(a, vecs) && t < |vecs| <= MAX_CTX && li < a.nLayers && h < a.nKv
    requires Column(a, s, li, h, vecs)
    ensures Times(Cell(a, li, h, t), a.headDim) + a.headDim <= |s|
    ensures Part(s, a.headDim, Cell(a, li, h, t)) == HeadOf(a, vecs[t], h)
  {
    CellsDistinct(a, li, h, t, li, h, t);
    SlotFits(Cell(a, li, h, t), Cells(a), a.headDim);
    assert CellIs(a, s, li, h, t, vecs[t]);
  }

  /** The score loop of one query head. */
  method Scores(a: Arch, kCache: array<real>, li: nat, kvH: nat, q: Vec, scale: real, kvPos: nat, ghost keys: seq<Vec>)
      returns (scores: seq<real>)
    requires CacheOk(a, kCache[..]) && VecsOk(a, keys) && |keys| == kvPos + 1 <= MAX_CTX && li < a.nLayers && kvH < a.nKv
    requires Column(a, kCache[..], li, kvH, keys) && |q| == a.headDim
    ensures scores == ScoresOf(a, keys, kvH, q, scale)
  {
    scores := [];
    for t := 0 to kvPos + 1
      invariant |scores| == t
      invariant forall j :: 0 <= j < t ==> scores[j] == ScoresOf(a, keys, kvH, q, scale)[j]
    {
      Cached(a, kCache[..], li, kvH, keys, t);
      var score := DotCell(a, kCache, li, kvH, t, q, HeadOf(a, keys[t], kvH));
      scores := scores + [Mul(score, scale)];
    }
  }

  /** The value loop of one query head. */
  method Mixed(a: Arch, vCache: array<real>, li: nat, kvH: nat, w: seq<real>, kvPos: nat, ghost values: seq<Vec>)
      returns (out: Vec)
    requires CacheOk(a, vCache[..]) && VecsOk(a, values) && |values| == |w| == kvPos + 1 <= MAX_CTX
    requires li < a.nLayers && kvH < a.nKv
    requires Column(a, vCache[..], li, kvH, values)
    ensures out == Mix(a, values, kvH, w)
  {
    out := seq(a.headDim, i => 0.0);
    for t := 0 to kvPos + 1
      invariant |out| == a.headDim
      invariant forall d :: 0 <= d < a.headDim ==> out[d] == MixAt(a, values, kvH, w, d, t)
    {
      Cached(a, vCache[..], li, kvH, values, t);
      var next := AddCell(a, vCache, li, kvH, t, out, w[t], HeadOf(a, values[t], kvH));
      out := next;
    }
  }

  method AddCell(a: Arch, cache: array<real>, li: nat, h: nat, t: nat, acc: seq<real>, w: real, ghost value: seq<real>)
      returns (out: seq<real>)
    requires CacheOk(a, cache[..]) && li < a.nLayers && h < a.nKv && t < MAX_CTX && |acc| == a.headDim
    requires Times(Cell(a, li, h, t), a.headDim) + a.headDim <= cache.Length
    requires value == Part(cache[..], a.headDim, Cell(a, li, h, t))
    ensures |out| == a.headDim
    ensures forall d :: 0 <= d < a.headDim ==> out[d] == acc[d] + Mul(w, value[d])
  {
    OffsetIsCell(a, li, h, t);
    var off := Offset(a, li, h, t);
    out := acc;
    for d := 0 to a.headDim
      invariant |out| == a.headDim
      invariant forall j :: 0 <= j < d ==> out[j] == acc[j] + Mul(w, value[j])
      invariant forall j :: d <= j < a.headDim ==> out[j] == acc[j]
    {
      out := out[d := out[d] + Mul(w, cache[off + d])];
    }
  }

  method DotCell(a: Arch, cache: array<real>, li: nat, h: nat, t: nat, q: seq<real>, ghost key: seq<real>)
      returns (score: real)
    requires CacheOk(a, cache[..]) && li < a.nLayers && h < a.nKv && t < MAX_CTX && |q| == a.headDim
    requires Times(Cell(a, li, h, t), a.headDim) + a.headDim <= cache.Length
    requires key == Part(cache[..], a.headDim, Cell(a, li, h, t))
    ensures score == Dot(q, key, a.headDim)
  {
    OffsetIsCell(a, li, h, t);
    var off := Offset(a, li, h, t);
    score := 0.0;
    for d := 0 to a.headDim
      invariant score == Dot(q, key, d)
    {
      score := score + Mul(q[d], cache[off + d]);
    }
  }

  method Clear(cache: array<real>)
    modifies cache
    ensures forall i :: 0 <= i < cache.Length ==> cache[i] == 0.0
  {
    for i := 0 to cache.Length
      invariant forall j :: 0 <= j < i ==> cache[j] == 0.0
    {
      cache[i] := 0.0;
    }
  }
}
