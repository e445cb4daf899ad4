/** kernel/src/lm_qwen.rs: INT4 group-quantised matrices, where they lie in the weight file,
    and the fused dequantising matrix-vector product.  Floats are reals; decoding the four
    bytes of a stored scale is the parameter `dec`. */
module QwenMat {
  import opened Bits
  import opened Prelude

  const GS: nat := 32
  const HALF: nat := 16
  const VOCAB: nat := 151936

  type Decoder = seq<byte> -> real

  // ----- Layout --------------------------------------------------------------------

  datatype MatQ = MatQ(nibOff: nat, scOff: nat, rows: nat, cols: nat, nGroups: nat)
  {
    /** The shape `Alloc` produces, inside a file of `len` bytes. */
    predicate Valid(len: nat) {
      && nGroups == (cols + GS - 1) / GS
      && scOff == nibOff + Times(rows, nGroups) * HALF
      && End() <= len
    }

    function End(): nat { scOff + Times(rows, nGroups) * 4 }

    /** First nibble byte and first scale byte of group `g` in row `r`. */
    function NibbleAt(r: nat, g: nat): nat { nibOff + (r * nGroups + g) * HALF }

    function ScaleAt(r: nat, g: nat): nat { scOff + (r * nGroups + g) * 4 }
  }

  function Alloc(rows: nat, cols: nat, base: nat): (r: (MatQ, nat))
    ensures r.0.nibOff == base && r.1 == r.0.End() && base <= r.1
    ensures forall len :: r.1 <= len ==> r.0.Valid(len)
  {
    var n := (cols + GS - 1) / GS;
    var m := MatQ(base, base + Times(rows, n) * HALF, rows, cols, n);
    (m, base + Times(rows, n) * HALF + Times(rows, n) * 4)
  }

  lemma {:induction false} GroupIndex(rows: nat, ng: nat, r: nat, g: nat)
    requires r < rows && g < ng
    ensures r * ng + g < rows * ng
  {
    MulLe(r + 1, rows, ng);
    assert (r + 1) * ng == r * ng + ng;
  }

  lemma {:induction false} MulLe(a: nat, b: nat, c: nat)
    requires a <= b
    ensures a * c <= b * c
  {}

  lemma {:induction false} RowBefore(ng: nat, r: nat, g: nat, r': nat)
    requires g < ng && r < r'
    ensures r * ng + g < r' * ng
  {
    MulLe(r + 1, r', ng);
    assert (r + 1) * ng == r * ng + ng;
  }

  lemma {:induction false} SameGroup(ng: nat, r: nat, g: nat, r': nat, g': nat)
    requires g < ng && g' < ng && r * ng + g == r' * ng + g'
    ensures r == r' && g == g'
  {
    if r < r' { RowBefore(ng, r, g, r'); }
    if r' < r { RowBefore(ng, r', g', r); }
  }

  /** Every group is read inside the matrix's own region, nibbles before scales, and
      different groups never share a byte. */
  lemma {:induction false} GroupsInRegion(m: MatQ, len: nat, r: nat, g: nat)
    requires m.Valid(len) && r < m.rows && g < m.nGroups
    ensures m.nibOff <= m.NibbleAt(r, g) && m.NibbleAt(r, g) + HALF <= m.scOff
    ensures m.scOff <= m.ScaleAt(r, g) && m.ScaleAt(r, g) + 4 <= m.End() <= len
    ensures forall r', g' :: 0 <= r' < m.rows && 0 <= g' < m.nGroups && (r, g) != (r', g') ==>
      && (m.NibbleAt(r, g) + HALF <= m.NibbleAt(r', g') || m.NibbleAt(r', g') + HALF <= m.NibbleAt(r, g))
      && (m.ScaleAt(r, g) + 4 <= m.ScaleAt(r', g') || m.ScaleAt(r', g') + 4 <= m.ScaleAt(r, g))
  {
    GroupIndex(m.rows, m.nGroups, r, g);
    var k, n := r * m.nGroups + g, Times(m.rows, m.nGroups);
    assert (k + 1) * HALF <= n * HALF && (k + 1) * 4 <= n * 4;
    forall r', g' | 0 <= r' < m.rows && 0 <= g' < m.nGroups && (r, g) != (r', g')
      ensures r * m.nGroups + g != r' * m.nGroups + g'
    {
      if r * m.nGroups + g == r' * m.nGroups + g' { SameGroup(m.nGroups, r, g, r', g'); }
    }
  }

  // ----- Values --------------------------------------------------------------------

  function Nibble(w: seq<byte>, at: nat, i: nat): int
    requires at + i / 2 < |w|
  {
    var b := w[at + i / 2];
    var n: int := if i % 2 == 0 then b % 16 else b / 16;
    if n > 7 then n - 16 else n
  }

  function AddScaled(acc: real, a: real, b: real): real { acc + a * b }

  /** One row as stored: a level per column, a scale per group of 32 columns. */
  datatype Row = Row(levels: seq<real>, scales: seq<real>)
  {
    predicate Valid() { |scales| == (|levels| + GS - 1) / GS }

    function Weight(c: nat): real
      requires Valid() && c < |levels|
    {
      Mul(levels[c], scales[c / GS])
    }
  }

  function Groups(cols: nat): nat { (cols + GS - 1) / GS }

  /** A row of `cols` columns whose nibbles start at `nb` and whose scales start at `sc`. */
  predicate RowFits(w: seq<byte>, nb: nat, sc: nat, cols: nat) {
    nb + Groups(cols) * HALF <= |w| && sc + Groups(cols) * 4 <= |w|
  }

  function Level(w: seq<byte>, nb: nat, c: nat): real
    requires nb + c / GS * HALF + HALF <= |w|
  {
    Nibble(w, nb + c / GS * HALF, c % GS) as real
  }

  function Scale(w: seq<byte>, dec: Decoder, sc: nat, g: nat): real
    requires sc + g * 4 + 4 <= |w|
  {
    dec(w[sc + g * 4..sc + g * 4 + 4])
  }

  ghost function RowAt(w: seq<byte>, dec: Decoder, nb: nat, sc: nat, cols: nat): (row: Row)
    requires RowFits(w, nb, sc, cols)
    ensures row.Valid() && |row.levels| == cols && |row.scales| == Groups(cols)
    ensures forall c :: 0 <= c < cols ==> row.levels[c] == Level(w, nb, c)
    ensures forall g :: 0 <= g < Groups(cols) ==> row.scales[g] == Scale(w, dec, sc, g)
  {
    Row(seq(cols, c requires 0 <= c < cols => Level(w, nb, c)),
        seq(Groups(cols), g requires 0 <= g < Groups(cols) => Scale(w, dec, sc, g)))
  }

  /** The file stores `row` at `nb` and `sc`. */
  ghost predicate Stored(w: seq<byte>, dec: Decoder, nb: nat, sc: nat, row: Row) {
    && row.Valid() && RowFits(w, nb, sc, |row.levels|)
    && (forall c :: 0 <= c < |row.levels| ==> row.levels[c] == Level(w, nb, c))
    && (forall g :: 0 <= g < |row.scales| ==> row.scales[g] == Scale(w, dec, sc, g))
  }

  lemma {:induction false} RowInRegion(w: seq<byte>, m: MatQ, r: nat)
    requires m.Valid(|w|) && r < m.rows
    ensures RowFits(w, m.NibbleAt(r, 0), m.ScaleAt(r, 0), m.cols)
  {
    if m.nGroups > 0 {
      GroupsInRegion(m, |w|, r, m.nGroups - 1);
    } else {
      MulLe(r, m.rows, m.nGroups);
    }
  }

  /** Row `r` of a matrix. */
  ghost function RowOf(w: seq<byte>, dec: Decoder, m: MatQ, r: nat): (row: Row)
    requires m.Valid(|w|) && r < m.rows
    ensures row.Valid() && |row.levels| == m.cols
  {
    RowInRegion(w, m, r);
    RowAt(w, dec, m.NibbleAt(r, 0), m.ScaleAt(r, 0), m.cols)
  }

  lemma {:induction false} Split(g: nat, i: nat)
    requires i < GS
    ensures (g * GS + i) / GS == g && (g * GS + i) % GS == i
  {}

  /** The column at which group `g` starts, or the end of the row. */
  function GroupStart(cols: nat, g: nat): nat { Min(g * GS, cols) }

  /** Groups start inside the row and reach up to its end. */
  lemma {:induction false} GroupEnds(cols: nat, g: nat)
    ensures g < Groups(cols) ==> GroupStart(cols, g) == g * GS < cols
    ensures g >= Groups(cols) ==> GroupStart(cols, g) == cols
  {}

  /** One group of `dequant_row`. */
  method DequantGroup(w: seq<byte>, dec: Decoder, nb: nat, sc: nat, cols: nat, g: nat, end: nat, out: array<real>)
    requires RowFits(w, nb, sc, cols) && g < Groups(cols) && end <= GS && g * GS + end <= cols <= out.Length
    modifies out
    ensures forall c :: g * GS <= c < g * GS + end ==> out[c] == RowAt(w, dec, nb, sc, cols).Weight(c)
    ensures forall c :: 0 <= c < out.Length && !(g * GS <= c < g * GS + end) ==> out[c] == old(out[c])
  {
    var scale := Scale(w, dec, sc, g);
    WriteGroup(w, nb + g * HALF, scale, g * GS, end, out);
    ghost var row := RowAt(w, dec, nb, sc, cols);
    GroupLevels(w, dec, nb, sc, row, g, g * GS + end);
    forall c | g * GS <= c < g * GS + end
      ensures out[c] == row.Weight(c)
    {
      Split(g, c - g * GS);
    }
  }

  /** The inner loop: `end` scaled nibbles, from position `ci` of `out` on. */
  method WriteGroup(w: seq<byte>, at: nat, scale: real, ci: nat, end: nat, out: array<real>)
    requires at + HALF <= |w| && end <= GS && ci + end <= out.Length
    modifies out
    ensures forall c :: ci <= c < ci + end ==> out[c] == Mul(Nibble(w, at, c - ci) as real, scale)
    ensures forall c :: 0 <= c < out.Length && !(ci <= c < ci + end) ==> out[c] == old(out[c])
  {
    for i := 0 to end
      invariant forall c :: ci <= c < ci + i ==> out[c] == Mul(Nibble(w, at, c - ci) as real, scale)
      invariant forall c :: 0 <= c < out.Length && !(ci <= c < ci + i) ==> out[c] == old(out[c])
    {
      out[ci + i] := Mul(Nibble(w, at, i) as real, scale);
    }
  }

  /** `dequant_row`: row `row` appears in `out`, the rest of `out` is untouched. */
  method DequantRow(w: seq<byte>, dec: Decoder, m: MatQ, row: nat, out: array<real>)
    requires m.Valid(|w|) && row < m.rows && m.cols <= out.Length
    modifies out
    ensures forall c :: 0 <= c < m.cols ==> out[c] == RowOf(w, dec, m, row).Weight(c)
    ensures forall c :: m.cols <= c < out.Length ==> out[c] == old(out[c])
  {
    RowInRegion(w, m, row);
    DequantAt(w, dec, m.NibbleAt(row, 0), m.ScaleAt(row, 0), m.cols, out);
  }

  method DequantAt(w: seq<byte>, dec: Decoder, nb: nat, sc: nat, cols: nat, out: array<real>)
    requires RowFits(w, nb, sc, cols) && cols <= out.Length
    modifies out
    ensures forall c :: 0 <= c < cols ==> out[c] == RowAt(w, dec, nb, sc, cols).Weight(c)
    ensures forall c :: cols <= c < out.Length ==> out[c] == old(out[c])
  {
    var ci := 0;
    for g := 0 to Groups(cols)
      invariant ci == GroupStart(cols, g)
      invariant forall c :: 0 <= c < ci ==> out[c] == RowAt(w, dec, nb, sc, cols).Weight(c)
      invariant forall c :: cols <= c < out.Length ==> out[c] == old(out[c])
    {
      GroupEnds(cols, g);
      var end := Min(GS, cols - ci);
      DequantGroup(w, dec, nb, sc, cols, g, end, out);
      ci := ci + end;
      if ci >= cols { return; }
    }
    GroupEnds(cols, Groups(cols));
  }

  // ----- Matrix times vector ---------------------------------------------------------

  /** The dot product of a row with `x`, over the first `n` columns. */
  ghost function RowDot(row: Row, x: seq<real>, n: nat): real
    requires row.Valid() && n <= |row.levels| <= |x|
  {
    if n == 0 then 0.0 else AddScaled(RowDot(row, x, n - 1), row.Weight(n - 1), x[n - 1])
  }

  /** The unscaled sum of the first `n` levels of a group against `x`. */
  ghost function LevelDot(row: Row, g: nat, x: seq<real>, n: nat): real
    requires g * GS + n <= |row.levels| <= |x|
  {
    if n == 0 then 0.0 else AddScaled(LevelDot(row, g, x, n - 1), row.levels[g * GS + n - 1], x[g * GS + n - 1])
  }

  /** What the code adds for a group: its levels against `x`, scaled once. */
  ghost function PlusGroup(row: Row, g: nat, x: seq<real>, n: nat, acc: real): real
    requires g < |row.scales| && g * GS + n <= |row.levels| <= |x|
  {
    AddScaled(acc, LevelDot(row, g, x, n), row.scales[g])
  }

  /** Scaling a group's sum once equals scaling each of its weights. */
  lemma {:induction false} ScaleOnce(row: Row, g: nat, x: seq<real>, ci: nat, next: nat)
    requires row.Valid() && g < |row.scales| && ci == g * GS && ci <= next <= ci + GS && next <= |row.levels| <= |x|
    ensures RowDot(row, x, next) == PlusGroup(row, g, x, next - ci, RowDot(row, x, ci))
  {
    if next > ci {
      ScaleOnce(row, g, x, ci, next - 1);
      Split(g, next - 1 - ci);
      OneScaled(RowDot(row, x, ci), LevelDot(row, g, x, next - 1 - ci), row.scales[g], row.levels[next - 1], x[next - 1]);
    }
  }

  lemma {:induction false} OneScaled(acc: real, ga: real, scale: real, level: real, x: real)
    ensures AddScaled(AddScaled(acc, ga, scale), Mul(level, scale), x) == AddScaled(acc, AddScaled(ga, level, x), scale)
  {}

  method GroupSum(w: seq<byte>, nb: nat, g: nat, x: seq<real>, end: nat, ghost row: Row) returns (ga: real)
    requires nb + g * HALF + HALF <= |w| && end <= GS && g * GS + end <= |row.levels| <= |x|
    requires forall c :: g * GS <= c < g * GS + end ==> row.levels[c] == Nibble(w, nb + g * HALF, c - g * GS) as real
    ensures ga == LevelDot(row, g, x, end)
  {
    ga := 0.0;
    for i := 0 to end
      invariant ga == LevelDot(row, g, x, i)
    {
      assert row.levels[g * GS + i] == Nibble(w, nb + g * HALF, i) as real;
      ga := AddScaled(ga, Nibble(w, nb + g * HALF, i) as real, x[g * GS + i]);
    }
  }

  lemma {:induction false} GroupLevels(w: seq<byte>, dec: Decoder, nb: nat, sc: nat, row: Row, g: nat, next: nat)
    requires Stored(w, dec, nb, sc, row)
    requires g < |row.scales| && g * GS <= next <= g * GS + GS && next <= |row.levels|
    ensures nb + g * HALF + HALF <= |w| && sc + g * 4 + 4 <= |w| && row.scales[g] == Scale(w, dec, sc, g)
    ensures forall c :: g * GS <= c < next ==> row.levels[c] == Nibble(w, nb + g * HALF, c - g * GS) as real
  {
    forall c | g * GS <= c < next
      ensures row.levels[c] == Nibble(w, nb + g * HALF, c - g * GS) as real
    {
      Split(g, c - g * GS);
    }
  }

  method AddGroup(w: seq<byte>, dec: Decoder, nb: nat, sc: nat, g: nat, x: seq<real>, ci: nat, next: nat, acc: real,
                  ghost row: Row)
      returns (sum: real)
    requires Stored(w, dec, nb, sc, row)
    requires g < |row.scales| && ci == g * GS && ci <= next <= ci + GS && next <= |row.levels| <= |x|
    ensures sum == PlusGroup(row, g, x, next - ci, acc)
  {
    GroupLevels(w, dec, nb, sc, row, g, next);
    var ga := GroupSum(w, nb, g, x, next - ci, row);
    sum := AddScaled(acc, ga, Scale(w, dec, sc, g));
  }

  /** The inner loops of `matmul_add`: levels are accumulated per group and scaled once. */
  method RowProduct(w: seq<byte>, dec: Decoder, nb: nat, sc: nat, cols: nat, x: seq<real>, ghost row: Row)
      returns (acc: real)
    requires Stored(w, dec, nb, sc, row) && |row.levels| == cols <= |x|
    ensures acc == RowDot(row, x, cols)
  {
    acc := 0.0;
    var ci := 0;
    for g := 0 to Groups(cols)
      invariant ci == GroupStart(cols, g)
      invariant acc == RowDot(row, x, ci)
    {
      GroupEnds(cols, g);
      var next := ci + Min(GS, cols - ci);
      ScaleOnce(row, g, x, ci, next);
      acc := AddGroup(w, dec, nb, sc, g, x, ci, next, acc, row);
      ci := next;
      assert ci >= cols ==> ci == cols;
      if ci >= cols { return; }
    }
    GroupEnds(cols, Groups(cols));
    assert ci == cols;
  }

  /** Row `r` of the dequantised matrix times `x`. */
  ghost function RowTimes(w: seq<byte>, dec: Decoder, m: MatQ, x: seq<real>, r: nat): real
    requires m.Valid(|w|) && r < m.rows && m.cols <= |x|
  {
    RowDot(RowOf(w, dec, m, r), x, m.cols)
  }

  method ProductWithRow(w: seq<byte>, dec: Decoder, m: MatQ, r: nat, x: seq<real>) returns (acc: real)
    requires m.Valid(|w|) && r < m.rows && m.cols <= |x|
    ensures acc == RowTimes(w, dec, m, x, r)
  {
    RowInRegion(w, m, r);
    acc := RowProduct(w, dec, m.NibbleAt(r, 0), m.ScaleAt(r, 0), m.cols, x, RowOf(w, dec, m, r));
  }

  /** `matmul_add`: y += W x, the same as dequantising each row and taking its dot product. */
  method MatmulAdd(w: seq<byte>, dec: Decoder, m: MatQ, x: seq<real>, y: array<real>)
    requires m.Valid(|w|) && m.cols <= |x| && m.rows <= y.Length
    modifies y
    ensures forall r :: 0 <= r < m.rows ==> y[r] == old(y[r]) + RowTimes(w, dec, m, x, r)
    ensures forall r :: m.rows <= r < y.Length ==> y[r] == old(y[r])
  {
    for r := 0 to m.rows
      invariant forall k :: 0 <= k < r ==> y[k] == old(y[k]) + RowTimes(w, dec, m, x, k)
      invariant forall k :: r <= k < y.Length ==> y[k] == old(y[k])
    {
      var acc := ProductWithRow(w, dec, m, r, x);
      y[r] := y[r] + acc;
    }
  }

  /** One at place `c`, zero elsewhere. */
  ghost predicate UnitAt(x: seq<real>, c: nat) {
    c < |x| && forall k :: 0 <= k < |x| ==> x[k] == if k == c then 1.0 else 0.0
  }

  lemma {:induction false} RowDotUnit(row: Row, x: seq<real>, c: nat, n: nat)
    requires row.Valid() && n <= |row.levels| <= |x| && UnitAt(x, c)
    ensures RowDot(row, x, n) == if c < n then row.Weight(c) else 0.0
  {
    if n > 0 { RowDotUnit(row, x, c, n - 1); }
  }

  /** The product with a unit vector is a column of weights. */
  lemma {:induction false} ColumnOfProduct(w: seq<byte>, dec: Decoder, m: MatQ, x: seq<real>, r: nat, c: nat)
    requires m.Valid(|w|) && r < m.rows && c < m.cols <= |x| && UnitAt(x, c)
    ensures RowTimes(w, dec, m, x, r) == RowOf(w, dec, m, r).Weight(c)
  {
    RowDotUnit(RowOf(w, dec, m, r), x, c, m.cols);
  }

  // ----- The weight file -------------------------------------------------------------

  datatype Arch = Arch(nLayers: nat, dModel: nat, nHeads: nat, nKv: nat, ffnDim: nat, headDim: nat)
  {
    function KvDim(): nat { Times(nKv, headDim) }
  }

  /** What `parse_weights` walks over: vectors of floats, checked against the file length,
      and matrices, allocated without any check. */
  datatype Item = Floats(n: nat) | Matrix(rows: nat, cols: nat)
  {
    function Size(): nat {
      match this
      case Floats(n) => n * 4
      case Matrix(rows, cols) => Times(rows, (cols + GS - 1) / GS) * (HALF + 4)
    }
  }

  function LayerItems(a: Arch): seq<Item> {
    var q, kv := a.nHeads * a.headDim, a.nKv * a.headDim;
    [Floats(a.dModel), Matrix(q, a.dModel), Floats(q), Matrix(kv, a.dModel), Floats(kv),
     Matrix(kv, a.dModel), Floats(kv), Matrix(a.dModel, q), Floats(a.dModel),
     Matrix(a.ffnDim, a.dModel), Matrix(a.ffnDim, a.dModel), Matrix(a.dModel, a.ffnDim)]
  }

  function Layers(a: Arch, n: nat): seq<Item> {
    if n == 0 then [] else Layers(a, n - 1) + LayerItems(a)
  }

  /** The whole file after the tokenizer. */
  function FileItems(a: Arch): seq<Item> {
    Layers(a, a.nLayers) + [Floats(a.dModel), Matrix(VOCAB, a.dModel), Matrix(VOCAB, a.dModel)]
  }

  function Sizes(items: seq<Item>): (r: seq<nat>)
    ensures |r| == |items| && forall i :: 0 <= i < |items| ==> r[i] == items[i].Size()
  {
    seq(|items|, i requires 0 <= i < |items| => items[i].Size())
  }

  /** Where piece `i` of a file starts, given the sizes of the pieces. */
  function Start(sizes: seq<nat>, base: nat, i: nat): nat
    requires i <= |sizes|
  {
    if i == 0 then base else Start(sizes, base, i - 1) + sizes[i - 1]
  }

  lemma {:induction false} AllocSize(rows: nat, cols: nat, base: nat)
    ensures Alloc(rows, cols, base).1 == base + Matrix(rows, cols).Size()
  {}

  lemma {:induction false} StartMonotone(sizes: seq<nat>, base: nat, i: nat, j: nat)
    requires i <= j <= |sizes|
    ensures Start(sizes, base, i) <= Start(sizes, base, j)
    decreases j
  {
    if i < j { StartMonotone(sizes, base, i, j - 1); }
  }

  /** Two pieces of any such file never share a byte. */
  lemma {:induction false} PiecesDisjoint(sizes: seq<nat>, base: nat, i: nat, j: nat)
    requires i < j < |sizes|
    ensures Start(sizes, base, i) + sizes[i] <= Start(sizes, base, j)
  {
    StartMonotone(sizes, base, i + 1, j);
  }

  /** Every float vector lies inside the first `len` bytes. */
  ghost predicate FloatsFit(items: seq<Item>, base: nat, len: nat, n: nat)
    requires n <= |items|
  {
    forall i :: 0 <= i < n && items[i].Floats? ==> Start(Sizes(items), base, i + 1) <= len
  }

  /** The matrix placed at item `i`. */
  ghost function MatAt(items: seq<Item>, base: nat, i: nat): MatQ
    requires i < |items| && items[i].Matrix?
  {
    Alloc(items[i].rows, items[i].cols, Start(Sizes(items), base, i)).0
  }

  /** The matrices among the first `n` items, in file order. */
  ghost function MatsOf(items: seq<Item>, base: nat, n: nat): seq<MatQ>
    requires n <= |items|
  {
    if n == 0 then []
    else MatsOf(items, base, n - 1) + if items[n - 1].Matrix? then [MatAt(items, base, n - 1)] else []
  }

  /** The parse walk: fails when a float vector runs past the end of the file. */
  method ParseItems(items: seq<Item>, base: nat, len: nat) returns (ok: bool, mats: seq<MatQ>)
    ensures ok <==> FloatsFit(items, base, len, |items|)
    ensures ok ==> mats == MatsOf(items, base, |items|)
  {
    var off := base;
    mats := [];
    ghost var sizes := Sizes(items);
    for k := 0 to |items|
      invariant off == Start(sizes, base, k)
      invariant FloatsFit(items, base, len, k)
      invariant mats == MatsOf(items, base, k)
    {
      assert Start(sizes, base, k + 1) == off + items[k].Size();
      match items[k] {
        case Floats(n) =>
          if off + n * 4 > len { return false, mats; }
          off := off + n * 4;
        case Matrix(rows, cols) =>
          AllocSize(rows, cols, off);
          var alloc := Alloc(rows, cols, off);
          mats := mats + [alloc.0];
          off := alloc.1;
      }
    }
    ok := true;
  }

  /** The reader assigns matrices by position: the matrix of item `i` stands after those of the
      items before it. */
  lemma {:induction false} MatPosition(items: seq<Item>, base: nat, i: nat, n: nat)
    requires i < n <= |items| && items[i].Matrix?
    ensures var k := |MatsOf(items, base, i)|;
      k < |MatsOf(items, base, n)| && MatsOf(items, base, n)[k] == MatAt(items, base, i)
  {
    if i < n - 1 { MatPosition(items, base, i, n - 1); }
  }

  /** Parsing a model file succeeds exactly when the file reaches the end of the output norm;
      the two vocabulary matrices after it are never checked. */
  lemma {:induction false} ParseAccepts(a: Arch, base: nat, len: nat)
    ensures var items := FileItems(a);
      FloatsFit(items, base, len, |items|) <==> Start(Sizes(items), base, |items| - 2) <= len
  {
    var items := FileItems(a);
    var k := |items| - 3;
    assert items[k].Floats?;
    forall i | 0 <= i < |items| && items[i].Floats?
      ensures Start(Sizes(items), base, i + 1) <= Start(Sizes(items), base, |items| - 2)
    {
      StartMonotone(Sizes(items), base, i + 1, |items| - 2);
    }
  }

  lemma {:induction false} MatEnd(items: seq<Item>, base: nat, i: nat)
    requires i < |items| && items[i].Matrix?
    ensures MatAt(items, base, i).End() == Start(Sizes(items), base, i + 1)
    ensures forall len :: MatAt(items, base, i).Valid(len) <==> MatAt(items, base, i).End() <= len
  {
    AllocSize(items[i].rows, items[i].cols, Start(Sizes(items), base, i));
  }

  /** Every matrix of a parsed file may be read safely exactly when the file holds the whole
      layout, which is more than parsing checks. */
  lemma {:induction false} MatricesInFileIff(a: Arch, base: nat, len: nat)
    ensures var items := FileItems(a);
      (forall i :: 0 <= i < |items| && items[i].Matrix? ==> MatAt(items, base, i).Valid(len))
      <==> Start(Sizes(items), base, |items|) <= len
  {
    var items := FileItems(a);
    forall i | 0 <= i < |items| && items[i].Matrix?
      ensures Start(Sizes(items), base, |items|) <= len ==> MatAt(items, base, i).Valid(len)
      ensures i == |items| - 1 && MatAt(items, base, i).Valid(len) ==> Start(Sizes(items), base, |items|) <= len
    {
      MatEnd(items, base, i);
      StartMonotone(Sizes(items), base, i + 1, |items|);
    }
    assert items[|items| - 1].Matrix?;
  }

  /** So there is always a file that parses although its last matrices run past its end. */
  lemma {:induction false} ParsingIsNotEnough(a: Arch, base: nat)
    requires a.dModel > 0
    ensures var items := FileItems(a); var len := Start(Sizes(items), base, |items| - 2);
      FloatsFit(items, base, len, |items|) && !MatAt(items, base, |items| - 1).Valid(len)
  {
    var items := FileItems(a);
    var n := |items|;
    ParseAccepts(a, base, Start(Sizes(items), base, n - 2));
    MatEnd(items, base, n - 1);
    assert Matrix(VOCAB, a.dModel).Size() > 0;
    assert Start(Sizes(items), base, n) == Start(Sizes(items), base, n - 1) + items[n - 1].Size();
    StartMonotone(Sizes(items), base, n - 2, n - 1);
  }

  // ----- What the converter packs ----------------------------------------------------------

  /** Levels that fit four bits. */
  ghost predicate Levels(levels: seq<int>) {
    |levels| == GS && forall k :: 0 <= k < GS ==> -8 <= levels[k] <= 7
  }

  /** scripts/convert_qwen_kernel.py packs two levels into a byte, in two's complement: the even
      one in the low half, the odd one in the high half. */
  function Packed(levels: seq<int>): (r: seq<byte>)
    requires |levels| == GS
    ensures |r| == HALF
  {
    seq(HALF, k requires 0 <= k < HALF => levels[2 * k] % 16 + 16 * (levels[2 * k + 1] % 16))
  }

  /** Reading a packed group returns its levels. */
  lemma {:induction false} NibbleRoundTrip(w: seq<byte>, at: nat, levels: seq<int>, i: nat)
    requires Levels(levels) && at + HALF <= |w| && w[at..at + HALF] == Packed(levels) && i < GS
    ensures Nibble(w, at, i) == levels[i]
  {
    var k := i / 2;
    assert w[at + k] == w[at..at + HALF][k] == levels[2 * k] % 16 + 16 * (levels[2 * k + 1] % 16);
    assert i == 2 * k || i == 2 * k + 1;
    Halves(levels[2 * k], levels[2 * k + 1]);
  }

  lemma {:induction false} Halves(lo: int, hi: int)
    requires -8 <= lo <= 7 && -8 <= hi <= 7
    ensures var b := lo % 16 + 16 * (hi % 16);
      && (if b % 16 > 7 then b % 16 - 16 else b % 16) == lo
      && (if b / 16 > 7 then b / 16 - 16 else b / 16) == hi
  {}

  /** So a weight of a matrix is the level that was packed for its column, times its group's scale. */
  lemma {:induction false} WeightRoundTrip(w: seq<byte>, dec: Decoder, m: MatQ, r: nat, g: nat, levels: seq<int>, i: nat)
    requires m.Valid(|w|) && r < m.rows && g < m.nGroups && i < GS && g * GS + i < m.cols
    requires m.NibbleAt(r, g) + HALF <= |w| && m.ScaleAt(r, g) + 4 <= |w|
    requires Levels(levels) && w[m.NibbleAt(r, g)..m.NibbleAt(r, g) + HALF] == Packed(levels)
    ensures RowOf(w, dec, m, r).Weight(g * GS + i)
         == Mul(levels[i] as real, dec(w[m.ScaleAt(r, g)..m.ScaleAt(r, g) + 4]))
  {
    RowInRegion(w, m, r);
    Split(g, i);
    GroupPlace(m, r, g);
    var nb, sc := m.NibbleAt(r, 0), m.ScaleAt(r, 0);
    NibbleRoundTrip(w, nb + g * HALF, levels, i);
    assert RowOf(w, dec, m, r) == RowAt(w, dec, nb, sc, m.cols);
    assert Level(w, nb, g * GS + i) == levels[i] as real;
    assert Scale(w, dec, sc, g) == dec(w[m.ScaleAt(r, g)..m.ScaleAt(r, g) + 4]);
  }

  lemma {:induction false} GroupPlace(m: MatQ, r: nat, g: nat)
    ensures m.NibbleAt(r, g) == m.NibbleAt(r, 0) + g * HALF && m.ScaleAt(r, g) == m.ScaleAt(r, 0) + g * 4
  {}

  /** A projection as the converter writes it: the matrix, then its bias. */
  function Projection(outDim: nat, inDim: nat): seq<Item> { [Matrix(outDim, inDim), Floats(outDim)] }

  function ConverterLayer(a: Arch): seq<Item> {
    var q, kv := a.nHeads * a.headDim, a.nKv * a.headDim;
    [Floats(a.dModel)] + Projection(q, a.dModel) + Projection(kv, a.dModel) + Projection(kv, a.dModel)
    + [Matrix(a.dModel, q)] + [Floats(a.dModel)] + [Matrix(a.ffnDim, a.dModel)] + [Matrix(a.ffnDim, a.dModel)]
    + [Matrix(a.dModel, a.ffnDim)]
  }

  function ConverterLayers(a: Arch, n: nat): seq<Item> {
    if n == 0 then [] else ConverterLayer(a) + ConverterLayers(a, n - 1)
  }

  /** The converter writes the items in the order in which the kernel reads them. */
  lemma {:induction false} ConverterOrder(a: Arch)
    ensures ConverterLayers(a, a.nLayers) + [Floats(a.dModel), Matrix(VOCAB, a.dModel), Matrix(VOCAB, a.dModel)] == FileItems(a)
  {
    SameLayers(a, a.nLayers);
  }

  lemma {:induction false} SameLayers(a: Arch, n: nat)
    ensures ConverterLayers(a, n) == Layers(a, n)
  {
    if n > 0 {
      SameLayers(a, n - 1);
      LayersFront(a, n);
      assert ConverterLayer(a) == LayerItems(a);
    }
  }

  lemma {:induction false} LayersFront(a: Arch, n: nat)
    requires n > 0
    ensures Layers(a, n) == LayerItems(a) + Layers(a, n - 1)
  {
    if n > 1 {
      LayersFront(a, n - 1);
      assert LayerItems(a) + Layers(a, n - 2) + LayerItems(a) == LayerItems(a) + (Layers(a, n - 2) + LayerItems(a));
    }
  }

  // ----- The converter's layout --------------------------------------------------------

  /** Where scripts/convert_qwen_kernel.py writes the nibbles and the scale of group `g` in row
      `r`: each group is its 16 nibble bytes followed by its scale. */
  function ConverterNibbleAt(m: MatQ, r: nat, g: nat): nat { m.nibOff + (r * m.nGroups + g) * (HALF + 4) }

  function ConverterScaleAt(m: MatQ, r: nat, g: nat): nat { ConverterNibbleAt(m, r, g) + HALF }

  ghost predicate AgreeAt(m: MatQ, r: nat, g: nat) {
    ConverterNibbleAt(m, r, g) == m.NibbleAt(r, g) && ConverterScaleAt(m, r, g) == m.ScaleAt(r, g)
  }

  /** The converted matrix takes the room the reader allocates, but every group lies where the
      kernel reads it if and only if there is at most one group. */
  lemma {:induction false} ConverterAgreesIff(rows: nat, cols: nat, base: nat)
    ensures var (m, end) := Alloc(rows, cols, base);
      && end == base + Times(rows, m.nGroups) * (HALF + 4)
      && ((forall r, g :: 0 <= r < rows && 0 <= g < m.nGroups ==> AgreeAt(m, r, g)) <==> Times(rows, m.nGroups) <= 1)
  {
    var m := Alloc(rows, cols, base).0;
    var n := Times(rows, m.nGroups);
    if n <= 1 {
      forall r, g | 0 <= r < rows && 0 <= g < m.nGroups
        ensures AgreeAt(m, r, g)
      {
        GroupIndex(rows, m.nGroups, r, g);
      }
    } else if m.nGroups > 1 {
      assert ConverterNibbleAt(m, 0, 1) != m.NibbleAt(0, 1);
      assert !AgreeAt(m, 0, 1);
    } else {
      assert ConverterNibbleAt(m, 1, 0) != m.NibbleAt(1, 0);
      assert !AgreeAt(m, 1, 0);
    }
  }
}
