/** Top-k selection, written three ways in the kernel: the shifting buffer of
    kernel/src/lm_mhs.rs (`find_kth_largest`), the bubble-in buffer of
    kernel/src/lm_projectk.rs (`sample`), and the re-sorted list of kernel/src/lm_qwen.rs
    (`sample_top_k`).  Floats are reals with a bottom element for -infinity. */
module TopK {
  import opened Prelude

  const TOP_K: nat := 40

  datatype Ext = NegInf | Fin(r: real)

  predicate Gt(a: Ext, b: Ext) {
    match (a, b)
    case (Fin(x), Fin(y)) => x > y
    case (Fin(_), NegInf) => true
    case (NegInf, _) => false
  }

  // ----- The reference: order statistics by counting ---------------------------------

  /** A lower bound on values: strictly above `x`, or at least the real `r`. */
  datatype Cut = Above(x: Ext) | AtLeast(r: real)
  {
    predicate Passes(a: Ext) {
      match this
      case Above(x) => Gt(a, x)
      case AtLeast(r) => a.Fin? && a.r >= r
    }
  }

  ghost function Count(s: seq<Ext>, cut: Cut): (n: nat)
    ensures n <= |s|
  {
    if s == [] then 0 else Count(s[..|s| - 1], cut) + if cut.Passes(s[|s| - 1]) then 1 else 0
  }

  /** `v` is the k-th largest of `vals`, counted with multiplicity. */
  ghost predicate IsKth(vals: seq<Ext>, k: nat, v: Ext) {
    && Count(vals, Above(v)) < k
    && (if v.Fin? then k <= Count(vals, AtLeast(v.r)) else k <= |vals|)
  }

  lemma {:induction false} CountMono(s: seq<Ext>, c: Cut, d: Cut)
    requires forall a :: c.Passes(a) ==> d.Passes(a)
    ensures Count(s, c) <= Count(s, d)
  {
    if s != [] { CountMono(s[..|s| - 1], c, d); }
  }

  /** There is at most one k-th largest value. */
  lemma {:induction false} KthUnique(vals: seq<Ext>, k: nat, v: Ext, w: Ext)
    requires IsKth(vals, k, v) && IsKth(vals, k, w)
    ensures v == w
  {
    if Gt(v, w) { CountMono(vals, AtLeast(v.r), Above(w)); }
    if Gt(w, v) { CountMono(vals, AtLeast(w.r), Above(v)); }
  }

  // ----- Sorted buffers --------------------------------------------------------------

  ghost predicate Sorted(s: seq<Ext>) { forall i, j :: 0 <= i < j < |s| ==> !Gt(s[j], s[i]) }

  /** In a descending sequence the values that pass a cut are the first ones. */
  lemma {:induction false} SortedCount(s: seq<Ext>, cut: Cut)
    requires Sorted(s)
    ensures forall i :: 0 <= i < |s| ==> (cut.Passes(s[i]) <==> i < Count(s, cut))
  {
    if s != [] {
      var n := |s| - 1;
      SortedCount(s[..n], cut);
      assert forall i :: 0 <= i < n ==> s[..n][i] == s[i];
      var c := Count(s[..n], cut);
      assert c < n ==> !Gt(s[n], s[c]) && !cut.Passes(s[c]);
    }
  }

  lemma {:induction false} CountFrom(s: seq<Ext>, cut: Cut, c: nat)
    requires c <= |s| && forall i :: 0 <= i < |s| ==> (cut.Passes(s[i]) <==> i < c)
    ensures Count(s, cut) == c
  {
    if s != [] {
      var n := |s| - 1;
      CountFrom(s[..n], cut, if c == |s| then n else c);
    }
  }

  /** The first place whose value is below `v`. */
  ghost function Place(buf: seq<Ext>, v: Ext, from: nat): (p: nat)
    requires from <= |buf|
    ensures from <= p <= |buf|
    ensures forall i :: from <= i < p ==> !Gt(v, buf[i])
    ensures p < |buf| ==> Gt(v, buf[p])
    decreases |buf| - from
  {
    if from == |buf| || Gt(v, buf[from]) then from else Place(buf, v, from + 1)
  }

  /** `v` inserted into a buffer of fixed length, the last value dropped. */
  ghost function Insert(buf: seq<Ext>, v: Ext): (r: seq<Ext>)
    ensures |r| == |buf|
  {
    var p := Place(buf, v, 0);
    if p == |buf| then buf else buf[..p] + [v] + buf[p..|buf| - 1]
  }

  /** A buffer that holds the k largest values of `vals`, padded with -infinity. */
  ghost predicate Holds(top: seq<Ext>, vals: seq<Ext>) {
    Sorted(top) && forall cut :: Count(top, cut) == Min(|top|, Count(vals, cut))
  }

  lemma {:induction false} InsertSorted(buf: seq<Ext>, v: Ext)
    requires Sorted(buf)
    ensures Sorted(Insert(buf, v))
  {
    var p, r := Place(buf, v, 0), Insert(buf, v);
    if p < |buf| {
      forall i, j | 0 <= i < j < |r|
        ensures !Gt(r[j], r[i])
      {
        if j == p { assert !Gt(v, buf[i]); }
        if i == p { assert !Gt(buf[j - 1], buf[p]) || j - 1 == p; }
      }
    }
  }

  lemma {:induction false} InsertAt(buf: seq<Ext>, v: Ext, i: nat)
    requires i < |buf| && Place(buf, v, 0) < |buf|
    ensures var p := Place(buf, v, 0);
      Insert(buf, v)[i] == if i < p then buf[i] else if i == p then v else buf[i - 1]
  {}

  lemma {:induction false} InsertCount(buf: seq<Ext>, v: Ext, cut: Cut)
    requires Sorted(buf)
    ensures Count(Insert(buf, v), cut) == Min(|buf|, Count(buf, cut) + if cut.Passes(v) then 1 else 0)
  {
    var p, r, c := Place(buf, v, 0), Insert(buf, v), Count(buf, cut);
    PlaceVsCount(buf, v, cut);
    SortedCount(buf, cut);
    if p < |buf| {
      var c' := Min(|buf|, if cut.Passes(v) then c + 1 else c);
      forall i | 0 <= i < |r|
        ensures cut.Passes(r[i]) <==> i < c'
      {
        InsertAt(buf, v, i);
      }
      CountFrom(r, cut, c');
    }
  }

  lemma {:induction false} PlaceVsCount(buf: seq<Ext>, v: Ext, cut: Cut)
    requires Sorted(buf)
    ensures if cut.Passes(v) then Place(buf, v, 0) <= Count(buf, cut) else Count(buf, cut) <= Place(buf, v, 0)
  {
    var p, c := Place(buf, v, 0), Count(buf, cut);
    SortedCount(buf, cut);
    assert c < p ==> !Gt(v, buf[c]);
    assert p < c ==> Gt(v, buf[p]) && cut.Passes(buf[p]);
  }

  /** Inserting the next value keeps the buffer right. */
  lemma {:induction false} InsertHolds(top: seq<Ext>, vals: seq<Ext>, v: Ext)
    requires Holds(top, vals)
    ensures Holds(Insert(top, v), vals + [v])
  {
    InsertSorted(top, v);
    forall cut: Cut
      ensures Count(Insert(top, v), cut) == Min(|top|, Count(vals + [v], cut))
    {
      InsertCount(top, v, cut);
      assert (vals + [v])[..|vals|] == vals;
      assert Count(top, cut) == Min(|top|, Count(vals, cut));
    }
  }

  /** The last value of a right buffer is the k-th largest. */
  lemma {:induction false} LastIsKth(top: seq<Ext>, vals: seq<Ext>)
    requires Holds(top, vals) && 1 <= |top| <= |vals|
    ensures IsKth(vals, |top|, top[|top| - 1])
  {
    var k := |top|;
    var v := top[k - 1];
    SortedCount(top, Above(v));
    assert Count(top, Above(v)) == Min(k, Count(vals, Above(v)));
    if v.Fin? {
      SortedCount(top, AtLeast(v.r));
      assert Count(top, AtLeast(v.r)) == Min(k, Count(vals, AtLeast(v.r)));
    }
  }

  /** With fewer values than places, the last place is still empty. */
  lemma {:induction false} LastIsEmpty(top: seq<Ext>, vals: seq<Ext>)
    requires Holds(top, vals) && |vals| < |top|
    ensures top[|top| - 1] == NegInf
  {
    var k := |top|;
    SortedCount(top, Above(NegInf));
    assert Count(top, Above(NegInf)) == Min(k, Count(vals, Above(NegInf)));
  }

  ghost function Bottom(k: nat): (r: seq<Ext>)
    ensures |r| == k && forall i :: 0 <= i < k ==> r[i] == NegInf
  {
    seq(k, i => NegInf)
  }

  lemma {:induction false} BottomHolds(k: nat)
    ensures Holds(Bottom(k), [])
  {
    forall cut: Cut
      ensures Count(Bottom(k), cut) == 0
    {
      CountFrom(Bottom(k), cut, 0);
    }
  }

  // ----- find_kth_largest (lm_mhs.rs) --------------------------------------------------

  /** The inner loops: find the place, shift the rest right by one. */
  method ShiftIn(buf: array<Ext>, m: nat, v: Ext)
    requires m <= buf.Length
    modifies buf
    ensures buf[..m] == Insert(old(buf[..m]), v)
    ensures buf[m..] == old(buf[m..])
  {
    for j := 0 to m
      invariant buf[..] == old(buf[..])
      invariant forall i :: 0 <= i < j ==> !Gt(v, buf[i])
    {
      if Gt(v, buf[j]) {
        PlaceIs(buf[..m], v, j);
        var mv := v;
        for i := j to m
          invariant buf[..j] == old(buf[..j]) && buf[m..] == old(buf[m..])
          invariant forall l :: i <= l < m ==> buf[l] == old(buf[l])
          invariant i > j ==> buf[j] == v && mv == old(buf[i - 1])
          invariant i == j ==> mv == v
          invariant forall l :: j < l < i ==> buf[l] == old(buf[l - 1])
        {
          buf[i], mv := mv, buf[i];
        }
        assert buf[..m] == old(buf[..m])[..j] + [v] + old(buf[..m])[j..m - 1];
        return;
      }
    }
    PlaceIs(buf[..m], v, m);
  }

  lemma {:induction false} PlaceIs(buf: seq<Ext>, v: Ext, p: nat)
    requires p <= |buf| && (forall i :: 0 <= i < p ==> !Gt(v, buf[i])) && (p < |buf| ==> Gt(v, buf[p]))
    ensures Place(buf, v, 0) == p
  {}

  /** The largest value, or -infinity for no values. */
  ghost predicate IsMax(vals: seq<Ext>, r: Ext) {
    if vals == [] then r == NegInf else IsKth(vals, 1, r)
  }

  lemma {:induction false} MaxIsFirst(vals: seq<Ext>, r: Ext)
    requires (forall i :: 0 <= i < |vals| ==> !Gt(vals[i], r)) && (r == NegInf || r in vals)
    ensures IsMax(vals, r)
  {
    CountFrom(vals, Above(r), 0);
    if r.Fin? {
      var i :| 0 <= i < |vals| && vals[i] == r;
      CountSome(vals, AtLeast(r.r), i);
    }
  }

  lemma {:induction false} CountSome(s: seq<Ext>, cut: Cut, i: nat)
    requires i < |s| && cut.Passes(s[i])
    ensures Count(s, cut) >= 1
  {
    if i < |s| - 1 { CountSome(s[..|s| - 1], cut, i); }
  }

  method FindKthLargest(vals: seq<Ext>, k: nat) returns (r: Ext)
    ensures k >= |vals| ==> IsMax(vals, r)
    ensures 0 < k < |vals| ==> IsKth(vals, Min(k, TOP_K), r)
    ensures k == 0 < |vals| ==> r == NegInf
  {
    if k >= |vals| {
      r := Largest(vals);
    } else {
      r := KthByShifting(vals, Min(k, TOP_K));
    }
  }

  method Largest(vals: seq<Ext>) returns (r: Ext)
    ensures IsMax(vals, r)
  {
    r := NegInf;
    for n := 0 to |vals|
      invariant forall i :: 0 <= i < n ==> !Gt(vals[i], r)
      invariant r == NegInf || r in vals
    {
      if Gt(vals[n], r) { r := vals[n]; }
    }
    MaxIsFirst(vals, r);
  }

  method KthByShifting(vals: seq<Ext>, m: nat) returns (r: Ext)
    requires m <= TOP_K && m < |vals|
    ensures if m == 0 then r == NegInf else IsKth(vals, m, r)
  {
    var buf := new Ext[TOP_K](i => NegInf);
    ghost var rest := buf[m..];
    assert buf[..m] == Bottom(m) && vals[..0] == [];
    BottomHolds(m);
    for n := 0 to |vals|
      invariant Holds(buf[..m], vals[..n]) && buf[m..] == rest
    {
      InsertHolds(buf[..m], vals[..n], vals[n]);
      assert vals[..n] + [vals[n]] == vals[..n + 1];
      ShiftIn(buf, m, vals[n]);
    }
    assert vals[..|vals|] == vals;
    if m == 0 {
      assert buf[0] == rest[0];
      r := buf[0];
    } else {
      LastIsKth(buf[..m], vals);
      r := buf[m - 1];
    }
  }

  lemma {:induction false} CountAll(s: seq<Ext>, cut: Cut)
    ensures Count(s, cut) == |s| <==> forall i :: 0 <= i < |s| ==> cut.Passes(s[i])
  {
    if s != [] {
      var n := |s| - 1;
      CountAll(s[..n], cut);
      assert forall i :: 0 <= i < n ==> s[..n][i] == s[i];
    }
  }

  /** No bound separates the j-th largest value from the k-th: they are equal. */
  ghost predicate Tied(vals: seq<Ext>, j: nat, k: nat) {
    forall cut :: Count(vals, cut) >= j ==> Count(vals, cut) >= k
  }

  /** The name promises the k-th largest.  Whatever value satisfies the contract above delivers it
      exactly in these cases: there are more than k values, and k is at most 40 or the k-th is
      tied with the 40th; or there are just k values, all of them equal.  With k values the
      function returns the largest, and beyond 40 it keeps only 40 places. */
  lemma {:induction false} FindKthIff(vals: seq<Ext>, k: nat, r: Ext)
    requires 1 <= k && |vals| >= 1
    requires if k >= |vals| then IsMax(vals, r) else IsKth(vals, Min(k, TOP_K), r)
    ensures IsKth(vals, k, r) <==>
      || (k < |vals| && (k <= TOP_K || Tied(vals, TOP_K, k)))
      || (k == |vals| && forall i :: 0 <= i < |vals| ==> vals[i] == vals[0])
  {
    if k == |vals| {
      AllEqualIff(vals, r);
    } else if TOP_K < k < |vals| {
      TiedIff(vals, TOP_K, k, r);
    }
  }

  /** The largest value is also the smallest exactly when all values are equal. */
  lemma {:induction false} AllEqualIff(vals: seq<Ext>, r: Ext)
    requires |vals| >= 1 && IsMax(vals, r)
    ensures IsKth(vals, |vals|, r) <==> forall i :: 0 <= i < |vals| ==> vals[i] == vals[0]
  {
    CountNone(vals, Above(r));
    if r.Fin? {
      CountAll(vals, AtLeast(r.r));
      assert forall i :: 0 <= i < |vals| ==> (AtLeast(r.r).Passes(vals[i]) <==> vals[i] == r);
      if forall i :: 0 <= i < |vals| ==> vals[i] == vals[0] { EqualToMax(vals, r); }
    } else {
      assert forall i :: 0 <= i < |vals| ==> vals[i] == NegInf;
    }
  }

  lemma {:induction false} EqualToMax(vals: seq<Ext>, r: Ext)
    requires |vals| >= 1 && r.Fin? && Count(vals, AtLeast(r.r)) >= 1
    requires forall i :: 0 <= i < |vals| ==> vals[i] == vals[0] && !Gt(vals[i], r)
    ensures vals[0] == r
  {
    if vals[0] != r {
      CountFrom(vals, AtLeast(r.r), 0);
    }
  }

  /** The j-th largest is the k-th largest exactly when the two are tied. */
  lemma {:induction false} TiedIff(vals: seq<Ext>, j: nat, k: nat, r: Ext)
    requires j <= k <= |vals| && IsKth(vals, j, r)
    ensures IsKth(vals, k, r) <==> Tied(vals, j, k)
  {
    forall cut | Count(vals, cut) >= j
      ensures r.Fin? && Count(vals, AtLeast(r.r)) <= Count(vals, cut)
    {
      AboveTheRest(vals, cut, r, j);
    }
  }

  lemma {:induction false} AboveTheRest(vals: seq<Ext>, cut: Cut, r: Ext, j: nat)
    requires Count(vals, cut) >= j && Count(vals, Above(r)) < j
    ensures r.Fin? && Count(vals, AtLeast(r.r)) <= Count(vals, cut)
  {
    if cut.Passes(r) {
      CountMono(vals, AtLeast(r.r), cut);
    } else {
      CountMono(vals, cut, Above(r));
    }
  }

  /** Asked for the 41st largest of fifty values, the function returns the 40th. */
  lemma {:induction false} FortyOnly()
    ensures var vals := seq(50, i => Fin((49 - i) as real));
      IsKth(vals, TOP_K, Fin(10.0)) && !IsKth(vals, 41, Fin(10.0)) && IsKth(vals, 41, Fin(9.0))
  {
    var vals := seq(50, i => Fin((49 - i) as real));
    CountFrom(vals, Above(Fin(10.0)), 39);
    CountFrom(vals, AtLeast(10.0), 40);
    CountFrom(vals, Above(Fin(9.0)), 40);
    CountFrom(vals, AtLeast(9.0), 41);
  }

  /** The second largest of two values would be the smaller one. */
  lemma {:induction false} TwoOfTwo()
    ensures var vals := [Fin(1.0), Fin(2.0)]; IsMax(vals, Fin(2.0)) && !IsKth(vals, 2, Fin(2.0)) && IsKth(vals, 2, Fin(1.0))
  {
    var vals := [Fin(1.0), Fin(2.0)];
    assert vals[..1] == [Fin(1.0)] && vals[..1][..0] == [];
    assert forall cut :: Count([Fin(1.0)], cut) == if cut.Passes(Fin(1.0)) then 1 else 0;
    assert forall cut :: Count(vals, cut) == Count(vals[..1], cut) + if cut.Passes(Fin(2.0)) then 1 else 0;
  }

  lemma {:induction false} CountNone(s: seq<Ext>, cut: Cut)
    requires Count(s, cut) == 0
    ensures forall i :: 0 <= i < |s| ==> !cut.Passes(s[i])
  {
    forall i | 0 <= i < |s|
      ensures !cut.Passes(s[i])
    {
      if cut.Passes(s[i]) { CountSome(s, cut, i); }
    }
  }

  // ----- sample (lm_projectk.rs) -------------------------------------------------------

  /** One value of the top-k filter: overwrite the last place, then bubble up. */
  method BubbleIn(tv: array<Ext>, v: Ext)
    requires tv.Length == TOP_K && Sorted(tv[..])
    modifies tv
    ensures tv[..] == Insert(old(tv[..]), v)
  {
    ghost var was := tv[..];
    if !Gt(v, tv[TOP_K - 1]) {
      assert forall i :: 0 <= i < TOP_K - 1 ==> !Gt(was[TOP_K - 1], was[i]);
      PlaceIs(was, v, TOP_K);
      return;
    }
    tv[TOP_K - 1] := v;
    var j := TOP_K - 1;
    while j > 0 && Gt(tv[j], tv[j - 1])
      invariant 0 <= j <= TOP_K - 1 && Gt(v, was[j])
      invariant tv[..] == was[..j] + [v] + was[j..TOP_K - 1]
    {
      tv[j], tv[j - 1] := tv[j - 1], tv[j];
      j := j - 1;
    }
    assert forall i :: 0 <= i < j ==> !Gt(v, was[i]) by {
      if j > 0 { assert was[j - 1] == tv[j - 1] && tv[j] == v; }
    }
    PlaceIs(was, v, j);
  }

  /** The threshold of `sample`; with fewer than TOP_K values it is -infinity. */
  method BubbleThreshold(vals: seq<Ext>) returns (kth: Ext)
    ensures |vals| >= TOP_K ==> IsKth(vals, TOP_K, kth)
    ensures |vals| < TOP_K ==> kth == NegInf
  {
    var tv := new Ext[TOP_K](i => NegInf);
    assert tv[..] == Bottom(TOP_K) && vals[..0] == [];
    BottomHolds(TOP_K);
    for n := 0 to |vals|
      invariant Holds(tv[..], vals[..n])
    {
      InsertHolds(tv[..], vals[..n], vals[n]);
      assert vals[..n] + [vals[n]] == vals[..n + 1];
      BubbleIn(tv, vals[n]);
    }
    assert vals[..|vals|] == vals;
    if |vals| >= TOP_K { LastIsKth(tv[..], vals); } else { LastIsEmpty(tv[..], vals); }
    kth := tv[TOP_K - 1];
  }

  // ----- sample_top_k (lm_qwen.rs) -----------------------------------------------------

  /** A probability and the token it belongs to. */
  type Entry = (Ext, nat)

  ghost function Keys(s: seq<Entry>): (r: seq<Ext>)
    ensures |r| == |s| && forall i :: 0 <= i < |s| ==> r[i] == s[i].0
  {
    seq(|s|, i requires 0 <= i < |s| => s[i].0)
  }

  function EntryPlace(s: seq<Entry>, v: Ext, from: nat): (p: nat)
    requires from <= |s|
    ensures from <= p <= |s|
    ensures forall i :: from <= i < p ==> !Gt(v, s[i].0)
    ensures p < |s| ==> Gt(v, s[p].0)
    decreases |s| - from
  {
    if from == |s| || Gt(v, s[from].0) then from else EntryPlace(s, v, from + 1)
  }

  /** The library's stable descending sort, as insertion after equal keys. */
  function SortDesc(s: seq<Entry>): (r: seq<Entry>)
    ensures |r| == |s| && multiset(r) == multiset(s)
  {
    if s == [] then [] else
      var rest, e := SortDesc(s[..|s| - 1]), s[|s| - 1];
      var p := EntryPlace(rest, e.0, 0);
      assert s == s[..|s| - 1] + [e];
      assert rest == rest[..p] + rest[p..];
      rest[..p] + [e] + rest[p..]
  }

  lemma {:induction false} SortKeys(s: seq<Entry>)
    ensures Sorted(Keys(SortDesc(s)))
    ensures forall cut :: Count(Keys(SortDesc(s)), cut) == Count(Keys(s), cut)
  {
    if s != [] {
      var n := |s| - 1;
      var rest, e := SortDesc(s[..n]), s[n];
      SortKeys(s[..n]);
      var p, r := EntryPlace(rest, e.0, 0), Keys(SortDesc(s));
      PlaceIs(Keys(rest), e.0, p);
      assert r == Keys(rest)[..p] + [e.0] + Keys(rest)[p..];
      InsertedSorted(Keys(rest), e.0, r);
      forall cut: Cut
        ensures Count(r, cut) == Count(Keys(s), cut)
      {
        InsertedCount(Keys(rest), e.0, cut, r);
        KeysLast(s, cut);
      }
    }
  }

  lemma {:induction false} KeysLast(s: seq<Entry>, cut: Cut)
    requires s != []
    ensures Count(Keys(s), cut) == Count(Keys(s[..|s| - 1]), cut) + if cut.Passes(s[|s| - 1].0) then 1 else 0
  {
    assert Keys(s)[..|s| - 1] == Keys(s[..|s| - 1]);
  }

  lemma {:induction false} InsertedSorted(s: seq<Ext>, v: Ext, r: seq<Ext>)
    requires Sorted(s) && r == s[..Place(s, v, 0)] + [v] + s[Place(s, v, 0)..]
    ensures Sorted(r)
  {
    var p := Place(s, v, 0);
    forall i, j | 0 <= i < j < |r|
      ensures !Gt(r[j], r[i])
    {
      if j == p { assert !Gt(v, s[i]); }
      if i == p { assert !Gt(s[j - 1], s[p]) || j - 1 == p; }
    }
  }

  lemma {:induction false} InsertedCount(s: seq<Ext>, v: Ext, cut: Cut, r: seq<Ext>)
    requires Sorted(s) && r == s[..Place(s, v, 0)] + [v] + s[Place(s, v, 0)..]
    ensures Count(r, cut) == Count(s, cut) + if cut.Passes(v) then 1 else 0
  {
    var p, c := Place(s, v, 0), Count(s, cut);
    PlaceVsCount(s, v, cut);
    SortedCount(s, cut);
    assert r[p] == v;
    assert forall i :: 0 <= i < p ==> r[i] == s[i];
    assert forall i :: p < i < |r| ==> r[i] == s[i - 1];
    CountFrom(r, cut, if cut.Passes(v) then c + 1 else c);
  }

  /** Overwriting the last, smallest entry by a larger one and re-sorting is one insertion. */
  lemma {:induction false} ReplaceLast(top: seq<Entry>, vals: seq<Ext>, e: Entry)
    requires |top| >= 1 && Holds(Keys(top), vals) && Gt(e.0, top[|top| - 1].0)
    ensures Holds(Keys(SortDesc(top[|top| - 1 := e])), vals + [e.0])
  {
    var n := |top| - 1;
    var swapped := top[n := e];
    SortKeys(swapped);
    forall cut: Cut
      ensures Count(Keys(SortDesc(swapped)), cut) == Min(|top|, Count(vals + [e.0], cut))
    {
      KeysLast(swapped, cut);
      KeysLast(top, cut);
      assert swapped[..n] == top[..n];
      SortedCount(Keys(top), cut);
      assert Count(Keys(top), cut) == Min(|top|, Count(vals, cut));
      assert (vals + [e.0])[..|vals|] == vals;
      assert cut.Passes(top[n].0) ==> cut.Passes(e.0) && Count(Keys(top), cut) == |top|;
    }
  }

  lemma {:induction false} KeepList(top: seq<Entry>, vals: seq<Ext>, v: Ext)
    requires |top| >= 1 && Holds(Keys(top), vals) && !Gt(v, top[|top| - 1].0)
    ensures Holds(Keys(top), vals + [v])
  {
    var k := Keys(top);
    forall cut: Cut
      ensures Count(k, cut) == Min(|k|, Count(vals + [v], cut))
    {
      SortedCount(k, cut);
      assert Count(k, cut) == Min(|k|, Count(vals, cut));
      assert (vals + [v])[..|vals|] == vals;
      assert cut.Passes(v) ==> cut.Passes(k[|k| - 1]);
    }
  }

  lemma {:induction false} FirstFull(top: seq<Entry>, vals: seq<Ext>)
    requires |top| == |vals| && Keys(top) == vals
    ensures Holds(Keys(SortDesc(top)), vals)
  {
    SortKeys(top);
    forall cut: Cut
      ensures Count(Keys(SortDesc(top)), cut) == Min(|top|, Count(vals, cut))
    {
    }
  }

  /** What the list is after `i` values: every entry is a value with its own index, no index
      is listed twice; all values in input order while there are fewer than TOP_K, afterwards
      the TOP_K largest, descending. */
  ghost predicate ListOf(top: seq<Entry>, vals: seq<Ext>, i: nat)
    requires i <= |vals|
  {
    && |top| == Min(i, TOP_K)
    && (if i < TOP_K then Keys(top) == vals[..i] else Holds(Keys(top), vals[..i]))
    && Distinct(top, vals, i)
  }

  ghost predicate Distinct(top: seq<Entry>, vals: seq<Ext>, i: nat)
    requires i <= |vals|
  {
    && (forall e :: e in top ==> e.1 < i && vals[e.1] == e.0)
    && (forall e :: multiset(top)[e] <= 1)
  }

  lemma {:induction false} DistinctAppend(top: seq<Entry>, vals: seq<Ext>, i: nat)
    requires i < |vals| && Distinct(top, vals, i)
    ensures Distinct(top + [(vals[i], i)], vals, i + 1)
  {
    var e := (vals[i], i);
    assert e !in top && multiset(top)[e] == 0;
  }

  lemma {:induction false} DistinctReplace(top: seq<Entry>, vals: seq<Ext>, i: nat)
    requires i < |vals| && top != [] && Distinct(top, vals, i)
    ensures Distinct(top[|top| - 1 := (vals[i], i)], vals, i + 1)
  {
    var n, e := |top| - 1, (vals[i], i);
    assert e !in top && multiset(top)[e] == 0;
    assert top == top[..n] + [top[n]] && top[n := e] == top[..n] + [e];
  }

  lemma {:induction false} DistinctSort(top: seq<Entry>, vals: seq<Ext>, i: nat)
    requires i <= |vals| && Distinct(top, vals, i)
    ensures Distinct(SortDesc(top), vals, i)
  {
    SameEntries(top);
  }

  /** One value of the scan. */
  method ListStep(top: seq<Entry>, vals: seq<Ext>, i: nat) returns (next: seq<Entry>)
    requires i < |vals| && ListOf(top, vals, i)
    ensures ListOf(next, vals, i + 1)
  {
    var e := (vals[i], i);
    assert vals[..i] + [vals[i]] == vals[..i + 1];
    if |top| < TOP_K {
      next := top + [e];
      assert Keys(next) == vals[..i + 1];
      DistinctAppend(top, vals, i);
      if |next| == TOP_K {
        FirstFull(next, vals[..i + 1]);
        DistinctSort(next, vals, i + 1);
        next := SortDesc(next);
      }
    } else if Gt(e.0, top[TOP_K - 1].0) {
      next := top[TOP_K - 1 := e];
      ReplaceLast(top, vals[..i], e);
      DistinctReplace(top, vals, i);
      DistinctSort(next, vals, i + 1);
      next := SortDesc(next);
    } else {
      KeepList(top, vals[..i], e.0);
      next := top;
    }
  }

  method TopList(vals: seq<Ext>) returns (top: seq<Entry>)
    ensures ListOf(top, vals, |vals|)
    ensures |vals| >= TOP_K ==> IsKth(vals, TOP_K, top[TOP_K - 1].0)
  {
    top := [];
    for i := 0 to |vals|
      invariant ListOf(top, vals, i)
    {
      top := ListStep(top, vals, i);
    }
    if |vals| >= TOP_K {
      assert vals[..|vals|] == vals;
      LastIsKth(Keys(top), vals);
    }
  }

  lemma {:induction false} SameEntries(s: seq<Entry>)
    ensures forall e :: e in SortDesc(s) <==> e in s
  {
    assert forall e :: e in SortDesc(s) <==> e in multiset(SortDesc(s));
    assert forall e :: e in s <==> e in multiset(s);
  }

  // ----- One threshold, and what masking with it keeps ---------------------------------

  /** The three selections agree on every list longer than TOP_K. */
  method SameThreshold(vals: seq<Ext>) returns (a: Ext, b: Ext, c: Ext)
    ensures |vals| > TOP_K ==> a == b == c && IsKth(vals, TOP_K, a)
  {
    a := FindKthLargest(vals, TOP_K);
    b := BubbleThreshold(vals);
    var top := TopList(vals);
    c := if |top| == TOP_K then top[TOP_K - 1].0 else NegInf;
    if |vals| > TOP_K {
      KthUnique(vals, TOP_K, a, b);
      KthUnique(vals, TOP_K, a, c);
    }
  }

  /** `if x < kth { x = floor }` over the whole list. */
  method Mask(l: array<Ext>, kth: Ext, floor: Ext)
    modifies l
    ensures forall i :: 0 <= i < l.Length ==> l[i] == if Gt(kth, old(l[i])) then floor else old(l[i])
  {
    for i := 0 to l.Length
      invariant forall j :: 0 <= j < i ==> l[j] == if Gt(kth, old(l[j])) then floor else old(l[j])
      invariant forall j :: i <= j < l.Length ==> l[j] == old(l[j])
    {
      if Gt(kth, l[i]) { l[i] := floor; }
    }
  }

  /** Masking with the k-th largest value keeps at least k values, and exactly k unless the
      next largest is equal to it. */
  lemma {:induction false} MaskKeeps(vals: seq<Ext>, k: nat, kth: Ext)
    requires IsKth(vals, k, kth) && kth.Fin?
    ensures Count(vals, AtLeast(kth.r)) >= k
    ensures Count(vals, AtLeast(kth.r)) == k <==> !IsKth(vals, k + 1, kth)
    ensures forall a :: AtLeast(kth.r).Passes(a) <==> !Gt(kth, a)
  {}

  /** A vocabulary of at most TOP_K tokens: the caller asks for as many values as there are,
      gets the largest, and masks everything that is not a largest value. */
  lemma {:induction false} SmallVocabularyIsGreedy(vals: seq<Ext>, kth: Ext)
    requires 1 <= |vals| <= TOP_K && IsMax(vals, kth)
    ensures forall i :: 0 <= i < |vals| ==> (!Gt(kth, vals[i]) <==> vals[i] == kth)
  {
    CountNone(vals, Above(kth));
  }
}
