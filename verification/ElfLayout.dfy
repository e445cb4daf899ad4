/** kernel/src/elf.rs, first half of `relocate_module`: laying the sections of a
    relocatable file out in the module buffer and copying them there. */
module ElfLayout {
  import opened Bits
  import opened ElfReloc

  const SHT_NULL: nat := 0
  const SHT_SYMTAB: nat := 2
  const SHT_RELA: nat := 4
  const SHT_NOBITS: nat := 8

  /** The section header fields that the loader reads. */
  datatype Shdr = Shdr(kind: nat, offset: nat, size: nat, link: nat, info: nat, addralign: nat)
  {
    /** Sections that are given room in the buffer. */
    predicate Loaded() { kind != SHT_NOBITS && kind != SHT_NULL && size > 0 }

    function Align(): nat { if addralign > 1 then addralign else 1 }
  }

  // ----- Alignment -----------------------------------------------------------------

  /** `(cursor + align - 1) & !(align - 1)` on 64 bits. */
  function AlignUp(cursor: nat, align: nat): (r: nat)
    requires 1 <= align <= U64
    ensures r <= cursor + align - 1
  {
    And(cursor + align - 1, U64 - 1 - (align - 1))
  }

  lemma Pow2Value()
    ensures Pow2(64) == U64
  {
    assert Pow2(4) == 16;
    Pow2Add(4, 4);
    Pow2Add(8, 8);
    Pow2Add(16, 16);
    Pow2Add(32, 32);
  }

  lemma {:induction false} Pow2Add(a: nat, b: nat)
    ensures Pow2(a + b) == Pow2(a) * Pow2(b)
  {
    if a != 0 {
      Pow2Add(a - 1, b);
      assert Pow2(a + b) == 2 * (Pow2(a - 1) * Pow2(b)) == 2 * Pow2(a - 1) * Pow2(b);
    }
  }

  lemma {:induction false} AndOnes(x: nat, w: nat)
    requires x < Pow2(w)
    ensures And(x, Pow2(w) - 1) == x
    decreases w
  {
    if w != 0 && x != 0 {
      AndOnes(x / 2, w - 1);
      assert (Pow2(w) - 1) / 2 == Pow2(w - 1) - 1 && (Pow2(w) - 1) % 2 == 1;
    }
  }

  lemma HalfMod(x: nat, m: nat)
    requires m >= 1
    ensures x % (2 * m) == 2 * (x / 2 % m) + x % 2
  {
    var h := x / 2;
    var q, r := h / m, h % m;
    assert x == 2 * m * q + (2 * r + x % 2) by { assert h == m * q + r; }
    ModUnique(x, 2 * m, q, 2 * r + x % 2);
  }

  lemma ModUnique(x: int, m: int, q: int, r: int)
    requires m > 0 && x == m * q + r && 0 <= r < m
    ensures x % m == r && x / m == q
  {
    var d := x / m - q;
    assert m * d == r - x % m;
    assert d > 0 ==> m * d >= m;
    assert d < 0 ==> m * d <= -m;
  }

  /** Masking with the high bits clears the low ones. */
  lemma {:induction false} AndHigh(x: nat, w: nat, k: nat)
    requires k <= w && x < Pow2(w) && Pow2(k) <= Pow2(w)
    ensures And(x, Pow2(w) - Pow2(k)) == x - x % Pow2(k)
    decreases k
  {
    if k == 0 {
      AndOnes(x, w);
    } else {
      AndHigh(x / 2, w - 1, k - 1);
      HalfMod(x, Pow2(k - 1));
      AndBit(x / 2, Pow2(w - 1) - Pow2(k - 1), x % 2, 0);
    }
  }

  /** A power of two that fits 64 bits. */
  ghost predicate IsPow2(a: nat) { exists k: nat :: k < 64 && Pow2(k) == a }

  lemma ClearLow(x: nat, k: nat)
    requires k < 64 && x < U64 && Pow2(k) < U64
    ensures And(x, U64 - Pow2(k)) == x - x % Pow2(k)
  {
    Pow2Value();
    AndHigh(x, 64, k);
  }

  /** For a power of two the mask rounds up to the next multiple. */
  lemma AlignPow2(cursor: nat, align: nat)
    requires IsPow2(align) && align < U64 && cursor + align - 1 < U64
    ensures cursor <= AlignUp(cursor, align) < cursor + align
    ensures AlignUp(cursor, align) % align == 0
  {
    var k: nat :| k < 64 && Pow2(k) == align;
    AlignClears(cursor, align, k);
    RoundUp(cursor, align);
  }

  lemma AlignClears(cursor: nat, align: nat, k: nat)
    requires k < 64 && Pow2(k) == align < U64 && cursor + align - 1 < U64 && align >= 1
    ensures AlignUp(cursor, align) == cursor + align - 1 - (cursor + align - 1) % align
  {
    assert U64 - 1 - (align - 1) == U64 - Pow2(k);
    ClearLow(cursor + align - 1, k);
  }

  lemma RoundUp(c: nat, a: nat)
    requires a >= 1
    ensures var x := c + a - 1; c <= x - x % a < c + a && (x - x % a) % a == 0
  {
    var x := c + a - 1;
    var q := x / a;
    assert x - x % a == a * q;
    ModUnique(a * q, a, q, 0);
  }

  lemma {:induction false} AndComplement(x: nat, w: nat)
    requires x < Pow2(w)
    ensures And(x, Pow2(w) - 1 - x) == 0
    decreases w
  {
    if w != 0 {
      AndComplement(x / 2, w - 1);
      AndBit(x / 2, Pow2(w - 1) - 1 - x / 2, x % 2, 1 - x % 2);
    }
  }

  /** `a & -a` is the lowest set bit of `a`. */
  lemma {:induction false} LowestBit(a: nat, w: nat) returns (t: nat)
    requires 1 <= a < Pow2(w)
    ensures t < w && And(a, Pow2(w) - a) == Pow2(t) <= a
    decreases w
  {
    var h := a / 2;
    if a % 2 == 1 {
      AndComplement(h, w - 1);
      AndBit(h, Pow2(w - 1) - 1 - h, 1, 1);
      assert 2 * h + 1 == a;
      t := 0;
    } else {
      var u := LowestBit(h, w - 1);
      AndBit(h, Pow2(w - 1) - h, 0, 0);
      assert 2 * h == a;
      t := u + 1;
    }
  }

  /** The mask yields a multiple of the alignment for every cursor exactly when the
      alignment is a power of two, which nothing in the loader checks. */
  lemma AlignedIff(align: nat)
    requires 1 <= align < U64
    ensures (forall c: nat :: c + align - 1 < U64 ==> AlignUp(c, align) % align == 0) <==> IsPow2(align)
  {
    Pow2Value();
    if IsPow2(align) {
      forall c: nat | c + align - 1 < U64
        ensures AlignUp(c, align) % align == 0
      {
        AlignPow2(c, align);
      }
    } else {
      var t := LowestBit(align, 64);
      assert AlignUp(1, align) == Pow2(t) < align;
      ModUnique(Pow2(t), align, 0, Pow2(t));
    }
  }

  /** Rounding 1 up to a multiple of 3 gives 1. */
  lemma MisalignedByThree()
    ensures AlignUp(1, 3) == 1
  {
    AndBit(1, 9223372036854775806, 1, 1);
    AndBit(0, 4611686018427387903, 1, 0);
    assert U64 - 1 - 2 == 2 * 9223372036854775806 + 1;
  }

  // ----- Layout --------------------------------------------------------------------

  /** Where the cursor stands before section `i`. */
  function CursorAt(shdrs: seq<Shdr>, load: nat, i: nat): nat
    requires i <= |shdrs| && AlignsOk(shdrs)
    decreases i, 0
  {
    if i == 0 then load
    else if shdrs[i - 1].Loaded() then AddrOf(shdrs, load, i - 1) + shdrs[i - 1].size
    else CursorAt(shdrs, load, i - 1)
  }

  /** The address given to section `i`; a NOBITS, NULL or empty section gets the bare cursor. */
  function AddrOf(shdrs: seq<Shdr>, load: nat, i: nat): nat
    requires i < |shdrs| && AlignsOk(shdrs)
    decreases i, 1
  {
    var c := CursorAt(shdrs, load, i);
    if shdrs[i].Loaded() then AlignUp(c, shdrs[i].Align()) else c
  }

  predicate AlignsOk(shdrs: seq<Shdr>) {
    forall i :: 0 <= i < |shdrs| ==> shdrs[i].addralign < U64
  }

  /** No 64-bit wrap while the cursor moves. */
  ghost predicate NoWrap(shdrs: seq<Shdr>, load: nat) {
    && AlignsOk(shdrs)
    && forall i :: 0 <= i < |shdrs| && shdrs[i].Loaded() ==>
        CursorAt(shdrs, load, i) + shdrs[i].Align() - 1 + shdrs[i].size < U64
  }

  ghost predicate Pow2Aligned(shdrs: seq<Shdr>) {
    forall i :: 0 <= i < |shdrs| && shdrs[i].Loaded() ==> IsPow2(shdrs[i].Align())
  }

  lemma {:induction false} CursorMonotone(shdrs: seq<Shdr>, load: nat, i: nat, j: nat)
    requires NoWrap(shdrs, load) && Pow2Aligned(shdrs) && i <= j <= |shdrs|
    ensures CursorAt(shdrs, load, i) <= CursorAt(shdrs, load, j)
    decreases j
  {
    if i < j {
      CursorMonotone(shdrs, load, i, j - 1);
      if shdrs[j - 1].Loaded() {
        AlignPow2(CursorAt(shdrs, load, j - 1), shdrs[j - 1].Align());
      }
    }
  }

  /** Loaded sections sit at aligned addresses, in order, without overlap; every section
      address is at or above the load address. */
  lemma LayoutDisjoint(shdrs: seq<Shdr>, load: nat)
    requires NoWrap(shdrs, load) && Pow2Aligned(shdrs)
    ensures forall i :: 0 <= i < |shdrs| ==> load <= AddrOf(shdrs, load, i)
    ensures forall i :: 0 <= i < |shdrs| && shdrs[i].Loaded() ==> AddrOf(shdrs, load, i) % shdrs[i].Align() == 0
    ensures forall i, j :: 0 <= i < j < |shdrs| && shdrs[i].Loaded() ==>
      AddrOf(shdrs, load, i) + shdrs[i].size <= AddrOf(shdrs, load, j)
  {
    forall i | 0 <= i < |shdrs|
      ensures load <= CursorAt(shdrs, load, i) <= AddrOf(shdrs, load, i)
      ensures shdrs[i].Loaded() ==> AddrOf(shdrs, load, i) % shdrs[i].Align() == 0
    {
      CursorMonotone(shdrs, load, 0, i);
      if shdrs[i].Loaded() { AlignPow2(CursorAt(shdrs, load, i), shdrs[i].Align()); }
    }
    forall i, j | 0 <= i < j < |shdrs| && shdrs[i].Loaded()
      ensures AddrOf(shdrs, load, i) + shdrs[i].size <= AddrOf(shdrs, load, j)
    {
      CursorMonotone(shdrs, load, i + 1, j);
    }
  }

  /** And the layout is tight: a loaded section starts less than its alignment after the load
      address, or after the end of some loaded section before it. */
  lemma {:induction false} LayoutTight(shdrs: seq<Shdr>, load: nat, i: nat) returns (after: nat)
    requires NoWrap(shdrs, load) && Pow2Aligned(shdrs) && i < |shdrs| && shdrs[i].Loaded()
    ensures after <= i && (after < i ==> shdrs[after].Loaded())
    ensures var end := if after < i then AddrOf(shdrs, load, after) + shdrs[after].size else load;
      end <= AddrOf(shdrs, load, i) < end + shdrs[i].Align()
  {
    after := LastLoaded(shdrs, load, i);
    if after == i { CursorStart(shdrs, load, i); }
    AlignPow2(CursorAt(shdrs, load, i), shdrs[i].Align());
  }

  lemma {:induction false} LastLoaded(shdrs: seq<Shdr>, load: nat, i: nat) returns (after: nat)
    requires AlignsOk(shdrs) && i <= |shdrs|
    ensures after <= i && forall j :: after < j < i ==> !shdrs[j].Loaded()
    ensures after < i ==> shdrs[after].Loaded() && CursorAt(shdrs, load, i) == AddrOf(shdrs, load, after) + shdrs[after].size
    ensures after == i ==> forall j :: 0 <= j < i ==> !shdrs[j].Loaded()
  {
    if i == 0 {
      after := 0;
    } else if shdrs[i - 1].Loaded() {
      after := i - 1;
    } else {
      after := LastLoaded(shdrs, load, i - 1);
      if after == i - 1 { after := i; }
    }
  }

  lemma {:induction false} CursorStart(shdrs: seq<Shdr>, load: nat, i: nat)
    requires AlignsOk(shdrs) && i <= |shdrs| && forall j :: 0 <= j < i ==> !shdrs[j].Loaded()
    ensures CursorAt(shdrs, load, i) == load
  {
    if i > 0 { CursorStart(shdrs, load, i - 1); }
  }

  // ----- Copying -------------------------------------------------------------------

  /** The buffer after the first `n` sections: a section that runs past the file or past the
      buffer is skipped silently. */
  function Copied(shdrs: seq<Shdr>, load: nat, data: seq<byte>, buf: seq<byte>, n: nat): (r: seq<byte>)
    requires n <= |shdrs| && AlignsOk(shdrs)
    requires forall i :: 0 <= i < |shdrs| ==> load <= AddrOf(shdrs, load, i)
    ensures |r| == |buf|
  {
    if n == 0 then buf else
      var b := Copied(shdrs, load, data, buf, n - 1);
      var sh := shdrs[n - 1];
      if sh.Loaded() && sh.offset + sh.size <= |data|
      then Patch(b, AddrOf(shdrs, load, n - 1) - load, data[sh.offset..sh.offset + sh.size])
      else b
  }

  /** The buffer range that section `i` occupies, when it is really copied. */
  ghost predicate CopiedAt(shdrs: seq<Shdr>, load: nat, data: seq<byte>, len: nat, i: nat)
    requires i < |shdrs| && AlignsOk(shdrs) && load <= AddrOf(shdrs, load, i)
  {
    && shdrs[i].Loaded() && shdrs[i].offset + shdrs[i].size <= |data|
    && AddrOf(shdrs, load, i) - load + shdrs[i].size <= len
  }

  /** Every copied section appears in the buffer byte for byte; no later section disturbs it. */
  lemma {:induction false} CopiedContents(shdrs: seq<Shdr>, load: nat, data: seq<byte>, buf: seq<byte>, n: nat, i: nat, x: nat)
    requires NoWrap(shdrs, load) && Pow2Aligned(shdrs) && i < n <= |shdrs|
    requires forall i :: 0 <= i < |shdrs| ==> load <= AddrOf(shdrs, load, i)
    requires CopiedAt(shdrs, load, data, |buf|, i) && x < shdrs[i].size
    ensures Copied(shdrs, load, data, buf, n)[AddrOf(shdrs, load, i) - load + x] == data[shdrs[i].offset + x]
  {
    LayoutDisjoint(shdrs, load);
    var b, sh, y := Copied(shdrs, load, data, buf, n - 1), shdrs[n - 1], AddrOf(shdrs, load, i) - load + x;
    if i < n - 1 {
      CopiedContents(shdrs, load, data, buf, n - 1, i, x);
    }
    if sh.Loaded() && sh.offset + sh.size <= |data| {
      PatchAt(b, AddrOf(shdrs, load, n - 1) - load, data[sh.offset..sh.offset + sh.size], y);
    }
  }

  /** Bytes outside every loaded section keep their old value. */
  lemma {:induction false} CopiedOutside(shdrs: seq<Shdr>, load: nat, data: seq<byte>, buf: seq<byte>, n: nat, x: nat)
    requires n <= |shdrs| && AlignsOk(shdrs) && x < |buf|
    requires forall i :: 0 <= i < |shdrs| ==> load <= AddrOf(shdrs, load, i)
    requires forall i :: 0 <= i < n && shdrs[i].Loaded() ==>
      !(AddrOf(shdrs, load, i) - load <= x < AddrOf(shdrs, load, i) - load + shdrs[i].size)
    ensures Copied(shdrs, load, data, buf, n)[x] == buf[x]
  {
    if n != 0 {
      CopiedOutside(shdrs, load, data, buf, n - 1, x);
    }
  }

  /** The layout loop of `relocate_module`. */
  method LoadSections(shdrs: seq<Shdr>, load: nat, data: seq<byte>, buf: array<byte>) returns (addrs: seq<nat>)
    requires NoWrap(shdrs, load)
    requires forall i :: 0 <= i < |shdrs| ==> load <= AddrOf(shdrs, load, i)
    modifies buf
    ensures |addrs| == |shdrs| && forall i :: 0 <= i < |shdrs| ==> addrs[i] == AddrOf(shdrs, load, i)
    ensures buf[..] == Copied(shdrs, load, data, old(buf[..]), |shdrs|)
  {
    addrs := [];
    var cursor := load;
    ghost var was := buf[..];
    for i := 0 to |shdrs|
      invariant |addrs| == i && forall k :: 0 <= k < i ==> addrs[k] == AddrOf(shdrs, load, k)
      invariant cursor == CursorAt(shdrs, load, i)
      invariant buf[..] == Copied(shdrs, load, data, was, i)
    {
      var sh := shdrs[i];
      if sh.kind == SHT_NOBITS || sh.kind == SHT_NULL {
        addrs := addrs + [cursor];
      } else if sh.size > 0 {
        cursor := AlignUp(cursor, sh.Align());
        assert cursor == AddrOf(shdrs, load, i);
        addrs := addrs + [cursor];
        if sh.offset + sh.size <= |data| {
          var bufOff := cursor - load;
          if bufOff + sh.size <= buf.Length {
            CopyInto(buf, bufOff, data[sh.offset..sh.offset + sh.size]);
          }
        }
        cursor := cursor + sh.size;
      } else {
        addrs := addrs + [cursor];
      }
    }
  }
}
