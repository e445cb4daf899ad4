/** kernel/src/elf.rs, `apply_reloc`: patching one x86-64 relocation into a byte buffer,
    against the relocation equations of the System V ABI AMD64 supplement, section 4.4. */
module ElfReloc {
  import opened Bits

  type u64 = x: int | 0 <= x < U64
  type i64 = x: int | -0x8000_0000_0000_0000 <= x < 0x8000_0000_0000_0000

  const R_NONE: nat := 0
  const R_64: nat := 1
  const R_PC32: nat := 2
  const R_PLT32: nat := 4
  const R_32: nat := 10
  const R_32S: nat := 11

  datatype RelocError =
    | NotRelocatable | BadSectionTable | MissingSymbol(name: seq<byte>)
    | Overflow32 | UnsupportedReloc(kind: nat) | BadStrtab

  datatype Result<+T> = Ok(value: T) | Err(error: RelocError)

  // ----- Little-endian fields ------------------------------------------------------

  function Le(bs: seq<byte>): nat {
    if bs == [] then 0 else bs[0] + 256 * Le(bs[1..])
  }

  function ToLe(v: nat, n: nat): (r: seq<byte>)
    ensures |r| == n
  {
    if n == 0 then [] else [v % 256] + ToLe(v / 256, n - 1)
  }

  function Pow256(n: nat): nat {
    if n == 0 then 1 else 256 * Pow256(n - 1)
  }

  lemma {:induction false} LeOfToLe(v: nat, n: nat)
    requires v < Pow256(n)
    ensures Le(ToLe(v, n)) == v
  {
    if n != 0 {
      LeOfToLe(v / 256, n - 1);
      assert ToLe(v, n)[1..] == ToLe(v / 256, n - 1);
    }
  }

  lemma {:induction false} ToLeOfLe(bs: seq<byte>)
    ensures Le(bs) < Pow256(|bs|) && ToLe(Le(bs), |bs|) == bs
  {
    if bs != [] {
      ToLeOfLe(bs[1..]);
      assert Le(bs) / 256 == Le(bs[1..]) && Le(bs) % 256 == bs[0];
      assert bs == [bs[0]] + bs[1..];
    }
  }

  lemma Pow256Values()
    ensures Pow256(4) == U32 && Pow256(8) == U64
  {
    assert Pow256(4) == 256 * (256 * (256 * (256 * Pow256(0))));
    assert Pow256(8) == 256 * (256 * (256 * (256 * Pow256(4))));
  }

  // ----- Two's complement ----------------------------------------------------------

  /** `x as i64` after any wrapping operation: the representative of x modulo 2^64. */
  function WrapI64(x: int): (r: i64)
    ensures (x - r) % U64 == 0
  {
    var m := x % U64;
    if m < U64 / 2 then m else m - U64
  }

  function SignExt32(f: nat): int
    requires f < U32
  {
    if f < U32 / 2 then f else f - U32
  }

  predicate FitsI32(v: int) { -(U32 / 2) <= v < U32 / 2 }

  // ----- The relocation ------------------------------------------------------------

  datatype Field = Nothing | Store(bytes: seq<byte>) | Fail(error: RelocError)

  /** What `apply_reloc` decides to write, before it looks at the buffer. */
  function FieldOf(kind: nat, sym: u64, pc: u64, addend: i64): Field {
    if kind == R_NONE then Nothing
    else if kind == R_64 then Store(ToLe((sym + addend) % U64, 8))
    else if kind == R_PC32 || kind == R_PLT32 then
      var val := WrapI64(WrapI64(WrapI64(sym) + addend) - WrapI64(pc));
      if FitsI32(val) then Store(ToLe(val % U32, 4)) else Fail(Overflow32)
    else if kind == R_32 then
      var val := (sym + addend) % U64;
      if val < U32 then Store(ToLe(val, 4)) else Fail(Overflow32)
    else if kind == R_32S then
      var val := WrapI64(WrapI64(sym) + addend);
      if FitsI32(val) then Store(ToLe(val % U32, 4)) else Fail(Overflow32)
    else Fail(UnsupportedReloc(kind))
  }

  /** The buffer after the write; a field that does not fit is skipped silently. */
  function Patch(buf: seq<byte>, off: nat, bytes: seq<byte>): (r: seq<byte>)
    ensures |r| == |buf|
  {
    if off + |bytes| > |buf| then buf else buf[..off] + bytes + buf[off + |bytes|..]
  }

  lemma PatchAt(buf: seq<byte>, off: nat, bytes: seq<byte>, x: nat)
    requires x < |buf|
    ensures Patch(buf, off, bytes)[x]
         == if off + |bytes| <= |buf| && off <= x < off + |bytes| then bytes[x - off] else buf[x]
  {}

  method ApplyReloc(buf: array<byte>, off: nat, kind: nat, sym: u64, pc: u64, addend: i64) returns (r: Result<()>)
    modifies buf
    ensures match FieldOf(kind, sym, pc, addend)
      case Nothing => r == Ok(()) && buf[..] == old(buf[..])
      case Store(bytes) => r == Ok(()) && buf[..] == Patch(old(buf[..]), off, bytes)
      case Fail(e) => r == Err(e) && buf[..] == old(buf[..])
  {
    match FieldOf(kind, sym, pc, addend)
    case Nothing => r := Ok(());
    case Fail(e) => r := Err(e);
    case Store(bytes) =>
      r := Ok(());
      if off + |bytes| > buf.Length { return; }
      CopyInto(buf, off, bytes);
  }

  /** `buf[off..off + n].copy_from_slice(bytes)` */
  method CopyInto(buf: array<byte>, off: nat, bytes: seq<byte>)
    requires off + |bytes| <= buf.Length
    modifies buf
    ensures buf[..] == Patch(old(buf[..]), off, bytes)
  {
    ghost var was := buf[..];
    for i := 0 to |bytes|
      invariant forall x :: 0 <= x < buf.Length ==> buf[x] == if off <= x < off + i then bytes[x - off] else was[x]
    {
      buf[off + i] := bytes[i];
    }
    forall x | 0 <= x < buf.Length
      ensures buf[x] == Patch(was, off, bytes)[x]
    {
      PatchAt(was, off, bytes, x);
    }
  }

  // ----- The ABI equations ---------------------------------------------------------

  /** The field `bytes` at address `pc` satisfies the relocation's equation modulo 2^64. */
  ghost predicate AbiHolds(kind: nat, sym: u64, pc: u64, addend: i64, bytes: seq<byte>) {
    if kind == R_64 then |bytes| == 8 && (Le(bytes) - (sym + addend)) % U64 == 0
    else if kind == R_PC32 || kind == R_PLT32 then
      |bytes| == 4 && Le(bytes) < U32 && (pc + SignExt32(Le(bytes)) - (sym + addend)) % U64 == 0
    else if kind == R_32 then |bytes| == 4 && (Le(bytes) - (sym + addend)) % U64 == 0
    else if kind == R_32S then
      |bytes| == 4 && Le(bytes) < U32 && (SignExt32(Le(bytes)) - (sym + addend)) % U64 == 0
    else false
  }

  predicate Supported(kind: nat) {
    kind == R_64 || kind == R_PC32 || kind == R_PLT32 || kind == R_32 || kind == R_32S
  }

  lemma SignRoundTrip(v: int)
    requires FitsI32(v)
    ensures SignExt32(v % U32) == v
  {}

  lemma SignBytes(f: nat)
    requires f < U32
    ensures FitsI32(SignExt32(f)) && SignExt32(f) % U32 == f
  {}

  lemma WrapQuotient(x: int) returns (k: int)
    ensures x == WrapI64(x) + k * U64
  {
    k := (x - WrapI64(x)) / U64;
  }

  lemma Multiple(k: int)
    ensures k * U64 % U64 == 0
  {}

  lemma WrapChain(sym: u64, pc: u64, addend: i64)
    ensures var val := WrapI64(WrapI64(WrapI64(sym) + addend) - WrapI64(pc));
      (pc + val - (sym + addend)) % U64 == 0
    ensures (WrapI64(WrapI64(sym) + addend) - (sym + addend)) % U64 == 0
  {
    var p: int, t: int := WrapI64(pc), WrapI64(WrapI64(sym) + addend);
    WrapKeeps(sym, addend);
    WrapKeeps(pc, 0);
    WrapKeeps(t - p, 0);
    SumKeeps(pc, p, sym + addend, t, WrapI64(t - p));
  }

  /** Wrapping changes a value by a multiple of 2^64. */
  lemma WrapKeeps(x: int, y: int)
    ensures (WrapI64(x) - x) % U64 == 0 && (WrapI64(WrapI64(x) + y) - (x + y)) % U64 == 0
  {
    var a := WrapQuotient(x);
    var c := WrapQuotient(WrapI64(x) + y);
    Multiple(-a);
    Multiple(-a - c);
    assert WrapI64(WrapI64(x) + y) - (x + y) == (-a - c) * U64;
  }

  lemma SumKeeps(pc: int, p: int, target: int, t: int, val: int)
    requires (p - pc) % U64 == 0 && (t - target) % U64 == 0 && (val - (t - p)) % U64 == 0
    ensures (pc + val - target) % U64 == 0
  {
    var a, b, c := (p - pc) / U64, (t - target) / U64, (val - (t - p)) / U64;
    Multiple(c + b - a);
    assert pc + val - target == (c + b - a) * U64;
  }

  lemma StoreSigned(val: int)
    requires FitsI32(val)
    ensures Le(ToLe(val % U32, 4)) < U32 && SignExt32(Le(ToLe(val % U32, 4))) == val
  {
    Pow256Values();
    LeOfToLe(val % U32, 4);
    SignRoundTrip(val);
  }

  lemma ModMod(x: int)
    ensures (x % U64 - x) % U64 == 0
  {
    Multiple(-(x / U64));
    assert x % U64 - x == -(x / U64) * U64;
  }

  /** The stored bytes solve the ABI equation. */
  lemma FieldSound(kind: nat, sym: u64, pc: u64, addend: i64)
    requires FieldOf(kind, sym, pc, addend).Store?
    ensures AbiHolds(kind, sym, pc, addend, FieldOf(kind, sym, pc, addend).bytes)
  {
    Pow256Values();
    if kind == R_64 {
      LeOfToLe((sym + addend) % U64, 8);
      ModMod(sym + addend);
    } else if kind == R_32 {
      LeOfToLe((sym + addend) % U64, 4);
      ModMod(sym + addend);
    } else {
      WrapChain(sym, pc, addend);
      StoreSigned(if kind == R_32S then WrapI64(WrapI64(sym) + addend)
                  else WrapI64(WrapI64(WrapI64(sym) + addend) - WrapI64(pc)));
    }
  }

  lemma SignedBytes(bytes: seq<byte>)
    requires |bytes| == 4
    ensures Le(bytes) < U32
    ensures FitsI32(SignExt32(Le(bytes))) && ToLe(SignExt32(Le(bytes)) % U32, 4) == bytes
  {
    Pow256Values();
    ToLeOfLe(bytes);
    SignBytes(Le(bytes));
  }

  lemma UnsignedBytes(bytes: seq<byte>, x: int)
    requires |bytes| == 4 || |bytes| == 8
    requires (Le(bytes) - x) % U64 == 0
    ensures Le(bytes) == x % U64 < Pow256(|bytes|) && ToLe(x % U64, |bytes|) == bytes
  {
    Pow256Values();
    ToLeOfLe(bytes);
    ResidueIs(Le(bytes), x);
  }

  lemma ResidueIs(n: nat, x: int)
    requires n < U64 && (n - x) % U64 == 0
    ensures n == x % U64
  {
    ModMod(x);
    Congruent(n, x % U64, x);
  }

  /** Whatever bytes satisfy the equation are the bytes that are stored. */
  lemma FieldComplete(kind: nat, sym: u64, pc: u64, addend: i64, bytes: seq<byte>)
    requires AbiHolds(kind, sym, pc, addend, bytes)
    ensures FieldOf(kind, sym, pc, addend) == Store(bytes)
  {
    if kind == R_64 || kind == R_32 {
      Pow256Values();
      UnsignedBytes(bytes, sym + addend);
    } else {
      SignedBytes(bytes);
      if kind == R_32S {
        AbsoluteIs(sym, addend, SignExt32(Le(bytes)));
      } else {
        RelativeIs(sym, pc, addend, SignExt32(Le(bytes)));
      }
    }
  }

  lemma AbsoluteIs(sym: u64, addend: i64, v: int)
    requires FitsI32(v) && (v - (sym + addend)) % U64 == 0
    ensures WrapI64(WrapI64(sym) + addend) == v
  {
    WrapChain(sym, 0, addend);
    Congruent(v, WrapI64(WrapI64(sym) + addend), sym + addend);
  }

  lemma RelativeIs(sym: u64, pc: u64, addend: i64, v: int)
    requires FitsI32(v) && (pc + v - (sym + addend)) % U64 == 0
    ensures WrapI64(WrapI64(WrapI64(sym) + addend) - WrapI64(pc)) == v
  {
    WrapChain(sym, pc, addend);
    Congruent(pc + v, pc + WrapI64(WrapI64(WrapI64(sym) + addend) - WrapI64(pc)), sym + addend);
  }

  lemma Congruent(a: int, b: int, c: int)
    requires (a - c) % U64 == 0 && (b - c) % U64 == 0 && -U64 < a - b < U64
    ensures a == b
  {
    var j, k := (a - c) / U64, (b - c) / U64;
    assert a - b == (j - k) * U64;
  }

  /** A relocation is applied exactly when its equation has a solution; `Overflow32` says
      that no value of the 32-bit field could satisfy it. */
  lemma OverflowIff(kind: nat, sym: u64, pc: u64, addend: i64)
    ensures FieldOf(kind, sym, pc, addend) == Fail(Overflow32)
        <==> Supported(kind) && forall bytes: seq<byte> :: !AbiHolds(kind, sym, pc, addend, bytes)
  {
    var f := FieldOf(kind, sym, pc, addend);
    if f.Store? {
      FieldSound(kind, sym, pc, addend);
    }
    forall bytes: seq<byte> | AbiHolds(kind, sym, pc, addend, bytes)
      ensures f == Store(bytes)
    {
      FieldComplete(kind, sym, pc, addend, bytes);
    }
  }
}
