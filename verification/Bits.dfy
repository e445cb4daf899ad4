/** Bytes and bitwise operators on natural numbers, defined bit by bit, so that the
    machine arithmetic of the kernel can be reasoned about by induction. */
module Bits {

  const U32: int := 0x1_0000_0000
  const U64: int := 0x1_0000_0000_0000_0000

  type byte = x: int | 0 <= x < 256

  /** `fetch_add(1)` on a 64-bit counter. */
  function Inc64(n: nat): nat {
    if n + 1 == U64 then 0 else n + 1
  }

  function Pow2(k: nat): (r: nat)
    ensures r >= 1
  {
    if k == 0 then 1 else 2 * Pow2(k - 1)
  }

  function Xor(x: nat, y: nat): nat
    decreases x + y
  {
    if x == 0 && y == 0 then 0 else 2 * Xor(x / 2, y / 2) + (x + y) % 2
  }

  function And(x: nat, y: nat): (r: nat)
    ensures r <= x
    decreases x + y
  {
    if x == 0 || y == 0 then 0 else 2 * And(x / 2, y / 2) + (x % 2) * (y % 2)
  }

  lemma XorBit(a: nat, b: nat, u: nat, v: nat)
    requires u < 2 && v < 2
    ensures Xor(2 * a + u, 2 * b + v) == 2 * Xor(a, b) + (u + v) % 2
  {
    assert (2 * a + u) / 2 == a && (2 * b + v) / 2 == b;
    assert (2 * a + u + (2 * b + v)) % 2 == (u + v) % 2;
  }

  lemma AndBit(a: nat, b: nat, u: nat, v: nat)
    requires u < 2 && v < 2
    ensures And(2 * a + u, 2 * b + v) == 2 * And(a, b) + u * v
  {
    assert (2 * a + u) / 2 == a && (2 * b + v) / 2 == b;
    assert (2 * a + u) % 2 == u && (2 * b + v) % 2 == v;
  }

  lemma XorQuarter(a: nat, b: nat, u0: nat, u1: nat, v0: nat, v1: nat)
    requires u0 < 2 && u1 < 2 && v0 < 2 && v1 < 2
    ensures Xor(2 * (2 * a + u1) + u0, 2 * (2 * b + v1) + v0) == 4 * Xor(a, b) + 2 * ((u1 + v1) % 2) + (u0 + v0) % 2
  {
    XorBit(2 * a + u1, 2 * b + v1, u0, v0);
    XorBit(a, b, u1, v1);
  }

  lemma XorOctal(a: nat, b: nat, u0: nat, u1: nat, u2: nat, v0: nat, v1: nat, v2: nat)
    requires u0 < 2 && u1 < 2 && u2 < 2 && v0 < 2 && v1 < 2 && v2 < 2
    ensures Xor(2 * (2 * (2 * a + u2) + u1) + u0, 2 * (2 * (2 * b + v2) + v1) + v0)
         == 8 * Xor(a, b) + 4 * ((u2 + v2) % 2) + 2 * ((u1 + v1) % 2) + (u0 + v0) % 2
  {
    XorQuarter(2 * a + u2, 2 * b + v2, u0, u1, v0, v1);
    XorBit(a, b, u2, v2);
  }

  /** The low three bits of an exclusive or depend on the low three bits of its operands. */
  lemma XorLow3(a: nat, b: nat, u: nat, v: nat)
    requires u < 8 && v < 8
    ensures Xor(u, v) < 8 && Xor(8 * a + u, 8 * b + v) == 8 * Xor(a, b) + Xor(u, v)
  {
    var u0, u1, u2 := Octal(u);
    var v0, v1, v2 := Octal(v);
    XorOctal(a, b, u0, u1, u2, v0, v1, v2);
    XorOctal(0, 0, u0, u1, u2, v0, v1, v2);
  }

  lemma Octal(u: nat) returns (u0: nat, u1: nat, u2: nat)
    requires u < 8
    ensures u0 < 2 && u1 < 2 && u2 < 2 && u == 2 * (2 * u2 + u1) + u0
  {
    u0, u1, u2 := u % 2, u / 2 % 2, u / 4;
  }

  /** `a << k` */
  function Shift(k: nat, a: nat): nat { if k == 0 then a else 2 * Shift(k - 1, a) }

  /** Low and high digits of an exclusive or do not mix. */
  lemma {:induction false} XorDigits(k: nat, a: nat, b: nat, u: nat, v: nat)
    requires u < Shift(k, 1) && v < Shift(k, 1)
    ensures Xor(u, v) < Shift(k, 1)
    ensures Xor(Shift(k, a) + u, Shift(k, b) + v) == Shift(k, Xor(a, b)) + Xor(u, v)
    decreases k
  {
    if k > 0 {
      var u', v', u0, v0 := u / 2, v / 2, u % 2, v % 2;
      XorDigits(k - 1, a, b, u', v');
      XorBit(u', v', u0, v0);
      XorHalves(Shift(k - 1, a), Shift(k - 1, b), Shift(k - 1, Xor(a, b)), u', v', u0, v0);
      assert 2 * (Shift(k - 1, a) + u') + u0 == Shift(k, a) + u;
      assert 2 * (Shift(k - 1, b) + v') + v0 == Shift(k, b) + v;
      assert 2 * u' + u0 == u && 2 * v' + v0 == v;
    }
  }

  lemma {:induction false} XorHalves(a: nat, b: nat, x: nat, u: nat, v: nat, u0: nat, v0: nat)
    requires u0 < 2 && v0 < 2 && Xor(a + u, b + v) == x + Xor(u, v)
    ensures Xor(2 * (a + u) + u0, 2 * (b + v) + v0) == 2 * x + Xor(2 * u + u0, 2 * v + v0)
  {
    XorBit(a + u, b + v, u0, v0);
    XorBit(u, v, u0, v0);
  }

  lemma {:induction false} XorCommutes(a: nat, b: nat)
    ensures Xor(a, b) == Xor(b, a)
    decreases a + b
  {
    if a + b > 0 { XorCommutes(a / 2, b / 2); }
  }
}
