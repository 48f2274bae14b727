/**
 * The JavaScript number operations the peripheral layer relies on, stated on
 * unbounded integers.
 *
 * Every JavaScript bitwise operator first converts its operands with ToInt32
 * (reduction modulo 2^32 into the signed range). For an integer x:
 *   - `x & 0xFF` is `x % 256` with Dafny's Euclidean `%` (never negative);
 *   - `x >> i` is floor division by 2^i, which is what Dafny's `/` does for a
 *     positive divisor;
 *   - `(x >> i) & 1` for i < 32 is bit i of x in two's complement, `Bit(x, i)`.
 */
module JsNumbers {

  datatype Option<T> = None | Some(value: T)

  /** What the simulator hands out for a memory word: a signed 32-bit integer. */
  type Int32 = x: int | -0x8000_0000 <= x < 0x8000_0000

  const TWO_32: int := 0x1_0000_0000

  function Pow2(n: nat): (r: nat)
    ensures r > 0
  {
    if n == 0 then 1 else 2 * Pow2(n - 1)
  }

  /** ECMAScript ToInt32: the value a bitwise operator actually works on. */
  function ToInt32(x: int): Int32
  {
    var m := x % TWO_32;
    if m < 0x8000_0000 then m else m - TWO_32
  }

  /** ToInt32 changes a number by a multiple of 2^32 and leaves the signed 32-bit range alone. */
  lemma ToInt32Wraps(x: int)
    ensures (x - ToInt32(x)) % TWO_32 == 0
    ensures -0x8000_0000 <= x < 0x8000_0000 ==> ToInt32(x) == x
  {
  }

  /** `(x >> i) & 1` is 1: i arithmetic right shifts are i floor halvings. */
  predicate Bit(x: int, i: nat)
    decreases i
  {
    if i == 0 then x % 2 == 1 else Bit(x / 2, i - 1)
  }

  lemma {:induction false} MulAtLeast(d: int, k: int)
    requires d > 0 && k >= 1
    ensures d * k >= d
    decreases k
  {
    if k > 1 {
      MulAtLeast(d, k - 1);
      assert d * k == d * (k - 1) + d;
    }
  }

  /** The low n bits of x, least significant first, peeled off by halving. */
  function BitsFrom(x: int, n: nat): (bits: seq<bool>)
    ensures |bits| == n
    ensures forall i :: 0 <= i < n ==> bits[i] == Bit(x, i)
    decreases n
  {
    if n == 0 then [] else [x % 2 == 1] + BitsFrom(x / 2, n - 1)
  }

  /** Division with remainder has exactly one solution. */
  lemma DivModUnique(x: int, d: int, q: int, r: int)
    requires d > 0 && x == d * q + r && 0 <= r < d
    ensures x / d == q && x % d == r
  {
    var q', r' := x / d, x % d;
    assert x == d * q' + r';
    if q > q' {
      assert d * (q - q') == d * q - d * q';
      MulAtLeast(d, q - q');
    } else if q < q' {
      assert d * (q' - q) == d * q' - d * q;
      MulAtLeast(d, q' - q);
    }
  }

  /** Peeling the lowest bit off a remainder by an even modulus. */
  lemma HalveMod(x: int, m: int)
    requires m > 0
    ensures x % (2 * m) == x % 2 + 2 * ((x / 2) % m)
  {
    var a, b := x / 2, x % 2;
    var q, s := a / m, a % m;
    assert a == m * q + s;
    assert x == (2 * m) * q + (2 * s + b) by {
      assert x == 2 * a + b;
      assert 2 * a == 2 * (m * q) + 2 * s;
    }
    DivModUnique(x, 2 * m, q, 2 * s + b);
  }

  /** Bits below n depend only on x modulo 2^n. */
  lemma {:induction false} BitOfMod(x: int, n: nat, i: nat)
    requires i < n
    ensures Bit(x % Pow2(n), i) == Bit(x, i)
    decreases i
  {
    HalveMod(x, Pow2(n - 1));
    var low := x % Pow2(n);
    assert low == x % 2 + 2 * ((x / 2) % Pow2(n - 1));
    assert low % 2 == x % 2;
    if i > 0 {
      assert low / 2 == (x / 2) % Pow2(n - 1);
      BitOfMod(x / 2, n - 1, i - 1);
    }
  }

  /** The ToInt32 conversion of a bitwise operator never changes bits 0..31. */
  lemma BitOfToInt32(x: int, i: nat)
    requires i < 32
    ensures Bit(ToInt32(x), i) == Bit(x, i)
  {
    assert Pow2(32) == TWO_32 by {
      assert Pow2(8) == 256;
      assert Pow2(16) == 65536;
      assert Pow2(24) == 0x100_0000;
    }
    var r := ToInt32(x);
    ToInt32Wraps(x);
    DivModUnique(x - r, TWO_32, (x - r) / TWO_32, 0);
    assert r % TWO_32 == x % TWO_32 by {
      var k := (x - r) / TWO_32;
      assert x == r + TWO_32 * k;
      DivModUnique(x, TWO_32, r / TWO_32 + k, r % TWO_32);
    }
    BitOfMod(x, 32, i);
    BitOfMod(r, 32, i);
  }
  /** Adding 2^i to a number whose bit i is clear sets that bit and no other. */
  lemma {:induction false} AddBit(x: int, i: nat, j: nat)
    requires !Bit(x, i)
    ensures Bit(x + Pow2(i), j) <==> j == i || Bit(x, j)
    decreases i
  {
    var y := x + Pow2(i);
    if i == 0 {
      assert x % 2 == 0;
      DivModUnique(y, 2, x / 2, 1);
      if j > 0 {
        assert Bit(y, j) == Bit(y / 2, j - 1);
      }
    } else {
      DivModUnique(y, 2, x / 2 + Pow2(i - 1), x % 2);
      if j > 0 {
        AddBit(x / 2, i - 1, j - 1);
      }
    }
  }

  /** Subtracting 2^i from a number whose bit i is set clears that bit and no other. */
  lemma {:induction false} SubBit(x: int, i: nat, j: nat)
    requires Bit(x, i)
    ensures Bit(x - Pow2(i), j) <==> j != i && Bit(x, j)
    decreases i
  {
    var y := x - Pow2(i);
    if i == 0 {
      assert x % 2 == 1;
      DivModUnique(y, 2, x / 2, 0);
      if j > 0 {
        assert Bit(y, j) == Bit(y / 2, j - 1);
      }
    } else {
      DivModUnique(y, 2, x / 2 - Pow2(i - 1), x % 2);
      if j > 0 {
        SubBit(x / 2, i - 1, j - 1);
      }
    }
  }

  /** `x | (1 << i)` for i < 31: bit i set, bits 0..31 otherwise those of x. */
  function SetBit(x: int, i: nat): (r: Int32)
    requires i < 31
    ensures forall j :: 0 <= j < 32 ==> (Bit(r, j) <==> j == i || Bit(x, j))
  {
    var y := if Bit(x, i) then x else x + Pow2(i);
    SetBitBits(x, i);
    ToInt32(y)
  }

  lemma SetBitBits(x: int, i: nat)
    requires i < 31
    ensures forall j :: 0 <= j < 32 ==>
      (Bit(ToInt32(if Bit(x, i) then x else x + Pow2(i)), j) <==> j == i || Bit(x, j))
  {
    forall j | 0 <= j < 32
      ensures Bit(ToInt32(if Bit(x, i) then x else x + Pow2(i)), j) <==> j == i || Bit(x, j)
    {
      var y := if Bit(x, i) then x else x + Pow2(i);
      BitOfToInt32(y, j);
      if !Bit(x, i) {
        AddBit(x, i, j);
      }
    }
  }

  /** `x & ~(1 << i)` for i < 31: bit i clear, bits 0..31 otherwise those of x. */
  function ClearBit(x: int, i: nat): (r: Int32)
    requires i < 31
    ensures forall j :: 0 <= j < 32 ==> (Bit(r, j) <==> j != i && Bit(x, j))
  {
    var y := if Bit(x, i) then x - Pow2(i) else x;
    ClearBitBits(x, i);
    ToInt32(y)
  }

  lemma ClearBitBits(x: int, i: nat)
    requires i < 31
    ensures forall j :: 0 <= j < 32 ==>
      (Bit(ToInt32(if Bit(x, i) then x - Pow2(i) else x), j) <==> j != i && Bit(x, j))
  {
    forall j | 0 <= j < 32
      ensures Bit(ToInt32(if Bit(x, i) then x - Pow2(i) else x), j) <==> j != i && Bit(x, j)
    {
      var y := if Bit(x, i) then x - Pow2(i) else x;
      BitOfToInt32(y, j);
      if Bit(x, i) {
        SubBit(x, i, j);
      }
    }
  }
}
