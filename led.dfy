/**
 * The eight-lamp LED panel of the web front-end (`LedDisplay` in js/led.js).
 * `update(value)` switches lamp i on exactly when `(value >> i) & 1` is 1;
 * the panel's state is the list of the eight lamps' on/off states.
 */
module Led {
  import opened JsNumbers

  const LAMP_COUNT: nat := 8

  /** The lamp states after `update(value)`: lamp i is lit iff bit i of value is set. */
  function Update(value: int): (lamps: seq<bool>)
    ensures |lamps| == LAMP_COUNT
    ensures forall i :: 0 <= i < LAMP_COUNT ==> (lamps[i] <==> Bit(value, i))
  {
    BitsFrom(value, LAMP_COUNT)
  }

  /** `reset()` (and the initial `update(0)` of `init()`). */
  function Reset(): (lamps: seq<bool>)
    ensures |lamps| == LAMP_COUNT
    ensures forall i :: 0 <= i < LAMP_COUNT ==> !lamps[i]
  {
    Update(0)
  }

  /** The number a row of lamps shows, lamp i weighing 2^i. */
  function LampsValue(lamps: seq<bool>): (v: int)
    ensures 0 <= v < Pow2(|lamps|)
  {
    if lamps == [] then 0 else (if lamps[0] then 1 else 0) + 2 * LampsValue(lamps[1..])
  }

  /** Only bits 0..7 of the value reach the lamps. */
  lemma UpdateIgnoresHighBits(value: int)
    ensures Update(value) == Update(value % 256)
  {
    assert Pow2(8) == 256;
    forall i | 0 <= i < LAMP_COUNT
      ensures Update(value)[i] == Update(value % 256)[i]
    {
      BitOfMod(value, 8, i);
    }
  }

  lemma {:induction false} BitsFromValue(x: int, n: nat)
    ensures LampsValue(BitsFrom(x, n)) == x % Pow2(n)
    decreases n
  {
    if n > 0 {
      var bits := BitsFrom(x, n);
      assert bits[1..] == BitsFrom(x / 2, n - 1);
      BitsFromValue(x / 2, n - 1);
      HalveMod(x, Pow2(n - 1));
    }
  }

  lemma {:induction false} ValueBits(lamps: seq<bool>)
    ensures BitsFrom(LampsValue(lamps), |lamps|) == lamps
    decreases |lamps|
  {
    if lamps != [] {
      var v, rest := LampsValue(lamps), LampsValue(lamps[1..]);
      assert v % 2 == 1 <==> lamps[0];
      assert v / 2 == rest;
      ValueBits(lamps[1..]);
    }
  }

  /**
   * The lamps are an exact picture of the low byte: reading them back as a
   * number gives `value & 0xFF`, and every row of eight lamps is shown by
   * exactly the byte it reads as.
   */
  lemma LampsShowLowByte(value: int, lamps: seq<bool>)
    ensures LampsValue(Update(value)) == value % 256
    ensures |lamps| == LAMP_COUNT ==> Update(LampsValue(lamps)) == lamps
  {
    assert Pow2(8) == 256;
    BitsFromValue(value, LAMP_COUNT);
    ValueBits(lamps);
  }

  /** The lamps depend on the value alone: updating twice with v is updating once. */
  lemma UpdateTwice(value: int)
    ensures Update(LampsValue(Update(value))) == Update(value)
  {
    LampsShowLowByte(value, []);
    UpdateIgnoresHighBits(value);
  }

  /** `update(0b10100001)` lights lamps 0, 5 and 7 only. */
  lemma UpdateExample()
    ensures Update(0xA1) == [true, false, false, false, false, true, false, true]
  {
  }
}
