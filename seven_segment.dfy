/**
 * The four-digit seven-segment display (`SevenSegmentDisplay` in
 * js/seven-segment.js). Each digit shows the pattern that a fixed 17-entry
 * table gives for the low byte of the value written to it, or the blank
 * pattern when the byte is not in the table. A digit's state is the list of
 * its segments a..g, true for "on".
 */
module SevenSegment {
  import opened JsNumbers

  datatype Digit = Left | MidLeft | MidRight | Right

  /** `patterns`: segments a..g of each known byte, 1 for lit. */
  const Patterns: map<int, seq<int>> := map[
    0x00 := [0, 0, 0, 0, 0, 0, 0],
    0x3F := [1, 1, 1, 1, 1, 1, 0],
    0x06 := [0, 1, 1, 0, 0, 0, 0],
    0x5B := [1, 1, 0, 1, 1, 0, 1],
    0x4F := [1, 1, 1, 1, 0, 0, 1],
    0x66 := [0, 1, 1, 0, 0, 1, 1],
    0x6D := [1, 0, 1, 1, 0, 1, 1],
    0x7D := [1, 0, 1, 1, 1, 1, 1],
    0x07 := [1, 1, 1, 0, 0, 0, 0],
    0x7F := [1, 1, 1, 1, 1, 1, 1],
    0x6F := [1, 1, 1, 1, 0, 1, 1],
    0x77 := [1, 1, 1, 0, 1, 1, 1],
    0x7C := [0, 0, 1, 1, 1, 1, 1],
    0x39 := [1, 0, 0, 1, 1, 1, 0],
    0x5E := [0, 1, 1, 1, 1, 0, 1],
    0x79 := [1, 0, 0, 1, 1, 1, 1],
    0x71 := [1, 0, 0, 0, 1, 1, 1]
  ]

  /** The keys of `patterns`, in source order. */
  const KEYS: seq<int> := [0x00, 0x3F, 0x06, 0x5B, 0x4F, 0x66, 0x6D, 0x7D, 0x07, 0x7F, 0x6F, 0x77, 0x7C, 0x39, 0x5E, 0x79, 0x71]

  /** Segment i of a pattern is switched on exactly when `pattern[i] === 1`. */
  function Segments(pattern: seq<int>): (on: seq<bool>)
    ensures |on| == |pattern|
    ensures forall i :: 0 <= i < |pattern| ==> (on[i] <==> pattern[i] == 1)
  {
    seq(|pattern|, i requires 0 <= i < |pattern| => pattern[i] == 1)
  }

  /** Entry k of the table has seven values and lights the segments of k's bits 0..6. */
  ghost predicate EntryMatchesKey(k: int)
    requires k in Patterns
  {
    |Patterns[k]| == 7 && Segments(Patterns[k]) == BitsFrom(k, 7)
  }

  /** The table lists 17 distinct keys, all of them bytes. */
  lemma KeysDistinct()
    ensures |KEYS| == 17 && forall i, j :: 0 <= i < j < |KEYS| ==> KEYS[i] != KEYS[j]
    ensures forall i :: 0 <= i < |KEYS| ==> 0 <= KEYS[i] < 256
  {
  }

  /** Key 0x00 holds the blank pattern `_updateDisplay` falls back to. */
  lemma BlankEntry()
    ensures 0x00 in Patterns && Patterns[0x00] == [0, 0, 0, 0, 0, 0, 0]
    ensures forall i :: 0 <= i < 7 ==> !Segments(Patterns[0x00])[i]
  {
  }

  /** The table's keys are exactly the listed bytes. */
  lemma KeysAreListed()
    ensures forall k :: k in Patterns <==> k in KEYS
  {
    forall k | k in Patterns
      ensures k in KEYS
    {
      KeyIsListed(k);
    }
  }

  lemma KeyIsListed(k: int)
    requires k in Patterns
    ensures k == 0x00 || k == 0x3F || k == 0x06 || k == 0x5B || k == 0x4F || k == 0x66 || k == 0x6D || k == 0x7D || k == 0x07 || k == 0x7F || k == 0x6F || k == 0x77 || k == 0x7C || k == 0x39 || k == 0x5E || k == 0x79 || k == 0x71
  {
  }

  lemma EntriesMatchKeys()
    ensures forall k :: k in Patterns ==> EntryMatchesKey(k)
  {
    forall k | k in Patterns
      ensures EntryMatchesKey(k)
    {
      KeyIsListed(k);
      if k == 0x00 || k == 0x3F {
        EntriesMatchKeys0();
      } else if k == 0x06 || k == 0x5B {
        EntriesMatchKeys1();
      } else if k == 0x4F || k == 0x66 {
        EntriesMatchKeys2();
      } else if k == 0x6D || k == 0x7D {
        EntriesMatchKeys3();
      } else if k == 0x07 || k == 0x7F {
        EntriesMatchKeys4();
      } else if k == 0x6F || k == 0x77 {
        EntriesMatchKeys5();
      } else if k == 0x7C || k == 0x39 {
        EntriesMatchKeys6();
      } else if k == 0x5E || k == 0x79 {
        EntriesMatchKeys7();
      } else {
        EntriesMatchKeys8();
      }
    }
  }

  /** One entry checked against its key's bits, position by position. */
  lemma EntryMatches(k: int, pattern: seq<int>, bits: seq<bool>)
    requires k in Patterns && Patterns[k] == pattern && BitsFrom(k, 7) == bits
    requires |pattern| == 7 && |bits| == 7
    requires forall i :: 0 <= i < 7 ==> (pattern[i] == 1 <==> bits[i])
    ensures EntryMatchesKey(k)
  {
  }

  lemma EntriesMatchKeys0()
    ensures EntryMatchesKey(0x00) && EntryMatchesKey(0x3F)
  {
    EntryMatches(0x00, [0, 0, 0, 0, 0, 0, 0], [false, false, false, false, false, false, false]);
    EntryMatches(0x3F, [1, 1, 1, 1, 1, 1, 0], [true, true, true, true, true, true, false]);
  }

  lemma EntriesMatchKeys1()
    ensures EntryMatchesKey(0x06) && EntryMatchesKey(0x5B)
  {
    EntryMatches(0x06, [0, 1, 1, 0, 0, 0, 0], [false, true, true, false, false, false, false]);
    EntryMatches(0x5B, [1, 1, 0, 1, 1, 0, 1], [true, true, false, true, true, false, true]);
  }

  lemma EntriesMatchKeys2()
    ensures EntryMatchesKey(0x4F) && EntryMatchesKey(0x66)
  {
    EntryMatches(0x4F, [1, 1, 1, 1, 0, 0, 1], [true, true, true, true, false, false, true]);
    EntryMatches(0x66, [0, 1, 1, 0, 0, 1, 1], [false, true, true, false, false, true, true]);
  }

  lemma EntriesMatchKeys3()
    ensures EntryMatchesKey(0x6D) && EntryMatchesKey(0x7D)
  {
    EntryMatches(0x6D, [1, 0, 1, 1, 0, 1, 1], [true, false, true, true, false, true, true]);
    EntryMatches(0x7D, [1, 0, 1, 1, 1, 1, 1], [true, false, true, true, true, true, true]);
  }

  lemma EntriesMatchKeys4()
    ensures EntryMatchesKey(0x07) && EntryMatchesKey(0x7F)
  {
    EntryMatches(0x07, [1, 1, 1, 0, 0, 0, 0], [true, true, true, false, false, false, false]);
    EntryMatches(0x7F, [1, 1, 1, 1, 1, 1, 1], [true, true, true, true, true, true, true]);
  }

  lemma EntriesMatchKeys5()
    ensures EntryMatchesKey(0x6F) && EntryMatchesKey(0x77)
  {
    EntryMatches(0x6F, [1, 1, 1, 1, 0, 1, 1], [true, true, true, true, false, true, true]);
    EntryMatches(0x77, [1, 1, 1, 0, 1, 1, 1], [true, true, true, false, true, true, true]);
  }

  lemma EntriesMatchKeys6()
    ensures EntryMatchesKey(0x7C) && EntryMatchesKey(0x39)
  {
    EntryMatches(0x7C, [0, 0, 1, 1, 1, 1, 1], [false, false, true, true, true, true, true]);
    EntryMatches(0x39, [1, 0, 0, 1, 1, 1, 0], [true, false, false, true, true, true, false]);
  }

  lemma EntriesMatchKeys7()
    ensures EntryMatchesKey(0x5E) && EntryMatchesKey(0x79)
  {
    EntryMatches(0x5E, [0, 1, 1, 1, 1, 0, 1], [false, true, true, true, true, false, true]);
    EntryMatches(0x79, [1, 0, 0, 1, 1, 1, 1], [true, false, false, true, true, true, true]);
  }

  lemma EntriesMatchKeys8()
    ensures EntryMatchesKey(0x71)
  {
    EntryMatches(0x71, [1, 0, 0, 0, 1, 1, 1], [true, false, false, false, true, true, true]);
  }

  /**
   * `_updateDisplay`'s decoding: the segments a digit shows for a value.
   * Only `value & 0xFF` is used; a byte that is a table key lights the
   * segments of its own set bits 0..6, any other byte falls back to the
   * blank pattern of key 0x00 and lights nothing.
   */
  function Decode(value: int): (on: seq<bool>)
    ensures |on| == 7
    ensures value % 256 in Patterns ==> forall i :: 0 <= i < 7 ==> (on[i] <==> Bit(value, i))
    ensures value % 256 !in Patterns ==> forall i :: 0 <= i < 7 ==> !on[i]
  {
    EntriesMatchKeys();
    var byteValue := value % 256;
    var pattern := if byteValue in Patterns then Patterns[byteValue] else Patterns[0x00];
    assert forall i :: 0 <= i < 7 ==> Bit(byteValue, i) == Bit(value, i) by {
      assert Pow2(8) == 256;
      forall i | 0 <= i < 7 ensures Bit(byteValue, i) == Bit(value, i) {
        BitOfMod(value, 8, i);
      }
    }
    Segments(pattern)
  }

  /** Decoding a value and decoding its low byte light the same segments. */
  lemma DecodeIgnoresHighBits(value: int)
    ensures Decode(value) == Decode(value % 256)
  {
    var low := value % 256;
    var a, b := Decode(value), Decode(low);
    assert low % 256 == low;
    assert Pow2(8) == 256;
    forall i | 0 <= i < 7
      ensures a[i] == b[i]
    {
      BitOfMod(value, 8, i);
    }
    assert |a| == |b| == 7;
  }

  /** 0x7F lights every segment, and so does 0x17F: only the low byte counts. */
  lemma DecodeEight()
    ensures Decode(0x7F) == [true, true, true, true, true, true, true]
    ensures Decode(0x17F) == Decode(0x7F)
  {
  }

  /** 0x02 is not in the table: the digit goes blank. */
  lemma DecodeUnknown()
    ensures Decode(0x02) == [false, false, false, false, false, false, false]
  {
  }

  /** The state of the four digits, left to right. */
  datatype Display = Display(left: seq<bool>, midLeft: seq<bool>, midRight: seq<bool>, right: seq<bool>)
  {
    function Shown(d: Digit): seq<bool>
    {
      match d
      case Left => left
      case MidLeft => midLeft
      case MidRight => midRight
      case Right => right
    }
  }

  /** `updateLeft`, `updateMidLeft`, `updateMidRight`, `updateRight`: one digit changes. */
  function UpdateDigit(display: Display, digit: Digit, value: int): (r: Display)
    ensures r.Shown(digit) == Decode(value)
    ensures forall d :: d != digit ==> r.Shown(d) == display.Shown(d)
  {
    match digit
    case Left => display.(left := Decode(value))
    case MidLeft => display.(midLeft := Decode(value))
    case MidRight => display.(midRight := Decode(value))
    case Right => display.(right := Decode(value))
  }

  /** One call of an `update...` method: which digit, with what value. */
  datatype DigitWrite = DigitWrite(digit: Digit, value: int)

  function ApplyWrites(display: Display, writes: seq<DigitWrite>): Display
    decreases |writes|
  {
    if writes == [] then display
    else ApplyWrites(UpdateDigit(display, writes[0].digit, writes[0].value), writes[1..])
  }

  /** The calls `updateAll(values)` makes, in the order it makes them. */
  function UpdateAllCalls(values: seq<int>): (calls: seq<DigitWrite>)
    ensures |values| != 4 ==> calls == []
    ensures |values| == 4 ==> |calls| == 4 && calls[0].digit == Left && calls[1].digit == MidLeft
                              && calls[2].digit == MidRight && calls[3].digit == Right
    ensures forall k :: 0 <= k < |calls| ==> calls[k].value == values[k]
  {
    if |values| != 4 then []
    else [DigitWrite(Left, values[0]), DigitWrite(MidLeft, values[1]),
          DigitWrite(MidRight, values[2]), DigitWrite(Right, values[3])]
  }

  /**
   * `updateAll(values)`: with anything but four values no digit changes;
   * with four, digit k (left to right) shows `values[k]`.
   */
  function UpdateAll(display: Display, values: seq<int>): (r: Display)
    ensures |values| != 4 ==> r == display
    ensures |values| == 4 ==> r == Display(Decode(values[0]), Decode(values[1]), Decode(values[2]), Decode(values[3]))
  {
    var calls := UpdateAllCalls(values);
    if |values| == 4 then
      var d1 := UpdateDigit(display, Left, values[0]);
      var d2 := UpdateDigit(d1, MidLeft, values[1]);
      var d3 := UpdateDigit(d2, MidRight, values[2]);
      var d4 := UpdateDigit(d3, Right, values[3]);
      assert ApplyWrites(display, calls) == ApplyWrites(d1, calls[1..]);
      assert ApplyWrites(d1, calls[1..]) == ApplyWrites(d2, calls[2..]);
      assert ApplyWrites(d2, calls[2..]) == ApplyWrites(d3, calls[3..]);
      assert ApplyWrites(d3, calls[3..]) == ApplyWrites(d4, calls[4..]);
      ApplyWrites(display, calls)
    else
      ApplyWrites(display, calls)
  }

  /** `reset()`: all four digits blank, whatever they showed. */
  function Reset(display: Display): (r: Display)
    ensures forall d: Digit :: |r.Shown(d)| == 7 && forall i :: 0 <= i < 7 ==> !r.Shown(d)[i]
  {
    UpdateAll(display, [0, 0, 0, 0])
  }
}
