/**
 * The memory view's lines and words (js/memory-content.js).
 *
 * A `MemoryLine` holds the four words of a 16-byte line. A `MemoryWord`
 * keeps the last defined content it saw, two display markers (highlighted:
 * changed since the previous refresh; unused: the address now reads
 * undefined) and renders its value as a number and as four characters.
 * Words at the seven-segment addresses also poll those four addresses and
 * send each change to the display.
 *
 * A segment's `getContent` is a `Lookup`: a word, or None for `undefined`.
 */
module MemoryContent {
  import opened JsNumbers
  import SevenSegment

  type Lookup = int -> Option<int>

  /** The memory words the four seven-segment digits show, left to right. */
  const LEFT_ADDR: int := 0x1000_0020
  const MID_LEFT_ADDR: int := 0x1000_0024
  const MID_RIGHT_ADDR: int := 0x1000_0028
  const RIGHT_ADDR: int := 0x1000_002C

  /** The addresses `checkAndUpdate` visits, in its order. */
  const POLLED: seq<int> := [LEFT_ADDR, MID_LEFT_ADDR, MID_RIGHT_ADDR, RIGHT_ADDR]

  /** `String.fromCharCode(183)`, the middle dot shown for unprintable bytes. */
  const DOT: char := '·'

  // ----------------------------------------------------------------------
  // Numerals: `Number.prototype.toString(radix)` and `padStart`
  // ----------------------------------------------------------------------

  function Power(b: nat, k: nat): (r: nat)
    ensures b > 0 ==> r > 0
  {
    if k == 0 then 1 else b * Power(b, k - 1)
  }

  predicate ValidBase(base: nat)
  {
    2 <= base <= 16
  }

  /** The lower-case digit JavaScript writes for d. */
  function DigitChar(d: nat): (c: char)
    requires d < 16
  {
    if d < 10 then ('0' as int + d) as char else ('a' as int + d - 10) as char
  }

  predicate IsDigitChar(c: char, base: nat)
  {
    ('0' <= c <= '9' && (c as int) - ('0' as int) < base) ||
    ('a' <= c <= 'f' && (c as int) - ('a' as int) + 10 < base)
  }

  function DigitValue(c: char): (d: int)
  {
    if '0' <= c <= '9' then (c as int) - ('0' as int) else (c as int) - ('a' as int) + 10
  }

  predicate IsNumeral(s: string, base: nat)
  {
    forall k :: 0 <= k < |s| ==> IsDigitChar(s[k], base)
  }

  /** The digits of n in the given base, most significant first, without leading zeros. */
  function Numeral(n: nat, base: nat): (s: string)
    requires ValidBase(base)
    ensures |s| >= 1
    decreases n
  {
    if n < base then [DigitChar(n)] else Numeral(n / base, base) + [DigitChar(n % base)]
  }

  /** The number a string of digits denotes. */
  function NumeralValue(s: string, base: nat): (n: int)
    decreases |s|
  {
    if s == [] then 0 else NumeralValue(s[..|s| - 1], base) * base + DigitValue(s[|s| - 1])
  }

  /**
   * `x.toString(base)` for a 32-bit word: a minus sign before the digits of
   * the magnitude, which read back as the magnitude.
   */
  function ToJsString(x: int, base: nat): (s: string)
    requires ValidBase(base)
    ensures x >= 0 ==> s == Numeral(x, base) && IsNumeral(s, base) && NumeralValue(s, base) == x
    ensures x < 0 ==>
      && s == "-" + Numeral(-x, base)
      && IsNumeral(s[1..], base) && NumeralValue(s[1..], base) == -x
  {
    var magnitude := if x < 0 then -x else x;
    NumeralDigits(magnitude, base);
    NumeralRoundTrip(magnitude, base);
    if x < 0 then "-" + Numeral(magnitude, base) else Numeral(magnitude, base)
  }

  /** `s.padStart(width, fill)`: fill characters before s up to the width. */
  function PadStart(s: string, width: nat, fill: char): (r: string)
    ensures |r| == if |s| >= width then |s| else width
    ensures r[|r| - |s|..] == s
    ensures forall k :: 0 <= k < |r| - |s| ==> r[k] == fill
  {
    if |s| >= width then s else seq(width - |s|, _ => fill) + s
  }

  lemma DigitRoundTrip(d: nat)
    requires d < 16
    ensures DigitValue(DigitChar(d)) == d
  {
  }

  /** The value of s followed by one more digit. */
  lemma NumeralValueSnoc(s: string, c: char, base: nat)
    ensures NumeralValue(s + [c], base) == NumeralValue(s, base) * base + DigitValue(c)
  {
    assert (s + [c])[..|s|] == s;
  }

  /** Numeral writes only digits of its base. */
  lemma {:induction false} NumeralDigits(n: nat, base: nat)
    requires ValidBase(base)
    ensures IsNumeral(Numeral(n, base), base)
    decreases n
  {
    if n >= base {
      var q := n / base;
      assert q < n by { DivShrinks(n, base); }
      NumeralDigits(q, base);
      assert Numeral(n, base) == Numeral(q, base) + [DigitChar(n % base)];
    }
  }

  lemma DivMod(n: int, d: int)
    requires d > 0
    ensures n == (n / d) * d + n % d
  {
  }

  lemma DivShrinks(n: nat, d: nat)
    requires n >= 1 && d >= 2
    ensures n / d < n
  {
    DivMod(n, d);
  }

  /** Reading back the digits Numeral writes gives the number. */
  lemma {:induction false} NumeralRoundTrip(n: nat, base: nat)
    requires ValidBase(base)
    ensures NumeralValue(Numeral(n, base), base) == n
    decreases n
  {
    if n < base {
      DigitRoundTrip(n);
      NumeralValueSnoc([], DigitChar(n), base);
      assert [] + [DigitChar(n)] == Numeral(n, base);
    } else {
      var q, r := n / base, n % base;
      DivMod(n, base);
      assert q < n by { DivShrinks(n, base); }
      DigitRoundTrip(r);
      NumeralRoundTrip(q, base);
      var s, c := Numeral(q, base), DigitChar(r);
      assert Numeral(n, base) == s + [c];
      NumeralValueSnoc(s, c, base);
      assert NumeralValue(s + [c], base) == q * base + r;
    }
  }

  /** A run of zeros is worth 0. */
  lemma {:induction false} ZerosValue(k: nat, base: nat)
    ensures NumeralValue(seq(k, _ => '0'), base) == 0
    decreases k
  {
    if k > 0 {
      assert seq(k, _ => '0') == seq(k - 1, _ => '0') + ['0'];
      NumeralValueSnoc(seq(k - 1, _ => '0'), '0', base);
      ZerosValue(k - 1, base);
    }
  }

  /** Leading zeros do not change the value. */
  lemma {:induction false} LeadingZeros(k: nat, s: string, base: nat)
    ensures NumeralValue(seq(k, _ => '0') + s, base) == NumeralValue(s, base)
    decreases |s|
  {
    var zeros := seq(k, _ => '0');
    if s == [] {
      assert zeros + s == zeros;
      ZerosValue(k, base);
    } else {
      var init, last := s[..|s| - 1], s[|s| - 1];
      assert s == init + [last];
      assert zeros + s == (zeros + init) + [last];
      NumeralValueSnoc(zeros + init, last, base);
      NumeralValueSnoc(init, last, base);
      LeadingZeros(k, init, base);
    }
  }

  /** A number below base^k has at most k digits. */
  lemma {:induction false} NumeralLength(n: nat, base: nat, k: nat)
    requires ValidBase(base) && 1 <= k && n < Power(base, k)
    ensures |Numeral(n, base)| <= k
    decreases n
  {
    if n >= base {
      var p := Power(base, k - 1);
      assert Power(base, k) == base * p;
      assert k >= 2;
      var q := n / base;
      QuotientBelow(n, base, p);
      DivShrinks(n, base);
      NumeralLength(q, base, k - 1);
      assert |Numeral(n, base)| == |Numeral(q, base)| + 1;
    }
  }

  lemma QuotientBelow(n: nat, d: nat, p: nat)
    requires d > 0 && n < d * p
    ensures n / d < p
  {
    DivMod(n, d);
    if n / d >= p {
      MulMono(d, p, n / d);
    }
  }

  lemma MulMono(b: nat, p: nat, q: nat)
    requires p <= q
    ensures b * p <= b * q
  {
    assert b * q == b * p + b * (q - p);
  }

  lemma PowerSixteenEight()
    ensures Power(16, 8) == TWO_32
  {
    assert Power(16, 4) == 0x1_0000;
  }

  // ----------------------------------------------------------------------
  // `getValueInnerText` and `getStringInnerText`
  // ----------------------------------------------------------------------

  /**
   * `getValueInnerText()` for a radix and a word: in decimal the number
   * right-aligned in 10 columns, otherwise its `toString(16)` padded with
   * '0' to 8; an undefined word shows as blanks of the same width.
   */
  function ValueText(radix: int, value: Option<int>): (r: string)
    ensures radix == 10 && value.None? ==> r == seq(10, _ => ' ')
    ensures radix != 10 && value.None? ==> r == seq(8, _ => ' ')
    ensures value.Some? ==>
      var t := ToJsString(value.value, if radix == 10 then 10 else 16);
      var width := if radix == 10 then 10 else 8;
      && |r| == (if |t| >= width then |t| else width)
      && r[|r| - |t|..] == t
      && forall k :: 0 <= k < |r| - |t| ==> r[k] == (if radix == 10 then ' ' else '0')
    ensures |r| >= if radix == 10 then 10 else 8
  {
    if radix == 10 then
      PadStart(if value.None? then "" else ToJsString(value.value, 10), 10, ' ')
    else if value.None? then PadStart("", 8, ' ')
    else PadStart(ToJsString(value.value, 16), 8, '0')
  }

  /** A non-negative word in hex is exactly 8 hex digits that read back as the word. */
  lemma HexTextRoundTrip(v: Int32)
    requires v >= 0
    ensures |ValueText(16, Some(v))| == 8
    ensures IsNumeral(ValueText(16, Some(v)), 16)
    ensures NumeralValue(ValueText(16, Some(v)), 16) == v
  {
    var s := ToJsString(v, 16);
    HexPadding(v);
    PaddedNumeral(s, 8 - |s|, 16);
  }

  /** A non-negative word's hex digits fit in 8 columns, so the hex text is zeros followed by them. */
  lemma HexPadding(v: Int32)
    requires v >= 0
    ensures var s := ToJsString(v, 16);
      |s| <= 8 && ValueText(16, Some(v)) == seq(8 - |s|, _ => '0') + s
  {
    PowerSixteenEight();
    NumeralLength(v, 16, 8);
  }

  /** Zeros in front of a numeral keep it a numeral of the same value. */
  lemma PaddedNumeral(s: string, k: nat, base: nat)
    requires ValidBase(base) && IsNumeral(s, base)
    ensures IsNumeral(seq(k, _ => '0') + s, base)
    ensures NumeralValue(seq(k, _ => '0') + s, base) == NumeralValue(s, base)
  {
    LeadingZeros(k, s, base);
  }

  /** A decimal word reads back from the columns after the padding. */
  lemma DecimalTextRoundTrip(v: int)
    requires v >= 0
    ensures var r := ValueText(10, Some(v));
            NumeralValue(r[|r| - |Numeral(v, 10)|..], 10) == v
  {
    NumeralRoundTrip(v, 10);
  }

  /**
   * A negative word in hex: `toString(16)` puts a minus sign in front and
   * `padStart` then puts the zeros in front of the sign.
   */
  lemma NegativeHexText()
    ensures ValueText(16, Some(-1)) == "000000-1"
    ensures !IsNumeral(ValueText(16, Some(-1)), 16)
  {
    assert ValueText(16, Some(-1))[6] == '-';
  }

  /** The word as the processor holds it, in 8 hex digits: `(v >>> 0).toString(16)` padded. */
  function HexWordText(v: int): (r: string)
    ensures |r| == 8 && IsNumeral(r, 16)
    ensures NumeralValue(r, 16) == v % TWO_32
  {
    var u := v % TWO_32;
    PowerSixteenEight();
    NumeralLength(u, 16, 8);
    NumeralRoundTrip(u, 16);
    NumeralDigits(u, 16);
    LeadingZeros(8 - |Numeral(u, 16)|, Numeral(u, 16), 16);
    PadStart(Numeral(u, 16), 8, '0')
  }

  /** `getValueInnerText` with the hex branch showing the word unsigned. */
  function UnsignedValueText(radix: int, value: Option<int>): (r: string)
    ensures radix != 10 && value.Some? ==> r == HexWordText(value.value)
    ensures radix == 10 || value.None? ==> r == ValueText(radix, value)
  {
    if radix != 10 && value.Some? then HexWordText(value.value) else ValueText(radix, value)
  }

  /** Every word reads back from its unsigned hex text. */
  lemma UnsignedHexRoundTrip(v: Int32)
    ensures |UnsignedValueText(16, Some(v))| == 8
    ensures ToInt32(NumeralValue(UnsignedValueText(16, Some(v)), 16)) == v
  {
    var u := v % TWO_32;
    assert ToInt32(u) == v by {
      if v >= 0 {
        DivModUnique(v, TWO_32, 0, v);
      } else {
        DivModUnique(v, TWO_32, -1, v + TWO_32);
      }
    }
  }

  /** A byte as `getStringInnerText` shows it: printable ASCII as itself, anything else as a dot. */
  function ByteChar(e: int): (c: char)
    ensures 32 <= e < 127 ==> c as int == e
    ensures !(32 <= e < 127) ==> c == DOT
  {
    if 32 <= e < 127 then e as char else DOT
  }

  /**
   * `getStringInnerText()`: the four bytes `v & 0xff`, `(v & 0xffff) >> 8`,
   * `(v & 0xffffff) >> 16` and `v >> 24`, each as a character; four blanks
   * for an undefined word.
   */
  function StringText(value: Option<int>): (r: string)
    ensures |r| == 4
    ensures value.None? ==> r == "    "
  {
    match value
    case None => "    "
    case Some(v) =>
      [ByteChar(v % 0x100), ByteChar(v % 0x1_0000 / 0x100),
       ByteChar(v % 0x100_0000 / 0x1_0000), ByteChar(ToInt32(v) / 0x100_0000)]
  }

  /** Byte k of the 32-bit pattern u, least significant first. */
  function ByteOf(u: int, k: nat): int
  {
    u / Power(256, k) % 256
  }

  lemma ModThenDiv(x: int, a: int, b: int)
    requires a > 0 && b > 0
    ensures x % (a * b) / a == x / a % b
  {
    var q, r := x / (a * b), x % (a * b);
    var r1, r0 := r / a, r % a;
    assert r == a * r1 + r0;
    assert 0 <= r1 < b by {
      if r1 >= b {
        MulMono(a, b, r1);
      }
    }
    assert x == a * (b * q + r1) + r0 by {
      assert x == (a * b) * q + r;
    }
    DivModUnique(x, a, b * q + r1, r0);
    DivModUnique(x / a, b, q, r1);
  }

  lemma ModOfMod(x: int, m: int, n: int)
    requires m > 0 && n > 0
    ensures x % (m * n) % m == x % m
  {
    var q, r := x / (m * n), x % (m * n);
    assert x == m * (n * q) + r by {
      assert x == (m * n) * q + r;
    }
    DivModUnique(x, m, n * q + r / m, r % m) by {
      assert r == m * (r / m) + r % m;
    }
  }

  /**
   * The four characters are the word's bytes from least to most
   * significant, as a 32-bit pattern: for a negative word `v >> 24` is
   * negative, and the top byte it stands for is 128 or more, so both show a dot.
   */
  lemma StringTextBytes(v: Int32)
    ensures forall k :: 0 <= k < 4 ==> StringText(Some(v))[k] == ByteChar(ByteOf(v % TWO_32, k))
  {
    var u := v % TWO_32;
    assert Power(256, 1) == 0x100 && Power(256, 2) == 0x1_0000 && Power(256, 3) == 0x100_0000;
    ModOfMod(v, 0x100, 0x100_0000);
    ModOfMod(v, 0x1_0000, 0x1_0000);
    ModOfMod(v, 0x100_0000, 0x100);
    assert u % 0x100 == v % 0x100;
    assert u % 0x1_0000 == v % 0x1_0000;
    assert u % 0x100_0000 == v % 0x100_0000;
    ModThenDiv(u, 0x100, 0x100);
    ModThenDiv(u, 0x1_0000, 0x100);
    assert ByteOf(u, 0) == u % 256 by { assert Power(256, 0) == 1; }
    if v >= 0 {
      DivModUnique(v, TWO_32, 0, v);
      assert ByteOf(u, 3) == v / 0x100_0000;
    } else {
      DivModUnique(v, TWO_32, -1, v + TWO_32);
      assert u / 0x100_0000 >= 128;
      assert ToInt32(v) / 0x100_0000 < 0;
    }
  }

  // ----------------------------------------------------------------------
  // `updateSevenSegment` and the polling of the four digit words
  // ----------------------------------------------------------------------

  /** The digit `updateSevenSegment` drives for an address, if any. */
  function DigitAt(addr: int): Option<SevenSegment.Digit>
  {
    if addr == LEFT_ADDR then Some(SevenSegment.Left)
    else if addr == MID_LEFT_ADDR then Some(SevenSegment.MidLeft)
    else if addr == MID_RIGHT_ADDR then Some(SevenSegment.MidRight)
    else if addr == RIGHT_ADDR then Some(SevenSegment.Right)
    else None
  }

  /** The memory word a digit shows. */
  function DigitAddress(d: SevenSegment.Digit): int
  {
    match d
    case Left => LEFT_ADDR
    case MidLeft => MID_LEFT_ADDR
    case MidRight => MID_RIGHT_ADDR
    case Right => RIGHT_ADDR
  }

  /**
   * Exactly the four polled addresses drive a digit, each its own one, and
   * they are polled left to right.
   */
  lemma DigitAddressing(addr: int, d: SevenSegment.Digit)
    ensures DigitAt(addr).Some? <==> addr in POLLED
    ensures DigitAt(addr) == Some(d) <==> addr == DigitAddress(d)
    ensures POLLED == [DigitAddress(SevenSegment.Left), DigitAddress(SevenSegment.MidLeft),
                       DigitAddress(SevenSegment.MidRight), DigitAddress(SevenSegment.Right)]
  {
  }

  /** `newValue & 0xFF`; an undefined value converts to 0. */
  function LowByte(v: Option<int>): (b: int)
    ensures 0 <= b < 256
    ensures v.None? ==> b == 0
    ensures v.Some? ==> (v.value - b) % 256 == 0
  {
    if v.Some? then v.value % 256 else 0
  }

  /** `updateSevenSegment(address, newValue)`: the digit of the address shows the low byte. */
  function UpdateSevenSegment(display: SevenSegment.Display, addr: int, newValue: Option<int>): (r: SevenSegment.Display)
    ensures DigitAt(addr).None? ==> r == display
    ensures DigitAt(addr).Some? ==> r.Shown(DigitAt(addr).value) == SevenSegment.Decode(LowByte(newValue))
    ensures forall d :: DigitAt(addr) != Some(d) ==> r.Shown(d) == display.Shown(d)
  {
    match DigitAt(addr)
    case None => display
    case Some(d) => SevenSegment.UpdateDigit(display, d, LowByte(newValue))
  }

  /** A `previousValues` entry: `null` before the first poll, then the content seen. */
  datatype Recorded = Unset | Seen(content: Option<int>)

  /** `startPolling()`: all four previous values null. */
  function InitialPrevious(): (m: map<int, Recorded>)
    ensures forall a :: a in m <==> a in POLLED
    ensures forall a :: a in m ==> m[a] == Unset
  {
    map a | a in POLLED :: Unset
  }

  predicate NoDuplicates(s: seq<int>)
  {
    forall i, j :: 0 <= i < j < |s| ==> s[i] != s[j]
  }

  /** The addresses, in visiting order, whose content differs from the recorded one. */
  function Changed(prev: map<int, Recorded>, lookup: Lookup, addrs: seq<int>): (c: seq<int>)
    requires forall a :: a in addrs ==> a in prev
    ensures |c| <= |addrs|
    decreases |addrs|
  {
    if addrs == [] then []
    else
      var a := addrs[0];
      assert a in addrs;
      (if prev[a] != Seen(lookup(a)) then [a] else []) + Changed(prev, lookup, addrs[1..])
  }

  /** An address is notified iff it is visited and differs from its record; none twice. */
  lemma {:induction false} ChangedMembers(prev: map<int, Recorded>, lookup: Lookup, addrs: seq<int>)
    requires forall a :: a in addrs ==> a in prev
    ensures forall a :: a in Changed(prev, lookup, addrs) <==> a in addrs && prev[a] != Seen(lookup(a))
    ensures NoDuplicates(addrs) ==> NoDuplicates(Changed(prev, lookup, addrs))
    decreases |addrs|
  {
    if addrs != [] {
      ChangedMembers(prev, lookup, addrs[1..]);
      var a := addrs[0];
      assert forall b :: b in addrs <==> b == a || b in addrs[1..];
      if NoDuplicates(addrs) {
        assert a !in addrs[1..];
        assert NoDuplicates(addrs[1..]);
      }
    }
  }

  /** When every address matches its record, none is notified. */
  lemma {:induction false} NoneChanged(prev: map<int, Recorded>, lookup: Lookup, addrs: seq<int>)
    requires forall a :: a in addrs ==> a in prev && prev[a] == Seen(lookup(a))
    ensures Changed(prev, lookup, addrs) == []
    decreases |addrs|
  {
    if addrs != [] {
      NoneChanged(prev, lookup, addrs[1..]);
    }
  }

  /** When every address differs from its record, all of them are notified. */
  lemma {:induction false} AllChanged(prev: map<int, Recorded>, lookup: Lookup, addrs: seq<int>)
    requires forall a :: a in addrs ==> a in prev && prev[a] == Unset
    ensures Changed(prev, lookup, addrs) == addrs
    decreases |addrs|
  {
    if addrs != [] {
      AllChanged(prev, lookup, addrs[1..]);
    }
  }

  /** The display after `updateSevenSegment` for each notified address in turn. */
  function Notify(display: SevenSegment.Display, lookup: Lookup, notified: seq<int>): SevenSegment.Display
    decreases |notified|
  {
    if notified == [] then display
    else Notify(UpdateSevenSegment(display, notified[0], lookup(notified[0])), lookup, notified[1..])
  }

  /** The recorded values after a poll: each polled address holds what it read. */
  function Record(prev: map<int, Recorded>, lookup: Lookup): (m: map<int, Recorded>)
    ensures forall a :: a in m <==> a in prev || a in POLLED
    ensures forall a :: a in POLLED ==> m[a] == Seen(lookup(a))
    ensures forall a :: a in prev && a !in POLLED ==> m[a] == prev[a]
  {
    map a | a in prev.Keys + (set b | b in POLLED) :: if a in POLLED then Seen(lookup(a)) else prev[a]
  }

  /** The recorded values part way through a poll: the first n polled addresses hold what they read. */
  function RecordFirst(prev: map<int, Recorded>, lookup: Lookup, n: nat): map<int, Recorded>
    requires n <= |POLLED|
  {
    if n == 0 then prev
    else RecordFirst(prev, lookup, n - 1)[POLLED[n - 1] := Seen(lookup(POLLED[n - 1]))]
  }

  lemma {:induction false} RecordFirstAt(prev: map<int, Recorded>, lookup: Lookup, n: nat, a: int)
    requires n <= |POLLED|
    ensures a in RecordFirst(prev, lookup, n) <==> a in prev || a in POLLED[..n]
    ensures a in RecordFirst(prev, lookup, n) ==>
      RecordFirst(prev, lookup, n)[a] == if a in POLLED[..n] then Seen(lookup(a)) else prev[a]
  {
    if n > 0 {
      RecordFirstAt(prev, lookup, n - 1, a);
      assert POLLED[..n] == POLLED[..n - 1] + [POLLED[n - 1]];
    }
  }

  /** One step of a poll: the address visited still holds its old record, and is then recorded and notified if it differs. */
  lemma PollStep(prev: map<int, Recorded>, lookup: Lookup, i: nat, shown: SevenSegment.Display)
    requires i < |POLLED| && forall a :: a in POLLED ==> a in prev
    ensures var a := POLLED[i];
      && a in RecordFirst(prev, lookup, i) && RecordFirst(prev, lookup, i)[a] == prev[a]
      && RecordFirst(prev, lookup, i + 1) ==
         (if prev[a] != Seen(lookup(a)) then RecordFirst(prev, lookup, i)[a := Seen(lookup(a))] else RecordFirst(prev, lookup, i))
      && Notify(shown, lookup, Changed(prev, lookup, POLLED[i..])) ==
         Notify(if prev[a] != Seen(lookup(a)) then UpdateSevenSegment(shown, a, lookup(a)) else shown,
                lookup, Changed(prev, lookup, POLLED[i + 1..]))
  {
    var a := POLLED[i];
    RecordFirstAt(prev, lookup, i, a);
    assert a !in POLLED[..i];
    var rest := POLLED[i..];
    assert rest[0] == a && rest[1..] == POLLED[i + 1..];
    var tail := Changed(prev, lookup, rest[1..]);
    if prev[a] == Seen(lookup(a)) {
      assert RecordFirst(prev, lookup, i)[a := Seen(lookup(a))] == RecordFirst(prev, lookup, i);
      assert Changed(prev, lookup, rest) == tail;
    } else {
      assert Changed(prev, lookup, rest) == [a] + tail;
      assert ([a] + tail)[1..] == tail;
    }
  }

  /** Recording all four polled addresses one by one is `Record`. */
  lemma RecordAll(prev: map<int, Recorded>, lookup: Lookup)
    ensures RecordFirst(prev, lookup, |POLLED|) == Record(prev, lookup)
  {
    var m, m' := RecordFirst(prev, lookup, |POLLED|), Record(prev, lookup);
    assert POLLED[..|POLLED|] == POLLED;
    forall a
      ensures a in m <==> a in m'
      ensures a in m ==> m[a] == m'[a]
    {
      RecordFirstAt(prev, lookup, |POLLED|, a);
    }
  }

  /** The first poll notifies all four digits, even of undefined content. */
  lemma FirstPollNotifiesAll(lookup: Lookup)
    ensures Changed(InitialPrevious(), lookup, POLLED) == POLLED
  {
    AllChanged(InitialPrevious(), lookup, POLLED);
  }

  /** A poll that finds nothing changed since the previous poll notifies nothing. */
  lemma QuietSecondPoll(prev: map<int, Recorded>, lookup: Lookup)
    ensures Changed(Record(prev, lookup), lookup, POLLED) == []
  {
    NoneChanged(Record(prev, lookup), lookup, POLLED);
  }

  /** Notifying distinct addresses: a digit shows its word's low byte iff its address was notified. */
  lemma {:induction false} NotifyShows(display: SevenSegment.Display, lookup: Lookup, notified: seq<int>, d: SevenSegment.Digit)
    requires NoDuplicates(notified)
    ensures Notify(display, lookup, notified).Shown(d) ==
      if DigitAddress(d) in notified then SevenSegment.Decode(LowByte(lookup(DigitAddress(d)))) else display.Shown(d)
    decreases |notified|
  {
    if notified != [] {
      var a := notified[0];
      var next := UpdateSevenSegment(display, a, lookup(a));
      NotifyShows(next, lookup, notified[1..], d);
      if a == DigitAddress(d) {
        assert DigitAddress(d) !in notified[1..];
      }
      assert DigitAddress(d) in notified <==> a == DigitAddress(d) || DigitAddress(d) in notified[1..];
    }
  }

  /**
   * After a poll, a digit shows the low byte of its word when that word
   * differs from what was recorded for it, and is left alone otherwise.
   */
  lemma PollShows(display: SevenSegment.Display, prev: map<int, Recorded>, lookup: Lookup, d: SevenSegment.Digit)
    requires forall a :: a in POLLED ==> a in prev
    ensures var a := DigitAddress(d);
            Notify(display, lookup, Changed(prev, lookup, POLLED)).Shown(d) ==
            if prev[a] != Seen(lookup(a)) then SevenSegment.Decode(LowByte(lookup(a))) else display.Shown(d)
  {
    ChangedMembers(prev, lookup, POLLED);
    NotifyShows(display, lookup, Changed(prev, lookup, POLLED), d);
  }

  // ----------------------------------------------------------------------
  // `updateValue`
  // ----------------------------------------------------------------------

  /** What `updateValue` keeps: the value shown and the two markers. */
  datatype WordState = WordState(value: Option<int>, highlighted: bool, unused: bool)

  /**
   * `updateValue()` given the word's current content: undefined content
   * only marks the word unused; equal content clears both markers; other
   * content replaces the value and is highlighted when there was a value before.
   */
  function Refreshed(s: WordState, content: Option<int>): (r: WordState)
    ensures r.value == if content.Some? then content else s.value
    ensures r.highlighted && !s.highlighted ==> s.value.Some? && content.Some? && content != s.value
    ensures content.Some? && content != s.value ==> r.highlighted == (s.highlighted || s.value.Some?)
    ensures content.None? ==> r.highlighted == s.highlighted
    ensures content == s.value && content.Some? ==> !r.highlighted && !r.unused
    ensures r.unused <==> content.None? || (s.unused && content != s.value)
  {
    if content.None? then s.(unused := true)
    else if s.value == content then s.(highlighted := false, unused := false)
    else WordState(content, s.highlighted || s.value.Some?, s.unused)
  }

  /** A highlight lasts one refresh: refreshing again with the same content clears both markers. */
  lemma HighlightLastsOneRefresh(s: WordState, content: Option<int>)
    requires content.Some?
    ensures Refreshed(Refreshed(s, content), content) == WordState(content, false, false)
  {
  }

  // ----------------------------------------------------------------------
  // The classes
  // ----------------------------------------------------------------------

  /** Whether a word's constructor starts polling: addresses 0x10000020..0x1000002C. */
  predicate PollsDigits(addr: int)
  {
    LEFT_ADDR <= addr <= RIGHT_ADDR
  }

  class MemoryWord {
    const address: int
    var value: Option<int>
    var highlighted: bool
    var unused: bool
    /** Whether `startPolling` ran: only then does `previousValues` exist. */
    var polling: bool
    var previousValues: map<int, Recorded>

    function State(): WordState
      reads this
    {
      WordState(value, highlighted, unused)
    }

    ghost predicate Valid()
      reads this
    {
      polling ==> forall a :: a in POLLED ==> a in previousValues
    }

    /** `new MemoryWord(address, parent)`: reads its content and, near the digits, starts polling. */
    constructor (address: int, lookup: Lookup)
      ensures this.address == address && State() == WordState(lookup(address), false, false)
      ensures polling <==> PollsDigits(address)
      ensures previousValues == if polling then InitialPrevious() else map[]
      ensures Valid()
    {
      this.address := address;
      value := lookup(address);
      highlighted, unused := false, false;
      polling := PollsDigits(address);
      previousValues := if PollsDigits(address) then InitialPrevious() else map[];
    }

    /** `updateValue()`. */
    method UpdateValue(lookup: Lookup)
      modifies this
      ensures State() == Refreshed(old(State()), lookup(address))
      ensures polling == old(polling) && previousValues == old(previousValues)
    {
      var newValue := lookup(address);
      if newValue.None? {
        unused := true;
        return;
      }
      if value == newValue {
        highlighted, unused := false, false;
        return;
      }
      if value.Some? {
        highlighted := true;
      }
      value := newValue;
    }

    /**
     * `checkAndUpdate()`: visits the four digit words in order; each one
     * whose content differs from the recorded value is recorded and sent
     * to its digit.
     */
    method CheckAndUpdate(lookup: Lookup, display: SevenSegment.Display) returns (shown: SevenSegment.Display)
      requires polling && Valid()
      modifies this
      ensures polling && Valid() && State() == old(State())
      ensures previousValues == Record(old(previousValues), lookup)
      ensures shown == Notify(display, lookup, Changed(old(previousValues), lookup, POLLED))
    {
      ghost var prev := previousValues;
      shown := display;
      var i := 0;
      while i < |POLLED|
        invariant 0 <= i <= |POLLED|
        invariant polling && State() == old(State())
        invariant previousValues == RecordFirst(prev, lookup, i)
        invariant Notify(shown, lookup, Changed(prev, lookup, POLLED[i..])) ==
                  Notify(display, lookup, Changed(prev, lookup, POLLED))
      {
        var address := POLLED[i];
        var newValue := lookup(address);
        PollStep(prev, lookup, i, shown);
        if previousValues[address] != Seen(newValue) {
          previousValues := previousValues[address := Seen(newValue)];
          shown := UpdateSevenSegment(shown, address, newValue);
        }
        i := i + 1;
      }
      RecordAll(prev, lookup);
    }
  }

  class MemoryLine {
    const start: int
    var words: seq<MemoryWord>

    ghost predicate Valid()
      reads this, words
    {
      |words| == 4 && forall k :: 0 <= k < 4 ==> words[k].address == start + 4 * k
    }

    /** `new MemoryLine(startAddress, parent)`: the words at start, +4, +8 and +12. */
    constructor (start: int, lookup: Lookup)
      ensures this.start == start && Valid()
      ensures forall k :: 0 <= k < 4 ==>
        fresh(words[k]) && words[k].State() == WordState(lookup(start + 4 * k), false, false)
        && (words[k].polling <==> PollsDigits(start + 4 * k)) && words[k].Valid()
    {
      this.start := start;
      var ws: seq<MemoryWord> := [];
      var address := start;
      while address < start + 0x10
        invariant address == start + 4 * |ws| && |ws| <= 4
        invariant forall k :: 0 <= k < |ws| ==>
          fresh(ws[k]) && ws[k].address == start + 4 * k && ws[k].State() == WordState(lookup(start + 4 * k), false, false)
          && (ws[k].polling <==> PollsDigits(start + 4 * k)) && ws[k].Valid()
      {
        var w := new MemoryWord(address, lookup);
        ws := ws + [w];
        address := address + 4;
      }
      words := ws;
    }

    /** `updateValues()`: `updateValue` on each word. */
    method UpdateValues(lookup: Lookup)
      requires Valid()
      modifies words
      ensures Valid()
      ensures forall k :: 0 <= k < 4 ==>
        words[k].State() == Refreshed(old(words[k].State()), lookup(words[k].address))
        && words[k].polling == old(words[k].polling) && words[k].previousValues == old(words[k].previousValues)
    {
      var i := 0;
      while i < |words|
        invariant 0 <= i <= 4
        invariant forall k :: 0 <= k < i ==>
          words[k].State() == Refreshed(old(words[k].State()), lookup(words[k].address))
          && words[k].polling == old(words[k].polling) && words[k].previousValues == old(words[k].previousValues)
        invariant forall k :: i <= k < 4 ==>
          words[k].State() == old(words[k].State())
          && words[k].polling == old(words[k].polling) && words[k].previousValues == old(words[k].previousValues)
      {
        words[i].UpdateValue(lookup);
        i := i + 1;
      }
    }
  }
}
