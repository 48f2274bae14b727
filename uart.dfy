/**
 * The memory-mapped UART of the web front-end (class `UART` in js/uart.js).
 *
 * Three registers live in the dictionary `uartMemory`: data at 0x10000040,
 * status at 0x10000044 and control at 0x10000048. Status is a bit field
 * (TX_READY, RX_DATA_AVAILABLE, TX_BUSY, RX_BUSY). Characters arriving from
 * outside go to the data register, or to the unbounded FIFO `rxBuffer` when
 * the data register still holds an unread character; a read of the data
 * register consumes that character and pulls the next one from the FIFO.
 * A write of the data register transmits its low byte.
 *
 * Register values are JavaScript numbers, here integers; a status flag is
 * tested with `status & mask`, which looks at bit i of ToInt32(status), and
 * set or cleared with `|=` and `&= ~`, which yield a signed 32-bit result
 * (`SetBit`, `ClearBit`). Characters are UTF-16 code units, as
 * `charCodeAt(0)` gives them. The transmitter's output is the sequence of
 * bytes it sent.
 *
 * The behaviour is stated once, on values (`Registers` and the functions
 * `Read`, `Write` and `Receive`); the class `Uart` updates its fields in
 * place, as the source does, and each of its methods is proved to agree
 * with those functions.
 */
module UartDevice {
  import opened JsNumbers

  const DATA_ADDR: int := 0x1000_0040
  const STATUS_ADDR: int := 0x1000_0044
  const CONTROL_ADDR: int := 0x1000_0048

  /** Status bits, by position: masks 0x01, 0x02, 0x04 and 0x08. */
  const TX_READY: nat := 0
  const RX_DATA_AVAILABLE: nat := 1
  const TX_BUSY: nat := 2
  const RX_BUSY: nat := 3

  /** A UTF-16 code unit, what `charCodeAt(0)` returns. */
  type CodeUnit = c: int | 0 <= c < 0x1_0000

  /** A transmitted character, `value & 0xFF`. */
  type Byte = b: int | 0 <= b < 0x100

  /** What `receiveChar` is handed: a string (its code units) or anything else. */
  datatype Arg = Text(units: seq<CodeUnit>) | NotText

  /** The three registers of `uartMemory` and the receive FIFO. */
  datatype Registers = Registers(data: CodeUnit, status: int, control: int, rxBuffer: seq<CodeUnit>)

  predicate IsRegister(addr: int)
  {
    addr == DATA_ADDR || addr == STATUS_ADDR || addr == CONTROL_ADDR
  }

  predicate TxReady(r: Registers)
  {
    Bit(r.status, TX_READY)
  }

  predicate RxAvailable(r: Registers)
  {
    Bit(r.status, RX_DATA_AVAILABLE)
  }

  /** The register stored at one of the three addresses. */
  function Stored(r: Registers, addr: int): int
    requires IsRegister(addr)
  {
    if addr == DATA_ADDR then r.data
    else if addr == STATUS_ADDR then r.status
    else r.control
  }

  /** `initializeMemory`: data 0, only TX_READY set, control 0, empty FIFO. */
  function Initial(): (r: Registers)
    ensures TxReady(r) && !RxAvailable(r) && !Bit(r.status, TX_BUSY) && !Bit(r.status, RX_BUSY)
    ensures r.data == 0 && r.status == 0x01 && r.control == 0 && r.rxBuffer == []
  {
    Registers(0, 0x01, 0, [])
  }

  /**
   * The FIFO is only used while the data register holds an unread
   * character: a non-empty `rxBuffer` implies RX_DATA_AVAILABLE.
   */
  ghost predicate Consistent(r: Registers)
  {
    |r.rxBuffer| > 0 ==> RxAvailable(r)
  }

  /** The characters received and not yet read, oldest first. */
  ghost function Pending(r: Registers): seq<int>
  {
    if RxAvailable(r) then [r.data] + r.rxBuffer else r.rxBuffer
  }

  datatype ReadResult = ReadResult(value: int, after: Registers)

  /**
   * `readUart(address)`. Unknown addresses read 0. Reading the data register
   * while RX_DATA_AVAILABLE is set returns the character there, clears the
   * flag, and then, if the FIFO is not empty, moves its head into the data
   * register and sets the flag again. Every other read returns the stored
   * register and changes nothing.
   */
  function Read(r: Registers, addr: int): (res: ReadResult)
    ensures !IsRegister(addr) ==> res.value == 0 && res.after == r
    ensures IsRegister(addr) && (addr != DATA_ADDR || !RxAvailable(r)) ==>
      res.value == Stored(r, addr) && res.after == r
    ensures addr == DATA_ADDR && RxAvailable(r) ==>
      && res.value == r.data
      && res.after.control == r.control
      && (forall j :: 0 <= j < 32 && j != RX_DATA_AVAILABLE ==> Bit(res.after.status, j) == Bit(r.status, j))
      && (|r.rxBuffer| > 0 ==>
            res.after.data == r.rxBuffer[0] && res.after.rxBuffer == r.rxBuffer[1..] && RxAvailable(res.after))
      && (|r.rxBuffer| == 0 ==>
            res.after.data == r.data && res.after.rxBuffer == [] && !RxAvailable(res.after))
    ensures addr == DATA_ADDR && RxAvailable(r) ==> -0x8000_0000 <= res.after.status < 0x8000_0000
  {
    if !IsRegister(addr) then ReadResult(0, r)
    else if addr == DATA_ADDR && Bit(r.status, RX_DATA_AVAILABLE) then
      var cleared := ClearBit(r.status, RX_DATA_AVAILABLE);
      if |r.rxBuffer| > 0 then
        ReadResult(r.data, r.(data := r.rxBuffer[0], status := SetBit(cleared, RX_DATA_AVAILABLE), rxBuffer := r.rxBuffer[1..]))
      else
        ReadResult(r.data, r.(status := cleared))
    else ReadResult(Stored(r, addr), r)
  }

  datatype WriteResult = WriteResult(handled: bool, after: Registers, sent: seq<Byte>)

  /**
   * `writeUart(address, value)`. A data write transmits `value & 0xFF`,
   * sets TX_READY and clears TX_BUSY; status and control writes store the
   * value as it is; any other address is refused.
   */
  function Write(r: Registers, addr: int, value: int): (res: WriteResult)
    ensures res.handled <==> IsRegister(addr)
    ensures addr == DATA_ADDR ==>
      && res.sent == [value % 256]
      && TxReady(res.after) && !Bit(res.after.status, TX_BUSY)
      && (forall j :: 0 <= j < 32 && j != TX_READY && j != TX_BUSY ==> Bit(res.after.status, j) == Bit(r.status, j))
      && res.after.data == r.data && res.after.control == r.control && res.after.rxBuffer == r.rxBuffer
    ensures addr == DATA_ADDR ==> -0x8000_0000 <= res.after.status < 0x8000_0000
    ensures addr == STATUS_ADDR ==> res.sent == [] && res.after == r.(status := value)
    ensures addr == CONTROL_ADDR ==> res.sent == [] && res.after == r.(control := value)
    ensures !IsRegister(addr) ==> res.sent == [] && res.after == r
  {
    if addr == DATA_ADDR then
      var status := ClearBit(SetBit(r.status, TX_READY), TX_BUSY);
      WriteResult(true, r.(status := status), [value % 256])
    else if addr == STATUS_ADDR then
      WriteResult(true, r.(status := value), [])
    else if addr == CONTROL_ADDR then
      WriteResult(true, r.(control := value), [])
    else
      WriteResult(false, r, [])
  }

  datatype ReceiveResult = ReceiveResult(accepted: bool, after: Registers)

  /**
   * `receiveChar(char)`. Anything but a one-character string is refused.
   * If the data register still holds an unread character the new one joins
   * the tail of the FIFO; otherwise it goes to the data register and
   * RX_DATA_AVAILABLE is set.
   */
  function Receive(r: Registers, arg: Arg): (res: ReceiveResult)
    ensures res.accepted <==> arg.Text? && |arg.units| == 1
    ensures !res.accepted ==> res.after == r
    ensures res.accepted && RxAvailable(r) ==> res.after == r.(rxBuffer := r.rxBuffer + [arg.units[0]])
    ensures res.accepted && !RxAvailable(r) ==>
      && res.after.data == arg.units[0] && RxAvailable(res.after)
      && (forall j :: 0 <= j < 32 && j != RX_DATA_AVAILABLE ==> Bit(res.after.status, j) == Bit(r.status, j))
      && res.after.control == r.control && res.after.rxBuffer == r.rxBuffer
    ensures res.accepted && !RxAvailable(r) ==> -0x8000_0000 <= res.after.status < 0x8000_0000
  {
    if !arg.Text? || |arg.units| != 1 then ReceiveResult(false, r)
    else if Bit(r.status, RX_DATA_AVAILABLE) then
      ReceiveResult(true, r.(rxBuffer := r.rxBuffer + [arg.units[0]]))
    else
      ReceiveResult(true, r.(data := arg.units[0], status := SetBit(r.status, RX_DATA_AVAILABLE)))
  }

  /** `receiveString(str)`: `receiveChar` of each code unit, first to last. */
  function ReceiveAll(r: Registers, units: seq<CodeUnit>): (after: Registers)
    ensures after.control == r.control
    ensures forall j :: 0 <= j < 32 && j != RX_DATA_AVAILABLE ==> Bit(after.status, j) == Bit(r.status, j)
    ensures units != [] ==> RxAvailable(after)
    decreases |units|
  {
    if units == [] then r
    else Receive(ReceiveAll(r, units[..|units| - 1]), Text([units[|units| - 1]])).after
  }

  /** n successive reads of the data register: the values read and the final registers. */
  function ReadData(r: Registers, n: nat): (seq<int>, Registers)
    decreases n
  {
    if n == 0 then ([], r)
    else
      var first := Read(r, DATA_ADDR);
      var rest := ReadData(first.after, n - 1);
      ([first.value] + rest.0, rest.1)
  }

  /** Receiving, reading, and transmitting never break the FIFO invariant. */
  lemma ConsistentPreserved(r: Registers, arg: Arg, addr: int, value: int)
    requires Consistent(r)
    ensures Consistent(Receive(r, arg).after)
    ensures Consistent(Read(r, addr).after)
    ensures addr != STATUS_ADDR ==> Consistent(Write(r, addr, value).after)
  {
  }

  /**
   * A raw status write can clear RX_DATA_AVAILABLE while characters wait in
   * the FIFO; the next received character then overtakes them.
   */
  lemma StatusWriteBreaksOrder()
    ensures var r := Registers(0x41, 0x02, 0, [0x42]);
            var w := Write(r, STATUS_ADDR, 0).after;
            && Consistent(r) && !Consistent(w)
            && Receive(w, Text([0x43])).after.data == 0x43
            && Receive(w, Text([0x43])).after.rxBuffer == [0x42]
  {
  }

  /** With the invariant, an accepted character joins the tail of the pending characters. */
  lemma ReceiveQueues(r: Registers, c: CodeUnit)
    requires Consistent(r)
    ensures Pending(Receive(r, Text([c])).after) == Pending(r) + [c]
  {
    var after := Receive(r, Text([c])).after;
    if RxAvailable(r) {
      assert after == r.(rxBuffer := r.rxBuffer + [c]);
      assert Pending(after) == [r.data] + (r.rxBuffer + [c]);
    } else {
      assert r.rxBuffer == [];
      assert after.data == c && RxAvailable(after) && after.rxBuffer == [];
      assert Pending(after) == [c];
    }
  }

  /** With the invariant, a data read returns the oldest pending character and removes it. */
  lemma ReadDequeues(r: Registers)
    requires Consistent(r) && Pending(r) != []
    ensures Read(r, DATA_ADDR).value == Pending(r)[0]
    ensures Pending(Read(r, DATA_ADDR).after) == Pending(r)[1..]
    ensures Consistent(Read(r, DATA_ADDR).after)
  {
    var after := Read(r, DATA_ADDR).after;
    assert RxAvailable(r);
    if r.rxBuffer == [] {
      assert !RxAvailable(after) && after.rxBuffer == [];
    } else {
      assert RxAvailable(after) && after.data == r.rxBuffer[0] && after.rxBuffer == r.rxBuffer[1..];
      assert Pending(after) == [r.rxBuffer[0]] + r.rxBuffer[1..];
    }
  }

  lemma {:induction false} ReceiveAllQueues(r: Registers, units: seq<CodeUnit>)
    requires Consistent(r)
    ensures Consistent(ReceiveAll(r, units))
    ensures Pending(ReceiveAll(r, units)) == Pending(r) + units
    decreases |units|
  {
    if units != [] {
      var init, last := units[..|units| - 1], units[|units| - 1];
      ReceiveAllQueues(r, init);
      var mid := ReceiveAll(r, init);
      ConsistentPreserved(mid, Text([last]), 0, 0);
      ReceiveQueues(mid, last);
      assert units == init + [last];
    }
  }

  lemma {:induction false} ReadDataDrains(r: Registers, n: nat)
    requires Consistent(r) && n <= |Pending(r)|
    ensures ReadData(r, n).0 == Pending(r)[..n]
    ensures Consistent(ReadData(r, n).1)
    ensures Pending(ReadData(r, n).1) == Pending(r)[n..]
    decreases n
  {
    if n > 0 {
      var first := Read(r, DATA_ADDR);
      ReadDequeues(r);
      var rest := ReadData(first.after, n - 1);
      ReadDataDrains(first.after, n - 1);
      assert ReadData(r, n) == ([first.value] + rest.0, rest.1);
      assert Pending(r)[..n] == [Pending(r)[0]] + Pending(r)[1..][..n - 1];
    }
  }

  /**
   * FIFO order: with nothing pending, n received characters followed by n
   * data reads (and no status write in between) read back exactly those
   * characters, in arrival order, and leave nothing pending.
   */
  lemma ArrivalOrder(r: Registers, units: seq<CodeUnit>)
    requires Consistent(r) && !RxAvailable(r)
    ensures ReadData(ReceiveAll(r, units), |units|).0 == units
    ensures Pending(ReadData(ReceiveAll(r, units), |units|).1) == []
  {
    assert Pending(r) == [];
    ReceiveAllQueues(r, units);
    var full := ReceiveAll(r, units);
    assert Pending(full) == units;
    ReadDataDrains(full, |units|);
    assert Pending(full)[..|units|] == units;
  }

  /** "HI" arrives at a fresh UART and is read back; a third read repeats the last character. */
  lemma ReceiveHiExample()
    ensures var r := ReadData(ReceiveAll(Initial(), [72, 73]), 3);
            r.0 == [72, 73, 73] && !RxAvailable(r.1) && TxReady(r.1)
  {
    ArrivalOrder(Initial(), [72, 73]);
    var after := ReadData(ReceiveAll(Initial(), [72, 73]), 2).1;
    assert ReadData(ReceiveAll(Initial(), [72, 73]), 3).0 == [72, 73] + ReadData(after, 1).0 by {
      ReadDataSplit(ReceiveAll(Initial(), [72, 73]), 2, 1);
    }
  }

  lemma {:induction false} ReadDataSplit(r: Registers, m: nat, n: nat)
    ensures ReadData(r, m + n).0 == ReadData(r, m).0 + ReadData(ReadData(r, m).1, n).0
    ensures ReadData(r, m + n).1 == ReadData(ReadData(r, m).1, n).1
    decreases m
  {
    if m > 0 {
      ReadDataSplit(Read(r, DATA_ADDR).after, m - 1, n);
    }
  }

  /** The characters `escapeHtml` replaces. */
  predicate IsSpecial(c: char)
  {
    c == '&' || c == '<' || c == '>' || c == '"' || c == '\'' || c == '\n' || c == '\r' || c == '\t'
  }

  /** Characters that must not reach the display raw: markup delimiters, quotes and control characters. */
  predicate IsUnsafe(c: char)
  {
    c == '<' || c == '>' || c == '"' || c == '\'' || c == '\n' || c == '\r' || c == '\t'
  }

  /** The replacement `escapeHtml`'s table gives one character. */
  function EscapeChar(c: char): (e: string)
    ensures |e| >= 1 && (|e| == 1 <==> !IsSpecial(c))
    ensures forall i :: 0 <= i < |e| ==> !IsUnsafe(e[i])
    ensures !IsSpecial(c) ==> e == [c]
  {
    match c
    case '&' => "&amp;"
    case '<' => "&lt;"
    case '>' => "&gt;"
    case '"' => "&quot;"
    case '\'' => "&#039;"
    case '\n' => "\\n"
    case '\r' => "\\r"
    case '\t' => "\\t"
    case _ => [c]
  }

  /**
   * `escapeHtml(text)`: every special character replaced by its entity or
   * backslash form, every other character kept. No markup delimiter, quote
   * or control character survives, and the text grows exactly when it held
   * a special character.
   */
  function EscapeHtml(text: string): (r: string)
    ensures forall i :: 0 <= i < |r| ==> !IsUnsafe(r[i])
    ensures |r| >= |text|
    ensures |r| == |text| <==> forall i :: 0 <= i < |text| ==> !IsSpecial(text[i])
    decreases |text|
  {
    if text == [] then []
    else
      var head, tail := EscapeChar(text[0]), EscapeHtml(text[1..]);
      assert forall i :: 1 <= i < |text| ==> text[1..][i - 1] == text[i];
      head + tail
  }

  /** Text without special characters is displayed as it is. */
  lemma {:induction false} EscapePlainText(text: string)
    requires forall i :: 0 <= i < |text| ==> !IsSpecial(text[i])
    ensures EscapeHtml(text) == text
    decreases |text|
  {
    if text != [] {
      EscapePlainText(text[1..]);
    }
  }

  predicate StartsWith(s: string, prefix: string)
  {
    |prefix| <= |s| && forall k :: 0 <= k < |prefix| ==> s[k] == prefix[k]
  }

  /** Reads back what `escapeHtml` wrote: the entities and backslash forms, leftmost first. */
  function UnescapeHtml(s: string): string
    decreases |s|
  {
    if s == [] then []
    else if StartsWith(s, "&amp;") then "&" + UnescapeHtml(s[5..])
    else if StartsWith(s, "&lt;") then "<" + UnescapeHtml(s[4..])
    else if StartsWith(s, "&gt;") then ">" + UnescapeHtml(s[4..])
    else if StartsWith(s, "&quot;") then "\"" + UnescapeHtml(s[6..])
    else if StartsWith(s, "&#039;") then "'" + UnescapeHtml(s[6..])
    else if StartsWith(s, "\\n") then "\n" + UnescapeHtml(s[2..])
    else if StartsWith(s, "\\r") then "\r" + UnescapeHtml(s[2..])
    else if StartsWith(s, "\\t") then "\t" + UnescapeHtml(s[2..])
    else [s[0]] + UnescapeHtml(s[1..])
  }

  lemma UnescapeChar(c: char, rest: string)
    requires c != '\\'
    ensures UnescapeHtml(EscapeChar(c) + rest) == [c] + UnescapeHtml(rest)
  {
    var e := EscapeChar(c);
    var s := e + rest;
    assert s[|e|..] == rest;
    assert s[0] == e[0];
    if |e| > 1 {
      assert s[1] == e[1];
    }
  }

  /**
   * On text without a backslash nothing is lost: unescaping the escaped
   * text gives the text back.
   */
  lemma {:induction false} EscapeRoundTrip(text: string)
    requires forall i :: 0 <= i < |text| ==> text[i] != '\\'
    ensures UnescapeHtml(EscapeHtml(text)) == text
    decreases |text|
  {
    if text != [] {
      UnescapeChar(text[0], EscapeHtml(text[1..]));
      EscapeRoundTrip(text[1..]);
      assert text == [text[0]] + text[1..];
    }
  }

  /** A backslash is not escaped, so a newline and a backslash followed by n display alike. */
  lemma EscapeLosesBackslash()
    ensures EscapeHtml("\n") == EscapeHtml("\\n") == "\\n"
  {
    assert EscapeHtml("\\n") == EscapeChar('\\') + EscapeHtml("n");
  }

  /** The UART object: the registers of `uartMemory`, the FIFO and what the transmitter sent. */
  class Uart {
    var data: CodeUnit
    var status: int
    var control: int
    var rxBuffer: seq<CodeUnit>
    /** Bytes handed to `transmitChar`, in order. */
    var sent: seq<Byte>

    function Regs(): Registers
      reads this
    {
      Registers(data, status, control, rxBuffer)
    }

    /** `new UART()`, whose `initializeMemory` sets up the registers. */
    constructor ()
      ensures Regs() == Initial() && sent == []
    {
      data, status, control := 0x00, 0x01, 0x00;
      rxBuffer := [];
      sent := [];
    }

    /** `initializeMemory()` on an existing UART. */
    method InitializeMemory()
      modifies this
      ensures Regs() == Initial() && sent == old(sent)
    {
      data, status, control := 0x00, 0x01, 0x00;
      rxBuffer := [];
    }

    method ReadUart(addr: int) returns (value: int)
      modifies this
      ensures value == Read(old(Regs()), addr).value
      ensures Regs() == Read(old(Regs()), addr).after
      ensures sent == old(sent)
    {
      if !IsRegister(addr) {
        return 0;
      }
      value := if addr == DATA_ADDR then data else if addr == STATUS_ADDR then status else control;
      if addr == DATA_ADDR && Bit(status, RX_DATA_AVAILABLE) {
        var d := data;
        status := ClearBit(status, RX_DATA_AVAILABLE);
        if |rxBuffer| > 0 {
          var next := rxBuffer[0];
          rxBuffer := rxBuffer[1..];
          data := next;
          status := SetBit(status, RX_DATA_AVAILABLE);
        }
        return d;
      }
    }

    method WriteUart(addr: int, value: int) returns (handled: bool)
      modifies this
      ensures handled == Write(old(Regs()), addr, value).handled
      ensures Regs() == Write(old(Regs()), addr, value).after
      ensures sent == old(sent) + Write(old(Regs()), addr, value).sent
    {
      if addr == DATA_ADDR {
        sent := sent + [value % 256];
        status := SetBit(status, TX_READY);
        status := ClearBit(status, TX_BUSY);
        return true;
      } else if addr == STATUS_ADDR || addr == CONTROL_ADDR {
        if addr == STATUS_ADDR {
          status := value;
        } else {
          control := value;
        }
        return true;
      }
      return false;
    }

    method ReceiveChar(arg: Arg) returns (accepted: bool)
      modifies this
      ensures accepted == Receive(old(Regs()), arg).accepted
      ensures Regs() == Receive(old(Regs()), arg).after
      ensures sent == old(sent)
    {
      if !arg.Text? || |arg.units| != 1 {
        return false;
      }
      if Bit(status, RX_DATA_AVAILABLE) {
        rxBuffer := rxBuffer + [arg.units[0]];
        return true;
      }
      data := arg.units[0];
      status := SetBit(status, RX_DATA_AVAILABLE);
      return true;
    }

    method ReceiveString(units: seq<CodeUnit>)
      modifies this
      ensures Regs() == ReceiveAll(old(Regs()), units)
      ensures sent == old(sent)
    {
      var i := 0;
      while i < |units|
        invariant 0 <= i <= |units|
        invariant Regs() == ReceiveAll(old(Regs()), units[..i])
        invariant sent == old(sent)
      {
        var _ := ReceiveChar(Text([units[i]]));
        assert units[..i + 1][..i] == units[..i];
        i := i + 1;
      }
      assert units[..i] == units;
    }

    method IsTxReady() returns (ready: bool)
      ensures ready <==> TxReady(Regs())
    {
      ready := Bit(status, TX_READY);
    }

    method IsRxDataAvailable() returns (available: bool)
      ensures available <==> RxAvailable(Regs())
    {
      available := Bit(status, RX_DATA_AVAILABLE);
    }
  }
}
