/**
 * The memory bus in front of the UART (js/uart-memory.js).
 *
 * `createDirectUartHook` wraps the simulator's memory array in a Proxy whose
 * `get` and `set` send the three UART register addresses to the UART and
 * every other address to the array; it also wraps the simulator's memory
 * functions so that every address in the closed range 0x10000040..0x10000048
 * goes to the UART. `monitorMemoryAccess` later wraps the proxied memory in
 * a second Proxy that counts accesses near the UART and handles some UART
 * addresses itself.
 *
 * The backing array is a map from address to value; an absent address is
 * `undefined`. The global `uart` is a `Uart?`: null when there is none.
 */
module UartMemory {
  import opened JsNumbers
  import opened UartDevice

  /** Length of the zero-filled array created when the simulator has none. */
  const MEMORY_SIZE: int := 0x1010_0000

  /** The window the memory monitor counts accesses in. */
  const MONITOR_LOW: int := 0x1000_0000
  const MONITOR_HIGH: int := 0x1000_0100

  /** The closed address range the wrapped memory functions give to the UART. */
  predicate InUartRange(addr: int)
  {
    DATA_ADDR <= addr <= CONTROL_ADDR
  }

  /** What a register reads as when there is no UART object: TX_READY for status, 0 otherwise. */
  function DefaultRegister(addr: int): (v: int)
    ensures addr == STATUS_ADDR ==> v == 0x01
    ensures addr != STATUS_ADDR ==> v == 0
  {
    if addr == STATUS_ADDR then 0x01 else 0x00
  }

  /** An index of the zero-filled array. */
  predicate InArray(addr: int)
  {
    0 <= addr < MEMORY_SIZE
  }

  /** `new Array(0x10100000).fill(0)`. */
  function ZeroMemory(): (m: map<int, int>)
    ensures forall a :: a in m <==> InArray(a)
    ensures forall a :: a in m ==> m[a] == 0
  {
    map a | 0 <= a < MEMORY_SIZE && InArray(a) :: 0
  }

  /**
   * The wrapped memory functions route every register address to the UART,
   * and also the six addresses strictly between them, which no register
   * occupies: the proxy sends those to the array instead.
   */
  lemma RangeWiderThanRegisters(addr: int)
    ensures IsRegister(addr) ==> InUartRange(addr)
    ensures InUartRange(addr) && !IsRegister(addr) <==>
            addr in {0x1000_0041, 0x1000_0042, 0x1000_0043, 0x1000_0045, 0x1000_0046, 0x1000_0047}
  {
  }

  /** What a wrapped memory function returns. */
  datatype HookResult =
    | ReadValue(value: int)     // a UART read
    | WriteAck(ok: bool)     // a UART write
    | Forwarded                 // handed to the original function

  /** The proxied memory array of `createDirectUartHook`. */
  class DirectHook {
    /** The global `uart`, or null. */
    const uart: Uart?
    /** The original memory array the proxy forwards to. */
    var memory: map<int, int>

    /**
     * `createDirectUartHook()`. When `window.uart` is set, the global `uart`
     * (not `window.uart`: the guard and the writes name different bindings)
     * goes back to status 0x01, data 0 and control 0, and keeps its FIFO.
     * The backing array is the existing one, or a zero-filled array when
     * there is none, and it receives the same three initial values.
     */
    constructor (uart: Uart?, windowUartSet: bool, existing: Option<map<int, int>>)
      modifies uart
      ensures this.uart == uart
      ensures uart != null && windowUartSet ==>
        && uart.Regs() == old(uart.Regs()).(data := 0, status := 0x01, control := 0)
        && uart.sent == old(uart.sent)
      ensures uart != null && !windowUartSet ==> uart.Regs() == old(uart.Regs()) && uart.sent == old(uart.sent)
      ensures var base := if existing.Some? then existing.value else ZeroMemory();
              memory == base[STATUS_ADDR := 0x01][DATA_ADDR := 0x00][CONTROL_ADDR := 0x00]
    {
      if windowUartSet && uart != null {
        uart.status := 0x01;
        uart.data := 0x00;
        uart.control := 0x00;
      }
      this.uart := uart;
      var base := if existing.Some? then existing.value else ZeroMemory();
      memory := base[STATUS_ADDR := 0x01][DATA_ADDR := 0x00][CONTROL_ADDR := 0x00];
    }

    /**
     * The proxy's `get`: exactly the three register addresses go to
     * `readUart` (or read their default without a UART); every other
     * address reads the array.
     */
    method Get(addr: int) returns (v: Option<int>)
      modifies uart
      ensures IsRegister(addr) && uart != null ==>
        && v == Some(Read(old(uart.Regs()), addr).value)
        && uart.Regs() == Read(old(uart.Regs()), addr).after
        && uart.sent == old(uart.sent)
      ensures IsRegister(addr) && uart == null ==> v == Some(DefaultRegister(addr))
      ensures !IsRegister(addr) ==> v == (if addr in memory then Some(memory[addr]) else None)
      ensures !IsRegister(addr) && uart != null ==> uart.Regs() == old(uart.Regs()) && uart.sent == old(uart.sent)
    {
      if IsRegister(addr) {
        if uart != null {
          var value := uart.ReadUart(addr);
          return Some(value);
        }
        return Some(DefaultRegister(addr));
      }
      v := if addr in memory then Some(memory[addr]) else None;
    }

    /**
     * The proxy's `set`: the three register addresses go to `writeUart`
     * and are not stored; every other address is stored as it is. It
     * always reports success.
     */
    method Set(addr: int, value: int) returns (ok: bool)
      modifies this, uart
      ensures ok
      ensures IsRegister(addr) ==> memory == old(memory)
      ensures IsRegister(addr) && uart != null ==>
        && uart.Regs() == Write(old(uart.Regs()), addr, value).after
        && uart.sent == old(uart.sent) + Write(old(uart.Regs()), addr, value).sent
      ensures !IsRegister(addr) ==> memory == old(memory)[addr := value]
      ensures !IsRegister(addr) && uart != null ==> uart.Regs() == old(uart.Regs()) && uart.sent == old(uart.sent)
    {
      if IsRegister(addr) {
        if uart != null {
          var _ := uart.WriteUart(addr, value);
        }
        return true;
      }
      memory := memory[addr := value];
      return true;
    }

    /**
     * A wrapped memory function (`loadWord`, `storeWord`, ...): every
     * address in 0x10000040..0x10000048 is a UART write when a value is
     * given and a UART read otherwise; other addresses are forwarded.
     */
    method HookedCall(addr: int, val: Option<int>) returns (r: HookResult)
      modifies uart
      ensures !InUartRange(addr) ==> r == Forwarded
      ensures InUartRange(addr) && val.Some? && uart != null ==>
        && r == WriteAck(Write(old(uart.Regs()), addr, val.value).handled)
        && uart.Regs() == Write(old(uart.Regs()), addr, val.value).after
        && uart.sent == old(uart.sent) + Write(old(uart.Regs()), addr, val.value).sent
      ensures InUartRange(addr) && val.Some? && uart == null ==> r == WriteAck(true)
      ensures InUartRange(addr) && val.None? && uart != null ==>
        && r == ReadValue(Read(old(uart.Regs()), addr).value)
        && uart.Regs() == Read(old(uart.Regs()), addr).after
        && uart.sent == old(uart.sent)
      ensures InUartRange(addr) && val.None? && uart == null ==> r == ReadValue(DefaultRegister(addr))
      ensures !InUartRange(addr) && uart != null ==> uart.Regs() == old(uart.Regs()) && uart.sent == old(uart.sent)
    {
      if InUartRange(addr) {
        if val.Some? {
          if uart != null {
            var ok := uart.WriteUart(addr, val.value);
            return WriteAck(ok);
          }
          return WriteAck(true);
        } else {
          if uart != null {
            var value := uart.ReadUart(addr);
            return ReadValue(value);
          }
          return ReadValue(DefaultRegister(addr));
        }
      }
      return Forwarded;
    }
  }

  /** Whether an address is in the window the monitor counts. */
  predicate Monitored(addr: int)
  {
    MONITOR_LOW <= addr <= MONITOR_HIGH
  }

  /**
   * `monitorMemoryAccess()` installed over the proxied memory of
   * `createDirectUartHook`, as `setupCompleteUartHook` does.
   */
  class Monitor {
    const target: DirectHook
    var accessCount: nat

    constructor (target: DirectHook)
      ensures this.target == target && accessCount == 0
    {
      this.target := target;
      accessCount := 0;
    }

    /**
     * The monitor's `get`: counts accesses in 0x10000000..0x10000100; reads
     * of status and data go to the UART directly; everything else,
     * control included, goes to the proxied memory below.
     */
    method Get(addr: int) returns (v: Option<int>)
      modifies this, target.uart
      ensures accessCount == old(accessCount) + (if Monitored(addr) then 1 else 0)
      ensures (addr == STATUS_ADDR || addr == DATA_ADDR) && target.uart != null ==>
        && v == Some(Read(old(target.uart.Regs()), addr).value)
        && target.uart.Regs() == Read(old(target.uart.Regs()), addr).after
      ensures (addr == STATUS_ADDR || addr == DATA_ADDR) && target.uart == null ==> v == Some(DefaultRegister(addr))
      ensures addr == CONTROL_ADDR && target.uart != null ==>
        v == Some(old(target.uart.control)) && target.uart.Regs() == old(target.uart.Regs())
      ensures addr == CONTROL_ADDR && target.uart == null ==> v == Some(0)
      ensures !IsRegister(addr) ==> v == (if addr in target.memory then Some(target.memory[addr]) else None)
      ensures !IsRegister(addr) && target.uart != null ==> target.uart.Regs() == old(target.uart.Regs())
      ensures target.uart != null ==> target.uart.sent == old(target.uart.sent)
    {
      if Monitored(addr) {
        accessCount := accessCount + 1;
        if InUartRange(addr) {
          if addr == STATUS_ADDR {
            if target.uart != null {
              var value := target.uart.ReadUart(addr);
              return Some(value);
            }
            return Some(0x01);
          } else if addr == DATA_ADDR {
            if target.uart != null {
              var value := target.uart.ReadUart(addr);
              return Some(value);
            }
            return Some(0x00);
          }
        }
      }
      v := target.Get(addr);
    }

    /**
     * The monitor's `set` as written: counts the access, sends a write in
     * the UART range to `writeUart`, and then also stores it through the
     * proxied memory below, whose own `set` sends a register write to
     * `writeUart` a second time.
     */
    method Set(addr: int, value: int) returns (ok: bool)
      modifies this, target, target.uart
      ensures ok
      ensures accessCount == old(accessCount) + (if Monitored(addr) then 1 else 0)
      ensures IsRegister(addr) && target.uart != null ==>
        var first := Write(old(target.uart.Regs()), addr, value);
        var second := Write(first.after, addr, value);
        && target.uart.Regs() == second.after
        && target.uart.sent == old(target.uart.sent) + first.sent + second.sent
      ensures IsRegister(addr) ==> target.memory == old(target.memory)
      ensures !IsRegister(addr) ==> target.memory == old(target.memory)[addr := value]
      ensures !IsRegister(addr) && target.uart != null ==>
        target.uart.Regs() == old(target.uart.Regs()) && target.uart.sent == old(target.uart.sent)
    {
      if Monitored(addr) {
        accessCount := accessCount + 1;
        if InUartRange(addr) && target.uart != null {
          var _ := target.uart.WriteUart(addr, value);
        }
      }
      var _ := target.Set(addr, value);
      return true;
    }

    /**
     * The monitor's `set` with a single delivery: it counts the access and
     * leaves the routing to the proxied memory below, so a register write
     * reaches `writeUart` exactly once.
     */
    method SetOnce(addr: int, value: int) returns (ok: bool)
      modifies this, target, target.uart
      ensures ok
      ensures accessCount == old(accessCount) + (if Monitored(addr) then 1 else 0)
      ensures IsRegister(addr) && target.uart != null ==>
        && target.uart.Regs() == Write(old(target.uart.Regs()), addr, value).after
        && target.uart.sent == old(target.uart.sent) + Write(old(target.uart.Regs()), addr, value).sent
      ensures IsRegister(addr) ==> target.memory == old(target.memory)
      ensures !IsRegister(addr) ==> target.memory == old(target.memory)[addr := value]
      ensures !IsRegister(addr) && target.uart != null ==>
        target.uart.Regs() == old(target.uart.Regs()) && target.uart.sent == old(target.uart.sent)
    {
      if Monitored(addr) {
        accessCount := accessCount + 1;
      }
      ok := target.Set(addr, value);
    }
  }

  /**
   * The full setup with a fresh UART: one program write of 'A' (0x41) to
   * the data register while the monitor is active transmits 'A' twice.
   */
  method MonitoredWriteTransmitsTwice() returns (sent: seq<Byte>)
    ensures sent == [0x41, 0x41]
  {
    var u := new Uart();
    var hook := new DirectHook(u, false, None);
    var monitor := new Monitor(hook);
    var _ := monitor.Set(DATA_ADDR, 0x41);
    sent := u.sent;
  }

  /** The same write through the single-delivery monitor transmits 'A' once. */
  method MonitoredWriteTransmitsOnce() returns (sent: seq<Byte>)
    ensures sent == [0x41]
  {
    var u := new Uart();
    var hook := new DirectHook(u, false, None);
    var monitor := new Monitor(hook);
    var _ := monitor.SetOnce(DATA_ADDR, 0x41);
    sent := u.sent;
  }
}
