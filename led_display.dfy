/**
 * The LED latch of the simulator core (spim/CPU/led_display.cpp): one byte,
 * `led_state`, written at LED_BASE_ADDR by `update_led_display` and read back
 * by `get_led_display_state`. `update_led_display` also prints the lamp row,
 * bit 7 first; the printed row is returned here instead of written to stdout.
 */
module LedLatch {
  import opened JsNumbers
  import Led

  /** LED_BASE_ADDR of spim/CPU/led_display.h. */
  const LED_BASE_ADDR: int := 0xFFFF_0090

  /** The row `update_led_display` prints: bits 7 down to 0, true for "on". */
  function PrintedRow(state: int): (row: seq<bool>)
    ensures |row| == 8
    ensures forall j :: 0 <= j < 8 ==> (row[j] <==> Bit(state, 7 - j))
  {
    seq(8, j requires 0 <= j < 8 => Bit(state, 7 - j))
  }

  /** The printed row is the LED panel's lamp row read from lamp 7 to lamp 0. */
  lemma PrintedRowMirrorsLamps(state: int)
    ensures forall j :: 0 <= j < 8 ==> PrintedRow(state)[j] == Led.Update(state)[7 - j]
  {
  }

  class Latch {
    /** `static uint8_t led_state`. */
    var ledState: int

    ghost predicate Valid()
      reads this
    {
      0 <= ledState < 256
    }

    /** The latch starts at 0. */
    constructor ()
      ensures Valid() && ledState == 0
    {
      ledState := 0;
    }

    /**
     * `update_led_display(addr, value)`: at LED_BASE_ADDR latch `value & 0xFF`
     * and print the row; at any other address report the error (None) and
     * keep the latch.
     */
    method UpdateLedDisplay(addr: int, value: int) returns (printed: Option<seq<bool>>)
      requires Valid()
      modifies this
      ensures Valid()
      ensures addr != LED_BASE_ADDR ==> printed == None && ledState == old(ledState)
      ensures addr == LED_BASE_ADDR ==> ledState == value % 256 && printed == Some(PrintedRow(ledState))
    {
      if addr != LED_BASE_ADDR {
        return None;
      }
      ledState := value % 256;
      printed := Some(PrintedRow(ledState));
    }

    /** `get_led_display_state(addr)`: the latch at LED_BASE_ADDR, 0 elsewhere. */
    method GetLedDisplayState(addr: int) returns (v: int)
      requires Valid()
      ensures 0 <= v < 256
      ensures addr == LED_BASE_ADDR ==> v == ledState
      ensures addr != LED_BASE_ADDR ==> v == 0
    {
      if addr != LED_BASE_ADDR {
        return 0;
      }
      v := ledState;
    }
  }

  /** Writing v at LED_BASE_ADDR and reading it back yields `v & 0xFF`. */
  method UpdateThenGet(latch: Latch, v: int) returns (r: int)
    requires latch.Valid()
    modifies latch
    ensures r == v % 256
  {
    var _ := latch.UpdateLedDisplay(LED_BASE_ADDR, v);
    r := latch.GetLedDisplayState(LED_BASE_ADDR);
  }
}
