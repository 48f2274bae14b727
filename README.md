# MIPS simulator front-end: the memory-mapped peripherals

This project models the peripheral layer of a browser front-end for a MIPS
simulator, and proves properties of that model in Dafny. The layer is a
small memory bus with a few devices on it:

- **UART** (`js/uart.js`). It has three registers: data at 0x10000040,
  status at 0x10000044 and control at 0x10000048. It also has an unbounded
  receive FIFO.
  - Writing the data register transmits its low byte.
  - An incoming character goes to the data register. If that register
    still holds an unread character, the new one joins the FIFO instead.
  - Reading the data register consumes the character there and pulls the
    next one from the FIFO.
- **UART bus routing** (`js/uart-memory.js`). Proxies and hooked memory
  functions decide which addresses reach the UART and which reach the
  memory array. A monitor proxy can sit on top and count accesses.
- **Seven-segment display** (`js/seven-segment.js`). Four digits. Each one
  shows the pattern of a 17-entry table for the low byte of its value, or a
  blank when the byte is not in the table.
- **LED panel** (`js/led.js`). Eight lamps showing bits 0..7 of a value.
- **LED latch** (`spim/CPU/led_display.cpp`). A one-byte latch in the
  simulator core at 0xFFFF0090.
- **Memory view** (`js/memory-content.js`, `js/memory.js`).
  - Data segments and the stack are shown as 16-byte lines of four words.
  - A word is highlighted when it changes, and is rendered in hex or
    decimal and as four characters.
  - The words of the four digit addresses poll memory and drive the
    seven-segment display.

## How the model is built

Numbers are modelled as unbounded integers, with the JavaScript operators
written out:

- `x & 0xFF` is `x % 256`. Dafny's `%` never returns a negative result,
  which matches what `&` does to a negative number.
- `x >> i` is floor division.
- A status flag test looks at bit i of the ToInt32 conversion.
- `|=` and `&= ~` return a signed 32-bit result.

All of these live in `js_numbers.dfy`.

Where the source changes state in place, the model is a class:

- the UART (`UartDevice.Uart`);
- the hook proxy and the monitor (`UartMemory.DirectHook`, `UartMemory.Monitor`);
- the LED latch;
- the memory words and lines;
- the data segments and the stack.

Each of these classes' methods is proved against functions on values
(`Read`, `Write`, `Receive`, `Refreshed`, `NewLines`, `LinesDown`,
`LinesAbove`), and the properties are proved about those functions.
Code that only computes (the seven-segment table, the lamp decode and the
text rendering) is modelled as functions and lemmas.

Parameters stand in for the simulator's collaborators. A segment's
`getContent` is a lookup from address to word, and `None` means
`undefined`. The other parameters are:

- the stack pointer;
- the arrays `Module.getUserData()` and `Module.getStack()`;
- the global `uart`, which is a `Uart?`, and whether `window.uart` is set;
- the base address of the LEDs.

The transmitter's output is the sequence of bytes sent.

## Model

| member | source | states |
|---|---|---|
| JsNumbers.SetBit | js/uart.js:127 | setting a status flag with OR turns bit i on and keeps bits 0..31 otherwise as they were, in a signed 32-bit result |
| JsNumbers.ClearBit | js/uart.js:128 | clearing a status flag with AND NOT turns bit i off and keeps bits 0..31 otherwise as they were, in a signed 32-bit result |
| JsNumbers.BitOfToInt32 | js/uart.js:97 | the 32-bit conversion a flag test applies leaves bits 0..31 of the number as they were |
| UartDevice.Initial | js/uart.js:66-81 | a fresh UART has data 0, status exactly 0x01 (only TX_READY among the four flags), control 0 and an empty FIFO |
| UartDevice.Read | js/uart.js:86-115 | an unknown address reads 0 and changes nothing; a data read with RX_DATA_AVAILABLE returns the old data and clears the flag, or, when the FIFO is non-empty, loads its head, keeps the flag set and drops the head; every other read returns the stored register and changes nothing; after a flag update the status is a signed 32-bit value |
| UartDevice.Write | js/uart.js:120-139 | a data write transmits exactly `value & 0xFF`, sets TX_READY, clears TX_BUSY and keeps every other status bit, data, control and FIFO; status and control writes store the value verbatim; the result is true exactly for the three registers, and any other address changes nothing; after a data write the status is a signed 32-bit value |
| UartDevice.Receive | js/uart.js:166-200 | anything but a one-character string is refused and changes nothing; with RX_DATA_AVAILABLE set the character goes to the FIFO tail; otherwise it becomes the data register, the flag is set and the other bits, control and FIFO are kept, and the status is then a signed 32-bit value |
| UartDevice.ConsistentPreserved | js/uart.js:96-111 | "a non-empty FIFO implies RX_DATA_AVAILABLE" survives every receive, every read and every write except a status write |
| UartDevice.StatusWriteBreaksOrder | js/uart.js:133-135 | a raw status write can clear the flag while a character waits in the FIFO, and the next arrival then overtakes it |
| UartDevice.ReceiveQueues | js/uart.js:179-190 | under the invariant, an accepted character joins the end of the characters received and not yet read |
| UartDevice.ReadDequeues | js/uart.js:96-111 | under the invariant, a data read returns the oldest unread character and removes exactly that one |
| UartDevice.ReceiveAll | js/uart.js:205-218 | receiving a string keeps control and every status bit but RX_DATA_AVAILABLE, and a non-empty string leaves RX_DATA_AVAILABLE set |
| UartDevice.ReceiveAllQueues | js/uart.js:205-218 | receiving a string keeps the invariant and appends its code units, in order, to the unread characters |
| UartDevice.ReadDataDrains | js/uart.js:96-111 | n data reads return the n oldest unread characters, keep the invariant and leave the rest unread |
| UartDevice.ArrivalOrder | js/uart.js:96-111 | with nothing unread, n received characters followed by n data reads come back in arrival order and leave nothing unread |
| UartDevice.ReceiveHiExample | js/uart.js:180-190 | "HI" sent to a fresh UART reads back as 'H' then 'I'; a third read repeats 'I' with RX_DATA_AVAILABLE clear and TX_READY still set |
| UartDevice.ReadDataSplit | js/uart.js:96-111 | m + n data reads are m reads followed by n reads |
| UartDevice.EscapeChar | js/uart.js:235-244 | a special character is replaced by its longer entity or backslash form, any other character is kept, and no replacement holds a markup delimiter, quote or control character |
| UartDevice.EscapeHtml | js/uart.js:234-246 | the escaped text holds no markup delimiter, quote or control character, is never shorter, and is longer exactly when the text held a special character |
| UartDevice.EscapePlainText | js/uart.js:245 | text without special characters is displayed unchanged |
| UartDevice.EscapeRoundTrip | js/uart.js:234-246 | on text without a backslash the escaping loses nothing: unescaping gives the text back |
| UartDevice.EscapeLosesBackslash | js/uart.js:241 | a newline and a backslash followed by `n` are displayed alike |
| UartDevice.Uart.constructor | js/uart.js:66-81 | the registers start as `Initial` and nothing has been transmitted |
| UartDevice.Uart.InitializeMemory | js/uart.js:66-81 | the registers and FIFO are reset to `Initial`; what was transmitted is kept |
| UartDevice.Uart.ReadUart | js/uart.js:86-115 | the value and the new registers are those of `Read`; nothing is transmitted |
| UartDevice.Uart.WriteUart | js/uart.js:120-139 | the result, the new registers and the bytes transmitted are those of `Write` |
| UartDevice.Uart.ReceiveChar | js/uart.js:166-200 | the result and the new registers are those of `Receive`; nothing is transmitted |
| UartDevice.Uart.ReceiveString | js/uart.js:205-218 | the new registers are those of receiving each code unit in order |
| UartDevice.Uart.IsTxReady | js/uart.js:223-225 | true exactly when TX_READY is set |
| UartDevice.Uart.IsRxDataAvailable | js/uart.js:227-229 | true exactly when RX_DATA_AVAILABLE is set |
| UartMemory.DefaultRegister | js/uart-memory.js:39-53 | with no UART object, status reads 0x01 and data or control read 0 |
| UartMemory.ZeroMemory | js/uart-memory.js:20-23 | the array created when there is none has exactly the indices below 0x10100000, all 0 |
| UartMemory.RangeWiderThanRegisters | js/uart-memory.js:100 | the hooked functions' closed range holds the three registers and exactly six other addresses |
| UartMemory.DirectHook.constructor | js/uart-memory.js:12-33 | when `window.uart` is set, the global `uart` (not `window.uart`) has status reset to 0x01 and data and control to 0, with its FIFO and output kept; when it is not set the global UART is unchanged; the backing array is the existing one, or a zero-filled one, holding the same three initial values |
| UartMemory.DirectHook.Get | js/uart-memory.js:30-58 | exactly the three register addresses go to `readUart`, or read their defaults with no UART; every other address reads the backing array and leaves the UART alone |
| UartMemory.DirectHook.Set | js/uart-memory.js:60-87 | the three register addresses go to `writeUart` and are not stored; every other address is stored verbatim and leaves the UART alone; the result is always true |
| UartMemory.DirectHook.HookedCall | js/uart-memory.js:99-110 | every address in 0x10000040..0x10000048 goes to the UART, as a write when a value is given and as a read otherwise, with the register defaults when there is no UART; other addresses are forwarded and leave the UART alone |
| UartMemory.Monitor.Get | js/uart-memory.js:175-192 | an access in 0x10000000..0x10000100 is counted; status and data reads go to `readUart`, or read 0x01 and 0 without a UART; a control read falls through to the proxy below, changes nothing, and reads 0 without a UART; other addresses read the backing array and leave the UART unchanged; nothing is transmitted |
| UartMemory.Monitor.constructor | js/uart-memory.js:168-171 | the monitor wraps the given proxied memory and starts with an access count of 0 |
| UartMemory.Monitor.Set | js/uart-memory.js:193-208 | the access is counted; a register write reaches `writeUart` twice, once from the monitor and once from the proxy below, and leaves the backing array unchanged; any other address, including the six unused ones inside the UART range, is stored and leaves the UART unchanged with nothing transmitted |
| UartMemory.Monitor.SetOnce | js/uart-memory.js:193-208 | the corrected monitor `set`: the access is counted and a register write reaches `writeUart` exactly once and leaves the backing array unchanged; any other address is stored and leaves the UART unchanged |
| UartMemory.MonitoredWriteTransmitsTwice | js/uart-memory.js:199-206 | after the full setup over a fresh UART, one program write of 'A' to the data register transmits 'A' twice |
| UartMemory.MonitoredWriteTransmitsOnce | js/uart-memory.js:199-206 | with the corrected monitor the same write transmits 'A' once |
| SevenSegment.Segments | js/seven-segment.js:58-66 | segment i is on exactly when `pattern[i] === 1` |
| SevenSegment.KeysDistinct | js/seven-segment.js:3-21 | the table lists 17 distinct keys, each a byte |
| SevenSegment.BlankEntry | js/seven-segment.js:4 | key 0x00 holds seven zeros, the blank pattern |
| SevenSegment.KeysAreListed | js/seven-segment.js:3-21 | the table's keys are exactly the 17 listed bytes |
| SevenSegment.EntriesMatchKeys | js/seven-segment.js:4-20 | every entry has seven values, and segment i of key k is lit iff bit i of k is set |
| SevenSegment.Decode | js/seven-segment.js:51-53 | for a low byte in the table, segment i is lit iff bit i of the value is set; any other byte lights nothing |
| SevenSegment.DecodeIgnoresHighBits | js/seven-segment.js:52 | a value and its low byte light the same segments |
| SevenSegment.DecodeEight | js/seven-segment.js:13 | 0x7F lights every segment, and so does 0x17F |
| SevenSegment.DecodeUnknown | js/seven-segment.js:53 | 0x02 is not in the table and lights nothing |
| SevenSegment.UpdateDigit | js/seven-segment.js:23-41 | the chosen digit shows the decoded value and the other three are unchanged |
| SevenSegment.UpdateAllCalls | js/seven-segment.js:73-84 | with a length other than 4 there are no calls; with 4 there are four calls, to left, mid-left, mid-right and right in that order, with `values[0..3]` |
| SevenSegment.UpdateAll | js/seven-segment.js:73-84 | with four values, digit k shows `values[k]`; with any other number of values the display is unchanged |
| SevenSegment.Reset | js/seven-segment.js:98-101 | all four digits show seven unlit segments, whatever they showed before |
| Led.Update | js/led.js:18-27 | there are eight lamps, and lamp i is on iff `(value >> i) & 1` is 1 |
| Led.Reset | js/led.js:29-32 | all eight lamps are off |
| Led.UpdateIgnoresHighBits | js/led.js:21 | `update(v)` and `update(v & 0xFF)` light the same lamps |
| Led.LampsShowLowByte | js/led.js:20-26 | read back as a number the lamps give `value & 0xFF`, and every row of eight lamps is the picture of exactly the byte it reads as |
| Led.UpdateTwice | js/led.js:20-26 | the lamps depend on the value alone: updating again with what they show changes nothing |
| Led.UpdateExample | js/led.js:21 | 0b10100001 lights lamps 0, 5 and 7 only |
| LedLatch.PrintedRow | spim/CPU/led_display.cpp:15-19 | the printed row lists bits 7 down to 0 of the latch |
| LedLatch.PrintedRowMirrorsLamps | spim/CPU/led_display.cpp:16-19 | the printed row is the web panel's lamps read from lamp 7 down to lamp 0 |
| LedLatch.Latch.constructor | spim/CPU/led_display.cpp:6 | the latch starts at 0 |
| LedLatch.Latch.UpdateLedDisplay | spim/CPU/led_display.cpp:8-21 | at LED_BASE_ADDR the latch becomes `value & 0xFF` and its row is printed; at any other address the latch is kept and the error path is taken |
| LedLatch.Latch.GetLedDisplayState | spim/CPU/led_display.cpp:23-28 | the latch at LED_BASE_ADDR and 0 elsewhere; always below 256 |
| LedLatch.UpdateThenGet | spim/CPU/led_display.cpp:14 | writing v at LED_BASE_ADDR and reading it back gives `v & 0xFF` |
| MemoryContent.ToJsString | js/memory-content.js:234-238 | `toString(base)` of a 32-bit word: for a non-negative word, digits of the base that read back as the word; for a negative one, a minus sign followed by digits that read back as its magnitude |
| MemoryContent.PadStart | js/memory-content.js:235 | the padded text ends with the text, is at least the width long, and is filled in front |
| MemoryContent.NumeralRoundTrip | js/memory-content.js:238 | the digits of n in base 2..16 read back as n |
| MemoryContent.NumeralDigits | js/memory-content.js:238 | the digits of n use only digit characters of the base |
| MemoryContent.NumeralLength | js/memory-content.js:238 | a number below base^k has at most k digits |
| MemoryContent.ValueText | js/memory-content.js:232-240 | an undefined word shows 10 blanks in decimal and 8 otherwise; a defined word shows its text (decimal for radix 10, hex for every other radix) at the right, padded on the left with blanks in decimal and '0' in hex to exactly 10 or 8 characters, or not at all when the text is already that long |
| MemoryContent.HexTextRoundTrip | js/memory-content.js:238 | a non-negative word in hex is exactly 8 hex digits that read back as the word |
| MemoryContent.DecimalTextRoundTrip | js/memory-content.js:234-235 | a non-negative word reads back from the columns after the padding |
| MemoryContent.NegativeHexText | js/memory-content.js:238 | -1 in hex shows "000000-1", which is not a hex numeral |
| MemoryContent.HexWordText | js/memory-content.js:238 | the corrected hex text: 8 hex digits reading back as the word's unsigned 32-bit pattern |
| MemoryContent.UnsignedValueText | js/memory-content.js:232-240 | the corrected text: hex words as their 8-digit unsigned pattern, everything else as before |
| MemoryContent.UnsignedHexRoundTrip | js/memory-content.js:238 | every 32-bit word, negative ones included, is 8 hex characters that read back as the word |
| MemoryContent.ByteChar | js/memory-content.js:253-254 | a byte in 32..126 shows as itself and any other as the middle dot, code 183 |
| MemoryContent.StringText | js/memory-content.js:242-255 | four characters; an undefined word shows four blanks |
| MemoryContent.StringTextBytes | js/memory-content.js:246-254 | character k is byte k of the word's 32-bit pattern, least significant first, shown by `ByteChar` |
| MemoryContent.DigitAddressing | js/memory-content.js:183-201 | exactly the four polled addresses drive a digit, each its own, and they are polled left to right |
| MemoryContent.LowByte | js/memory-content.js:181 | `newValue & 0xFF` is a byte congruent to the value, and 0 for an undefined value |
| MemoryContent.UpdateSevenSegment | js/memory-content.js:180-203 | the digit of one of the four addresses shows the low byte; other digits and other addresses change nothing |
| MemoryContent.InitialPrevious | js/memory-content.js:155-161 | the record holds exactly the four polled addresses, all null |
| MemoryContent.Changed | js/memory-content.js:169-176 | no more addresses are notified than are visited |
| MemoryContent.ChangedMembers | js/memory-content.js:169-176 | an address is notified iff it is visited and its content differs from its record; none is notified twice |
| MemoryContent.NoneChanged | js/memory-content.js:172 | when every address matches its record nothing is notified |
| MemoryContent.AllChanged | js/memory-content.js:172 | when every record is null every address is notified, in visiting order |
| MemoryContent.Record | js/memory-content.js:169-176 | after a poll each polled address records what it read, and other entries are kept |
| MemoryContent.FirstPollNotifiesAll | js/memory-content.js:155-176 | the first poll notifies all four digits, even of undefined content |
| MemoryContent.QuietSecondPoll | js/memory-content.js:169-176 | a poll after a poll with no memory change in between notifies nothing |
| MemoryContent.NotifyShows | js/memory-content.js:174 | after notifying distinct addresses, a digit shows its word's low byte iff its address was notified, and is unchanged otherwise |
| MemoryContent.PollShows | js/memory-content.js:167-177 | after a poll, a digit shows its word's low byte when the word differs from its record, and is unchanged otherwise |
| MemoryContent.Refreshed | js/memory-content.js:205-230 | undefined content keeps the value and the highlight and marks the word unused; equal content clears both markers; new defined content replaces the value and is highlighted exactly when the word was highlighted or held a value, and a highlight appears only then |
| MemoryContent.HighlightLastsOneRefresh | js/memory-content.js:214-223 | refreshing twice with the same defined content leaves it shown with neither marker |
| MemoryContent.MemoryWord.constructor | js/memory-content.js:136-161 | the word reads its content, unmarked, and polls with all records null exactly when its address is in 0x10000020..0x1000002C |
| MemoryContent.MemoryWord.UpdateValue | js/memory-content.js:205-230 | the new value and markers are `Refreshed` of the old ones and the word's current content: undefined content only marks the word unused, equal content clears both markers, and a changed defined value is highlighted exactly when the word was highlighted or held a value |
| MemoryContent.MemoryWord.CheckAndUpdate | js/memory-content.js:167-177 | the records become `Record` of the old ones, and the display is the old one with the changed addresses notified in visiting order |
| MemoryContent.MemoryLine.constructor | js/memory-content.js:113-118 | exactly four fresh words, at start, +4, +8 and +12 in that order, each built as a new `MemoryWord` |
| MemoryContent.MemoryLine.UpdateValues | js/memory-content.js:130-132 | each of the four words is refreshed from its own content by the rule of `MemoryContent.Refreshed` (a changed defined value is highlighted exactly when the word was highlighted or held a value), and nothing else changes |
| MemorySegments.DataContent | js/memory.js:150-152 | a defined result is one of the segment's words |
| MemorySegments.DataContentWord | js/memory.js:150-152 | each of the four byte addresses of word k reads word k |
| MemorySegments.DataContentAbove | js/memory.js:150-152 | an address from the end of the array up to 2^31 bytes above the segment start reads undefined |
| MemorySegments.DataContentBelow | js/memory.js:150-152 | an address up to 2^31 bytes below the segment start reads undefined |
| MemorySegments.StackContent | js/memory.js:197-201 | an address below SP reads undefined, and a defined result is one of the stack's words |
| MemorySegments.StackContentWord | js/memory.js:197-201 | at or above SP, the word at `0x80000000 - 4 * (length - k)` reads entry k |
| MemorySegments.LineCount | js/memory.js:135 | as written, the scan runs over the least number n of lines with 16n at least the number of words, although a line holds only 4 words |
| MemorySegments.NewLines | js/memory.js:134-140 | a scan of n lines adds at most n lines |
| MemorySegments.ScanMissesUpperWords | js/memory.js:135 | with the bound as written, 32 words of which word 16 is non-zero give 2 scanned lines and no line shown |
| MemorySegments.WordLineCount | js/memory.js:135 | the corrected bound: the least n with 4n at least the number of words |
| MemorySegments.NonZeroWordShown | js/memory.js:134-140 | with the corrected bound, the line holding any non-zero word is shown |
| MemorySegments.NewLinesShape | js/memory.js:134-140 | the lines a scan adds are ascending, not already known, and 16-byte lines of the scanned range |
| MemorySegments.NewLinesComplete | js/memory.js:134-140 | line i is added iff it is non-empty and not already known |
| MemorySegments.ScanKeepsDistinct | js/memory.js:163-168 | appending a scan's new lines to distinct, recorded lines keeps them distinct and recorded |
| MemorySegments.NothingNew | js/memory.js:163-168 | rescanning the same content after a first scan adds nothing |
| MemorySegments.DataSegment.UserData | js/memory.js:155-161 | the user segment starts at 0x10000000 with the given words and no lines |
| MemorySegments.DataSegment.KernelData | js/memory.js:175-181 | the kernel segment starts at 0x90000000 with the given words and no lines |
| MemorySegments.DataSegment.IsLineEmpty | js/memory.js:91-95 | true iff the four words of the line are all exactly 0; an undefined word makes the line non-empty |
| MemorySegments.DataSegment.AddLine | js/memory.js:142-148 | the line is appended and its address recorded |
| MemorySegments.DataSegment.AddLineIfNonEmpty | js/memory.js:136-138 | one loop turn: line `i` is appended and recorded exactly when it is not empty, so the lines shown grow from the non-empty lines before `i` to those up to and including `i` |
| MemorySegments.DataSegment.AddNewLines | js/memory.js:134-140 | the non-empty lines of the array are appended in ascending order and recorded |
| MemorySegments.DataSegment.Initialize | js/memory.js:70-73 | on a fresh segment the lines become the non-empty lines, distinct and recorded |
| MemorySegments.DataSegment.Update | js/memory.js:163-172 | the user segment appends the non-empty lines not yet recorded, keeps its lines distinct and recorded, and takes the new words; the kernel segment changes nothing |
| MemorySegments.InitializeThenUpdate | js/memory.js:163-168 | an update over the same content after initialization leaves exactly the non-empty lines, each once |
| MemorySegments.AlignDown | js/memory.js:209 | `sp & 0xfffffff0` is 16-byte aligned, and for SP in 0..2^31-1 it is the start of the line holding SP |
| MemorySegments.LinesDown | js/memory.js:204-208 | as written, an end below SP creates no line and any other end creates floor((end - SP) / 16) + 1 lines, the last of them starting below SP |
| MemorySegments.LinesDownIsLinesAbove | js/memory.js:204 | the loop as written creates the lines intended for a stack pointer one byte lower |
| MemorySegments.LinesAboveShape | js/memory.js:204-208 | the lines descend one line at a time from just below the end, none lies wholly below SP, and the last one holds SP |
| MemorySegments.LinesAboveAligned | js/memory.js:209 | only the line of SP matters: scanning down to SP or down to its aligned line gives the same lines |
| MemorySegments.LinesAboveConcat | js/memory.js:192-193 | scanning from the top to a line and then on from that line is one scan |
| MemorySegments.Stack.constructor | js/memory.js:185-189 | the stack holds the given words, no lines and no minimum line |
| MemorySegments.Stack.AddNewLines | js/memory.js:203-210 | as written: appends a line below each end address down to and including SP, and records `SP & 0xfffffff0` |
| MemorySegments.Stack.Initialize | js/memory.js:203-210 | as written: the scan from 0x80000000 |
| MemorySegments.Stack.Update | js/memory.js:191-195 | as written: when SP is below the minimum line, the scan from that line; otherwise nothing changes |
| MemorySegments.Stack.AddNewLinesAbove | js/memory.js:203-210 | corrected: appends the lines from just below the end address down to the line holding SP, and records `SP & 0xfffffff0` |
| MemorySegments.Stack.InitializeAbove | js/memory.js:203-210 | corrected: a fresh stack then shows exactly the lines from the top down to the line holding SP, once each |
| MemorySegments.Stack.UpdateAbove | js/memory.js:191-195 | corrected: the stack keeps showing exactly the lines from the top down to its minimum line, once each, and the minimum follows SP downwards |
| MemorySegments.StackDuplicatesLine | js/memory.js:204 | SP 0x7ffffff0 at initialization and 0x7fffffe0 at the next update show line 0x7fffffe0 twice |
| MemorySegments.StackUnalignedNoDuplicate | js/memory.js:204 | with SP inside a line (0x7ffffff4, then 0x7fffffe4) the scan as written shows lines 0x7ffffff0 and 0x7fffffe0, each once |
| MemorySegments.StackShowsEachLineOnce | js/memory.js:191-210 | with the corrected scan, initialization at an SP below 0x80000000 followed by updates at any non-negative SPs shows the lines from 0x80000000 downwards, each once, in descending order, reaching at least the line holding the first SP and ending exactly at the line of the lowest SP |
| MemorySegments.Lowest | js/memory.js:191-195 | the lowest of the first and the later stack pointers: no higher than any of them, and one of them |
| MemorySegments.AlignDownStep | js/memory.js:191-195 | a new SP below the minimum line moves it to SP's line, and one at or above it leaves the line of the lowest SP unchanged |
| MemorySegments.LastLineAbove | js/memory.js:203-210 | the scan from the top down to an aligned line below the top ends with that line |
| MemorySegments.ReadLedState | js/memory.js:37-40 | an LED whose word is undefined reads as on; otherwise it is on iff its word is not 0 |
| MemorySegments.WriteLedState | js/memory.js:37-46 | reading an LED back gives the state written; other LEDs and other words are unchanged |

## Left out

- Console logging (`console.log` throughout js/uart-memory.js and js/memory-content.js) and the DOM: element creation, CSS classes, scrolling, indicator text, `transmitChar`'s display and `renderLEDDisplay`. The transmitter's output is the sequence `sent`, and the lamps, segments and word markers are booleans.
- Timers: the 100 ms pacing of `receiveString`, the 100 ms poll interval, the 30 s monitor stop and the delayed automatic setup. A string is received as one call per code unit, and a poll is one call.
- Non-integer values. Register values and words are integers, so NaN, fractions and `parseInt` of a non-numeric property name are not modelled. The monitor's `!isNaN` test therefore always holds.
- UartDevice.Uart.ReceiveString: only a string argument is modelled. `receiveString` of an empty or missing string does nothing, and the model agrees for the empty string.
- The installation of the hooks: the assignments to `window.memory` and to `window[funcName]`, the test write of `testDirectUartHook`, and `forceUartMemoryValues`. The routing rules the handlers apply are modelled.
- UartMemory.DirectHook.constructor: whether `window.uart` is set is a boolean parameter, apart from the global `uart`, because `const uart` does not set `window.uart`. When no global `uart` binding exists, the source throws a ReferenceError: in this constructor when `window.uart` is set, and in the `uart && ...` guards of `UartMemory.DirectHook.Get`, `UartMemory.DirectHook.Set`, `UartMemory.DirectHook.HookedCall`, `UartMemory.Monitor.Get` and `UartMemory.Monitor.Set`. The model has no exceptions; its null `uart` stands for a binding that holds a falsy value, for which those members take the default-register branch, and the constructor then only builds the array.
- `uartRead` and `uartWrite` apply the same rule as `UartMemory.DirectHook.HookedCall` and are not modelled separately.
- `MemoryUtils.readLEDState` and `writeLEDState` call `getContent` and `setContent`, which `MemoryUtils` does not define, and `LED_BASE_ADDRESS` is not defined. The model takes the memory as a map and the base address as a parameter. `updateLEDDisplay` is DOM work.
- MemorySegments.DataSegment and MemorySegments.Stack: a line is kept as its start address, not as a `MemoryLine` object. The `updateValues` call on every line after a data-segment update and after `Stack.update` (js/memory.js:194), and in `addLine`, is modelled per line by `MemoryContent.MemoryLine.UpdateValues`.
- MemorySegments.LineCount: the bound `i < content.length / 16` is real division, and the model uses the equivalent integer bound. `DataSegment.AddNewLines` and `DataSegment.Update` keep this bound as written (fourth finding); the corrected bound is `MemorySegments.WordLineCount`.
- LedLatch.PrintedRow: the `[0x..]` hex suffix and the bullet glyphs of the printed line are console text; the row is modelled as the eight booleans it shows.
- `KernelData` keeps the empty `update` of `Memory`, so a kernel segment's update changes nothing.
- `changeRadix` and `toggleKernelData` only redraw the page.
- MemorySegments.Stack.InitializeAbove: states the once-each property only for SP in 0..0x7fffffff, because `SP & 0xfffffff0` is negative for larger values.
- MemorySegments.Stack.UpdateAbove: states the once-each property only for SP >= 0, for the same reason.
- MemoryContent.ToJsString: models the digits of an exact integer. JavaScript numbers above 2^53 are not exact and base-10 values of 10^21 and above print in exponential form; the words the view renders are 32-bit, inside both limits, but the model does not restrict the argument.
- MemoryContent.HexTextRoundTrip: stated for non-negative words only, because negative words show a minus sign (second finding).
- UartDevice.ConsistentPreserved: excludes status writes, because `UartDevice.StatusWriteBreaksOrder` shows they can break the invariant.
- UartDevice.EscapeRoundTrip: stated for text without a backslash, because `UartDevice.EscapeLosesBackslash` shows a backslash is not escaped.
- js/index.js, js/init.js, js/theme-toggle.js and start_server.py are not part of this model. They hold file loading, the editor, the theme and an HTTP server.
- The commented-out earlier versions of `MemoryLine` and `MemoryWord` are not modelled.

## Findings

| source | as written | input that shows it | evidently intended | confidence | as-written member | corrected member |
|---|---|---|---|---|---|---|
| js/memory.js:204 | when SP is 16-byte aligned, the stack scan running while `endAddr >= SP` also creates the line wholly below SP, and the next update creates it again (an SP inside a line stops at that line) | SP 0x7ffffff0 at initialization, then SP 0x7fffffe0 at the next update: lines 0x7ffffff0, 0x7fffffe0, 0x7fffffe0, 0x7fffffd0 | scan while `endAddr > SP`, so each line from 0x80000000 down to SP's line is shown once | high; not executed | MemorySegments.StackDuplicatesLine | MemorySegments.StackShowsEachLineOnce |
| js/memory-content.js:238 | a negative word is written with `toString(16)` and then padded, so the zeros go in front of the minus sign | word -1 in hex: "000000-1" | the word's 32-bit pattern in 8 hex digits, "ffffffff" | high; not executed | MemoryContent.NegativeHexText | MemoryContent.UnsignedHexRoundTrip |
| js/uart-memory.js:199-206 | the monitor's `set` calls `writeUart` itself and then also stores through the proxy below, whose `set` calls `writeUart` again | with the full setup, one write of 0x41 to 0x10000040 | 'A' is transmitted once | medium; not executed | UartMemory.MonitoredWriteTransmitsTwice | UartMemory.MonitoredWriteTransmitsOnce |
| js/memory.js:135 | the scan of a data segment runs while `i < content.length / 16`, but each line holds 4 words, so only about the first quarter of the words is ever looked at | 32 words, only word 16 non-zero: 2 lines are scanned and none is shown | scan `content.length / 4` lines, so every non-zero word's line is shown | high; not executed | MemorySegments.ScanMissesUpperWords | MemorySegments.NonZeroWordShown |
