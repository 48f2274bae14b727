/**
 * The memory segments the view shows (js/memory.js).
 *
 * A data segment (user data from 0x10000000, kernel data from 0x90000000)
 * is an array of words indexed from its start address; the stack is an
 * array whose last word sits just below 0x80000000 and of which only the
 * part at or above the stack pointer is shown. Each segment keeps the
 * 16-byte lines it shows, here by their start addresses in the order the
 * segment appends them. The stack pointer (`RegisterUtils.getSP()`) and the
 * arrays the simulator hands out (`Module.getUserData()` and friends) are
 * parameters.
 */
module MemorySegments {
  import opened JsNumbers

  const USER_DATA_START: int := 0x1000_0000
  const KERNEL_DATA_START: int := 0x9000_0000
  const STACK_TOP: int := 0x8000_0000
  const LINE_BYTES: int := 0x10

  predicate Distinct(s: seq<int>)
  {
    forall i, j :: 0 <= i < j < |s| ==> s[i] != s[j]
  }

  /** The addresses a sequence of lines holds. */
  function Elements(s: seq<int>): set<int>
  {
    set a | a in s
  }

  /** Strictly increasing. */
  predicate Ascending(s: seq<int>)
  {
    forall i, j :: 0 <= i < j < |s| ==> s[i] < s[j]
  }

  /** Strictly decreasing. */
  predicate Descending(s: seq<int>)
  {
    forall i, j :: 0 <= i < j < |s| ==> s[i] > s[j]
  }

  // ----------------------------------------------------------------------
  // Reading words
  // ----------------------------------------------------------------------

  /** `DataSegment.getContent(addr)`: word `(addr - startAddress) >> 2`, undefined outside the array. */
  function DataContent(content: seq<int>, start: int, addr: int): (r: Option<int>)
    ensures r.Some? ==> r.value in content
  {
    var index := ToInt32(addr - start) / 4;
    if 0 <= index < |content| then Some(content[index]) else None
  }

  /** Each of the four byte addresses of word k reads word k (for an array of at most 2^31 bytes). */
  lemma DataContentWord(content: seq<int>, start: int, k: int, offset: int)
    requires 4 * |content| <= 0x8000_0000
    requires 0 <= k < |content| && 0 <= offset < 4
    ensures DataContent(content, start, start + 4 * k + offset) == Some(content[k])
  {
    DivModUnique(4 * k + offset, 4, k, offset);
  }

  /** Addresses from the end of the array up to 2^31 bytes above the start read undefined. */
  lemma DataContentAbove(content: seq<int>, start: int, addr: int)
    requires start + 4 * |content| <= addr < start + 0x8000_0000
    ensures DataContent(content, start, addr) == None
  {
    ToInt32Wraps(addr - start);
  }

  /** Addresses up to 2^31 bytes below the start read undefined. */
  lemma DataContentBelow(content: seq<int>, start: int, addr: int)
    requires start - 0x8000_0000 <= addr < start
    ensures DataContent(content, start, addr) == None
  {
  }

  /**
   * `Stack.getContent(addr)`: undefined below the stack pointer; otherwise
   * the word `content.length - (0x80000000 - addr) / 4`, where a fractional
   * or out-of-range index reads undefined.
   */
  function StackContent(content: seq<int>, sp: int, addr: int): (r: Option<int>)
    ensures sp > addr ==> r == None
    ensures r.Some? ==> r.value in content
  {
    if sp > addr then None
    else
      var offset := STACK_TOP - addr;
      if offset % 4 != 0 then None
      else
        var index := |content| - offset / 4;
        if 0 <= index < |content| then Some(content[index]) else None
  }

  /** Word k of the stack array sits at `0x80000000 - 4 * (length - k)`, shown once SP reaches it. */
  lemma StackContentWord(content: seq<int>, sp: int, k: int)
    requires 0 <= k < |content|
    requires sp <= STACK_TOP - 4 * (|content| - k)
    ensures StackContent(content, sp, STACK_TOP - 4 * (|content| - k)) == Some(content[k])
  {
    var n := |content| - k;
    DivModUnique(4 * n, 4, n, 0);
  }

  /** The byte address of word k of a line. */
  function WordAddress(line: int, k: int): int
  {
    line + 4 * k
  }

  /** A line is empty when its four words are all exactly 0; an undefined word is not 0. */
  predicate LineEmpty(content: seq<int>, start: int, line: int)
  {
    forall k :: 0 <= k < 4 ==> DataContent(content, start, WordAddress(line, k)) == Some(0)
  }

  /** Line i of a segment. */
  function LineAt(start: int, i: int): int
  {
    start + LINE_BYTES * i
  }

  /**
   * The number of lines scanned: every i with `i < content.length / 16` in
   * real arithmetic, that is the least n with `16 * n >= content.length`.
   * A line holds 4 words, so this bound reaches only about a quarter of
   * the words (`ScanMissesUpperWords`).
   */
  function LineCount(words: nat): (n: nat)
    ensures words <= 16 * n < words + 16
  {
    (words + 15) / 16
  }

  /**
   * The lines among lines 0..n-1 that are non-empty and not in `known`, in
   * scanning order: what `update` adds; with nothing known, what
   * `addNewLines` adds.
   */
  function NewLines(content: seq<int>, start: int, n: nat, known: set<int>): (r: seq<int>)
    ensures |r| <= n
    decreases n
  {
    if n == 0 then []
    else
      var line := LineAt(start, n - 1);
      NewLines(content, start, n - 1, known) + (if LineEmpty(content, start, line) || line in known then [] else [line])
  }

  /** The non-empty lines among lines 0..n-1. */
  function NonEmptyLines(content: seq<int>, start: int, n: nat): seq<int>
  {
    NewLines(content, start, n, {})
  }

  /** The new lines are unknown lines of the scanned range. */
  lemma {:induction false} NewLinesRange(content: seq<int>, start: int, n: nat, known: set<int>)
    ensures forall a :: a in NewLines(content, start, n, known) ==>
      a !in known && start <= a < LineAt(start, n) && (a - start) % LINE_BYTES == 0
    decreases n
  {
    if n > 0 {
      NewLinesRange(content, start, n - 1, known);
      var line := LineAt(start, n - 1);
      DivModUnique(line - start, LINE_BYTES, n - 1, 0);
    }
  }

  /** The new lines come out in ascending address order. */
  lemma {:induction false} NewLinesAscending(content: seq<int>, start: int, n: nat, known: set<int>)
    ensures Ascending(NewLines(content, start, n, known))
    decreases n
  {
    if n > 0 {
      NewLinesAscending(content, start, n - 1, known);
      NewLinesRange(content, start, n - 1, known);
      var prefix := NewLines(content, start, n - 1, known);
      var r := NewLines(content, start, n, known);
      if |r| != |prefix| {
        var line := LineAt(start, n - 1);
        assert r == prefix + [line];
        forall i, j | 0 <= i < j < |r|
          ensures r[i] < r[j]
        {
          assert r[i] in prefix;
          if j < |prefix| {
            assert r[i] == prefix[i] && r[j] == prefix[j];
          }
        }
      }
    }
  }

  /** Scanning one more line appends it exactly when it is non-empty and unknown. */
  lemma NewLinesNext(content: seq<int>, start: int, i: nat, known: set<int>, empty: bool)
    requires empty == LineEmpty(content, start, LineAt(start, i))
    ensures var line := LineAt(start, i);
      var p := NewLines(content, start, i, known);
      var r := NewLines(content, start, i + 1, known);
      && (line in known + Elements(p) <==> line in known)
      && if empty || line in known
         then r == p && Elements(r) == Elements(p)
         else r == p + [line] && Elements(r) == Elements(p) + {line}
  {
    NewLinesRange(content, start, i, known);
  }

  /** The new lines are ascending, unknown, and lines of the scanned range. */
  lemma NewLinesShape(content: seq<int>, start: int, n: nat, known: set<int>)
    ensures var r := NewLines(content, start, n, known);
      && Ascending(r)
      && forall a :: a in r ==> a !in known && start <= a < LineAt(start, n) && (a - start) % LINE_BYTES == 0
  {
    NewLinesAscending(content, start, n, known);
    NewLinesRange(content, start, n, known);
  }

  /** Line i is new iff it is non-empty and not known. */
  lemma {:induction false} NewLinesComplete(content: seq<int>, start: int, n: nat, known: set<int>, i: nat)
    requires i < n
    ensures LineAt(start, i) in NewLines(content, start, n, known) <==>
            !LineEmpty(content, start, LineAt(start, i)) && LineAt(start, i) !in known
    decreases n
  {
    var prefix := NewLines(content, start, n - 1, known);
    NewLinesShape(content, start, n - 1, known);
    if i < n - 1 {
      NewLinesComplete(content, start, n - 1, known, i);
    } else {
      assert LineAt(start, i) !in prefix;
    }
  }

  /**
   * The scan as written stops after `content.length / 16` lines, but a line
   * holds 4 words, so only the first quarter of the array is looked at: with
   * 32 words of which only word 16 is non-zero, no line is shown at all.
   */
  lemma ScanMissesUpperWords(start: int)
    ensures var content := seq(32, k => if k == 16 then 1 else 0);
      && content[16] != 0
      && LineCount(|content|) == 2
      && NonEmptyLines(content, start, LineCount(|content|)) == []
  {
    var content := seq(32, k => if k == 16 then 1 else 0);
    forall i, k | 0 <= i < 2 && 0 <= k < 4
      ensures DataContent(content, start, WordAddress(LineAt(start, i), k)) == Some(0)
    {
      DataContentWord(content, start, 4 * i + k, 0);
    }
    assert LineEmpty(content, start, LineAt(start, 0));
    assert LineEmpty(content, start, LineAt(start, 1));
  }

  /** The number of 4-word lines that cover `words` words: the bound the scan evidently intends. */
  function WordLineCount(words: nat): (n: nat)
    ensures words <= 4 * n < words + 4
  {
    (words + 3) / 4
  }

  /** With the intended bound, the line holding any non-zero word is shown. */
  lemma NonZeroWordShown(content: seq<int>, start: int, k: nat)
    requires 4 * |content| <= 0x8000_0000
    requires k < |content| && content[k] != 0
    ensures LineAt(start, k / 4) in NonEmptyLines(content, start, WordLineCount(|content|))
  {
    var line := LineAt(start, k / 4);
    DataContentWord(content, start, k, 0);
    assert WordAddress(line, k % 4) == start + 4 * k;
    assert !LineEmpty(content, start, line);
    NewLinesComplete(content, start, WordLineCount(|content|), {}, k / 4);
  }

  /** Adding the new lines to a segment whose lines are distinct and recorded keeps them so. */
  lemma AddingNewLinesKeepsDistinct(lines: seq<int>, known: set<int>, added: seq<int>)
    requires Distinct(lines) && known == Elements(lines)
    requires Ascending(added) && forall a :: a in added ==> a !in known
    ensures Distinct(lines + added) && known + Elements(added) == Elements(lines + added)
  {
    var all := lines + added;
    forall i, j | 0 <= i < j < |all|
      ensures all[i] != all[j]
    {
      if j >= |lines| && i < |lines| {
        assert all[j] in added && all[i] in lines;
      }
    }
  }

  /** Appending a scan's new lines to distinct, recorded lines keeps them distinct and recorded. */
  lemma ScanKeepsDistinct(lines: seq<int>, known: set<int>, content: seq<int>, start: int, n: nat)
    requires Distinct(lines) && known == Elements(lines)
    ensures var added := NewLines(content, start, n, known);
      Distinct(lines + added) && known + Elements(added) == Elements(lines + added)
  {
    NewLinesShape(content, start, n, known);
    AddingNewLinesKeepsDistinct(lines, known, NewLines(content, start, n, known));
  }

  // ----------------------------------------------------------------------
  // Data segments
  // ----------------------------------------------------------------------

  /** `UserData` and `KernelData`: the common `DataSegment` state. */
  class DataSegment {
    const startAddress: int
    /** `UserData` overrides `update`; `KernelData` keeps the empty one of `Memory`. */
    const isUserData: bool
    var content: seq<int>
    var lines: seq<int>
    var lineAddresses: set<int>

    /** Every shown line is recorded in `lineAddresses`, and none is shown twice. */
    ghost predicate Valid()
      reads this
    {
      Distinct(lines) && lineAddresses == Elements(lines)
    }

    constructor UserData(content: seq<int>)
      ensures startAddress == USER_DATA_START && isUserData
      ensures this.content == content && lines == [] && lineAddresses == {}
      ensures Valid()
    {
      startAddress := USER_DATA_START;
      isUserData := true;
      this.content := content;
      lines := [];
      lineAddresses := {};
    }

    constructor KernelData(content: seq<int>)
      ensures startAddress == KERNEL_DATA_START && !isUserData
      ensures this.content == content && lines == [] && lineAddresses == {}
      ensures Valid()
    {
      startAddress := KERNEL_DATA_START;
      isUserData := false;
      this.content := content;
      lines := [];
      lineAddresses := {};
    }

    /** `isLineEmpty(startAddress)`: stops at the first word that is not exactly 0. */
    method IsLineEmpty(line: int) returns (empty: bool)
      ensures empty == LineEmpty(content, startAddress, line)
    {
      var k := 0;
      while k < 4
        invariant 0 <= k <= 4
        invariant forall j :: 0 <= j < k ==> DataContent(content, startAddress, WordAddress(line, j)) == Some(0)
      {
        if DataContent(content, startAddress, WordAddress(line, k)) != Some(0) {
          return false;
        }
        k := k + 1;
      }
      return true;
    }

    /** `addLine(addr)`: the line is shown and recorded. */
    method AddLine(addr: int)
      modifies this`lines, this`lineAddresses
      ensures lines == old(lines) + [addr] && lineAddresses == old(lineAddresses) + {addr}
      ensures content == old(content)
    {
      lines := lines + [addr];
      lineAddresses := lineAddresses + {addr};
    }

    /** One turn of `addNewLines`'s scan: line `i` is added when it is not empty. */
    method AddLineIfNonEmpty(i: nat, ghost shown: seq<int>, ghost recorded: set<int>)
      requires lines == shown + NonEmptyLines(content, startAddress, i)
      requires lineAddresses == recorded + Elements(NonEmptyLines(content, startAddress, i))
      modifies this`lines, this`lineAddresses
      ensures lines == shown + NonEmptyLines(content, startAddress, i + 1)
      ensures lineAddresses == recorded + Elements(NonEmptyLines(content, startAddress, i + 1))
      ensures content == old(content)
    {
      var addr := LineAt(startAddress, i);
      var empty := IsLineEmpty(addr);
      NewLinesNext(content, startAddress, i, {}, empty);
      ghost var scanned := NewLines(content, startAddress, i, {});
      if !empty {
        AddLine(addr);
        assert lines == shown + (scanned + [addr]);
        assert lineAddresses == recorded + (Elements(scanned) + {addr});
      }
    }

    /** `addNewLines()`: every non-empty scanned line, in ascending order. */
    method AddNewLines()
      modifies this`lines, this`lineAddresses
      ensures lines == old(lines) + NonEmptyLines(content, startAddress, LineCount(|content|))
      ensures lineAddresses == old(lineAddresses) + Elements(NonEmptyLines(content, startAddress, LineCount(|content|)))
      ensures content == old(content)
    {
      var i := 0;
      while i < LineCount(|content|)
        invariant 0 <= i <= LineCount(|content|)
        invariant content == old(content)
        invariant lines == old(lines) + NonEmptyLines(content, startAddress, i)
        invariant lineAddresses == old(lineAddresses) + Elements(NonEmptyLines(content, startAddress, i))
      {
        AddLineIfNonEmpty(i, old(lines), old(lineAddresses));
        i := i + 1;
      }
    }

    /** `initialize()`: a new segment shows its non-empty lines, each once. */
    method Initialize()
      modifies this
      ensures lines == old(lines) + NonEmptyLines(content, startAddress, LineCount(|content|))
      ensures lineAddresses == old(lineAddresses) + Elements(NonEmptyLines(content, startAddress, LineCount(|content|)))
      ensures content == old(content)
      ensures old(lines) == [] && old(lineAddresses) == {} ==> Valid()
    {
      AddNewLines();
      if old(lines) == [] && old(lineAddresses) == {} {
        ScanKeepsDistinct([], {}, content, startAddress, LineCount(|content|));
      }
    }

    /**
     * `update(newContent)`: a user-data segment adds each non-empty scanned
     * line it does not show yet, and only then takes the simulator's new
     * array; a kernel-data segment does nothing.
     */
    method Update(newContent: seq<int>)
      requires Valid()
      modifies this
      ensures Valid()
      ensures !isUserData ==> lines == old(lines) && content == old(content) && lineAddresses == old(lineAddresses)
      ensures isUserData ==>
        && lines == old(lines) + NewLines(old(content), startAddress, LineCount(|old(content)|), old(lineAddresses))
        && content == newContent
    {
      if !isUserData {
        return;
      }
      ghost var known := lineAddresses;
      var i := 0;
      while i < LineCount(|content|)
        modifies this`lines, this`lineAddresses
        invariant 0 <= i <= LineCount(|content|)
        invariant content == old(content)
        invariant lines == old(lines) + NewLines(content, startAddress, i, known)
        invariant lineAddresses == known + Elements(NewLines(content, startAddress, i, known))
      {
        var addr := LineAt(startAddress, i);
        var empty := IsLineEmpty(addr);
        NewLinesNext(content, startAddress, i, known, empty);
        ghost var scanned := NewLines(content, startAddress, i, known);
        if !empty && addr !in lineAddresses {
          AddLine(addr);
          assert lines == old(lines) + (scanned + [addr]);
        }
        i := i + 1;
      }
      ScanKeepsDistinct(old(lines), known, content, startAddress, i);
      content := newContent;
    }
  }

  /** No line already shown is added again. */
  lemma {:induction false} NothingNew(content: seq<int>, start: int, n: nat)
    ensures NewLines(content, start, n, Elements(NonEmptyLines(content, start, n))) == []
  {
    var known := Elements(NonEmptyLines(content, start, n));
    var added := NewLines(content, start, n, known);
    if added != [] {
      var a := added[0];
      assert a in added;
      NewLinesShape(content, start, n, known);
      var i := (a - start) / LINE_BYTES;
      DivModUnique(a - start, LINE_BYTES, i, 0);
      assert a == LineAt(start, i);
      NewLinesComplete(content, start, n, {}, i);
      NewLinesComplete(content, start, n, known, i);
    }
  }

  /**
   * Setting a user-data segment up (`initialize`) and then updating it
   * with unchanged memory shows every non-empty scanned line exactly once.
   */
  method InitializeThenUpdate(content: seq<int>) returns (lines: seq<int>)
    ensures lines == NonEmptyLines(content, USER_DATA_START, LineCount(|content|))
    ensures Distinct(lines)
  {
    var segment := new DataSegment.UserData(content);
    segment.Initialize();
    var n := LineCount(|content|);
    assert segment.lines == NonEmptyLines(content, USER_DATA_START, n);
    assert segment.lineAddresses == Elements(NonEmptyLines(content, USER_DATA_START, n));
    NothingNew(content, USER_DATA_START, n);
    segment.Update(content);
    lines := segment.lines;
  }

  // ----------------------------------------------------------------------
  // The stack
  // ----------------------------------------------------------------------

  /** `sp & 0xfffffff0`: the start of the line holding the stack pointer, in the signed view. */
  function AlignDown(sp: int): (r: Int32)
    ensures r % LINE_BYTES == 0
    ensures 0 <= sp < 0x8000_0000 ==> r <= sp < r + LINE_BYTES
  {
    var x := ToInt32(sp);
    ToInt32Wraps(sp);
    x - x % LINE_BYTES
  }

  /**
   * The lines `Stack.addNewLines(end)` creates, in creation order: one line
   * at `e - 16` for every `e = end, end - 16, ...` with `e >= sp`.
   */
  function LinesDown(end: int, sp: int): (r: seq<int>)
    ensures |r| == if end < sp then 0 else (end - sp) / LINE_BYTES + 1
    ensures end >= sp ==> r[|r| - 1] < sp
    decreases end - sp + LINE_BYTES
  {
    if end < sp then [] else [end - LINE_BYTES] + LinesDown(end - LINE_BYTES, sp)
  }

  /**
   * The lines from just below `end` down to the one holding `sp`: one line
   * at `e - 16` for every `e = end, end - 16, ...` with `e > sp`.
   */
  function LinesAbove(end: int, sp: int): seq<int>
    decreases end - sp
  {
    if end <= sp then [] else [end - LINE_BYTES] + LinesAbove(end - LINE_BYTES, sp)
  }

  /** The loop as written is the intended one for a stack pointer one byte lower. */
  lemma {:induction false} LinesDownIsLinesAbove(end: int, sp: int)
    ensures LinesDown(end, sp) == LinesAbove(end, sp - 1)
    decreases end - sp + LINE_BYTES
  {
    if end >= sp {
      LinesDownIsLinesAbove(end - LINE_BYTES, sp);
    }
  }

  /**
   * The lines above `sp` descend one line at a time from just below `end`,
   * and the last of them holds `sp`.
   */
  lemma {:induction false} LinesAboveShape(end: int, sp: int)
    ensures var r := LinesAbove(end, sp);
      && Descending(r)
      && (forall i :: 0 <= i < |r| ==> r[i] == end - LINE_BYTES * (i + 1) && sp - LINE_BYTES < r[i])
      && (end > sp ==> |r| > 0 && r[|r| - 1] <= sp)
    decreases end - sp
  {
    if end > sp {
      LinesAboveShape(end - LINE_BYTES, sp);
      var r := LinesAbove(end, sp);
      var tail := LinesAbove(end - LINE_BYTES, sp);
      assert r == [end - LINE_BYTES] + tail;
      if |tail| > 0 {
        assert r[|r| - 1] == tail[|tail| - 1];
      }
      forall i | 0 <= i < |r|
        ensures r[i] == end - LINE_BYTES * (i + 1)
      {
        if i > 0 {
          assert r[i] == tail[i - 1];
        }
      }
    }
  }

  /** For a line-aligned end, only the line of `sp` matters: the scan stops at `AlignDown(sp)`. */
  lemma {:induction false} LinesAboveAligned(end: int, sp: int)
    requires 0 <= sp < 0x8000_0000
    requires end % LINE_BYTES == 0
    ensures LinesAbove(end, sp) == LinesAbove(end, AlignDown(sp))
    decreases end - AlignDown(sp)
  {
    var low := AlignDown(sp);
    if end > low {
      assert end >= low + LINE_BYTES by {
        DivModUnique(end - low, LINE_BYTES, (end - low) / LINE_BYTES, 0);
      }
      LinesAboveAligned(end - LINE_BYTES, sp);
    }
  }

  /** Scanning from `top` to `mid` and then from `mid` to `low` is one scan from `top` to `low`. */
  lemma {:induction false} LinesAboveConcat(top: int, mid: int, low: int)
    requires low <= mid <= top && (top - mid) % LINE_BYTES == 0
    ensures LinesAbove(top, mid) + LinesAbove(mid, low) == LinesAbove(top, low)
    decreases top - mid
  {
    if top > mid {
      assert top - mid >= LINE_BYTES by {
        DivModUnique(top - mid, LINE_BYTES, (top - mid) / LINE_BYTES, 0);
      }
      LinesAboveConcat(top - LINE_BYTES, mid, low);
      assert LinesAbove(top, mid) + LinesAbove(mid, low)
          == [top - LINE_BYTES] + (LinesAbove(top - LINE_BYTES, mid) + LinesAbove(mid, low));
    }
  }

  /** `Stack`: the shown part of the stack array, lines from 0x80000000 downwards. */
  class Stack {
    var content: seq<int>
    var lines: seq<int>
    /** Undefined until `initialize`; `sp < undefined` is false in JavaScript. */
    var minLineAddress: Option<int>

    /** The intended state: exactly the lines from the top down to `minLineAddress`, once each. */
    ghost predicate Covered()
      reads this
    {
      && minLineAddress.Some?
      && minLineAddress.value % LINE_BYTES == 0
      && 0 <= minLineAddress.value <= STACK_TOP
      && lines == LinesAbove(STACK_TOP, minLineAddress.value)
    }

    constructor (content: seq<int>)
      ensures this.content == content && lines == [] && minLineAddress == None
    {
      this.content := content;
      lines := [];
      minLineAddress := None;
    }

    /** `addNewLines(endAddr)` as written: lines downward while `endAddr >= SP`. */
    method AddNewLines(endAddr: int, sp: int)
      modifies this
      ensures lines == old(lines) + LinesDown(endAddr, sp)
      ensures minLineAddress == Some(AlignDown(sp))
      ensures content == old(content)
    {
      var end := endAddr;
      while end >= sp
        invariant lines + LinesDown(end, sp) == old(lines) + LinesDown(endAddr, sp)
        invariant content == old(content)
        decreases end - sp + LINE_BYTES
      {
        assert LinesDown(end, sp) == [end - LINE_BYTES] + LinesDown(end - LINE_BYTES, sp);
        lines := lines + [end - LINE_BYTES];
        end := end - LINE_BYTES;
      }
      minLineAddress := Some(AlignDown(sp));
    }

    /** `initialize()`: lines from the top of the stack. */
    method Initialize(sp: int)
      modifies this
      ensures lines == old(lines) + LinesDown(STACK_TOP, sp)
      ensures minLineAddress == Some(AlignDown(sp))
      ensures content == old(content)
    {
      AddNewLines(STACK_TOP, sp);
    }

    /** `update()` as written: grow downward from `minLineAddress` once SP drops below it. */
    method Update(sp: int)
      modifies this
      ensures old(minLineAddress).Some? && sp < old(minLineAddress).value ==>
        lines == old(lines) + LinesDown(old(minLineAddress).value, sp) && minLineAddress == Some(AlignDown(sp))
      ensures !(old(minLineAddress).Some? && sp < old(minLineAddress).value) ==>
        lines == old(lines) && minLineAddress == old(minLineAddress)
      ensures content == old(content)
    {
      if minLineAddress.Some? && sp < minLineAddress.value {
        AddNewLines(minLineAddress.value, sp);
      }
    }

    /** The corrected loop: lines downward while `endAddr > SP`. */
    method AddNewLinesAbove(endAddr: int, sp: int)
      modifies this
      ensures lines == old(lines) + LinesAbove(endAddr, sp)
      ensures minLineAddress == Some(AlignDown(sp))
      ensures content == old(content)
    {
      var end := endAddr;
      while end > sp
        invariant lines + LinesAbove(end, sp) == old(lines) + LinesAbove(endAddr, sp)
        invariant content == old(content)
        decreases end - sp
      {
        assert LinesAbove(end, sp) == [end - LINE_BYTES] + LinesAbove(end - LINE_BYTES, sp);
        lines := lines + [end - LINE_BYTES];
        end := end - LINE_BYTES;
      }
      minLineAddress := Some(AlignDown(sp));
    }

    /**
     * The corrected `initialize()`: for a stack pointer below the top, exactly
     * the lines above it. (A stack pointer of 0x80000000 or more would make
     * `sp & 0xfffffff0` negative.)
     */
    method InitializeAbove(sp: int)
      modifies this
      ensures lines == old(lines) + LinesAbove(STACK_TOP, sp)
      ensures minLineAddress == Some(AlignDown(sp))
      ensures old(lines) == [] && 0 <= sp < STACK_TOP ==> Covered()
      ensures content == old(content)
    {
      AddNewLinesAbove(STACK_TOP, sp);
      if 0 <= sp < STACK_TOP {
        LinesAboveAligned(STACK_TOP, sp);
      }
    }

    /** The corrected `update()`: the lines stay exactly those above the lowest stack pointer, once each. */
    method UpdateAbove(sp: int)
      requires Covered()
      modifies this
      ensures 0 <= sp ==> Covered()
      ensures 0 <= sp < old(minLineAddress).value ==> minLineAddress == Some(AlignDown(sp))
      ensures !(sp < old(minLineAddress).value) ==> lines == old(lines) && minLineAddress == old(minLineAddress)
      ensures content == old(content)
    {
      if sp < minLineAddress.value {
        var min := minLineAddress.value;
        AddNewLinesAbove(min, sp);
        if 0 <= sp {
          LinesAboveAligned(min, sp);
          LinesAboveConcat(STACK_TOP, min, AlignDown(sp));
        }
      }
    }
  }

  /**
   * The stack as written, initialized with a 16-byte aligned stack pointer
   * and updated once the stack pointer drops by one line: the line just
   * below the first stack pointer is shown twice.
   */
  method StackDuplicatesLine() returns (lines: seq<int>)
    ensures lines == [0x7fff_fff0, 0x7fff_ffe0, 0x7fff_ffe0, 0x7fff_ffd0]
    ensures !Distinct(lines)
  {
    var stack := new Stack([]);
    stack.Initialize(0x7fff_fff0);
    stack.Update(0x7fff_ffe0);
    lines := stack.lines;
    assert lines[1] == lines[2];
  }

  /**
   * With a stack pointer inside a line the scan as written stops at that
   * line, so the same drop by one line shows each line once.
   */
  method StackUnalignedNoDuplicate() returns (lines: seq<int>)
    ensures lines == [0x7fff_fff0, 0x7fff_ffe0]
    ensures Distinct(lines)
  {
    var stack := new Stack([]);
    stack.Initialize(0x7fff_fff4);
    stack.Update(0x7fff_ffe4);
    lines := stack.lines;
  }

  /** The lowest of a first stack pointer and the later ones. */
  function Lowest(sp: int, later: seq<int>): (m: int)
    ensures m <= sp && forall k :: 0 <= k < |later| ==> m <= later[k]
    ensures m == sp || m in later
    decreases |later|
  {
    if later == [] then sp
    else
      var m := Lowest(sp, later[..|later| - 1]);
      if later[|later| - 1] < m then later[|later| - 1] else m
  }

  /**
   * The minimum line follows the lowest stack pointer: a new SP below the
   * minimum line moves it to SP's line, and one at or above it lies in a
   * line no lower than the lowest SP's.
   */
  lemma AlignDownStep(m: int, x: int)
    requires 0 <= m < STACK_TOP && 0 <= x
    ensures x < AlignDown(m) ==> x < m && AlignDown(x) == AlignDown(if x < m then x else m)
    ensures x >= AlignDown(m) ==> AlignDown(m) == AlignDown(if x < m then x else m)
  {
    if AlignDown(m) <= x < m {
      var a, b := AlignDown(x), AlignDown(m);
      assert a == LINE_BYTES * (a / LINE_BYTES) && b == LINE_BYTES * (b / LINE_BYTES);
      assert a / LINE_BYTES == b / LINE_BYTES;
    }
  }

  /** One more stack pointer: the lowest so far or the new one, whichever is lower. */
  lemma LowestSnoc(sp: int, later: seq<int>, k: nat)
    requires k < |later|
    ensures Lowest(sp, later[..k + 1]) ==
            (if later[k] < Lowest(sp, later[..k]) then later[k] else Lowest(sp, later[..k]))
  {
    assert later[..k + 1][..k] == later[..k];
  }

  /** Below the top, the scan down to an aligned line ends with that line. */
  lemma LastLineAbove(min: int)
    requires 0 <= min < STACK_TOP && min % LINE_BYTES == 0
    ensures var r := LinesAbove(STACK_TOP, min); |r| > 0 && r[|r| - 1] == min
  {
    LinesAboveShape(STACK_TOP, min);
    var r := LinesAbove(STACK_TOP, min);
    var last := r[|r| - 1];
    assert last == LINE_BYTES * (last / LINE_BYTES) && min == LINE_BYTES * (min / LINE_BYTES);
  }

  /**
   * The corrected stack, initialized and then updated with any stack
   * pointers in the stack region: every line is shown once, from the top
   * downwards, down to the line of the lowest stack pointer.
   */
  method StackShowsEachLineOnce(content: seq<int>, sp: int, later: seq<int>) returns (lines: seq<int>)
    requires 0 <= sp < STACK_TOP
    requires forall k :: 0 <= k < |later| ==> 0 <= later[k]
    ensures Descending(lines)
    ensures forall i :: 0 <= i < |lines| ==> lines[i] == STACK_TOP - LINE_BYTES * (i + 1)
    ensures |lines| > 0 && lines[|lines| - 1] <= sp
    ensures |lines| > 0 && lines[|lines| - 1] == AlignDown(Lowest(sp, later))
  {
    var stack := new Stack(content);
    stack.InitializeAbove(sp);
    var k := 0;
    while k < |later|
      invariant 0 <= k <= |later|
      invariant stack.Covered() && stack.minLineAddress.value <= AlignDown(sp)
      invariant 0 <= Lowest(sp, later[..k]) < STACK_TOP
      invariant stack.minLineAddress.value == AlignDown(Lowest(sp, later[..k]))
    {
      AlignDownStep(Lowest(sp, later[..k]), later[k]);
      LowestSnoc(sp, later, k);
      stack.UpdateAbove(later[k]);
      k := k + 1;
    }
    assert later[..k] == later;
    lines := stack.lines;
    LinesAboveShape(STACK_TOP, stack.minLineAddress.value);
    LastLineAbove(stack.minLineAddress.value);
  }

  // ----------------------------------------------------------------------
  // LED words
  // ----------------------------------------------------------------------

  /** Each LED uses the 4-byte word `LED_BASE_ADDRESS + 4 * index`. */
  function LedAddress(base: int, index: int): int
  {
    base + index * 4
  }

  /**
   * `readLEDState(index)`: on unless the word is exactly 0; an undefined word
   * reads as on. `WriteLedState` is its partner: a written state reads back.
   */
  function ReadLedState(memory: map<int, int>, base: int, index: int): (on: bool)
    ensures LedAddress(base, index) !in memory ==> on
    ensures LedAddress(base, index) in memory ==> (on <==> memory[LedAddress(base, index)] != 0)
  {
    !(LedAddress(base, index) in memory && memory[LedAddress(base, index)] == 0)
  }

  /** `writeLEDState(index, value)`: stores 1 for on and 0 for off in the LED's word. */
  function WriteLedState(memory: map<int, int>, base: int, index: int, value: bool): (m: map<int, int>)
    ensures ReadLedState(m, base, index) == value
    ensures forall j :: j != index ==> ReadLedState(m, base, j) == ReadLedState(memory, base, j)
    ensures m.Keys == memory.Keys + {LedAddress(base, index)}
    ensures forall a :: a in memory && a != LedAddress(base, index) ==> m[a] == memory[a]
  {
    memory[LedAddress(base, index) := if value then 1 else 0]
  }
}
