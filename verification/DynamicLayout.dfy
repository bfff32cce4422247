/**
 Where a dynamically loaded module's stack, data and heap go inside the memory it is granted,
 and what the loader's own check of that accepts. Addresses are 32-bit and wrap around, the
 check converts differences to signed 32-bit values.
 */
module DynamicLayout {
  import opened Bytes
  import opened MemorySpec

  const STACK_SIZE := 2 * 1024 * 1024
  const MODULE_SIZE := 66 * PAGE
  const GUARD_SIZE := 10 * PAGE
  const GRANT_SIZE := MODULE_SIZE + 2 * GUARD_SIZE

  /** A 32-bit value read as signed. */
  function ToI32(n: int): int {
    var u := n % TWO_32;
    if u < 0x8000_0000 then u else u - TWO_32
  }

  datatype Layout = Layout(
    memoryBottom: U32, memoryTop: U32,
    stackTop: U32, stackPointer: int, stackSize: U32,
    dataBottom: U32, dataTop: U32,
    heapBottom: U32,
    tableBottom: U32, tableTop: U32,
    instance: bool)

  /** The layout recorded for a module with dataSize bytes of data in a grant at offset. */
  function Placed(offset: U32, dataSize: nat, tableBottom: U32, tableTop: U32): Layout {
    var bottom := ToU32(offset + GUARD_SIZE);
    var stackTop := ToU32(bottom + STACK_SIZE);
    var dataTop := ToU32(stackTop + dataSize);
    Layout(bottom, ToU32(bottom + MODULE_SIZE), stackTop, ToI32(stackTop - 1), STACK_SIZE, stackTop, dataTop, dataTop,
           tableBottom, tableTop, true)
  }

  /** The loader's check of a layout. */
  predicate Validate(l: Layout) {
    && l.memoryTop > l.memoryBottom
    && l.stackTop == ToU32(l.memoryBottom + l.stackSize)
    && l.dataTop == l.heapBottom
    && (l.stackTop + ToI32(l.dataTop - l.dataBottom)) % TWO_32 == l.heapBottom
    && l.stackPointer % TWO_32 == (l.stackTop - 1) % TWO_32
    && l.stackSize > 0
    && l.tableTop >= l.tableBottom
    && l.instance
    && ToI32(l.memoryTop - l.memoryBottom) > ToI32(l.memoryTop - l.heapBottom)
  }

  /** Guard, stack, data of the given size, heap and guard follow one another and fill the
      grant exactly. */
  ghost predicate Tiles(l: Layout, offset: U32, dataSize: nat) {
    && l.memoryBottom == offset + GUARD_SIZE
    && l.stackTop == l.memoryBottom + STACK_SIZE
    && l.dataBottom == l.stackTop && l.dataTop == l.dataBottom + dataSize
    && l.heapBottom == l.dataTop && l.heapBottom <= l.memoryTop
    && l.memoryTop + GUARD_SIZE == offset + GRANT_SIZE
  }

  /** In a grant within 32 bits the ranges tile the grant exactly if the data fits above the
      stack. */
  lemma TilesIffDataFits(offset: U32, dataSize: nat, tableBottom: U32, tableTop: U32)
    requires offset + GRANT_SIZE < TWO_32
    ensures Tiles(Placed(offset, dataSize, tableBottom, tableTop), offset, dataSize) <==>
            dataSize <= MODULE_SIZE - STACK_SIZE
  {
  }

  /** The grant is 86 pages: ten of guard, two megabytes of stack, at most 34 pages for data and
      heap, and ten of guard. */
  lemma LayoutExample()
    ensures GRANT_SIZE == 86 * 65536
    ensures Placed(65536, 100, 7, 9) ==
            Layout(720896, 720896 + 66 * 65536, 2818048, 2818047, 2097152, 2818048, 2818148, 2818148, 7, 9, true)
    ensures Tiles(Placed(65536, 34 * 65536, 7, 9), 65536, 34 * 65536)
    ensures !Tiles(Placed(65536, 34 * 65536 + 1, 7, 9), 65536, 34 * 65536 + 1)
  {
  }

  lemma PlacedFields(offset: U32, dataSize: nat, tableBottom: U32, tableTop: U32)
    requires offset + GRANT_SIZE < TWO_32
    ensures var l := Placed(offset, dataSize, tableBottom, tableTop);
            var bottom := offset + GUARD_SIZE;
            && l.memoryBottom == bottom && l.memoryTop == bottom + MODULE_SIZE
            && l.stackTop == l.dataBottom == bottom + STACK_SIZE
            && l.stackSize == STACK_SIZE && l.stackTop == ToU32(l.memoryBottom + l.stackSize)
            && l.stackPointer == ToI32(l.stackTop - 1) && l.dataTop == l.heapBottom == ToU32(l.stackTop + dataSize)
            && l.tableBottom == tableBottom && l.tableTop == tableTop && l.instance
  {
  }

  lemma SignedBack(a: U32, b: U32)
    ensures (b + ToI32(a - b)) % TWO_32 == a
  {
  }

  lemma SignedCut(a: int, b: nat)
    ensures ToI32(a - ToU32(b)) == ToI32(a - b)
  {
    assert (a - b) % TWO_32 == (a - b % TWO_32) % TWO_32;
  }

  lemma SignedLow(a: U32)
    requires a > 0
    ensures ToI32(a - 1) % TWO_32 == a - 1
  {
  }

  /** What the check says of any layout whose heap starts in the module's memory, and whose sizes are
      below 2 GiB: stack, data and heap follow one another from the bottom, the stack pointer is at
      the stack's end, there is some stack and some data or stack below the heap, the table range is
      in order, and the module is linked. */
  lemma ValidateMeans(l: Layout)
    requires l.memoryBottom <= l.heapBottom <= l.memoryTop < l.memoryBottom + 0x8000_0000
    requires l.memoryBottom + l.stackSize < TWO_32 && l.dataBottom <= l.dataTop < l.dataBottom + 0x8000_0000
    ensures Validate(l) <==>
            && l.stackTop == l.memoryBottom + l.stackSize && l.dataBottom == l.stackTop && l.heapBottom == l.dataTop
            && (l.stackPointer - (l.stackTop - 1)) % 0x1_0000_0000 == 0
            && 0 < l.stackSize && l.memoryBottom < l.heapBottom
            && l.tableBottom <= l.tableTop && l.instance
  {
    SmallPositive(l.dataTop - l.dataBottom);
    SmallPositive(l.memoryTop - l.memoryBottom);
    SmallPositive(l.memoryTop - l.heapBottom);
    SameMod(l.stackPointer, l.stackTop - 1);
    SameMod(l.stackTop + (l.dataTop - l.dataBottom), l.dataTop);
    hide ToI32;
  }

  lemma SmallPositive(n: int)
    requires 0 <= n < 0x8000_0000
    ensures ToI32(n) == n
  {
  }

  lemma SameMod(a: int, b: int)
    ensures a % TWO_32 == b % TWO_32 <==> (a - b) % TWO_32 == 0
  {
    assert (a - b) - (a % TWO_32 - b % TWO_32) == (a / TWO_32 - b / TWO_32) * TWO_32;
  }

  /** The check rejects a layout only if the room left for the heap, cut to a signed 32-bit value,
      is no less than the whole module. */
  lemma ValidateIff(offset: U32, dataSize: nat, tableBottom: U32, tableTop: U32)
    requires offset + GRANT_SIZE < TWO_32 && tableBottom <= tableTop
    ensures Validate(Placed(offset, dataSize, tableBottom, tableTop)) <==>
            ToI32(MODULE_SIZE - STACK_SIZE - dataSize) < MODULE_SIZE
  {
    var l := Placed(offset, dataSize, tableBottom, tableTop);
    PlacedFields(offset, dataSize, tableBottom, tableTop);
    assert ToI32(MODULE_SIZE) == MODULE_SIZE;
    hide Placed; hide ToI32; hide ToU32;
    SignedBack(l.dataTop, l.dataBottom);
    SignedCut(l.memoryTop, l.stackTop + dataSize);
    SignedLow(l.stackTop);
    assert l.memoryTop - (l.stackTop + dataSize) == MODULE_SIZE - STACK_SIZE - dataSize;
  }

  /** So it accepts every module whose data fits, and also any whose data overruns the heap, the
      upper guard and the memory behind it by up to two gigabytes. */
  lemma ValidateAccepts(offset: U32, dataSize: nat, tableBottom: U32, tableTop: U32)
    requires offset + GRANT_SIZE < TWO_32 && tableBottom <= tableTop
    requires dataSize <= MODULE_SIZE - STACK_SIZE + 0x8000_0000
    ensures Validate(Placed(offset, dataSize, tableBottom, tableTop))
  {
    ValidateIff(offset, dataSize, tableBottom, tableTop);
    hide Validate; hide Placed;
  }

  /** A module of two megabytes of stack and more than four of data is accepted; its data runs
      over the heap and the upper guard. */
  lemma OverrunExample(offset: U32)
    requires offset + GRANT_SIZE + MODULE_SIZE < TWO_32
    ensures var l := Placed(offset, MODULE_SIZE, 0, 0);
            Validate(l) && !Tiles(l, offset, MODULE_SIZE) && l.dataTop > offset + GRANT_SIZE
  {
    hide Validate; hide Tiles; hide Placed; hide ToI32;
    ValidateAccepts(offset, MODULE_SIZE, 0, 0);
    TilesIffDataFits(offset, MODULE_SIZE, 0, 0);
    PlacedFields(offset, MODULE_SIZE, 0, 0);
  }
}
