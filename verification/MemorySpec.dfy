/**
 Wasm linear memory with its break, as values. The break and all requests are 32-bit and wrap
 around, byte counts of the memory are 64-bit; every conversion the code makes is written out.
 */
module MemorySpec {
  import opened Bytes

  const PAGE := 65536
  const MAX_WASM_PAGES := 65536

  type U32 = x: nat | x < TWO_32

  /** What the runtime answers when it is asked for more pages. */
  datatype GrowResult = Success | OutOfMemory | OutOfMaxSize | OutOfQuota | Unknown

  datatype Error =
    | NotAligned | ExceedsMax | RuntimeFailed(why: GrowResult) | Discrepancy
    | ShrinksBelowZero | OutsideMax
    | NoSnapshot | NotRestorable | MapFailed

  /** Committed pages with their bytes, and the break. */
  datatype Mem = Mem(pages: nat, brk: U32, bytes: seq<Byte>) {
    function Size(): nat {
      pages * PAGE
    }

    ghost predicate Ok(max: nat) {
      brk % PAGE == 0 && brk <= Size() && pages <= max <= MAX_WASM_PAGES && |bytes| == Size()
    }
  }

  /** A call returns a value or throws; either way it leaves a memory. */
  datatype Outcome = Done(mem: Mem, value: U32) | Thrown(mem: Mem, error: Error)

  function ToU32(n: nat): U32 {
    n % TWO_32
  }

  predicate Aligned(n: U32) {
    n % PAGE == 0
  }

  function PagesFor(n: U32): nat {
    (n + PAGE - 1) / PAGE
  }

  function RoundUp(n: U32): U32 {
    ToU32(PagesFor(n) * PAGE)
  }

  function Zeros(n: nat): seq<Byte> {
    seq(n, i => 0)
  }

  /** The runtime appends zeroed pages, if it answers with success and they fit. */
  function RuntimeGrow(m: Mem, max: nat, change: nat, answer: GrowResult): Outcome {
    if answer != Success then Thrown(m, RuntimeFailed(answer))
    else if m.pages + change > max then Thrown(m, RuntimeFailed(OutOfMaxSize))
    else Done(Mem(m.pages + change, m.brk, m.bytes + Zeros(change * PAGE)), ToU32(m.pages))
  }

  /** Commits new pages for n bytes and puts the break at the end of the memory. */
  function Commit(m: Mem, max: nat, n: U32, answer: GrowResult): Outcome {
    var newBytes := m.Size() + n;
    var newPages := PagesFor(ToU32(newBytes));
    if newPages > max then Thrown(m, ExceedsMax)
    else
      match RuntimeGrow(m, max, (newPages - m.pages) % TWO_64, answer)
      case Thrown(m', e) => Thrown(m', e)
      case Done(m', basePage) =>
        var base := ToU32(basePage * PAGE);
        var grown := m'.(brk := ToU32(m'.Size()));
        if base != m.Size() || grown.brk != newBytes then Thrown(grown, Discrepancy)
        else Done(grown, base)
  }

  function Grow(m: Mem, max: nat, n: U32, answer: GrowResult): Outcome {
    if n == 0 then Done(m, m.brk) else
      var newBrk := ToU32(m.brk + n);
      if !Aligned(newBrk) then Thrown(m, NotAligned)
      else if newBrk <= m.Size() then Done(m.(brk := newBrk), m.brk)
      else Commit(m, max, n, answer)
  }

  function Shrink(m: Mem, n: U32): Outcome {
    if !Aligned(n) then Thrown(m, NotAligned)
    else if n > m.brk then Thrown(m, ShrinksBelowZero)
    else Done(m.(brk := m.brk - n), m.brk)
  }

  function Unmap(m: Mem, max: nat, offset: U32, n: U32): Outcome {
    if n == 0 then Done(m, 0)
    else if !Aligned(offset) then Thrown(m, NotAligned)
    else
      var top := ToU32(offset + RoundUp(n));
      if top > max * PAGE then Thrown(m, OutsideMax)
      else if top == m.brk then
        match Shrink(m, RoundUp(n))
        case Thrown(m', e) => Thrown(m', e)
        case Done(m', _) => Done(m', 0)
      else Done(m, 0)
  }

  function Mmap(m: Mem, max: nat, n: U32, answer: GrowResult): Outcome {
    Grow(m, max, RoundUp(n), answer)
  }

  /* What the calls keep. */

  /** Memory only ever grows, by zeroed bytes. */
  ghost predicate Extends(m: Mem, m': Mem) {
    m.pages <= m'.pages && m.bytes <= m'.bytes && forall i :: |m.bytes| <= i < |m'.bytes| ==> m'.bytes[i] == 0
  }

  /** The pages computed for a size of at most 8 GiB that is cut to 32 bits. */
  lemma PagesOfCut(k: nat)
    requires k < 2 * MAX_WASM_PAGES
    ensures PagesFor(ToU32(k * PAGE)) == if k < MAX_WASM_PAGES then k else k - MAX_WASM_PAGES
  {
    assert k >= MAX_WASM_PAGES ==> ToU32(k * PAGE) == (k - MAX_WASM_PAGES) * PAGE;
  }

  lemma WholePages(m: Mem, max: nat, n: U32)
    requires m.Ok(max) && 0 < n && Aligned(ToU32(m.brk + n)) && ToU32(m.brk + n) > m.Size()
    ensures n % PAGE == 0 && m.brk + n < TWO_32 && m.pages < MAX_WASM_PAGES
  {
  }

  lemma Wrapped(a: nat, b: nat)
    requires a < b < TWO_64
    ensures (a - b) % TWO_64 == TWO_64 + a - b
  {
  }

  /** What growing by k pages meets: the code's own limit, and then the runtime's answer. Where
      the new size reaches 4 GiB the page count wraps around, so the limit is not met, and the code
      asks the runtime for an astronomic number of pages and is refused. */
  lemma CommitEnds(m: Mem, max: nat, k: nat, answer: GrowResult)
    requires m.Ok(max) && k < MAX_WASM_PAGES
    ensures var all := m.pages + k;
            Commit(m, max, k * PAGE, answer) ==
            if all < MAX_WASM_PAGES then
              if all > max then Thrown(m, ExceedsMax)
              else if answer != Success then Thrown(m, RuntimeFailed(answer))
              else Done(Mem(all, all * PAGE, m.bytes + Zeros(k * PAGE)), m.Size())
            else Thrown(m, RuntimeFailed(if answer != Success then answer else OutOfMaxSize))
  {
    var all := m.pages + k;
    PagesOfCut(all);
    assert m.Size() + k * PAGE == all * PAGE;
    if all < MAX_WASM_PAGES {
      assert ToU32(m.pages) == m.pages && ToU32(m.Size()) == m.Size() && ToU32(all * PAGE) == all * PAGE;
      hide PagesFor; hide Zeros; hide ToU32;
      assert (all - m.pages) % TWO_64 == k;
    } else {
      hide PagesFor; hide Zeros; hide ToU32;
      Wrapped(all - MAX_WASM_PAGES, m.pages);
    }
  }

  /** The path that asks the runtime. */
  lemma RealGrowth(m: Mem, max: nat, n: U32, answer: GrowResult)
    requires m.Ok(max) && 0 < n && Aligned(ToU32(m.brk + n)) && ToU32(m.brk + n) > m.Size()
    ensures n % PAGE == 0 && m.brk + n < TWO_32
    ensures match Grow(m, max, n, answer)
            case Done(m', p) => m.Size() + n < TWO_32 && p == m.Size() && m'.pages <= max
                                && m' == Mem(m.pages + n / PAGE, m.Size() + n, m.bytes + Zeros(n))
            case Thrown(m', e) => m' == m && e != Discrepancy
  {
    WholePages(m, max, n);
    var k := n / PAGE;
    assert k * PAGE == n;
    hide Commit; hide Zeros;
    CommitEnds(m, max, k, answer);
  }

  /** Growing by n bytes succeeds exactly if the 32-bit sum of break and request is page-aligned
      and is within the committed memory, or the runtime grants the pages and they stay within
      the maximum and below 4 GiB. */
  lemma GrowsIff(m: Mem, max: nat, n: U32, answer: GrowResult)
    requires m.Ok(max) && n > 0
    ensures var sum := (m.brk + n) % 0x1_0000_0000;
            Grow(m, max, n, answer).Done? <==>
            && sum % 65536 == 0
            && (|| sum <= m.pages * 65536
                || (answer == Success && m.pages + n / 65536 <= max && m.pages + n / 65536 < 65536))
  {
    hide Commit;
    if Aligned(ToU32(m.brk + n)) && ToU32(m.brk + n) > m.Size() {
      WholePages(m, max, n);
      assert n / PAGE * PAGE == n;
      CommitEnds(m, max, n / PAGE, answer);
      hide Zeros;
    }
  }

  /** Growing throws for want of alignment, at the maximum, or with the runtime's reason. */
  lemma GrowThrows(m: Mem, max: nat, n: U32, answer: GrowResult)
    requires m.Ok(max) && Grow(m, max, n, answer).Thrown?
    ensures Grow(m, max, n, answer).error ==
            if (m.brk + n) % 65536 != 0 then NotAligned
            else if max < m.pages + n / 65536 < 65536 then ExceedsMax
            else RuntimeFailed(if answer != Success then answer else OutOfMaxSize)
  {
    hide Commit;
    assert (m.brk + n) % PAGE == ToU32(m.brk + n) % PAGE;
    if Aligned(ToU32(m.brk + n)) {
      WholePages(m, max, n);
      assert n / PAGE * PAGE == n;
      CommitEnds(m, max, n / PAGE, answer);
      hide Zeros;
    }
  }

  lemma SumAligned(n: nat)
    ensures n % TWO_32 % PAGE == n % PAGE
  {
  }

  lemma GrowsByPagesIff(m: Mem, max: nat, k: nat, answer: GrowResult)
    requires m.Ok(max) && 0 < k < 65536
    ensures Grow(m, max, k * PAGE, answer).Done? <==>
            || (m.brk + k * PAGE) % 0x1_0000_0000 <= m.pages * 65536
            || (answer == Success && m.pages + k <= max && m.pages + k < 65536)
  {
    GrowsIff(m, max, k * PAGE, answer);
    SumAligned(m.brk + k * PAGE);
    hide Grow;
    assert m.brk % PAGE == 0;
    assert (m.brk + k * PAGE) % PAGE == 0 && k * PAGE / PAGE == k;
  }

  lemma RoundsTo(n: U32)
    ensures RoundUp(n) == if (n + 65535) / 65536 == 65536 then 0 else (n + 65535) / 65536 * PAGE
  {
  }

  /** A mapping succeeds exactly if growing by its size in whole pages does; one of no bytes, or of
      a size that rounds up to 4 GiB, always does. */
  lemma MapsIff(m: Mem, max: nat, n: U32, answer: GrowResult)
    requires m.Ok(max)
    ensures var k := (n + 65535) / 65536;
            Mmap(m, max, n, answer).Done? <==>
            || k == 0 || k == 65536 || (m.brk + k * 65536) % 0x1_0000_0000 <= m.pages * 65536
            || (answer == Success && m.pages + k <= max && m.pages + k < 65536)
  {
    var k := (n + 65535) / 65536;
    RoundsTo(n);
    hide RoundUp;
    if 0 < k < 65536 {
      GrowsByPagesIff(m, max, k, answer);
      hide Grow;
    }
  }

  /** Growing keeps the memory in order. It throws without effect, and neither discrepancy the
      code checks for can arise. Where it returns, the memory is only extended. */
  lemma GrowKeeps(m: Mem, max: nat, n: U32, answer: GrowResult)
    requires m.Ok(max)
    ensures match Grow(m, max, n, answer)
            case Done(m', _) => m'.Ok(max) && Extends(m, m')
            case Thrown(m', e) => m' == m && e != Discrepancy
  {
    hide Commit; hide Zeros;
    if n != 0 && Aligned(ToU32(m.brk + n)) && ToU32(m.brk + n) > m.Size() {
      RealGrowth(m, max, n, answer);
      Appended(m.bytes, n);
    }
  }

  lemma Appended(bytes: seq<Byte>, n: nat)
    ensures |Zeros(n)| == n && bytes <= bytes + Zeros(n)
    ensures forall i :: |bytes| <= i < |bytes + Zeros(n)| ==> (bytes + Zeros(n))[i] == 0
  {
  }

  /** A grant of n bytes starts at or above the old break and ends exactly at the new one, on
      the path that reclaims and on the path that grows, exactly unless the 32-bit sum of break
      and request wraps around. */
  lemma GrantIffNoWrap(m: Mem, max: nat, n: U32, answer: GrowResult)
    requires m.Ok(max) && Grow(m, max, n, answer).Done?
    ensures var r := Grow(m, max, n, answer);
            r.value >= m.brk && r.mem.brk == r.value + n <==> m.brk + n < TWO_32
  {
    if n != 0 && ToU32(m.brk + n) > m.Size() {
      RealGrowth(m, max, n, answer);
    }
  }

  /** A request that wraps around is granted: the break falls. */
  lemma WrappingGrantExample()
    ensures var m := Mem(2, PAGE, Zeros(2 * PAGE));
            m.Ok(100) && Grow(m, 100, TWO_32 - PAGE, Success) == Done(m.(brk := 0), PAGE)
  {
  }

  lemma RoundUpIs(n: U32)
    ensures RoundUp(n) % PAGE == 0
    ensures n <= TWO_32 - PAGE ==> n <= RoundUp(n) < n + PAGE
    ensures n > TWO_32 - PAGE ==> RoundUp(n) == 0
  {
    if n > TWO_32 - PAGE {
      assert PagesFor(n) == MAX_WASM_PAGES;
    }
  }

  /** A mapping has room for the n bytes asked for between its address and the new break exactly
      if neither rounding n up nor adding it to the break wraps around. */
  lemma MappingIffNoWrap(m: Mem, max: nat, n: U32, answer: GrowResult)
    requires m.Ok(max) && Mmap(m, max, n, answer).Done?
    ensures var r := Mmap(m, max, n, answer);
            r.value >= m.brk && r.mem.brk >= r.value + n <==> n <= TWO_32 - PAGE && m.brk + RoundUp(n) < TWO_32
  {
    RoundUpIs(n);
    hide RoundUp;
    var k := RoundUp(n);
    if k != 0 && ToU32(m.brk + k) > m.Size() {
      RealGrowth(m, max, k, answer);
    }
  }

  /** Shrinking lowers the break by n and returns the old one, or throws without effect: exactly
      if n is not in whole pages or more than the break. */
  lemma ShrinkKeeps(m: Mem, max: nat, n: U32)
    requires m.Ok(max)
    ensures match Shrink(m, n)
            case Done(m', v) => m'.Ok(max) && m' == m.(brk := m.brk - n) && v == m.brk
            case Thrown(m', e) => m' == m && e == if n % 65536 != 0 then NotAligned else ShrinksBelowZero
    ensures Shrink(m, n).Thrown? <==> n % 65536 != 0 || n > m.brk
  {
  }

  /** Unmapping changes nothing but the break, and that only by taking off the top: it falls
      to the start of the region if the region, rounded up to pages, ends at the break. It throws
      exactly for a region, of some bytes, that does not start at a page, whose rounded end, in
      32 bits, is above the maximum, or that wraps around to end at the break. */
  lemma UnmapTakesTop(m: Mem, max: nat, offset: U32, n: U32)
    requires m.Ok(max)
    ensures var end := (offset + RoundUp(n)) % 0x1_0000_0000;
            match Unmap(m, max, offset, n)
            case Thrown(m', e) =>
              && m' == m
              && e == if offset % 65536 != 0 then NotAligned
                      else if end > max * 65536 then OutsideMax else ShrinksBelowZero
            case Done(m', v) =>
              && v == 0
              && m' == m.(brk := if n != 0 && offset + RoundUp(n) == m.brk then offset else m.brk)
    ensures Unmap(m, max, offset, n).mem.Ok(max)
    ensures var end := (offset + RoundUp(n)) % 0x1_0000_0000;
            Unmap(m, max, offset, n).Thrown? <==>
            n > 0 && (offset % 65536 != 0 || end > max * 65536 || (end == m.brk && RoundUp(n) > m.brk))
  {
    RoundUpIs(n);
    hide RoundUp;
  }
}
