/** The regions a module holds over any run of memory grows, mappings and unmappings. */
module MemoryRuns {
  import opened Bytes
  import opened MemorySpec
  import opened Sequences

  datatype Region = Region(base: nat, size: nat) {
    function End(): nat {
      base + size
    }
  }

  datatype Op =
    | GrowBy(n: U32, answer: GrowResult)
    | MapNew(n: U32, answer: GrowResult)
    | UnmapRegion(i: nat)

  datatype State = State(mem: Mem, live: seq<Region>)

  /** The call does not exceed 32 bits. */
  predicate NoWrap(m: Mem, op: Op) {
    match op
    case GrowBy(n, _) => m.brk + n < TWO_32
    case MapNew(n, _) => n <= TWO_32 - PAGE && m.brk + RoundUp(n) < TWO_32
    case UnmapRegion(_) => true
  }

  /** A granted region is live until it is unmapped as a whole; a call that throws, or asks for
      nothing, grants none. */
  function Step(s: State, max: nat, op: Op): State {
    match op
    case GrowBy(n, answer) =>
      var r := Grow(s.mem, max, n, answer);
      State(r.mem, if r.Done? && n > 0 then s.live + [Region(r.value, n)] else s.live)
    case MapNew(n, answer) =>
      var r := Mmap(s.mem, max, n, answer);
      State(r.mem, if r.Done? && n > 0 then s.live + [Region(r.value, RoundUp(n))] else s.live)
    case UnmapRegion(i) =>
      if i >= |s.live| || s.live[i].base >= TWO_32 || s.live[i].size >= TWO_32 then s else
        var r := Unmap(s.mem, max, s.live[i].base, s.live[i].size);
        State(r.mem, if r.Done? then Drop(s.live, i) else s.live)
  }

  /** The state a sequence of calls leads to, none of which wraps around. */
  function Run(s: State, max: nat, ops: seq<Op>): (r: State) {
    if ops == [] then s else Step(Run(s, max, ops[..|ops| - 1]), max, ops[|ops| - 1])
  }

  ghost predicate NoneWraps(s: State, max: nat, ops: seq<Op>) {
    forall i :: 0 <= i < |ops| ==> NoWrap(Run(s, max, ops[..i]).mem, ops[i])
  }

  /** Live regions are whole pages, below the break, and do not overlap. */
  ghost predicate Apart(m: Mem, live: seq<Region>) {
    && (forall i :: 0 <= i < |live| ==>
          live[i].base % PAGE == 0 && live[i].size % PAGE == 0 && live[i].size > 0 && live[i].End() <= m.brk)
    && (forall i, j :: 0 <= i < j < |live| ==> live[i].End() <= live[j].base || live[j].End() <= live[i].base)
  }

  lemma Granted(m: Mem, m': Mem, live: seq<Region>, r: Region)
    requires Apart(m, live) && m.brk <= r.base && r.End() == m'.brk && m.brk <= m'.brk
    requires r.base % PAGE == 0 && r.size % PAGE == 0 && r.size > 0
    ensures Apart(m', live + [r])
  {
  }

  lemma GrowStep(m: Mem, max: nat, live: seq<Region>, n: U32, answer: GrowResult)
    requires m.Ok(max) && Apart(m, live) && m.brk + n < TWO_32
    ensures var r := Grow(m, max, n, answer);
            && r.mem.Ok(max)
            && Apart(r.mem, if r.Done? && n > 0 then live + [Region(r.value, n)] else live)
  {
    var r := Grow(m, max, n, answer);
    GrowKeeps(m, max, n, answer);
    if r.Done? && n > 0 {
      GrantIffNoWrap(m, max, n, answer);
      assert n % PAGE == 0 && r.value % PAGE == 0 by {
        if ToU32(m.brk + n) > m.Size() {
          RealGrowth(m, max, n, answer);
        }
      }
      hide Grow; hide Mem.Ok;
      Granted(m, r.mem, live, Region(r.value, n));
    } else {
      assert r.mem == m;
    }
  }

  lemma RegionFits(m: Mem, max: nat, live: seq<Region>, i: nat)
    requires m.Ok(max) && Apart(m, live) && i < |live|
    ensures live[i].base < TWO_32 && live[i].size < TWO_32 && live[i].base % PAGE == 0
    ensures 0 < live[i].size <= TWO_32 - PAGE && RoundUp(live[i].size) == live[i].size
    ensures live[i].End() <= m.brk <= max * PAGE
  {
    assert live[i].size % PAGE == 0 && live[i].End() <= m.brk < TWO_32;
    RoundUpIs(live[i].size);
    hide RoundUp;
    var r := RoundUp(live[i].size);
    assert r % PAGE == 0 && live[i].size <= r < live[i].size + PAGE;
    assert r - live[i].size == 0;
  }

  /** Unmapping a live region as a whole never throws; its space is reclaimed exactly if it is
      the topmost. */
  lemma UnmapLive(m: Mem, max: nat, live: seq<Region>, i: nat)
    requires m.Ok(max) && Apart(m, live) && i < |live|
    ensures live[i].base < TWO_32 && live[i].size < TWO_32
    ensures var r := Unmap(m, max, live[i].base, live[i].size);
            && r.Done? && r.mem.Ok(max) && Apart(r.mem, Drop(live, i))
            && r.mem == m.(brk := if live[i].End() == m.brk then live[i].base else m.brk)
  {
    RegionFits(m, max, live, i);
    UnmapTakesTop(m, max, live[i].base, live[i].size);
    assert Unmap(m, max, live[i].base, live[i].size).Done?;
    hide Unmap; hide RoundUp; hide Mem.Ok;
    Dropped(m, live, i);
  }

  lemma Dropped(m: Mem, live: seq<Region>, i: nat)
    requires Apart(m, live) && i < |live|
    ensures Apart(m, Drop(live, i))
    ensures live[i].End() == m.brk ==> Apart(m.(brk := live[i].base), Drop(live, i))
  {
    var rest := Drop(live, i);
    forall k | 0 <= k < |rest|
      ensures exists j :: 0 <= j < |live| && j != i && rest[k] == live[j]
    {
      var j := if k < i then k else k + 1;
      assert rest[k] == live[j];
    }
  }

  lemma StepOk(s: State, max: nat, op: Op)
    requires s.mem.Ok(max) && Apart(s.mem, s.live) && NoWrap(s.mem, op)
    ensures Step(s, max, op).mem.Ok(max) && Apart(Step(s, max, op).mem, Step(s, max, op).live)
  {
    hide Apart; hide Mem.Ok; hide Grow; hide Unmap; hide RoundUp;
    match op
    case GrowBy(n, answer) => GrowStep(s.mem, max, s.live, n, answer);
    case MapNew(n, answer) =>
      RoundUpIs(n);
      GrowStep(s.mem, max, s.live, RoundUp(n), answer);
    case UnmapRegion(i) =>
      if i < |s.live| {
        UnmapLive(s.mem, max, s.live, i);
      }
  }

  /** Over any run of grows, mappings and whole-region unmappings that stay within 32 bits, live
      regions are whole pages below the break and pairwise disjoint, the break stays on a page
      boundary within the committed memory, and that within the maximum. */
  lemma {:induction false} RegionsApart(s: State, max: nat, ops: seq<Op>)
    requires s.mem.Ok(max) && s.live == [] && NoneWraps(s, max, ops)
    ensures Run(s, max, ops).mem.Ok(max) && Apart(Run(s, max, ops).mem, Run(s, max, ops).live)
  {
    if ops != [] {
      var n := |ops| - 1;
      var before := ops[..n];
      assert forall i :: 0 <= i < n ==> before[..i] == ops[..i];
      RegionsApart(s, max, before);
      assert NoWrap(Run(s, max, ops[..n]).mem, ops[n]);
      hide NoWrap; hide Apart; hide Mem.Ok; hide Step;
      StepOk(Run(s, max, before), max, ops[n]);
    }
  }
}
