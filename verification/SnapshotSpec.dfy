/** Snapshots of a module's memory, and what restoring one gives back. */
module SnapshotSpec {
  import opened Bytes
  import opened MemorySpec
  import opened Wrappers

  type Key = string

  /** The size of a snapshot and, if it can be restored locally, the file with its bytes. */
  datatype SnapshotData = SnapshotData(size: nat, file: Option<seq<Byte>>)

  type Registry = map<Key, SnapshotData>

  function Take(m: Mem, restorable: bool): SnapshotData
    requires m.brk <= |m.bytes|
  {
    SnapshotData(m.brk, if restorable then Some(m.bytes[..m.brk]) else None)
  }

  /** Maps the file over the start of the memory; a mapping of no bytes fails. */
  function MapSnapshot(m: Mem, d: SnapshotData): Outcome {
    if d.file == None then Thrown(m, NotRestorable)
    else if d.size == 0 || d.size > |m.bytes| then Thrown(m, MapFailed)
    else Done(m.(bytes := d.file.value + m.bytes[d.size..]), 0)
  }

  /** Moves the break to the size of the snapshot. */
  function Resize(m: Mem, max: nat, size: U32, answer: GrowResult): Outcome {
    if size == m.brk then Done(m, 0)
    else if size > m.brk then Grow(m, max, size - m.brk, answer)
    else Shrink(m, m.brk - size)
  }

  function Restore(m: Mem, max: nat, reg: Registry, key: Key, answer: GrowResult): Outcome {
    if key !in reg || reg[key].size >= TWO_32 then Thrown(m, NoSnapshot)
    else
      match Resize(m, max, reg[key].size, answer)
      case Thrown(m', e) => Thrown(m', e)
      case Done(m', _) => MapSnapshot(m', reg[key])
  }

  ghost predicate WellFormed(d: SnapshotData) {
    d.size < TWO_32 && d.size % PAGE == 0 && (d.file.Some? ==> |d.file.value| == d.size)
  }

  ghost predicate RegistryOk(reg: Registry) {
    forall k <- reg :: WellFormed(reg[k])
  }

  lemma ResizeKeeps(m: Mem, max: nat, size: U32, answer: GrowResult)
    requires m.Ok(max)
    ensures match Resize(m, max, size, answer)
            case Done(m', _) => m'.Ok(max) && Extends(m, m')
            case Thrown(m', _) => m' == m
  {
    if size > m.brk {
      GrowKeeps(m, max, size - m.brk, answer);
    }
  }

  /** Where the snapshot fits into the committed memory the break moves to exactly its size and
      nothing else changes; where it does not, growing starts at the end of the memory and the
      break ends above the snapshot, unless it was at the end already. */
  lemma ResizeExact(m: Mem, max: nat, size: U32, answer: GrowResult)
    requires m.Ok(max) && size % PAGE == 0
    ensures size <= m.Size() ==>
              Resize(m, max, size, answer).Done? && Resize(m, max, size, answer).mem == m.(brk := size)
    ensures var r := Resize(m, max, size, answer);
            r.Done? ==> r.mem.brk >= size && (r.mem.brk == size <==> size <= m.Size() || m.brk == m.Size())
  {
    if size > m.brk {
      assert ToU32(m.brk + (size - m.brk)) == size && Aligned(size);
      if size > m.Size() {
        RealGrowth(m, max, size - m.brk, answer);
      }
      hide Commit; hide ToU32;
    }
  }

  /** A restore that returns has put back the break exactly if the snapshot is no larger than
      the committed memory or the break was at the end of it; the bytes of the snapshot are
      back in any case, and no byte above it has changed. */
  lemma RestoreExactIff(m: Mem, max: nat, reg: Registry, key: Key, answer: GrowResult)
    requires m.Ok(max) && RegistryOk(reg) && Restore(m, max, reg, key, answer).Done?
    ensures var r := Restore(m, max, reg, key, answer).mem;
            var d := reg[key];
            && (r.brk == d.size <==> d.size <= m.Size() || m.brk == m.Size())
            && d.file.Some? && |r.bytes| >= d.size && r.bytes[..d.size] == d.file.value
            && (forall i :: d.size <= i < |m.bytes| ==> r.bytes[i] == m.bytes[i])
            && r.Ok(max)
  {
    assert WellFormed(reg[key]);
    ResizeKeeps(m, max, reg[key].size, answer);
    ResizeExact(m, max, reg[key].size, answer);
    hide Resize;
  }

  /** Restoring on a fresh module with less memory: the break lands above the snapshot. */
  lemma OvershootExample()
    ensures var m := Mem(2, PAGE, Zeros(2 * PAGE));
            var r := Resize(m, 100, 3 * PAGE, Success);
            m.Ok(100) && r.Done? && r.mem.brk == 4 * PAGE
  {
    var m := Mem(2, PAGE, Zeros(2 * PAGE));
    ResizeKeeps(m, 100, 3 * PAGE, Success);
    RealGrowthExample(m);
  }

  lemma RealGrowthExample(m: Mem)
    requires m.Ok(100) && m.pages == 2 && m.brk == PAGE
    ensures Resize(m, 100, 3 * PAGE, Success).Done? && Resize(m, 100, 3 * PAGE, Success).mem.brk == 4 * PAGE
  {
    CommitEnds(m, 100, 2, Success);
    RealGrowth(m, 100, 2 * PAGE, Success);
    assert (4 - 2) % TWO_64 == 2;
  }

  /* The round trip. */

  /** What a module and the registry go through between a snapshot and its restore. */
  datatype Op =
    | GrowBy(n: U32, answer: GrowResult)
    | ShrinkBy(n: U32)
    | MapNew(n: U32, answer: GrowResult)
    | UnmapAt(offset: U32, n: U32)
    | Write(at: nat, data: seq<Byte>)
    | TakeAs(key: Key, restorable: bool)
    | Delete(key: Key)
    | RestoreFrom(key: Key, answer: GrowResult)

  datatype State = State(mem: Mem, reg: Registry)

  function WriteBytes(m: Mem, at: nat, data: seq<Byte>): Mem {
    if at + |data| <= |m.bytes| then m.(bytes := m.bytes[..at] + data + m.bytes[at + |data|..]) else m
  }

  /** Calls that throw leave what the code leaves; a write outside the memory traps. */
  function Step(s: State, max: nat, op: Op): State {
    match op
    case GrowBy(n, answer) => s.(mem := Grow(s.mem, max, n, answer).mem)
    case ShrinkBy(n) => s.(mem := Shrink(s.mem, n).mem)
    case MapNew(n, answer) => s.(mem := Mmap(s.mem, max, n, answer).mem)
    case UnmapAt(offset, n) => s.(mem := Unmap(s.mem, max, offset, n).mem)
    case Write(at, data) => s.(mem := WriteBytes(s.mem, at, data))
    case TakeAs(key, restorable) => if s.mem.brk <= |s.mem.bytes| then s.(reg := s.reg[key := Take(s.mem, restorable)])
      else s
    case Delete(key) => s.(reg := s.reg - {key})
    case RestoreFrom(key, answer) => s.(mem := Restore(s.mem, max, s.reg, key, answer).mem)
  }

  function Run(s: State, max: nat, ops: seq<Op>): State
    decreases |ops|
  {
    if ops == [] then s else Run(Step(s, max, ops[0]), max, ops[1..])
  }

  predicate Replaces(op: Op, key: Key) {
    (op.TakeAs? || op.Delete?) && op.key == key
  }

  lemma StepKeeps(s: State, max: nat, op: Op)
    requires s.mem.Ok(max) && RegistryOk(s.reg)
    ensures Step(s, max, op).mem.Ok(max) && RegistryOk(Step(s, max, op).reg)
            && s.mem.pages <= Step(s, max, op).mem.pages
  {
    match op
    case GrowBy(n, answer) => GrowKeeps(s.mem, max, n, answer);
    case ShrinkBy(n) => ShrinkKeeps(s.mem, max, n);
    case MapNew(n, answer) => GrowKeeps(s.mem, max, RoundUp(n), answer);
    case UnmapAt(offset, n) => UnmapTakesTop(s.mem, max, offset, n);
    case Write(at, data) =>
    case TakeAs(key, restorable) =>
    case Delete(key) =>
    case RestoreFrom(key, answer) => RestoreKeeps(s.mem, max, s.reg, key, answer);
  }

  lemma RestoreKeeps(m: Mem, max: nat, reg: Registry, key: Key, answer: GrowResult)
    requires m.Ok(max) && RegistryOk(reg)
    ensures Restore(m, max, reg, key, answer).mem.Ok(max) && m.pages <= Restore(m, max, reg, key, answer).mem.pages
  {
    if key in reg && reg[key].size < TWO_32 {
      assert WellFormed(reg[key]);
      ResizeKeeps(m, max, reg[key].size, answer);
      hide Resize;
    }
  }

  lemma {:induction false} RunKeeps(s: State, max: nat, ops: seq<Op>, key: Key)
    requires s.mem.Ok(max) && RegistryOk(s.reg) && key in s.reg && forall op <- ops :: !Replaces(op, key)
    ensures var r := Run(s, max, ops);
            r.mem.Ok(max) && RegistryOk(r.reg) && s.mem.pages <= r.mem.pages && key in r.reg && r.reg[key] == s.reg[key]
    decreases |ops|
  {
    if ops != [] {
      assert ops == [ops[0]] + ops[1..];
      StepKeeps(s, max, ops[0]);
      assert key in Step(s, max, ops[0]).reg && Step(s, max, ops[0]).reg[key] == s.reg[key] by {
        assert !Replaces(ops[0], key);
        hide Mem.Ok; hide RegistryOk;
      }
      hide Mem.Ok; hide RegistryOk; hide Step;
      RunKeeps(Step(s, max, ops[0]), max, ops[1..], key);
    }
  }

  /** The round trip: whatever grows, shrinks, mappings, unmappings, writes, other snapshots and
      restores of these happen on the same module after a restorable snapshot of a break above
      zero, restoring it returns, and the break and every byte below it are what they were. */
  lemma RoundTrip(s: State, max: nat, key: Key, ops: seq<Op>, answer: GrowResult)
    requires s.mem.Ok(max) && RegistryOk(s.reg) && s.mem.brk > 0
    requires forall op <- ops :: !Replaces(op, key)
    ensures var taken := Step(s, max, TakeAs(key, true));
            var later := Run(taken, max, ops);
            var r := Restore(later.mem, max, later.reg, key, answer);
            r.Done? && r.mem.brk == s.mem.brk && |r.mem.bytes| >= s.mem.brk
              && r.mem.bytes[..s.mem.brk] == s.mem.bytes[..s.mem.brk]
  {
    var taken := Step(s, max, TakeAs(key, true));
    assert taken.reg[key] == SnapshotData(s.mem.brk, Some(s.mem.bytes[..s.mem.brk]));
    StepKeeps(s, max, TakeAs(key, true));
    RunKeeps(taken, max, ops, key);
    var later := Run(taken, max, ops);
    ResizeExact(later.mem, max, s.mem.brk, answer);
    hide Step; hide Run; hide Resize; hide Take;
    assert Restore(later.mem, max, later.reg, key, answer).Done?;
    RestoreExactIff(later.mem, max, later.reg, key, answer);
  }

  /** Restoring succeeds, on any module, exactly for a snapshot that is there, restorable and not of
      a break at zero, and is within the committed memory, or the runtime grants the pages that the
      code asks for, counted from the break, and they stay within the maximum and below 4 GiB. */
  lemma RestoresIff(m: Mem, max: nat, reg: Registry, key: Key, answer: GrowResult)
    requires m.Ok(max) && RegistryOk(reg)
    ensures Restore(m, max, reg, key, answer).Done? <==>
            && key in reg && reg[key].file.Some? && reg[key].size > 0
            && (|| reg[key].size <= m.pages * 65536
                || (&& answer == Success && m.pages + (reg[key].size - m.brk) / 65536 <= max
                    && m.pages + (reg[key].size - m.brk) / 65536 < 65536))
  {
    if key in reg {
      var size := reg[key].size;
      assert WellFormed(reg[key]);
      ResizeKeeps(m, max, size, answer);
      ResizeExact(m, max, size, answer);
      if size > m.brk {
        GrowsIff(m, max, size - m.brk, answer);
      }
      hide Grow; hide Shrink; hide Mem.Ok;
      assert size > m.pages * 65536 ==> (Resize(m, max, size, answer).Done? <==>
             answer == Success && m.pages + (size - m.brk) / 65536 <= max && m.pages + (size - m.brk) / 65536 < 65536);
      MapsOver(m, max, reg, key, answer);
      hide Resize; hide Restore;
    }
  }

  /** What is left once the break is moved. */
  lemma MapsOver(m: Mem, max: nat, reg: Registry, key: Key, answer: GrowResult)
    requires m.Ok(max) && RegistryOk(reg) && key in reg
    ensures reg[key].size < TWO_32
    ensures var r := Restore(m, max, reg, key, answer);
            match Resize(m, max, reg[key].size, answer)
            case Thrown(m', e) => r == Thrown(m, e)
            case Done(m', _) =>
              if reg[key].file == None then r == Thrown(m', NotRestorable)
              else if reg[key].size == 0 then r == Thrown(m', MapFailed)
              else r.Done?
  {
    assert WellFormed(reg[key]);
    ResizeKeeps(m, max, reg[key].size, answer);
    ResizeExact(m, max, reg[key].size, answer);
    hide Resize;
  }

  /** A key that is not there throws without effect. */
  lemma AbsentThrows(m: Mem, max: nat, reg: Registry, key: Key, answer: GrowResult)
    requires m.Ok(max) && RegistryOk(reg)
    ensures key !in reg <==> Restore(m, max, reg, key, answer) == Thrown(m, NoSnapshot)
  {
    if key in reg {
      assert WellFormed(reg[key]);
      if reg[key].size > m.brk && Grow(m, max, reg[key].size - m.brk, answer).Thrown? {
        GrowThrows(m, max, reg[key].size - m.brk, answer);
      }
      ShrinkKeeps(m, max, if reg[key].size < m.brk then m.brk - reg[key].size else 0);
      hide Grow; hide Shrink; hide Mem.Ok;
    }
  }

  /** A snapshot taken as not restorable is never restored. */
  lemma NeverRestored(from: Mem, m: Mem, max: nat, reg: Registry, key: Key, answer: GrowResult)
    requires m.Ok(max) && RegistryOk(reg) && from.Ok(max) && key in reg && reg[key] == Take(from, false)
    ensures Restore(m, max, reg, key, answer).Thrown? && reg[key].size == from.brk
  {
    RestoresIff(m, max, reg, key, answer);
  }

  /** A snapshot that is not restorable, or of a break at zero, is refused only after the break
      has moved. */
  lemma RefusedTooLate(m: Mem, max: nat, reg: Registry, key: Key, answer: GrowResult)
    requires m.Ok(max) && RegistryOk(reg) && key in reg && reg[key].size <= m.Size()
    ensures Restore(m, max, reg, key, answer).Thrown? <==> reg[key].file == None || reg[key].size == 0
    ensures Restore(m, max, reg, key, answer).mem.brk == reg[key].size
    ensures Restore(m, max, reg, key, answer).Thrown? ==>
              Restore(m, max, reg, key, answer).error == if reg[key].file == None then NotRestorable else MapFailed
  {
    assert WellFormed(reg[key]);
    ResizeExact(m, max, reg[key].size, answer);
    hide Resize;
  }
}
