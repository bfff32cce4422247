/** A module's linear memory and the snapshot registry, as the code keeps and changes them. */
module WasmModules {
  import opened Bytes
  import opened MemorySpec
  import opened SnapshotSpec
  import opened Wrappers

  class SnapshotRegistry {
    var snapshotMap: Registry

    constructor ()
      ensures snapshotMap == map[]
    {
      snapshotMap := map[];
    }

    /** Records the first size bytes of the memory's contents under key. */
    method TakeSnapshot(key: Key, contents: seq<Byte>, size: nat, locallyRestorable: bool)
      requires size <= |contents|
      modifies this
      ensures snapshotMap == old(snapshotMap)[key := SnapshotData(size, if locallyRestorable then Some(contents[..size])
                                                                  else None)]
    {
      snapshotMap := snapshotMap[key := SnapshotData(size, None)];
      if locallyRestorable {
        WriteSnapshotToFd(key, contents);
      }
    }

    method WriteSnapshotToFd(key: Key, contents: seq<Byte>)
      requires key in snapshotMap && snapshotMap[key].size <= |contents|
      modifies this
      ensures snapshotMap == old(snapshotMap)[key := SnapshotData(old(snapshotMap)[key].size,
                                                                  Some(contents[..old(snapshotMap)[key].size]))]
    {
      var d := snapshotMap[key];
      snapshotMap := snapshotMap[key := d.(file := Some(contents[..d.size]))];
    }

    method DeleteSnapshot(key: Key)
      modifies this
      ensures snapshotMap == old(snapshotMap) - {key}
    {
      if key !in snapshotMap {
        return;
      }
      snapshotMap := snapshotMap - {key};
    }
  }

  class WasmModule {
    const max: nat
    var pages: nat
    var brk: U32
    var bytes: seq<Byte>

    function Value(): Mem
      reads this
    {
      Mem(pages, brk, bytes)
    }

    /** A fresh memory; the break is at its end. */
    constructor (pages: nat, max: nat)
      requires pages <= max <= MAX_WASM_PAGES
      ensures Value().Ok(max) && Value() == Mem(pages, ToU32(pages * PAGE), Zeros(pages * PAGE)) && this.max == max
    {
      this.pages, this.max, brk, bytes := pages, max, ToU32(pages * PAGE), Zeros(pages * PAGE);
    }

    /** The outcome of a call, as the memory it leaves and the value it returned or threw. */
    function Ended(thrown: Option<Error>, value: U32): Outcome
      reads this
    {
      if thrown == None then Done(Value(), value) else Thrown(Value(), thrown.value)
    }

    /** Runtime call: appends zeroed pages. */
    method RuntimeGrowMemory(change: nat, answer: GrowResult) returns (result: GrowResult, basePage: nat)
      modifies this`pages, this`bytes
      ensures match RuntimeGrow(old(Value()), max, change, answer)
              case Done(m, _) => result == Success && basePage == ToU32(old(pages)) && Value() == m
              case Thrown(m, e) => result != Success && e == RuntimeFailed(result) && Value() == m
    {
      if answer != Success {
        return answer, 0;
      }
      if pages + change > max {
        return OutOfMaxSize, 0;
      }
      basePage := ToU32(pages);
      bytes := bytes + Zeros(change * PAGE);
      pages := pages + change;
      result := Success;
    }

    /** The part of GrowMemory that cannot reclaim. */
    method CommitMemory(n: U32, answer: GrowResult) returns (thrown: Option<Error>, value: U32)
      modifies this
      ensures Ended(thrown, if thrown == None then value else 0) == Commit(old(Value()), max, n, answer)
    {
      hide Zeros; hide ToU32; hide PagesFor;
      var oldBytes, oldPages := pages * PAGE, pages;
      var newBytes := oldBytes + n;
      var newPages := PagesFor(ToU32(newBytes));
      if newPages > max {
        return Some(ExceedsMax), 0;
      }
      var result, basePage := RuntimeGrowMemory((newPages - oldPages) % TWO_64, answer);
      if result != Success {
        return Some(RuntimeFailed(result)), 0;
      }
      var newMemBase := ToU32(basePage * PAGE);
      brk := ToU32(pages * PAGE);
      if newMemBase != oldBytes {
        return Some(Discrepancy), 0;
      }
      if brk != newBytes {
        return Some(Discrepancy), 0;
      }
      return None, newMemBase;
    }

    method GrowMemory(n: U32, answer: GrowResult) returns (thrown: Option<Error>, value: U32)
      modifies this
      ensures Ended(thrown, if thrown == None then value else 0) == Grow(old(Value()), max, n, answer)
    {
      hide Commit;
      if n == 0 {
        return None, brk;
      }
      var oldBrk := brk;
      var newBrk := ToU32(brk + n);
      if !Aligned(newBrk) {
        return Some(NotAligned), 0;
      }
      if newBrk <= pages * PAGE {
        brk := newBrk;
        return None, oldBrk;
      }
      thrown, value := CommitMemory(n, answer);
    }

    method ShrinkMemory(n: U32) returns (thrown: Option<Error>, value: U32)
      modifies this`brk
      ensures Ended(thrown, if thrown == None then value else 0) == Shrink(old(Value()), n)
    {
      if !Aligned(n) {
        return Some(NotAligned), 0;
      }
      if n > brk {
        return Some(ShrinksBelowZero), 0;
      }
      value := brk;
      brk := brk - n;
      thrown := None;
    }

    method UnmapMemory(offset: U32, n: U32) returns (thrown: Option<Error>)
      modifies this`brk
      ensures Ended(thrown, 0) == Unmap(old(Value()), max, offset, n)
    {
      if n == 0 {
        return None;
      }
      if !Aligned(offset) {
        return Some(NotAligned);
      }
      var pageAligned := RoundUp(n);
      var unmapTop := ToU32(offset + pageAligned);
      if unmapTop > max * PAGE {
        return Some(OutsideMax);
      }
      thrown := None;
      if unmapTop == brk {
        var value;
        thrown, value := ShrinkMemory(pageAligned);
      }
    }

    method MmapMemory(n: U32, answer: GrowResult) returns (thrown: Option<Error>, value: U32)
      modifies this
      ensures Ended(thrown, if thrown == None then value else 0) == Mmap(old(Value()), max, n, answer)
    {
      thrown, value := GrowMemory(RoundUp(n), answer);
    }

    /** Takes a snapshot of the memory up to the break. */
    method Snapshot(reg: SnapshotRegistry, key: Key, locallyRestorable: bool)
      requires Value().Ok(max)
      modifies reg
      ensures reg.snapshotMap == old(reg.snapshotMap)[key := Take(Value(), locallyRestorable)]
    {
      reg.TakeSnapshot(key, bytes, brk, locallyRestorable);
    }

    method MapSnapshotAt(reg: SnapshotRegistry, key: Key) returns (thrown: Option<Error>)
      requires key in reg.snapshotMap
      modifies this`bytes
      ensures Ended(thrown, 0) == MapSnapshot(old(Value()), reg.snapshotMap[key])
    {
      var d := reg.snapshotMap[key];
      if d.file == None {
        return Some(NotRestorable);
      }
      if d.size == 0 || d.size > |bytes| {
        return Some(MapFailed);
      }
      bytes := d.file.value + bytes[d.size..];
      thrown := None;
    }

    method RestoreSnapshot(reg: SnapshotRegistry, key: Key, answer: GrowResult) returns (thrown: Option<Error>)
      requires Value().Ok(max) && RegistryOk(reg.snapshotMap)
      modifies this
      ensures Ended(thrown, 0) == Restore(old(Value()), max, reg.snapshotMap, key, answer)
    {
      hide Grow; hide Shrink; hide Mem.Ok;
      if key !in reg.snapshotMap {
        return Some(NoSnapshot);
      }
      var d := reg.snapshotMap[key];
      assert WellFormed(d);
      thrown := None;
      var value: U32;
      if d.size > brk {
        thrown, value := GrowMemory(d.size - brk, answer);
      } else if d.size < brk {
        thrown, value := ShrinkMemory(brk - d.size);
      }
      if thrown == None {
        thrown := MapSnapshotAt(reg, key);
      }
    }
  }
}
