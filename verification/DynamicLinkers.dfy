/** Dynamic loading as the code does it: handles for paths, slots in the function table, and the
    global offset table. */
module DynamicLinkers {
  import opened LinkSpec
  import opened Wrappers

  const MAIN_MODULE_HANDLE := 999

  type Path = string

  /** How the load of a path that is not loaded yet ends: nothing to load; failed before the
      module is recorded (its table slots or its memory could not be had); failed after that; or
      loaded. */
  datatype Fate = Absent | FailsEarly | FailsLate | Loads

  datatype Result = Handle(handle: int) | Refused | Threw

  class Linker {
    var table: seq<Option<Func>>
    var got: map<Name, nat>
    var missing: map<Name, nat>
    var pathToHandle: map<Path, int>
    var modules: set<int>              // the handles with a recorded module
    var lastHandle: int

    constructor (table: seq<Option<Func>>, got: map<Name, nat>)
      ensures Value() == Table(table, got, map[]) && pathToHandle == map[] && modules == {}
    {
      this.table, this.got, missing, pathToHandle, modules, lastHandle := table, got, map[], map[], {}, 0;
    }

    function Value(): Table
      reads this
    {
      Table(table, got, missing)
    }

    /** Runtime call: adds empty slots at the end and returns where they start. */
    method GrowTable(size: nat) returns (start: nat)
      modifies this`table
      ensures start == old(|table|) && Value() == Reserve(old(Value()), size)
    {
      start := |table|;
      table := table + seq(size, i => None);
    }

    method AddFunctionToTable(f: Func) returns (index: nat)
      modifies this`table
      ensures index == old(|table|) && Value() == AddFunction(old(Value()), f)
    {
      index := GrowTable(1);
      table := table[index := Some(f)];
      assert table == old(table) + [Some(f)];
    }

    /** Enters a module's exported elements; a dynamic module's slots start at base. */
    method AddModuleToGOT(isMain: bool, base: nat, segments: seq<Segment>)
      modifies this`got
      ensures got == AddElements(old(got), ModuleElems(isMain, base, segments))
      ensures HasElements(old(got), got, isMain, base, segments)
    {
      EntersElements(got, isMain, base, segments);
      hide HasElements;
      var s := 0;
      while s < |segments|
        invariant s <= |segments| && got == AddElements(old(got), ModuleElems(isMain, base, segments[..s]))
      {
        assert segments[..s + 1][..s] == segments[..s];
        ghost var elems := ModuleElems(isMain, base, segments[..s]);
        var offset := Start(isMain, base, segments[s]);
        AddSegment(offset, segments[s].names, elems, old(got));
        s := s + 1;
      }
      assert segments[..s] == segments;
    }

    /** Enters the exported elements of one segment, behind those in elems. */
    method AddSegment(offset: nat, names: seq<Option<Name>>, ghost elems: seq<Elem>, ghost was: map<Name, nat>)
      requires got == AddElements(was, elems)
      modifies this`got
      ensures got == AddElements(was, elems + SegmentElems(offset, names))
    {
      var i := 0;
      ghost var all := elems + SegmentElems(offset, names);
      assert all[..|elems|] == elems;
      hide AddElements;
      while i < |names|
        invariant i <= |names| && got == AddElements(was, all[..|elems| + i])
      {
        assert all[|elems| + i] == Elem(names[i], offset + i);
        AddsOne(was, all, |elems| + i);
        if names[i].Some? {
          got := Insert(got, names[i].value, offset + i);
        }
        i := i + 1;
      }
      assert all[..|elems| + i] == all;
    }

    /** Resolves an import from GOT.func; found is what a loaded module exports for the name. */
    method ResolveFunc(name: Name, found: Option<Func>) returns (index: nat)
      modifies this`table, this`got, this`missing
      ensures index == Slot(old(Value()), name) && Value() == Resolve(old(Value()), name, found)
    {
      if name in got {
        return got[name];
      }
      if found.Some? {
        index := AddFunctionToTable(found.value);
        got := Insert(got, name, index);
      } else {
        index := GrowTable(1);
        assert table == old(table) + [None];
        missing := Insert(missing, name, index);
      }
    }

    /** Fills the placeholders from the exports of the module just linked, walking through them
        in the given order, and fails at the first that is not exported, keeping them all. */
    method FillGaps(exports: map<Name, Func>, order: seq<Name>) returns (ok: bool)
      requires Ok(Value()) && Walks(order, missing)
      modifies this`table, this`got, this`missing
      ensures ok == (old(missing).Keys <= exports.Keys)
      ensures Value() == Fill(old(Value()), order, exports)
      ensures if ok then Filled(old(Value()), Value(), exports)
              else Filling(old(Value()), Value(), exports, Names(order[..Exported(order, exports)]))
    {
      FillMeans(Value(), order, exports);
      hide Ok; hide Filled; hide Filling; hide FillSome; hide Walks;
      ok := FillAll(exports, order);
      if ok {
        missing := map[];
      }
    }

    /** The same, without forgetting the placeholders. */
    method FillAll(exports: map<Name, Func>, order: seq<Name>) returns (ok: bool)
      requires Ok(Value()) && Walks(order, missing)
      modifies this`table, this`got
      ensures ok == (Exported(order, exports) == |order|)
      ensures Value() == FillSome(old(Value()), order, exports)
    {
      ghost var was := Value();
      SlotsIn(was, order);
      hide Ok; hide FillSome; hide Walks; hide Exported; hide Insert;
      var i := 0;
      assert order[i..] == order;
      while i < |order|
        invariant i <= |order| && missing == was.missing && |table| == |was.elems|
        invariant FillSome(was, order, exports) == FillSome(Table(table, got, missing), order[i..], exports)
        invariant Exported(order, exports) == i + Exported(order[i..], exports)
      {
        var n := order[i];
        FillStep(Table(table, got, missing), order[i..], exports);
        ExportedStep(order[i..], exports);
        if n !in exports {
          return false;
        }
        assert order[i..][1..] == order[i + 1..];
        table := table[missing[n] := Some(exports[n])];
        got := Insert(got, n, missing[n]);
        i := i + 1;
      }
      NoneLeft(Value(), order[i..], exports);
      ok := true;
    }

    /** Loads the module at path unless it is loaded; fate is how that ends. */
    method DynamicLoadModule(path: Path, fate: Fate) returns (r: Result)
      modifies this`pathToHandle, this`modules, this`lastHandle
      ensures Loaded(old(pathToHandle), old(modules), path, fate) == (pathToHandle, modules, r)
      ensures lastHandle == if path in old(pathToHandle) || path == "" || fate == Absent then old(lastHandle)
                            else pathToHandle[path]
    {
      if path in pathToHandle {
        return Handle(pathToHandle[path]);
      }
      if path == "" {
        return Handle(MAIN_MODULE_HANDLE);
      } else if fate == Absent {
        return Refused;
      }
      var handle := 2 + |modules|;
      pathToHandle := pathToHandle[path := handle];
      lastHandle := handle;
      if fate == FailsEarly {
        return Threw;
      }
      modules := modules + {handle};
      if fate == FailsLate {
        return Threw;
      }
      r := Handle(handle);
    }
  }

  lemma SlotsIn(t: Table, order: seq<Name>)
    requires Ok(t) && Walks(order, t.missing)
    ensures forall n <- order :: n in t.missing && t.missing[n] < |t.elems|
  {
  }

  lemma FillStep(t: Table, order: seq<Name>, exports: map<Name, Func>)
    requires order != [] && order[0] in t.missing && t.missing[order[0]] < |t.elems|
    ensures var n := order[0];
            FillSome(t, order, exports) ==
            if n !in exports then t
            else FillSome(t.(elems := t.elems[t.missing[n] := Some(exports[n])], got := Insert(t.got, n, t.missing[n])),
                          order[1..], exports)
  {
  }

  lemma ExportedStep(order: seq<Name>, exports: map<Name, Func>)
    requires order != []
    ensures Exported(order, exports) == if order[0] in exports then 1 + Exported(order[1..], exports) else 0
  {
  }

  lemma NoneLeft(t: Table, order: seq<Name>, exports: map<Name, Func>)
    requires order == []
    ensures FillSome(t, order, exports) == t && Exported(order, exports) == 0
  {
  }

  lemma AddsOne(got: map<Name, nat>, elems: seq<Elem>, k: nat)
    requires k < |elems|
    ensures AddElements(got, elems[..k + 1]) ==
            match elems[k].name
            case Some(name) => Insert(AddElements(got, elems[..k]), name, elems[k].slot)
            case None => AddElements(got, elems[..k])
  {
    assert elems[..k + 1][..k] == elems[..k];
    hide Insert;
  }

  /** What a load makes of the handles, the recorded modules, and its result. */
  function Loaded(handles: map<Path, int>, modules: set<int>, path: Path, fate: Fate)
    : (map<Path, int>, set<int>, Result)
  {
    if path in handles then (handles, modules, Handle(handles[path]))
    else if path == "" then (handles, modules, Handle(MAIN_MODULE_HANDLE))
    else if fate == Absent then (handles, modules, Refused)
    else
      var h := 2 + |modules|;
      match fate
      case FailsEarly => (handles[path := h], modules, Threw)
      case FailsLate => (handles[path := h], modules + {h}, Threw)
      case _ => (handles[path := h], modules + {h}, Handle(h))
  }

  /* Handles over a run of loads. */

  datatype Load = Load(path: Path, fate: Fate)

  datatype Handles = Handles(handles: map<Path, int>, modules: set<int>)

  function After(loads: seq<Load>): Handles {
    if loads == [] then Handles(map[], {})
    else
      Step(After(loads[..|loads| - 1]), loads[|loads| - 1])
  }

  function Step(h: Handles, l: Load): Handles {
    var (handles, modules, _) := Loaded(h.handles, h.modules, l.path, l.fate);
    Handles(handles, modules)
  }

  /** The load takes a handle. */
  predicate Takes(h: Handles, l: Load) {
    l.path !in h.handles && l.path != "" && l.fate != Absent
  }

  ghost predicate Unique(h: Handles) {
    forall p, q :: p in h.handles && q in h.handles && h.handles[p] == h.handles[q] ==> p == q
  }

  /** No load takes a handle after one has failed before its module was recorded. */
  ghost predicate NoneAfterEarlyFailure(loads: seq<Load>) {
    forall i, j :: 0 <= i < j < |loads| && loads[i].fate == FailsEarly && Takes(After(loads[..i]), loads[i]) ==>
                     !Takes(After(loads[..j]), loads[j])
  }

  /** The recorded modules are numbered from 2 on without gaps, and no handle is above the next. */
  ghost predicate Gapless(h: Handles) {
    && (forall i :: i in h.modules <==> 2 <= i < 2 + |h.modules|)
    && forall p <- h.handles :: 2 <= h.handles[p] <= 2 + |h.modules|
  }

  lemma StepGapless(h: Handles, l: Load)
    requires Gapless(h)
    ensures Gapless(Step(h, l))
  {
    if Takes(h, l) && l.fate != FailsEarly {
      assert |h.modules + {2 + |h.modules|}| == |h.modules| + 1;
    }
  }

  lemma {:induction false} ModulesNumbered(loads: seq<Load>)
    ensures Gapless(After(loads))
  {
    if loads != [] {
      hide Gapless;
      ModulesNumbered(loads[..|loads| - 1]);
      StepGapless(After(loads[..|loads| - 1]), loads[|loads| - 1]);
    }
  }

  /** A path has the handle that the next module would get. */
  ghost predicate HasNext(h: Handles) {
    exists p :: p in h.handles && h.handles[p] == 2 + |h.modules|
  }

  lemma NotTaken(h: Handles, l: Load)
    requires !Takes(h, l)
    ensures Step(h, l) == h
  {
  }

  /** A handle taken while no path has the next one is new; a load that fails early leaves its
      path with the next one. */
  lemma TakenFresh(h: Handles, l: Load)
    requires Takes(h, l) && Unique(h) && Gapless(h) && !HasNext(h)
    ensures Unique(Step(h, l)) && (HasNext(Step(h, l)) ==> l.fate == FailsEarly)
  {
    assert forall p <- h.handles :: h.handles[p] < 2 + |h.modules|;
    if l.fate != FailsEarly {
      assert |h.modules + {2 + |h.modules|}| == |h.modules| + 1;
    }
  }

  /** A handle taken while a path has the next one is that path's. */
  lemma TakenTwice(h: Handles, l: Load)
    requires Takes(h, l) && HasNext(h)
    ensures !Unique(Step(h, l))
  {
    var p :| p in h.handles && h.handles[p] == 2 + |h.modules|;
    var h' := Step(h, l);
    assert p in h'.handles && l.path in h'.handles && h'.handles[p] == h'.handles[l.path];
  }

  lemma StaysDouble(h: Handles, l: Load)
    requires !Unique(h)
    ensures !Unique(Step(h, l))
  {
    var p, q :| p in h.handles && q in h.handles && h.handles[p] == h.handles[q] && p != q;
    var h' := Step(h, l);
    assert p in h'.handles && q in h'.handles && h'.handles[p] == h.handles[p] && h'.handles[q] == h.handles[q];
  }

  ghost predicate EarlyAt(loads: seq<Load>, i: nat) {
    i < |loads| && loads[i].fate == FailsEarly && Takes(After(loads[..i]), loads[i])
  }

  lemma AfterNext(loads: seq<Load>, k: nat)
    requires k < |loads|
    ensures After(loads[..k + 1]) == Step(After(loads[..k]), loads[k])
  {
    assert loads[..k + 1][..k] == loads[..k] && loads[..k + 1][k] == loads[k];
  }

  lemma {:induction false} UniqueUpTo(loads: seq<Load>, k: nat)
    requires k <= |loads| && NoneAfterEarlyFailure(loads)
    ensures Unique(After(loads[..k])) && (HasNext(After(loads[..k])) ==> exists i :: 0 <= i < k && EarlyAt(loads, i))
  {
    if k > 0 {
      var h, l := After(loads[..k - 1]), loads[k - 1];
      UniqueUpTo(loads, k - 1);
      AfterNext(loads, k - 1);
      ModulesNumbered(loads[..k - 1]);
      hide After; hide Gapless; hide Step;
      if Takes(h, l) {
        assert forall i :: 0 <= i < k - 1 ==> !EarlyAt(loads, i);
        assert !HasNext(h);
        TakenFresh(h, l);
        if HasNext(Step(h, l)) {
          assert EarlyAt(loads, k - 1);
        }
      } else {
        NotTaken(h, l);
      }
    }
  }

  lemma {:induction false} NextFrom(loads: seq<Load>, i: nat, k: nat)
    requires EarlyAt(loads, i) && i < k <= |loads|
    ensures HasNext(After(loads[..k])) || !Unique(After(loads[..k]))
    decreases k
  {
    hide After; hide Step; hide Unique; hide HasNext;
    AfterNext(loads, k - 1);
    var h, l := After(loads[..k - 1]), loads[k - 1];
    if k == i + 1 {
      FailsWithNext(h, l);
    } else {
      NextFrom(loads, i, k - 1);
      hide EarlyAt;
      if !Unique(h) {
        StaysDouble(h, l);
      } else if Takes(h, l) {
        TakenTwice(h, l);
      } else {
        NotTaken(h, l);
      }
    }
  }

  lemma {:induction false} DoubleFrom(loads: seq<Load>, j: nat, k: nat)
    requires j < k <= |loads| && Takes(After(loads[..j]), loads[j])
    requires HasNext(After(loads[..j])) || !Unique(After(loads[..j]))
    ensures !Unique(After(loads[..k]))
    decreases k
  {
    hide *;
    AfterNext(loads, k - 1);
    var h, l := After(loads[..k - 1]), loads[k - 1];
    if k > j + 1 {
      DoubleFrom(loads, j, k - 1);
      StaysDouble(h, l);
    } else if !Unique(h) {
      StaysDouble(h, l);
    } else {
      TakenTwice(h, l);
    }
  }

  lemma FailsWithNext(h: Handles, l: Load)
    requires Takes(h, l) && l.fate == FailsEarly
    ensures HasNext(Step(h, l))
  {
    assert Step(h, l).handles[l.path] == 2 + |Step(h, l).modules|;
  }

  /** Different paths have different handles after a run of loads exactly if no load takes a
      handle after one that failed before its module was recorded. */
  lemma HandlesUniqueIff(loads: seq<Load>)
    ensures Unique(After(loads)) <==> NoneAfterEarlyFailure(loads)
  {
    assert loads[..|loads|] == loads;
    if NoneAfterEarlyFailure(loads) {
      UniqueUpTo(loads, |loads|);
    } else {
      var i, j :| 0 <= i < j < |loads| && loads[i].fate == FailsEarly && Takes(After(loads[..i]), loads[i])
        && Takes(After(loads[..j]), loads[j]);
      assert EarlyAt(loads, i);
      NextFrom(loads, i, j);
      DoubleFrom(loads, j, |loads|);
    }
  }

  /** What load number i of a run returns. */
  function Returned(loads: seq<Load>, i: nat): Result
    requires i < |loads|
  {
    var h := After(loads[..i]);
    Loaded(h.handles, h.modules, loads[i].path, loads[i].fate).2
  }

  lemma {:induction false} NoHandleForMain(loads: seq<Load>)
    ensures "" !in After(loads).handles
  {
    if loads != [] {
      NoHandleForMain(loads[..|loads| - 1]);
    }
  }

  /** What a load in a run returns, and what it leaves: the main module's handle for the empty path;
      the handle there is for a path that has one; nothing for a path that is not there; and for
      one that is new, an exception, or the number of the module it records. */
  lemma ReturnedIs(loads: seq<Load>, i: nat)
    requires i < |loads|
    ensures var l, before, after := loads[i], After(loads[..i]), After(loads[..i + 1]);
            var r := Returned(loads, i);
            if l.path == "" then r == Handle(999) && after == before
            else if l.path in before.handles then r == Handle(before.handles[l.path]) && after == before
            else
              match l.fate
              case Absent => r == Refused && after == before
              case FailsEarly => r == Threw && l.path in after.handles && after.modules == before.modules
              case FailsLate => r == Threw && l.path in after.handles && after.handles[l.path] in after.modules
              case Loads =>
                && r.Handle? && r.handle !in before.modules && after.modules == before.modules + {r.handle}
                && after.handles == before.handles[l.path := r.handle]
  {
    NoHandleForMain(loads[..i]);
    AfterNext(loads, i);
    ModulesNumbered(loads[..i]);
    hide After;
  }

  lemma {:induction false} HandleStays(loads: seq<Load>, i: nat, j: nat, p: Path)
    requires i <= j <= |loads| && p in After(loads[..i]).handles
    ensures p in After(loads[..j]).handles && After(loads[..j]).handles[p] == After(loads[..i]).handles[p]
    decreases j
  {
    if i < j {
      HandleStays(loads, i, j - 1, p);
      AfterNext(loads, j - 1);
      hide After;
    }
  }

  /** A load that returns a handle for a path leaves the path that handle, and any later load of the
      path returns the same and changes nothing. */
  lemma SameHandleAgain(loads: seq<Load>, i: nat, j: nat)
    requires i < j < |loads| && loads[i].path == loads[j].path != "" && Returned(loads, i).Handle?
    ensures var p := loads[i].path;
            && p in After(loads[..i + 1]).handles && After(loads[..i + 1]).handles[p] == Returned(loads, i).handle
            && Returned(loads, j) == Returned(loads, i) && After(loads[..j + 1]) == After(loads[..j])
  {
    ReturnedIs(loads, i);
    ReturnedIs(loads, j);
    hide After; hide Returned;
    HandleStays(loads, i + 1, j, loads[i].path);
  }

  /** A load that threw has taken a handle, too, and any later load of the path returns that handle
      as if the module were loaded: for one that failed early, before any other load took a
      handle, the handle of no recorded module. */
  lemma HandleAfterThrow(loads: seq<Load>, i: nat, j: nat)
    requires i < j < |loads| && loads[i].path == loads[j].path && Returned(loads, i) == Threw
    ensures Returned(loads, j).Handle?
    ensures var r := Returned(loads, j).handle;
            r in After(loads[..j]).modules <==>
            loads[i].fate == FailsLate || After(loads[..j]).modules != After(loads[..i]).modules
  {
    ReturnedIs(loads, i);
    ReturnedIs(loads, j);
    ThrewNumber(loads, i);
    hide Returned;
    HandleStays(loads, i + 1, j, loads[i].path);
    ModulesGrow(loads, i + 1, j);
    ModulesNumbered(loads[..i]);
    ModulesNumbered(loads[..j]);
    hide After;
    SameSize(After(loads[..i]).modules, After(loads[..j]).modules);
  }

  lemma SameSize(a: set<int>, b: set<int>)
    requires a <= b
    ensures |a| <= |b| && (|a| == |b| <==> a == b)
  {
    assert b == a + (b - a);
  }

  lemma ThrewNumber(loads: seq<Load>, i: nat)
    requires i < |loads| && Returned(loads, i) == Threw
    ensures var before, after := After(loads[..i]), After(loads[..i + 1]);
            && before.modules <= after.modules
            && loads[i].path in after.handles && after.handles[loads[i].path] == 2 + |before.modules|
  {
    AfterNext(loads, i);
    hide After;
  }

  lemma {:induction false} ModulesGrow(loads: seq<Load>, i: nat, j: nat)
    requires i <= j <= |loads|
    ensures After(loads[..i]).modules <= After(loads[..j]).modules
    decreases j
  {
    if i < j {
      ModulesGrow(loads, i, j - 1);
      AfterNext(loads, j - 1);
      hide After;
    }
  }

  /** Every recorded module's number is the handle of some path. */
  ghost predicate Owned(h: Handles) {
    forall m <- h.modules :: exists p :: p in h.handles && h.handles[p] == m
  }

  lemma StepOwned(h: Handles, l: Load)
    requires Owned(h)
    ensures Owned(Step(h, l))
  {
    var h' := Step(h, l);
    forall m | m in h'.modules
      ensures exists p :: p in h'.handles && h'.handles[p] == m
    {
      if m in h.modules {
        var p :| p in h.handles && h.handles[p] == m;
        assert p in h'.handles && h'.handles[p] == m;
      } else {
        assert l.path in h'.handles && h'.handles[l.path] == m;
      }
    }
  }

  lemma {:induction false} ModulesOwned(loads: seq<Load>)
    ensures Owned(After(loads))
  {
    if loads != [] {
      hide Owned;
      ModulesOwned(loads[..|loads| - 1]);
      StepOwned(After(loads[..|loads| - 1]), loads[|loads| - 1]);
    }
  }

  /** A path has the main module's handle. */
  ghost predicate HasMain(h: Handles) {
    exists p :: p in h.handles && h.handles[p] == MAIN_MODULE_HANDLE
  }

  /** Handles start at 2, so none is the error value 0; and some path has the main module's
      handle exactly if more than 997 modules are recorded, or 997 are and a path has the next
      number. */
  lemma MainHandleIff(loads: seq<Load>)
    ensures var h := After(loads);
            && (forall p <- h.handles :: h.handles[p] >= 2)
            && (HasMain(h) <==>
                |h.modules| > MAIN_MODULE_HANDLE - 2 || (|h.modules| == MAIN_MODULE_HANDLE - 2 && HasNext(h)))
  {
    var h := After(loads);
    ModulesNumbered(loads);
    ModulesOwned(loads);
    hide After;
    if |h.modules| > MAIN_MODULE_HANDLE - 2 {
      assert MAIN_MODULE_HANDLE in h.modules;
    }
  }

  /** The path of load number i, and n loads that go well. */
  function PathOf(i: nat): Path {
    seq(i + 1, k => 'm')
  }

  function Many(n: nat): seq<Load> {
    seq(n, i requires i >= 0 => Load(PathOf(i), Loads))
  }

  /** The handles after n loads that go well. */
  ghost predicate HasMany(h: Handles, n: nat) {
    && |h.modules| == n
    && (forall p <- h.handles :: 0 < |p| <= n && p == PathOf(|p| - 1))
    && (forall i :: 0 <= i < n ==> PathOf(i) in h.handles && h.handles[PathOf(i)] == 2 + i)
  }

  lemma OneMore(h: Handles, n: nat)
    requires HasMany(h, n) && Gapless(h)
    ensures HasMany(Step(h, Load(PathOf(n), Loads)), n + 1)
  {
    assert forall i: nat :: |PathOf(i)| == i + 1;
    assert PathOf(n) !in h.handles;
    assert |h.modules + {2 + |h.modules|}| == |h.modules| + 1;
    hide PathOf;
  }

  lemma {:induction false} ManyHandles(n: nat)
    ensures HasMany(After(Many(n)), n)
  {
    if n > 0 {
      hide HasMany;
      ManyHandles(n - 1);
      assert Many(n)[..n - 1] == Many(n - 1) && Many(n)[n - 1] == Load(PathOf(n - 1), Loads);
      ModulesNumbered(Many(n - 1));
      hide Many;
      OneMore(After(Many(n - 1)), n - 1);
    }
  }

  /** The 998th module loaded has the main module's handle. */
  lemma MainHandleExample()
    ensures var h := After(Many(998)).handles; PathOf(997) in h && h[PathOf(997)] == MAIN_MODULE_HANDLE
  {
    ManyHandles(998);
    hide After; hide Many;
  }

  /** A load that fails for want of memory leaves its handle to the next module. */
  lemma SharedHandleExample()
    ensures !Unique(After([Load("a", FailsEarly), Load("b", Loads)]))
  {
    var a, b := Load("a", FailsEarly), Load("b", Loads);
    var none := Handles(map[], {});
    var one := Step(none, a);
    assert one.handles == map["a" := 2] && "a"[0] != "b"[0];
    FailsWithNext(none, a);
    TakenTwice(one, b);
    hide Step; hide Unique; hide HasNext;
    AfterNext([a, b], 1);
    AfterNext([a, b], 0);
    assert [a, b][..2] == [a, b] && [a, b][..0] == [];
  }
}
