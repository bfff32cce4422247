/**
 A run of dynamic loads, mixed with memory calls and lookups: what each load takes of the memory,
 of the function table and of the handles, together.
 */
module ModuleLoads {
  import opened Bytes
  import opened DynamicLayout
  import opened MemorySpec
  import H = DynamicLinkers
  import R = MemoryRuns

  /** A recorded module: the region it was granted and its layout. */
  datatype Module = Module(grant: R.Region, dataSize: nat, layout: Layout)

  datatype Process = Process(
    mem: Mem,
    live: seq<R.Region>,
    tableSize: nat,
    handles: map<H.Path, int>,
    modules: map<int, Module>)

  /** What a load meets: whether there is a file, what the module asks for, whether the table, the
      memory and the guards can be had, and whether it links, with how many further slots. */
  datatype Op =
    | LoadOp(path: H.Path, present: bool, elems: nat, tableGrows: bool, dataSize: nat, answer: GrowResult,
             guarded: bool, links: bool, slots: nat)
    | TableOp(n: nat)
    | MemOp(op: R.Op)

  /** The load is of a file that is not loaded. */
  predicate IsNew(p: Process, op: Op) {
    op.LoadOp? && op.path !in p.handles && op.path != "" && op.present
  }

  /** The table has room for the module's elements. */
  predicate HasTable(p: Process, op: Op) {
    op.LoadOp? && op.tableGrows && p.tableSize + op.elems < TWO_32
  }

  function FateOf(p: Process, max: nat, op: Op): H.Fate
    requires op.LoadOp?
  {
    if !op.present then H.Absent
    else if !HasTable(p, op) || Grow(p.mem, max, GRANT_SIZE, op.answer).Thrown? || !op.guarded then H.FailsEarly
    else if op.links then H.Loads
    else H.FailsLate
  }

  /** What a load takes of table and memory before its module is recorded. */
  function Provided(p: Process, max: nat, op: Op): Process
    requires op.LoadOp? && p.tableSize < TWO_32
  {
    if !HasTable(p, op) then p
    else
      var r := Grow(p.mem, max, GRANT_SIZE, op.answer);
      p.(mem := r.mem, tableSize := p.tableSize + op.elems,
         live := if r.Done? then p.live + [R.Region(r.value, GRANT_SIZE)] else p.live)
  }

  /** The module a load records, in a grant at base. */
  function NewModule(p: Process, op: Op, base: U32): Module
    requires HasTable(p, op)
  {
    Module(R.Region(base, GRANT_SIZE), op.dataSize,
           Placed(base, op.dataSize, p.tableSize, p.tableSize + op.elems).(instance := op.links))
  }

  /** The number the next recorded module gets. */
  function NextNumber(p: Process): int {
    2 + |p.modules.Keys|
  }

  /** The effect of a load on memory, table and modules. */
  function Took(p: Process, max: nat, op: Op): Process
    requires op.LoadOp? && op.present && p.tableSize < TWO_32
  {
    var p' := Provided(p, max, op);
    if FateOf(p, max, op).FailsEarly? then p'
    else
      var m := NewModule(p, op, Grow(p.mem, max, GRANT_SIZE, op.answer).value);
      p'.(modules := p.modules[NextNumber(p) := m], tableSize := MoreSlots(p'.tableSize, op.slots))
  }

  /** The table with n more slots, as far as it can grow. */
  function MoreSlots(size: nat, n: nat): nat {
    if size + n < TWO_32 then size + n else size
  }

  function Step(p: Process, max: nat, op: Op): Process
    requires p.tableSize < TWO_32
  {
    match op
    case LoadOp(path, _, _, _, _, _, _, _, _) =>
      if !IsNew(p, op) then p
      else Took(p, max, op).(handles := H.Loaded(p.handles, p.modules.Keys, path, FateOf(p, max, op)).0)
    case TableOp(n) => p.(tableSize := MoreSlots(p.tableSize, n))
    case MemOp(call) =>
      var s := R.Step(R.State(p.mem, p.live), max, call);
      p.(mem := s.mem, live := s.live)
  }

  function Run(p: Process, max: nat, ops: seq<Op>): (r: Process)
    requires p.tableSize < TWO_32
    ensures r.tableSize < TWO_32
  {
    if ops == [] then p else Step(Run(p, max, ops[..|ops| - 1]), max, ops[|ops| - 1])
  }

  /** The region is granted to a module. */
  ghost predicate IsGrant(p: Process, g: R.Region) {
    exists h :: h in p.modules && p.modules[h].grant == g
  }

  /** The data fits, no sum exceeds 32 bits, and no module's grant is unmapped. */
  ghost predicate Fits(p: Process, op: Op) {
    match op
    case LoadOp(_, _, _, _, dataSize, _, _, _, _) => dataSize <= MODULE_SIZE - STACK_SIZE
      && p.mem.brk + GRANT_SIZE < TWO_32
    case TableOp(n) => true
    case MemOp(call) => R.NoWrap(p.mem, call) && (call.UnmapRegion? && call.i < |p.live| ==>
                                                  !IsGrant(p, p.live[call.i]))
  }

  ghost predicate AllFit(p: Process, max: nat, ops: seq<Op>)
    requires p.tableSize < TWO_32
  {
    forall i :: 0 <= i < |ops| ==> Fits(Run(p, max, ops[..i]), ops[i])
  }

  /** A module lies in a live grant and in the table. */
  ghost predicate InPlace(p: Process, m: Module) {
    && m.grant in p.live && m.grant.size == GRANT_SIZE && m.grant.base < TWO_32
    && m.dataSize <= MODULE_SIZE - STACK_SIZE
    && m.layout.tableBottom <= m.layout.tableTop <= p.tableSize
    && m.layout == Placed(m.grant.base, m.dataSize, m.layout.tableBottom,
                          m.layout.tableTop).(instance := m.layout.instance)
  }

  /** Two modules have different grants and table ranges that do not overlap. */
  ghost predicate Distinct(m: Module, n: Module) {
    m.grant != n.grant && (m.layout.tableTop <= n.layout.tableBottom || n.layout.tableTop <= m.layout.tableBottom)
  }

  ghost predicate Modules(p: Process) {
    && (forall h <- p.modules :: InPlace(p, p.modules[h]))
    && (forall h, k :: h in p.modules && k in p.modules && h != k ==> Distinct(p.modules[h], p.modules[k]))
  }

  ghost predicate Inv(p: Process, max: nat) {
    && p.mem.Ok(max) && R.Apart(p.mem, p.live) && Modules(p) && H.Gapless(H.Handles(p.handles, p.modules.Keys))
  }

  /** A step that keeps the modules, grants them nothing less and shrinks no table. */
  lemma SameModules(p: Process, p': Process)
    requires Modules(p) && p'.modules == p.modules && p.tableSize <= p'.tableSize
    requires forall g <- p.live :: IsGrant(p, g) ==> g in p'.live
    ensures Modules(p')
  {
    hide Distinct;
    forall h | h in p'.modules
      ensures InPlace(p', p'.modules[h])
    {
      assert InPlace(p, p.modules[h]);
    }
  }

  lemma MemStep(p: Process, max: nat, call: R.Op)
    requires Inv(p, max) && p.tableSize < TWO_32 && Fits(p, MemOp(call))
    ensures Inv(Step(p, max, MemOp(call)), max)
  {
    var s := R.State(p.mem, p.live);
    R.StepOk(s, max, call);
    forall g | g in p.live && IsGrant(p, g)
      ensures g in R.Step(s, max, call).live
    {
      StaysLive(s, max, call, g);
    }
    hide R.Apart; hide Mem.Ok; hide R.Step; hide Modules;
    SameModules(p, Step(p, max, MemOp(call)));
  }

  lemma StaysLive(s: R.State, max: nat, call: R.Op, g: R.Region)
    requires g in s.live && (call.UnmapRegion? && call.i < |s.live| ==> s.live[call.i] != g)
    ensures g in R.Step(s, max, call).live
  {
    hide Grow; hide Mmap; hide Unmap;
    if call.UnmapRegion? && call.i < |s.live| {
      var k :| 0 <= k < |s.live| && s.live[k] == g;
      var rest := R.Sequences.Drop(s.live, call.i);
      assert rest[if k < call.i then k else k - 1] == g;
    }
  }

  lemma OneMoreModule(p: Process, p': Process, m: Module)
    requires Modules(p) && p'.modules == p.modules[NextNumber(p) := m] && NextNumber(p) !in p.modules
    requires InPlace(p', m) && m.layout.tableBottom == p.tableSize <= p'.tableSize && m.grant !in p.live
    requires forall g <- p.live :: g in p'.live
    ensures Modules(p')
  {
    forall h | h in p.modules
      ensures InPlace(p', p.modules[h]) && Distinct(p.modules[h], m)
    {
      assert InPlace(p, p.modules[h]);
    }
    hide InPlace; hide Distinct;
    forall h | h in p.modules
      ensures Distinct(m, p.modules[h])
    {
      Symmetric(p.modules[h], m);
    }
  }

  lemma Symmetric(m: Module, n: Module)
    requires Distinct(m, n)
    ensures Distinct(n, m)
  {
  }

  lemma GrantNew(mem: Mem, live: seq<R.Region>, g: R.Region)
    requires R.Apart(mem, live + [g])
    ensures g !in live
  {
    var all := live + [g];
    assert all[|live|] == g && g.size > 0;
    forall k | 0 <= k < |live|
      ensures live[k] != g
    {
      assert all[k] == live[k] && (all[k].End() <= all[|live|].base || all[|live|].End() <= all[k].base);
    }
  }

  /** The memory part of a load. */
  lemma Granted(p: Process, max: nat, answer: GrowResult)
    requires p.mem.Ok(max) && R.Apart(p.mem, p.live) && p.mem.brk + GRANT_SIZE < TWO_32
    ensures var r := Grow(p.mem, max, GRANT_SIZE, answer);
            var g := R.Region(if r.Done? then r.value else 0, GRANT_SIZE);
            && r.mem.Ok(max)
            && if r.Done? then R.Apart(r.mem, p.live + [g]) && g !in p.live else R.Apart(r.mem, p.live)
  {
    var r := Grow(p.mem, max, GRANT_SIZE, answer);
    R.GrowStep(p.mem, max, p.live, GRANT_SIZE, answer);
    hide Grow; hide R.Apart; hide Mem.Ok;
    if r.Done? {
      GrantNew(r.mem, p.live, R.Region(r.value, GRANT_SIZE));
    }
  }

  lemma ProvidedKeeps(p: Process, max: nat, op: Op)
    requires op.LoadOp? && p.tableSize < TWO_32
    ensures Provided(p, max, op).modules == p.modules && Provided(p, max, op).handles == p.handles
  {
    hide Grow; hide HasTable;
  }

  /** A load records a module unless it fails early. */
  lemma TookKeys(p: Process, max: nat, op: Op)
    requires op.LoadOp? && op.present && p.tableSize < TWO_32
    ensures Took(p, max, op).handles == p.handles
    ensures Took(p, max, op).modules.Keys ==
            if FateOf(p, max, op).FailsEarly? then p.modules.Keys else p.modules.Keys + {NextNumber(p)}
  {
    hide Grow; hide Provided; hide NewModule; hide HasTable; hide FateOf; hide MoreSlots; hide NextNumber;
    ProvidedKeeps(p, max, op);
  }

  lemma LoadedModules(handles: map<H.Path, int>, modules: set<int>, path: H.Path, fate: H.Fate)
    requires path !in handles && path != "" && fate != H.Absent
    ensures H.Loaded(handles, modules, path, fate).1 == if fate.FailsEarly? then modules else modules + {2 + |modules|}
  {
  }

  lemma AbsentIff(p: Process, max: nat, op: Op)
    requires op.LoadOp?
    ensures FateOf(p, max, op) == H.Absent <==> !op.present
  {
    hide Grow;
  }

  /** The loader and its handles agree on which modules are recorded. */
  lemma TookLoaded(p: Process, max: nat, op: Op)
    requires p.tableSize < TWO_32 && IsNew(p, op)
    ensures Took(p, max, op).modules.Keys == H.Loaded(p.handles, p.modules.Keys, op.path, FateOf(p, max, op)).1
  {
    hide Took; hide FateOf; hide H.Loaded;
    AbsentIff(p, max, op);
    TookKeys(p, max, op);
    LoadedModules(p.handles, p.modules.Keys, op.path, FateOf(p, max, op));
  }

  lemma StepIs(h: H.Handles, l: H.Load)
    ensures H.Step(h, l) ==
            H.Handles(H.Loaded(h.handles, h.modules, l.path, l.fate).0,
                      H.Loaded(h.handles, h.modules, l.path, l.fate).1)
  {
    hide H.Loaded;
  }

  lemma NewStep(p: Process, max: nat, op: Op)
    requires p.tableSize < TWO_32 && op.LoadOp?
    ensures Step(p, max, op) ==
            if IsNew(p, op) then Took(p, max, op).(handles := H.Loaded(p.handles, p.modules.Keys, op.path,
                                                                       FateOf(p, max, op)).0)
            else p
  {
    hide Took; hide FateOf; hide H.Loaded;
  }

  lemma NewLoadHandles(p: Process, max: nat, op: Op)
    requires p.tableSize < TWO_32 && IsNew(p, op)
    ensures var p' := Step(p, max, op);
            H.Handles(p'.handles, p'.modules.Keys) ==
            H.Step(H.Handles(p.handles, p.modules.Keys), H.Load(op.path, FateOf(p, max, op)))
  {
    assert op.LoadOp? && op.present;
    hide *;
    NewStep(p, max, op);
    TookLoaded(p, max, op);
    StepIs(H.Handles(p.handles, p.modules.Keys), H.Load(op.path, FateOf(p, max, op)));
  }

  lemma OldLoadHandles(p: Process, max: nat, op: Op)
    requires p.tableSize < TWO_32 && op.LoadOp? && !IsNew(p, op)
    ensures Step(p, max, op) == p
    ensures H.Step(H.Handles(p.handles, p.modules.Keys), H.Load(op.path, FateOf(p, max, op))) ==
            H.Handles(p.handles, p.modules.Keys)
  {
    hide FateOf; hide Took; hide Step; hide H.Loaded; hide H.Step;
    AbsentIff(p, max, op);
    NewStep(p, max, op);
    H.NotTaken(H.Handles(p.handles, p.modules.Keys), H.Load(op.path, FateOf(p, max, op)));
  }

  lemma LoadHandles(p: Process, max: nat, op: Op)
    requires p.tableSize < TWO_32 && op.LoadOp?
    ensures var p' := Step(p, max, op);
            H.Handles(p'.handles, p'.modules.Keys) ==
            H.Step(H.Handles(p.handles, p.modules.Keys), H.Load(op.path, FateOf(p, max, op)))
  {
    hide *;
    if IsNew(p, op) {
      NewLoadHandles(p, max, op);
    } else {
      OldLoadHandles(p, max, op);
    }
  }

  lemma OtherHandles(p: Process, max: nat, op: Op)
    requires p.tableSize < TWO_32 && !op.LoadOp?
    ensures Step(p, max, op).handles == p.handles && Step(p, max, op).modules == p.modules
  {
    hide R.Step; hide MoreSlots;
  }

  lemma LoadStep(p: Process, max: nat, op: Op)
    requires Inv(p, max) && p.tableSize < TWO_32 && op.LoadOp? && Fits(p, op)
    ensures Inv(Step(p, max, op), max)
  {
    if IsNew(p, op) {
      NewLoadStep(p, max, op);
    } else {
      hide Inv; hide Took; hide FateOf; hide H.Loaded;
    }
  }

  lemma NewLoadStep(p: Process, max: nat, op: Op)
    requires Inv(p, max) && p.tableSize < TWO_32 && IsNew(p, op) && Fits(p, op)
    ensures Inv(Step(p, max, op), max)
  {
    LoadHandles(p, max, op);
    H.StepGapless(H.Handles(p.handles, p.modules.Keys), H.Load(op.path, FateOf(p, max, op)));
    Granted(p, max, op.answer);
    assert |p.modules.Keys| == |p.modules|;
    assert NextNumber(p) !in p.modules.Keys;
    NewStep(p, max, op);
    hide H.Gapless; hide R.Apart; hide Mem.Ok; hide Grow; hide H.Step; hide H.Loaded; hide Step;
    var p' := Step(p, max, op);
    if FateOf(p, max, op).FailsEarly? {
      hide Modules; hide Placed;
      SameModules(p, p');
    } else {
      RecordedOk(p, max, op, Took(p, max, op));
      Renamed(Took(p, max, op), p');
      hide Modules;
    }
  }

  lemma Renamed(p: Process, p': Process)
    requires Modules(p) && p' == p.(handles := p'.handles)
    ensures Modules(p')
  {
    hide Placed;
    forall h | h in p'.modules
      ensures InPlace(p', p'.modules[h])
    {
      assert InPlace(p, p.modules[h]);
    }
  }

  lemma RecordedOk(p: Process, max: nat, op: Op, p': Process)
    requires Modules(p) && p.tableSize < TWO_32 && IsNew(p, op) && Fits(p, op) && !FateOf(p, max, op).FailsEarly?
    requires var r := Grow(p.mem, max, GRANT_SIZE, op.answer); r.Done? && R.Region(r.value, GRANT_SIZE) !in p.live
    requires NextNumber(p) !in p.modules && p' == Took(p, max, op)
    ensures Modules(p')
  {
    var m := NewModule(p, op, Grow(p.mem, max, GRANT_SIZE, op.answer).value);
    hide Grow; hide Modules; hide IsNew;
    assert p'.modules == p.modules[NextNumber(p) := m];
    assert p'.live == p.live + [m.grant] && p'.live[|p.live|] == m.grant;
    PlacedTable(m.grant.base, m.dataSize, p.tableSize, p.tableSize + op.elems);
    hide Placed;
    assert InPlace(p', m);
    hide InPlace; hide Took;
    OneMoreModule(p, p', m);
  }

  lemma PlacedTable(base: U32, dataSize: nat, bottom: U32, top: U32)
    ensures Placed(base, dataSize, bottom, top).tableBottom == bottom
            && Placed(base, dataSize, bottom, top).tableTop == top
  {
  }

  lemma StepKeeps(p: Process, max: nat, op: Op)
    requires Inv(p, max) && p.tableSize < TWO_32 && Fits(p, op)
    ensures Inv(Step(p, max, op), max)
  {
    match op
    case LoadOp(_, _, _, _, _, _, _, _, _) => LoadStep(p, max, op);
    case TableOp(n) =>
      hide Modules;
      SameModules(p, Step(p, max, op));
    case MemOp(call) => MemStep(p, max, call);
  }

  lemma {:induction false} RunKeeps(p: Process, max: nat, ops: seq<Op>)
    requires Inv(p, max) && p.tableSize < TWO_32 && AllFit(p, max, ops)
    ensures Inv(Run(p, max, ops), max)
  {
    if ops != [] {
      var n := |ops| - 1;
      var before := ops[..n];
      assert forall i :: 0 <= i < n ==> before[..i] == ops[..i];
      RunKeeps(p, max, before);
      assert Fits(Run(p, max, before), ops[n]);
      hide Fits; hide Inv; hide Step;
      StepKeeps(Run(p, max, before), max, ops[n]);
    }
  }

  /** The loads of a run, each with how it ended. */
  function LoadsOf(p: Process, max: nat, ops: seq<Op>): seq<H.Load>
    requires p.tableSize < TWO_32
  {
    if ops == [] then []
    else
      var before, op := ops[..|ops| - 1], ops[|ops| - 1];
      LoadsOf(p, max, before) + if op.LoadOp? then [H.Load(op.path, FateOf(Run(p, max, before), max, op))] else []
  }

  /** A process with nothing loaded and no regions granted. */
  ghost predicate Fresh(p: Process, max: nat) {
    p.mem.Ok(max) && p.live == [] && p.tableSize < TWO_32 && p.handles == map[] && p.modules == map[]
  }

  /** Memory calls and lookups do not touch handles; the loads of a run have handed them out as
      if they were alone. */
  lemma {:induction false} HandlesOfRun(p: Process, max: nat, ops: seq<Op>)
    requires Fresh(p, max)
    ensures var r := Run(p, max, ops);
            H.Handles(r.handles, r.modules.Keys) == H.After(LoadsOf(p, max, ops))
  {
    if ops == [] {
      assert p.modules.Keys == {};
    } else {
      var before, op := ops[..|ops| - 1], ops[|ops| - 1];
      HandlesOfRun(p, max, before);
      var b, loads := Run(p, max, before), LoadsOf(p, max, before);
      hide Step; hide FateOf; hide H.Step;
      if op.LoadOp? {
        LoadHandles(b, max, op);
        AfterOne(loads, H.Load(op.path, FateOf(b, max, op)));
        hide H.After;
      } else {
        OtherHandles(b, max, op);
        hide H.After;
        assert LoadsOf(p, max, ops) == loads;
      }
    }
  }

  lemma AfterOne(loads: seq<H.Load>, l: H.Load)
    ensures H.After(loads + [l]) == H.Step(H.After(loads), l)
  {
    assert (loads + [l])[..|loads|] == loads;
  }

  /** The module's guards, stack, data and heap fill its grant, below the break, its elements are
      in the table, and the loader's check passes once it is linked. */
  ghost predicate Sound(p: Process, m: Module) {
    && m.grant.base < TWO_32 && Tiles(m.layout, m.grant.base, m.dataSize) && m.grant.End() <= p.mem.brk
    && (m.layout.instance ==> Validate(m.layout))
    && m.layout.tableBottom <= m.layout.tableTop <= p.tableSize
  }

  /** Two modules, with their guards, have no byte and no slot in common. */
  ghost predicate NothingShared(l: Layout, l': Layout) {
    && (l.memoryTop + GUARD_SIZE <= l'.memoryBottom - GUARD_SIZE
        || l'.memoryTop + GUARD_SIZE <= l.memoryBottom - GUARD_SIZE)
    && (l.tableTop <= l'.tableBottom || l'.tableTop <= l.tableBottom)
  }

  lemma SoundIn(p: Process, max: nat, h: int)
    requires Inv(p, max) && h in p.modules && p.tableSize < TWO_32
    ensures Sound(p, p.modules[h])
  {
    var m := p.modules[h];
    assert InPlace(p, m);
    assert m.grant.End() <= p.mem.brk by {
      var k :| 0 <= k < |p.live| && p.live[k] == m.grant;
    }
    var l := Placed(m.grant.base, m.dataSize, m.layout.tableBottom, m.layout.tableTop);
    hide Inv; hide Placed;
    TilesIffDataFits(m.grant.base, m.dataSize, m.layout.tableBottom, m.layout.tableTop);
    ValidateAccepts(m.grant.base, m.dataSize, m.layout.tableBottom, m.layout.tableTop);
    assert m.layout == l.(instance := m.layout.instance);
  }

  lemma RegionsDiffer(mem: Mem, live: seq<R.Region>, a: R.Region, b: R.Region)
    requires R.Apart(mem, live) && a in live && b in live && a != b
    ensures a.End() <= b.base || b.End() <= a.base
  {
    var i :| 0 <= i < |live| && live[i] == a;
    var j :| 0 <= j < |live| && live[j] == b;
    if i > j {
      assert live[j].End() <= live[i].base || live[i].End() <= live[j].base;
    }
  }

  /** Over any run of loads, mixed with grows, mappings, unmappings of other regions and lookups,
      in which data fits and nothing exceeds 32 bits: each recorded module fills its own grant,
      is accepted by the check if it linked, and shares no byte, guards included, and no table
      slot with another; its number is at least 2. */
  lemma LoadsApart(p: Process, max: nat, ops: seq<Op>, h: int, k: int)
    requires Fresh(p, max) && AllFit(p, max, ops)
    requires var r := Run(p, max, ops); h in r.modules && k in r.modules && h != k
    ensures var r := Run(p, max, ops);
            && h >= 2 && Sound(r, r.modules[h]) && Sound(r, r.modules[k])
            && NothingShared(r.modules[h].layout, r.modules[k].layout)
  {
    FreshOk(p, max);
    RunKeeps(p, max, ops);
    var r := Run(p, max, ops);
    SoundIn(r, max, h);
    SoundIn(r, max, k);
    var m, n := r.modules[h], r.modules[k];
    assert InPlace(r, m) && InPlace(r, n) && Distinct(m, n);
    RegionsDiffer(r.mem, r.live, m.grant, n.grant);
    assert h in r.modules.Keys;
    hide Run; hide R.Apart; hide Mem.Ok; hide Validate; hide InPlace;
  }

  lemma FreshOk(p: Process, max: nat)
    requires Fresh(p, max)
    ensures Inv(p, max)
  {
    assert p.modules.Keys == {};
  }

  /** No module's memory is handed out by a later grow or mapping, nor was it before. */
  lemma MappingsApart(p: Process, max: nat, ops: seq<Op>, h: int, g: R.Region)
    requires Fresh(p, max) && AllFit(p, max, ops)
    requires var r := Run(p, max, ops); h in r.modules && g in r.live && r.modules[h].grant != g
    ensures var l := Run(p, max, ops).modules[h].layout;
            g.End() <= l.memoryBottom - GUARD_SIZE || l.memoryTop + GUARD_SIZE <= g.base
  {
    FreshOk(p, max);
    RunKeeps(p, max, ops);
    var r := Run(p, max, ops);
    SoundIn(r, max, h);
    assert InPlace(r, r.modules[h]);
    RegionsDiffer(r.mem, r.live, r.modules[h].grant, g);
  }

  /** Over any such run different paths have different handles exactly if no load takes one
      after a load that failed early. */
  lemma HandlesOfRunUniqueIff(p: Process, max: nat, ops: seq<Op>)
    requires Fresh(p, max)
    ensures var r := Run(p, max, ops);
            (forall a, b :: a in r.handles && b in r.handles && r.handles[a] == r.handles[b] ==> a == b) <==>
            H.NoneAfterEarlyFailure(LoadsOf(p, max, ops))
  {
    HandlesOfRun(p, max, ops);
    H.HandlesUniqueIff(LoadsOf(p, max, ops));
  }
}
