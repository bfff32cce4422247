/**
 The function table and the global offset table of functions, as values: slots are only ever
 added at the end of the table, a function's entry in the GOT is never replaced, and a name
 that no loaded module exports gets a placeholder that is filled when linking ends. A link that
 fails leaves its placeholders to the next one.
 */
module LinkSpec {
  import opened Wrappers

  type Name = string
  type Func = nat

  /** The table's elements, the GOT, and the placeholders still to be filled. */
  datatype Table = Table(elems: seq<Option<Func>>, got: map<Name, nat>, missing: map<Name, nat>)

  /** Slots start .. start + size are handed out. */
  datatype Range = Range(start: nat, size: nat)

  /** New slots for a module's own elements. */
  function Reserve(t: Table, size: nat): Table {
    t.(elems := t.elems + seq(size, i => None))
  }

  function AddFunction(t: Table, f: Func): Table {
    t.(elems := t.elems + [Some(f)])
  }

  /** Puts name into the GOT unless it is there. */
  function Insert(got: map<Name, nat>, name: Name, i: nat): map<Name, nat> {
    if name in got then got else got[name := i]
  }

  /** An element of a module: the name it is exported under, if it is, and its slot. */
  datatype Elem = Elem(name: Option<Name>, slot: nat)

  /** Some elements in a row; the offset is the module's own and counts only in a main module. */
  datatype Segment = Segment(offset: nat, names: seq<Option<Name>>)

  function SegmentElems(start: nat, names: seq<Option<Name>>): seq<Elem> {
    seq(|names|, i requires 0 <= i < |names| => Elem(names[i], start + i))
  }

  /** Where the code takes a segment to start: every segment of a dynamic module at the module's
      first slot. */
  function Start(isMain: bool, base: nat, g: Segment): nat {
    if isMain then g.offset else base
  }

  function ModuleElems(isMain: bool, base: nat, segments: seq<Segment>): seq<Elem> {
    if segments == [] then []
    else
      var n := |segments| - 1;
      ModuleElems(isMain, base, segments[..n]) + SegmentElems(Start(isMain, base, segments[n]), segments[n].names)
  }

  /** The exported elements among elems enter the GOT. */
  function AddElements(got: map<Name, nat>, elems: seq<Elem>): map<Name, nat> {
    if elems == [] then got
    else
      var n := |elems| - 1;
      var before := AddElements(got, elems[..n]);
      match elems[n].name
      case Some(name) => Insert(before, name, elems[n].slot)
      case None => before
  }

  /** The slot an import from GOT.func resolves to: the one in the GOT, or a new one for the
      function a loaded module exports, or a placeholder. */
  function Slot(t: Table, name: Name): nat {
    if name in t.got then t.got[name] else |t.elems|
  }

  function Resolve(t: Table, name: Name, found: Option<Func>): Table {
    if name in t.got then t
    else
      match found
      case Some(f) => AddFunction(t, f).(got := t.got[name := |t.elems|])
      case None => t.(elems := t.elems + [None], missing := Insert(t.missing, name, |t.elems|))
  }

  function ResolveAll(t: Table, names: seq<Name>, found: map<Name, Func>): Table {
    if names == [] then t
    else
      var n := names[|names| - 1];
      Resolve(ResolveAll(t, names[..|names| - 1], found), n, if n in found then Some(found[n]) else None)
  }

  /** The slot of import number i of a link. */
  function SlotOf(t: Table, names: seq<Name>, found: map<Name, Func>, i: nat): nat
    requires i < |names|
  {
    Slot(ResolveAll(t, names[..i], found), names[i])
  }

  /** The function an import stands for. */
  function Target(found: map<Name, Func>, exports: map<Name, Func>, name: Name): Option<Func> {
    if name in found then Some(found[name]) else if name in exports then Some(exports[name]) else None
  }

  /** t2 is t with every placeholder filled by what the new module exports, and in the GOT. */
  ghost predicate Filled(t: Table, t2: Table, exports: map<Name, Func>) {
    && t.missing.Keys <= exports.Keys && t2.missing == map[] && |t2.elems| == |t.elems|
    && (forall n <- t.missing :: t.missing[n] < |t.elems| && t2.elems[t.missing[n]] == Some(exports[n]))
    && (forall i :: 0 <= i < |t.elems| && i !in t.missing.Values ==> t2.elems[i] == t.elems[i])
    && t2.got.Keys == t.got.Keys + t.missing.Keys
    && (forall n <- t2.got :: t2.got[n] == if n in t.got then t.got[n] else t.missing[n])
  }

  /** Every placeholder has its own slot in the table. Placeholders of a link that failed may be
      filled, and their names in the GOT, with these slots or with others. */
  ghost predicate Ok(t: Table) {
    && (forall n <- t.missing :: t.missing[n] < |t.elems|)
    && (forall m, n :: m in t.missing && n in t.missing && t.missing[m] == t.missing[n] ==> m == n)
  }

  /** The GOT after resolving imports: old entries stay, each new one is a new slot with the
      function found for it. */
  ghost predicate GotResolved(t: Table, t': Table, found: map<Name, Func>) {
    && t.elems <= t'.elems
    && (forall n <- t.got :: n in t'.got && t'.got[n] == t.got[n])
    && (forall n <- t'.got :: n in t.got || (n in found && |t.elems| <= t'.got[n] < |t'.elems|
                                             && t'.elems[t'.got[n]] == Some(found[n])))
    && (forall m, n :: m in t'.got && n in t'.got && m !in t.got && n !in t.got && t'.got[m] == t'.got[n] ==> m == n)
  }

  /** The placeholders then: those there were, and a new one, empty, for every other name that
      is neither in the GOT nor found. */
  ghost predicate RestMissing(t: Table, t': Table, names: seq<Name>, found: map<Name, Func>) {
    && (forall n <- t.missing :: n in t'.missing && t'.missing[n] == t.missing[n])
    && (forall n <- t'.missing :: n in t.missing || IsNew(t, t', names, found, n))
    && (forall n <- names :: n in t'.got || n in t'.missing)
  }

  ghost predicate IsNew(t: Table, t': Table, names: seq<Name>, found: map<Name, Func>, n: Name)
    requires n in t'.missing
  {
    n in names && n !in found && |t.elems| <= t'.missing[n] < |t'.elems| && t'.elems[t'.missing[n]] == None
  }

  /** What resolving imports has done to a table. */
  ghost predicate Resolved(t: Table, t': Table, names: seq<Name>, found: map<Name, Func>) {
    Ok(t') && GotResolved(t, t', found) && RestMissing(t, t', names, found)
  }

  lemma ResolveInGot(t: Table, t': Table, names: seq<Name>, found: map<Name, Func>, n: Name)
    requires Resolved(t, t', names, found) && n in t'.got
    ensures Resolved(t, t', names + [n], found)
  {
    hide Ok; hide GotResolved;
  }

  lemma ResolveFound(t: Table, t': Table, names: seq<Name>, found: map<Name, Func>, n: Name)
    requires Resolved(t, t', names, found) && n !in t'.got && n in found
    ensures Resolved(t, AddFunction(t', found[n]).(got := t'.got[n := |t'.elems|]), names + [n], found)
  {
    GotGrows(t, t', found, n);
    OkFound(t', n, found[n]);
    hide Ok; hide GotResolved;
  }

  lemma GotGrows(t: Table, t': Table, found: map<Name, Func>, n: Name)
    requires GotResolved(t, t', found) && n !in t'.got
    ensures n in found ==> GotResolved(t, t'.(elems := t'.elems + [Some(found[n])], got := t'.got[n := |t'.elems|]),
                                       found)
    ensures GotResolved(t, t'.(elems := t'.elems + [None]), found)
  {
  }

  lemma OkFound(t: Table, n: Name, f: Func)
    requires Ok(t)
    ensures Ok(t.(elems := t.elems + [Some(f)], got := t.got[n := |t.elems|]))
  {
  }

  lemma ResolveMissing(t: Table, t': Table, names: seq<Name>, found: map<Name, Func>, n: Name)
    requires Resolved(t, t', names, found) && n !in t'.got && n !in found
    ensures Resolved(t, t'.(elems := t'.elems + [None], missing := Insert(t'.missing, n, |t'.elems|)), names + [n],
                     found)
  {
    GotGrows(t, t', found, n);
    OkMissing(t', n);
    assert t.elems <= t'.elems;
    MoreMissing(t, t', names, found, n);
    var t1 := t'.(elems := t'.elems + [None]);
    SameGot(t, t1, t1.(missing := Insert(t'.missing, n, |t'.elems|)), found);
    hide Ok; hide RestMissing; hide GotResolved; hide Insert;
  }

  lemma SameGot(t: Table, t1: Table, t2: Table, found: map<Name, Func>)
    requires GotResolved(t, t1, found) && t2.elems == t1.elems && t2.got == t1.got
    ensures GotResolved(t, t2, found)
  {
  }

  lemma MoreMissing(t: Table, t': Table, names: seq<Name>, found: map<Name, Func>, n: Name)
    requires RestMissing(t, t', names, found) && n !in found && t.elems <= t'.elems
    ensures RestMissing(t, t'.(elems := t'.elems + [None], missing := Insert(t'.missing, n, |t'.elems|)), names + [n],
                        found)
  {
  }

  lemma OkMissing(t: Table, n: Name)
    requires Ok(t)
    ensures Ok(t.(elems := t.elems + [None], missing := Insert(t.missing, n, |t.elems|)))
  {
  }

  lemma ResolveOne(t: Table, t': Table, names: seq<Name>, found: map<Name, Func>, n: Name)
    requires Resolved(t, t', names, found)
    ensures Resolved(t, Resolve(t', n, if n in found then Some(found[n]) else None), names + [n], found)
  {
    hide Resolved;
    if n in t'.got {
      ResolveInGot(t, t', names, found, n);
    } else if n in found {
      ResolveFound(t, t', names, found, n);
    } else {
      ResolveMissing(t, t', names, found, n);
    }
  }

  lemma {:induction false} ResolveAllIs(t: Table, names: seq<Name>, found: map<Name, Func>)
    requires Ok(t)
    ensures Resolved(t, ResolveAll(t, names, found), names, found)
  {
    if names != [] {
      hide Resolved; hide Ok;
      var k := |names| - 1;
      ResolveAllIs(t, names[..k], found);
      ResolveOne(t, ResolveAll(t, names[..k], found), names[..k], found, names[k]);
      assert names[..k] + [names[k]] == names;
    }
  }

  /** Later imports leave the slots, the GOT entries and the placeholders of earlier ones. */
  lemma {:induction false} LaterKeeps(t: Table, names: seq<Name>, found: map<Name, Func>, i: nat)
    requires i <= |names|
    ensures var a, b := ResolveAll(t, names[..i], found), ResolveAll(t, names, found);
            && a.elems <= b.elems
            && (forall n <- a.got :: n in b.got && b.got[n] == a.got[n])
            && (forall n <- a.missing :: n in b.missing && b.missing[n] == a.missing[n])
    decreases |names|
  {
    if i == |names| {
      assert names[..i] == names;
    } else {
      var k := |names| - 1;
      LaterKeeps(t, names[..k], found, i);
      assert names[..k][..i] == names[..i];
    }
  }

  /** What import number i has got, and got from whom, once all imports are resolved. */
  lemma ImportResolved(t: Table, names: seq<Name>, found: map<Name, Func>, i: nat)
    requires Ok(t) && i < |names| && names[i] !in t.got
    ensures var t' := ResolveAll(t, names, found);
            var slot := SlotOf(t, names, found, i);
            && |t.elems| <= slot < |t'.elems|
            && (names[i] in found ==>
                  names[i] in t'.got && t'.got[names[i]] == slot && t'.elems[slot] == Some(found[names[i]]))
            && (names[i] !in found ==> slot == |ResolveAll(t, names[..i], found).elems| && t'.elems[slot] == None)
            && (names[i] !in found ==> names[i] in t'.missing && names[i] !in t'.got)
            && (names[i] !in found && names[i] !in names[..i] && names[i] !in t.missing ==>
                t'.missing[names[i]] == slot)
  {
    hide Ok; hide Resolved;
    var n := names[i];
    ResolveAllIs(t, names[..i], found);
    ResolveAllIs(t, names, found);
    OneResolved(t, ResolveAll(t, names[..i], found), names[..i], found, n);
    NextResolved(t, names, found, i);
    LaterKeeps(t, names, found, i + 1);
    hide ResolveAll; hide Resolve;
    if n !in found {
      NotInGot(t, ResolveAll(t, names, found), names, found, n);
    }
  }

  lemma NextResolved(t: Table, names: seq<Name>, found: map<Name, Func>, i: nat)
    requires i < |names|
    ensures var n := names[i];
            ResolveAll(t, names[..i + 1], found) == Resolve(ResolveAll(t, names[..i], found), n, if n in found then
                                                            Some(found[n]) else None)
  {
    assert names[..i + 1][..i] == names[..i] && names[..i + 1][i] == names[i];
    hide Resolve;
  }

  lemma NotInGot(t: Table, t': Table, names: seq<Name>, found: map<Name, Func>, n: Name)
    requires Resolved(t, t', names, found) && n !in t.got && n !in found
    ensures n !in t'.got
  {
  }

  lemma OneResolved(t: Table, a: Table, names: seq<Name>, found: map<Name, Func>, n: Name)
    requires Resolved(t, a, names, found) && n !in t.got
    ensures var b := Resolve(a, n, if n in found then Some(found[n]) else None);
            && |t.elems| <= Slot(a, n) < |b.elems|
            && (n in found ==> n in b.got && b.got[n] == Slot(a, n) && b.elems[Slot(a, n)] == Some(found[n]))
            && (n !in found ==> Slot(a, n) == |a.elems| && b.elems[Slot(a, n)] == None && n in b.missing)
            && (n !in found && n !in names && n !in t.missing ==> b.missing[n] == Slot(a, n))
  {
    hide Ok;
  }

  /** No index is handed out twice: two imports that are not in the GOT already share a slot
      only if they are imports of the same function of a loaded module. */
  lemma SlotsShared(t: Table, names: seq<Name>, found: map<Name, Func>, i: nat, j: nat)
    requires Ok(t) && i < j < |names| && names[i] !in t.got && names[j] !in t.got
    ensures SlotOf(t, names, found, i) == SlotOf(t, names, found, j) <==> names[i] == names[j] && names[i] in found
  {
    ImportResolved(t, names[..j], found, i);
    assert names[..j][..i] == names[..i];
    ResolveAllIs(t, names[..j], found);
    var t' := ResolveAll(t, names[..j], found);
    SharedSlot(t, t', names[..j], found, names[i], names[j], SlotOf(t, names, found, i));
  }

  lemma SharedSlot(t: Table, t': Table, names: seq<Name>, found: map<Name, Func>, m: Name, n: Name, slot: nat)
    requires Resolved(t, t', names, found) && m !in t.got && n !in t.got && slot < |t'.elems|
    requires if m in found then m in t'.got && t'.got[m] == slot else t'.elems[slot] == None
    ensures slot == Slot(t', n) <==> m == n && m in found
  {
    hide Ok;
  }

  /** No name that needs a placeholder is imported twice. */
  ghost predicate ImportedOnce(t: Table, names: seq<Name>, found: map<Name, Func>) {
    forall i, j :: 0 <= i < j < |names| && names[i] == names[j] ==> names[i] in t.got || names[i] in found
  }

  /** No name that needs a placeholder has one from an earlier link that failed. */
  ghost predicate NoneLeftOver(t: Table, names: seq<Name>, found: map<Name, Func>) {
    forall n <- names :: n in t.missing ==> n in t.got || n in found
  }

  /** The slot import i was given is the imported name's GOT entry and, if the name was not in
      the GOT before, holds the function it stands for. */
  ghost predicate Linked(t: Table, t2: Table, names: seq<Name>, found: map<Name, Func>, exports: map<Name, Func>,
                         i: nat)
    requires i < |names|
  {
    var slot := SlotOf(t, names, found, i);
    names[i] in t2.got && t2.got[names[i]] == slot
    && (names[i] !in t.got ==> slot < |t2.elems| && t2.elems[slot] == Target(found, exports, names[i]))
  }

  /** After a successful link no placeholder is left and every imported name is in the GOT. The
      slots handed to the module are all filled and the GOT's exactly if no name that needs a
      placeholder is imported twice, and no such name is still missing from an earlier link. */
  lemma LinkedIffImportedOnce(t: Table, t2: Table, names: seq<Name>, found: map<Name, Func>, exports: map<Name, Func>)
    requires Ok(t) && Filled(ResolveAll(t, names, found), t2, exports)
    ensures t2.missing == map[] && forall n <- names :: n in t2.got
    ensures (forall i :: 0 <= i < |names| ==> Linked(t, t2, names, found, exports, i)) <==>
            ImportedOnce(t, names, found) && NoneLeftOver(t, names, found)
  {
    ResolveAllIs(t, names, found);
    if ImportedOnce(t, names, found) && NoneLeftOver(t, names, found) {
      forall i | 0 <= i < |names|
        ensures Linked(t, t2, names, found, exports, i)
      {
        LinkedOnce(t, t2, names, found, exports, i);
      }
    } else if !ImportedOnce(t, names, found) {
      var i, j :| 0 <= i < j < |names| && names[i] == names[j] && names[i] !in t.got && names[i] !in found;
      SlotsShared(t, names, found, i, j);
      hide ResolveAll; hide Filled; hide Resolved;
      assert !Linked(t, t2, names, found, exports, i) || !Linked(t, t2, names, found, exports, j);
    } else {
      var i :| 0 <= i < |names| && names[i] in t.missing && names[i] !in t.got && names[i] !in found;
      LeftOver(t, t2, names, found, exports, i);
    }
  }

  /** A name left over from a failed link is filled in its old slot, not in the new one. */
  lemma LeftOver(t: Table, t2: Table, names: seq<Name>, found: map<Name, Func>, exports: map<Name, Func>, i: nat)
    requires Ok(t) && Filled(ResolveAll(t, names, found), t2, exports) && i < |names|
    requires names[i] in t.missing && names[i] !in t.got && names[i] !in found
    ensures !Linked(t, t2, names, found, exports, i)
  {
    ResolveAllIs(t, names, found);
    ImportResolved(t, names, found, i);
    hide ResolveAll; hide SlotOf;
  }

  lemma LinkedOnce(t: Table, t2: Table, names: seq<Name>, found: map<Name, Func>, exports: map<Name, Func>, i: nat)
    requires Ok(t) && Filled(ResolveAll(t, names, found), t2, exports) && i < |names|
    requires ImportedOnce(t, names, found) && NoneLeftOver(t, names, found)
    ensures Linked(t, t2, names, found, exports, i)
  {
    var n := names[i];
    ResolveAllIs(t, names, found);
    if n in t.got {
      ResolveAllIs(t, names[..i], found);
      hide ResolveAll;
    } else {
      ImportResolved(t, names, found, i);
      assert n !in found ==> n !in names[..i] && n !in t.missing;
      hide ResolveAll; hide SlotOf;
      if n in found {
        FilledElsewhere(t, ResolveAll(t, names, found), t2, names, found, exports, SlotOf(t, names, found, i));
      }
    }
  }

  lemma FilledElsewhere(t: Table, t': Table, t2: Table, names: seq<Name>, found: map<Name, Func>,
                        exports: map<Name, Func>, i: nat)
    requires Ok(t) && Resolved(t, t', names, found) && Filled(t', t2, exports) && |t.elems| <= i < |t'.elems|
             && t'.elems[i].Some?
    ensures t2.elems[i] == t'.elems[i]
  {
    forall n <- t'.missing
      ensures t'.missing[n] != i
    {
      assert n in t.missing || IsNew(t, t', names, found, n);
    }
  }

  /** A link that failed for want of f leaves f's placeholder, and the next link that has f puts
      it there, though the import was given another slot. */
  lemma LeftOverExample()
    ensures var t, names, exports := Table([None], map[], map["f" := 0]), ["f"], map["f" := 7];
            var t2 := Table([Some(7), None], map["f" := 0], map[]);
            && DoAll(Table([], map[], map[]), [ResolveOp("f", None), FillOp(["f"], map[])]) == t
            && Ok(t) && ImportedOnce(t, names, map[]) && Filled(ResolveAll(t, names, map[]), t2, exports)
            && SlotOf(t, names, map[], 0) == 1 && t2.elems[1] == None && !Linked(t, t2, names, map[], exports, 0)
  {
    var t, names, exports := Table([None], map[], map["f" := 0]), ["f"], map["f" := 7];
    var t2 := Table([Some(7), None], map["f" := 0], map[]);
    var ops := [ResolveOp("f", None), FillOp(["f"], map[])];
    assert ops[..1] == [ResolveOp("f", None)] && ops[..1][..0] == [];
    assert names[..0] == [];
    var t' := ResolveAll(t, names, map[]);
    assert t' == Table([None, None], map[], map["f" := 0]);
    forall i | 0 <= i < 2 && i !in t'.missing.Values
      ensures t2.elems[i] == t'.elems[i]
    {
      assert "f" in t'.missing && t'.missing["f"] in t'.missing.Values;
    }
  }

  lemma {:induction false} AddElementsKeeps(got: map<Name, nat>, elems: seq<Elem>)
    ensures forall n <- got :: n in AddElements(got, elems) && AddElements(got, elems)[n] == got[n]
    ensures forall n <- AddElements(got, elems) :: n in got || exists i :: 0 <= i < |elems| && elems[i].name == Some(n)
  {
    if elems != [] {
      var k := |elems| - 1;
      AddElementsKeeps(got, elems[..k]);
      forall n | n in AddElements(got, elems) && n !in got
        ensures exists i :: 0 <= i < |elems| && elems[i].name == Some(n)
      {
        if elems[k].name != Some(n) {
          var i :| 0 <= i < k && elems[..k][i].name == Some(n);
          assert elems[i].name == Some(n);
        }
      }
    }
  }

  /** Element i is the first with its name, which is not in the GOT. */
  ghost predicate FirstNew(got: map<Name, nat>, elems: seq<Elem>, i: nat) {
    && i < |elems| && elems[i].name.Some? && elems[i].name.value !in got
    && forall j :: 0 <= j < i ==> elems[j].name != elems[i].name
  }

  /** A module's exported elements: a name already in the GOT keeps its entry, a new one gets the
      slot of its first occurrence. */
  lemma {:induction false} AddElementsFirst(got: map<Name, nat>, elems: seq<Elem>, i: nat)
    requires FirstNew(got, elems, i)
    ensures elems[i].name.value in AddElements(got, elems)
            && AddElements(got, elems)[elems[i].name.value] == elems[i].slot
    decreases |elems|
  {
    var k := |elems| - 1;
    AddElementsKeeps(got, elems[..k]);
    if i < k {
      assert elems[..k][i] == elems[i] && FirstNew(got, elems[..k], i);
      AddElementsFirst(got, elems[..k], i);
    }
  }

  /** The first element of a name. */
  lemma {:induction false} FirstOf(got: map<Name, nat>, elems: seq<Elem>, n: Name, i: nat) returns (k: nat)
    requires n !in got && i < |elems| && elems[i].name == Some(n)
    ensures FirstNew(got, elems, k) && elems[k].name == Some(n)
    decreases i
  {
    if j :| 0 <= j < i && elems[j].name == Some(n) {
      k := FirstOf(got, elems, n, j);
    } else {
      k := i;
    }
  }

  /** The names new in the GOT have different slots. */
  ghost predicate NewApart(got: map<Name, nat>, got': map<Name, nat>) {
    forall m, n :: m in got' && n in got' && m !in got && n !in got && got'[m] == got'[n] ==> m == n
  }

  ghost predicate FirstsApart(got: map<Name, nat>, elems: seq<Elem>) {
    forall i: nat, j: nat :: FirstNew(got, elems, i) && FirstNew(got, elems, j) && elems[i].slot == elems[j].slot ==>
      i == j
  }

  /** The new names in the GOT are those of first elements, and have their slots. */
  ghost predicate FromFirsts(got: map<Name, nat>, got': map<Name, nat>, elems: seq<Elem>) {
    && (forall i: nat :: FirstNew(got, elems, i) ==>
        elems[i].name.value in got' && got'[elems[i].name.value] == elems[i].slot)
    && (forall n <- got' :: n !in got ==> exists i: nat :: FirstNew(got, elems, i) && elems[i].name == Some(n))
  }

  lemma AddsFirsts(got: map<Name, nat>, elems: seq<Elem>)
    ensures FromFirsts(got, AddElements(got, elems), elems)
  {
    var got' := AddElements(got, elems);
    AddElementsKeeps(got, elems);
    hide AddElements;
    forall i: nat | FirstNew(got, elems, i)
      ensures elems[i].name.value in got' && got'[elems[i].name.value] == elems[i].slot
    {
      AddElementsFirst(got, elems, i);
    }
    forall n | n in got' && n !in got
      ensures exists i: nat :: FirstNew(got, elems, i) && elems[i].name == Some(n)
    {
      var i :| 0 <= i < |elems| && elems[i].name == Some(n);
      var k := FirstOf(got, elems, n, i);
    }
  }

  lemma ApartIf(got: map<Name, nat>, got': map<Name, nat>, elems: seq<Elem>)
    requires FromFirsts(got, got', elems) && FirstsApart(got, elems)
    ensures NewApart(got, got')
  {
    hide FirstNew; hide FirstsApart; hide FromFirsts;
    forall m, n | m in got' && n in got' && m !in got && n !in got && got'[m] == got'[n]
      ensures m == n
    {
      var i := FirstFor(got, got', elems, m);
      var j := FirstFor(got, got', elems, n);
      assert i == j by { SameFirst(got, elems, i, j); }
    }
  }

  lemma SameFirst(got: map<Name, nat>, elems: seq<Elem>, i: nat, j: nat)
    requires FirstsApart(got, elems) && FirstNew(got, elems, i) && FirstNew(got, elems, j)
             && elems[i].slot == elems[j].slot
    ensures i == j
  {
  }

  lemma FirstFor(got: map<Name, nat>, got': map<Name, nat>, elems: seq<Elem>, n: Name) returns (i: nat)
    requires FromFirsts(got, got', elems) && n in got' && n !in got
    ensures FirstNew(got, elems, i) && elems[i].name == Some(n) && got'[n] == elems[i].slot
  {
    i :| FirstNew(got, elems, i) && elems[i].name == Some(n);
  }

  lemma NotApart(got: map<Name, nat>, got': map<Name, nat>, elems: seq<Elem>)
    requires FromFirsts(got, got', elems) && !FirstsApart(got, elems)
    ensures !NewApart(got, got')
  {
    var i: nat, j: nat :| FirstNew(got, elems, i) && FirstNew(got, elems, j) && elems[i].slot == elems[j].slot
      && i != j;
    var m, n := elems[i].name.value, elems[j].name.value;
    assert m != n;
    assert got'[m] == got'[n];
  }

  /** New names get different slots exactly if the first elements of the new names have. */
  lemma NewApartIff(got: map<Name, nat>, elems: seq<Elem>)
    ensures NewApart(got, AddElements(got, elems)) <==> FirstsApart(got, elems)
  {
    AddsFirsts(got, elems);
    hide FirstNew; hide FirstsApart; hide FromFirsts; hide AddElements; hide NewApart;
    if FirstsApart(got, elems) {
      ApartIf(got, AddElements(got, elems), elems);
    } else {
      NotApart(got, AddElements(got, elems), elems);
    }
  }

  /** The number of element i of segment s among all elements of a module. */
  function Flat(segments: seq<Segment>, s: nat, i: nat): nat
    requires s <= |segments|
  {
    |ModuleElems(false, 0, segments[..s])| + i
  }

  lemma {:induction false} ElemAt(isMain: bool, segments: seq<Segment>, base: nat, s: nat, i: nat)
    requires s < |segments| && i < |segments[s].names|
    ensures var elems := ModuleElems(isMain, base, segments);
            var k := |ModuleElems(isMain, base, segments[..s])| + i;
            k < |elems|
            && elems[k] == Elem(segments[s].names[i], if isMain then segments[s].offset + i else base + i)
    decreases |segments|
  {
    var n := |segments| - 1;
    if s < n {
      ElemAt(isMain, segments[..n], base, s, i);
      assert segments[..n][..s] == segments[..s];
    }
  }

  lemma {:induction false} SameLength(isMain: bool, segments: seq<Segment>, base: nat)
    ensures |ModuleElems(isMain, base, segments)| == |ModuleElems(false, 0, segments)|
  {
    if segments != [] {
      SameLength(isMain, segments[..|segments| - 1], base);
    }
  }

  lemma {:induction false} FlatOrder(segments: seq<Segment>, r: nat, s: nat)
    requires r < s <= |segments|
    ensures Flat(segments, r, |segments[r].names|) <= Flat(segments, s, 0)
    decreases s
  {
    assert segments[..s][..s - 1] == segments[..s - 1];
    if r < s - 1 {
      FlatOrder(segments, r, s - 1);
    }
  }

  lemma {:induction false} Locate(segments: seq<Segment>, k: nat) returns (s: nat, i: nat)
    requires k < |ModuleElems(false, 0, segments)|
    ensures s < |segments| && i < |segments[s].names| && k == Flat(segments, s, i)
    decreases |segments|
  {
    var n := |segments| - 1;
    var before := |ModuleElems(false, 0, segments[..n])|;
    if k < before {
      s, i := Locate(segments[..n], k);
      assert segments[..n][..s] == segments[..s];
    } else {
      s, i := n, k - before;
    }
  }

  /** Element i of segment s is exported under a name that is not in the GOT, and is the first. */
  ghost predicate NewAt(got: map<Name, nat>, segments: seq<Segment>, s: nat, i: nat) {
    && s < |segments| && i < |segments[s].names|
    && segments[s].names[i].Some? && segments[s].names[i].value !in got
    && segments[s].names[i] !in segments[s].names[..i]
    && forall r :: 0 <= r < s ==> segments[s].names[i] !in segments[r].names
  }

  lemma FirstIsNewAt(isMain: bool, got: map<Name, nat>, segments: seq<Segment>, base: nat, s: nat, i: nat)
    requires s < |segments| && i < |segments[s].names|
    ensures FirstNew(got, ModuleElems(isMain, base, segments), Flat(segments, s, i)) <==> NewAt(got, segments, s, i)
  {
    var elems, k := ModuleElems(isMain, base, segments), Flat(segments, s, i);
    SameLength(isMain, segments[..s], base);
    SameLength(isMain, segments, base);
    ElemAt(isMain, segments, base, s, i);
    var name := segments[s].names[i];
    if NewAt(got, segments, s, i) {
      forall j | 0 <= j < k
        ensures elems[j].name != name
      {
        EarlierOther(isMain, got, segments, base, s, i, j);
      }
    } else if name.Some? && name.value !in got {
      var j := Earlier(isMain, segments, base, s, i);
    }
  }

  lemma EarlierOther(isMain: bool, got: map<Name, nat>, segments: seq<Segment>, base: nat, s: nat, i: nat, j: nat)
    requires NewAt(got, segments, s, i) && j < Flat(segments, s, i)
    ensures j < |ModuleElems(isMain, base, segments)|
            && ModuleElems(isMain, base, segments)[j].name != segments[s].names[i]
  {
    ElemAt(false, segments, 0, s, i);
    var r, h := Locate(segments, j);
    SameLength(isMain, segments[..r], base);
    ElemAt(isMain, segments, base, r, h);
    hide ModuleElems;
    if s < r {
      FlatOrder(segments, s, r);
    }
    if r == s {
      assert segments[s].names[..i][h] == segments[s].names[h];
    }
  }

  lemma Earlier(isMain: bool, segments: seq<Segment>, base: nat, s: nat, i: nat) returns (j: nat)
    requires s < |segments| && i < |segments[s].names|
    requires segments[s].names[i] in segments[s].names[..i] || exists r ::
             0 <= r < s && segments[s].names[i] in segments[r].names
    ensures j < Flat(segments, s, i) && j < |ModuleElems(isMain, base, segments)|
    ensures ModuleElems(isMain, base, segments)[j].name == segments[s].names[i]
  {
    var name := segments[s].names[i];
    var r, h: nat;
    if name in segments[s].names[..i] {
      r := s;
      h :| h < i && segments[s].names[..i][h] == name;
    } else {
      r :| 0 <= r < s && name in segments[r].names;
      h :| h < |segments[r].names| && segments[r].names[h] == name;
      FlatOrder(segments, r, s);
    }
    SameLength(isMain, segments[..r], base);
    ElemAt(isMain, segments, base, r, h);
    j := Flat(segments, r, h);
  }

  /** No two segments have new exported elements at the same place. */
  ghost predicate SegmentsApart(got: map<Name, nat>, segments: seq<Segment>) {
    forall r: nat, s: nat, i: nat :: NewAt(got, segments, r, i) && NewAt(got, segments, s, i) ==> r == s
  }

  lemma ApartInSegments(got: map<Name, nat>, base: nat, segments: seq<Segment>)
    requires SegmentsApart(got, segments)
    ensures FirstsApart(got, ModuleElems(false, base, segments))
  {
    var elems := ModuleElems(false, base, segments);
    SameLength(false, segments, base);
    hide ModuleElems; hide NewAt; hide SegmentsApart; hide Flat;
    forall k: nat, l: nat | FirstNew(got, elems, k) && FirstNew(got, elems, l) && elems[k].slot == elems[l].slot
      ensures k == l
    {
      var r, i := NewPlace(got, base, segments, k);
      var s, j := NewPlace(got, base, segments, l);
      assert r == s by { OneNew(got, segments, r, s, i); }
    }
  }

  lemma OneNew(got: map<Name, nat>, segments: seq<Segment>, r: nat, s: nat, i: nat)
    requires SegmentsApart(got, segments) && NewAt(got, segments, r, i) && NewAt(got, segments, s, i)
    ensures r == s
  {
  }

  lemma NewPlace(got: map<Name, nat>, base: nat, segments: seq<Segment>, k: nat) returns (s: nat, i: nat)
    requires FirstNew(got, ModuleElems(false, base, segments), k)
    ensures NewAt(got, segments, s, i) && k == Flat(segments, s, i)
    ensures ModuleElems(false, base, segments)[k].slot == base + i
  {
    SameLength(false, segments, base);
    s, i := Locate(segments, k);
    FirstIsNewAt(false, got, segments, base, s, i);
    SameLength(false, segments[..s], base);
    ElemAt(false, segments, base, s, i);
  }

  /** A dynamic module's new exported elements get different slots exactly if no two of its
      segments have one at the same place: every segment is taken to start at the same slot. */
  lemma SlotsOfSegments(got: map<Name, nat>, base: nat, segments: seq<Segment>)
    ensures NewApart(got, AddElements(got, ModuleElems(false, base, segments))) <==> SegmentsApart(got, segments)
  {
    var elems := ModuleElems(false, base, segments);
    NewApartIff(got, elems);
    hide NewApart; hide NewAt; hide FirstNew; hide AddElements; hide ModuleElems; hide Flat;
    if SegmentsApart(got, segments) {
      ApartInSegments(got, base, segments);
    } else {
      var r: nat, s: nat, i: nat :| NewAt(got, segments, r, i) && NewAt(got, segments, s, i) && r != s;
      if r < s {
        SameSlot(got, base, segments, r, s, i);
      } else {
        SameSlot(got, base, segments, s, r, i);
      }
    }
  }

  lemma NewIsFirst(got: map<Name, nat>, base: nat, segments: seq<Segment>, s: nat, i: nat)
    requires NewAt(got, segments, s, i)
    ensures FirstNew(got, ModuleElems(false, base, segments), Flat(segments, s, i))
    ensures ModuleElems(false, base, segments)[Flat(segments, s, i)].slot == base + i
  {
    FirstIsNewAt(false, got, segments, base, s, i);
    SameLength(false, segments[..s], base);
    ElemAt(false, segments, base, s, i);
  }

  lemma SameSlot(got: map<Name, nat>, base: nat, segments: seq<Segment>, r: nat, s: nat, i: nat)
    requires NewAt(got, segments, r, i) && NewAt(got, segments, s, i) && r < s
    ensures !FirstsApart(got, ModuleElems(false, base, segments))
  {
    NewIsFirst(got, base, segments, r, i);
    NewIsFirst(got, base, segments, s, i);
    FlatOrder(segments, r, s);
    assert Flat(segments, r, i) < Flat(segments, s, i);
    hide ModuleElems; hide FirstNew; hide NewAt; hide Flat;
  }

  /** Two segments with an exported element each: both are taken to be at the first slot. */
  lemma SegmentsExample()
    ensures var segments := [Segment(0, [Some("f")]), Segment(0, [Some("g")])];
            AddElements(map[], ModuleElems(false, 5, segments)) == map["f" := 5, "g" := 5]
  {
    var a, b := Segment(0, [Some("f")]), Segment(0, [Some("g")]);
    assert [a, b][..1] == [a] && [a][..0] == [];
    var elems := [Elem(Some("f"), 5), Elem(Some("g"), 5)];
    assert SegmentElems(5, a.names) == [elems[0]] && SegmentElems(5, b.names) == [elems[1]];
    assert ModuleElems(false, 5, [a]) == [elems[0]];
    assert ModuleElems(false, 5, [a, b]) == elems;
    assert elems[..1] == [elems[0]] && [elems[0]][..0] == [];
    assert AddElements(map[], [elems[0]]) == map["f" := 5];
  }

  /** The GOT with a module's exported elements entered: what was there stays, and a new name gets
      the slot of its first occurrence, counted from its segment's own offset in a main module, and
      from the module's first slot in a dynamic one. */
  ghost predicate HasElements(got: map<Name, nat>, got': map<Name, nat>, isMain: bool, base: nat,
                              segments: seq<Segment>) {
    && (forall n <- got :: n in got' && got'[n] == got[n])
    && (forall s: nat, i: nat :: NewAt(got, segments, s, i) ==>
          segments[s].names[i].value in got'
          && got'[segments[s].names[i].value] == if isMain then segments[s].offset + i else base + i)
    && (forall n <- got' :: n in got || exists s: nat, i: nat ::
        NewAt(got, segments, s, i) && segments[s].names[i] == Some(n))
  }

  lemma EntersAt(got: map<Name, nat>, isMain: bool, base: nat, segments: seq<Segment>, s: nat, i: nat)
    requires NewAt(got, segments, s, i)
    ensures var got', n := AddElements(got, ModuleElems(isMain, base, segments)), segments[s].names[i].value;
            n in got' && got'[n] == if isMain then segments[s].offset + i else base + i
  {
    FirstIsNewAt(isMain, got, segments, base, s, i);
    SameLength(isMain, segments[..s], base);
    ElemAt(isMain, segments, base, s, i);
    hide ModuleElems; hide FirstNew;
    AddElementsFirst(got, ModuleElems(isMain, base, segments), Flat(segments, s, i));
  }

  lemma EnteredFrom(got: map<Name, nat>, isMain: bool, base: nat, segments: seq<Segment>, n: Name)
    requires n in AddElements(got, ModuleElems(isMain, base, segments)) && n !in got
    ensures exists s: nat, i: nat :: NewAt(got, segments, s, i) && segments[s].names[i] == Some(n)
  {
    var elems := ModuleElems(isMain, base, segments);
    AddElementsKeeps(got, elems);
    hide AddElements; hide ModuleElems;
    var k0 :| 0 <= k0 < |elems| && elems[k0].name == Some(n);
    var k := FirstOf(got, elems, n, k0);
    var s, i := PlaceOf(isMain, got, base, segments, k);
  }

  lemma PlaceOf(isMain: bool, got: map<Name, nat>, base: nat, segments: seq<Segment>, k: nat) returns (s: nat, i: nat)
    requires FirstNew(got, ModuleElems(isMain, base, segments), k)
    ensures NewAt(got, segments, s, i) && segments[s].names[i] == ModuleElems(isMain, base, segments)[k].name
  {
    SameLength(isMain, segments, base);
    s, i := Locate(segments, k);
    FirstIsNewAt(isMain, got, segments, base, s, i);
    SameLength(isMain, segments[..s], base);
    ElemAt(isMain, segments, base, s, i);
    hide ModuleElems; hide NewAt;
  }

  lemma EntersElements(got: map<Name, nat>, isMain: bool, base: nat, segments: seq<Segment>)
    ensures HasElements(got, AddElements(got, ModuleElems(isMain, base, segments)), isMain, base, segments)
  {
    var got' := AddElements(got, ModuleElems(isMain, base, segments));
    AddElementsKeeps(got, ModuleElems(isMain, base, segments));
    hide AddElements; hide ModuleElems;
    forall s: nat, i: nat | NewAt(got, segments, s, i)
      ensures segments[s].names[i].value in got'
      ensures got'[segments[s].names[i].value] == if isMain then segments[s].offset + i else base + i
    {
      EntersAt(got, isMain, base, segments, s, i);
    }
    forall n | n in got' && n !in got
      ensures exists s: nat, i: nat :: NewAt(got, segments, s, i) && segments[s].names[i] == Some(n)
    {
      EnteredFrom(got, isMain, base, segments, n);
    }
  }

  /* The link's end. */

  /** The placeholder of n is filled with f, and n enters the GOT unless it is there. */
  function FillOne(t: Table, n: Name, f: Func): Table
    requires n in t.missing
  {
    t.(elems := if t.missing[n] < |t.elems| then t.elems[t.missing[n] := Some(f)]
       else t.elems, got := Insert(t.got, n, t.missing[n]))
  }

  /** Placeholders are filled in the given order up to the first whose name is not exported. */
  function FillSome(t: Table, order: seq<Name>, exports: map<Name, Func>): Table
    decreases |order|
  {
    if order == [] || order[0] !in exports || order[0] !in t.missing then t
    else FillSome(FillOne(t, order[0], exports[order[0]]), order[1..], exports)
  }

  /** The end of a link that walks through the placeholders in the given order: they are
      forgotten only when all names are exported. */
  function Fill(t: Table, order: seq<Name>, exports: map<Name, Func>): Table {
    var t' := FillSome(t, order, exports);
    if t.missing.Keys <= exports.Keys then t'.(missing := map[]) else t'
  }

  /** An order in which a map's keys are walked through. */
  ghost predicate Walks(order: seq<Name>, m: map<Name, nat>) {
    && (forall n :: n in order <==> n in m)
    && (forall i, j :: 0 <= i < j < |order| ==> order[i] != order[j])
  }

  /** The placeholders in done are filled, all other slots are as they were. */
  ghost predicate SlotsFilled(t: Table, elems: seq<Option<Func>>, exports: map<Name, Func>, done: set<Name>)
    requires done <= t.missing.Keys && done <= exports.Keys
  {
    && |elems| == |t.elems|
    && (forall n <- done :: t.missing[n] < |t.elems| && elems[t.missing[n]] == Some(exports[n]))
    && (forall i :: 0 <= i < |t.elems| && (forall n <- done :: t.missing[n] != i) ==> elems[i] == t.elems[i])
  }

  /** The names in done are in the GOT, all entries there were are as they were. */
  ghost predicate Entered(t: Table, got: map<Name, nat>, done: set<Name>)
    requires done <= t.missing.Keys
  {
    got.Keys == t.got.Keys + done && forall n <- got :: got[n] == if n in t.got then t.got[n] else t.missing[n]
  }

  /** The placeholders in done are filled and in the GOT, and none is forgotten. */
  ghost predicate Filling(t: Table, t': Table, exports: map<Name, Func>, done: set<Name>) {
    && done <= t.missing.Keys && done <= exports.Keys && t'.missing == t.missing
    && SlotsFilled(t, t'.elems, exports, done) && Entered(t, t'.got, done)
  }

  lemma FillsSlot(t: Table, elems: seq<Option<Func>>, exports: map<Name, Func>, done: set<Name>, n: Name)
    requires Ok(t) && done <= t.missing.Keys && done <= exports.Keys && SlotsFilled(t, elems, exports, done)
    requires n in t.missing && n !in done && n in exports
    ensures t.missing[n] < |elems| && SlotsFilled(t, elems[t.missing[n] := Some(exports[n])], exports, done + {n})
  {
    assert t.missing[n] < |t.elems| && forall m <- done :: t.missing[m] != t.missing[n];
    hide Ok;
  }

  lemma FillsOne(t: Table, t': Table, exports: map<Name, Func>, done: set<Name>, n: Name)
    requires Ok(t) && Filling(t, t', exports, done) && n in t.missing && n !in done && n in exports
    ensures Filling(t, FillOne(t', n, exports[n]), exports, done + {n})
  {
    FillsSlot(t, t'.elems, exports, done, n);
    hide Ok; hide SlotsFilled;
  }

  /** How far a walk in the given order gets. */
  function Exported(order: seq<Name>, exports: map<Name, Func>): (k: nat)
    ensures k <= |order| && (forall i :: 0 <= i < k ==> order[i] in exports) && (k < |order| ==> order[k] !in exports)
  {
    if order == [] || order[0] !in exports then 0 else 1 + Exported(order[1..], exports)
  }

  function Names(order: seq<Name>): set<Name> {
    set n | n in order
  }

  lemma {:induction false} FillsSome(t: Table, t': Table, order: seq<Name>, exports: map<Name, Func>, done: set<Name>)
    requires Ok(t) && Filling(t, t', exports, done)
    requires (forall n <- order :: n in t.missing && n !in done) && forall i, j :: 0 <= i < j < |order| ==>
             order[i] != order[j]
    ensures Filling(t, FillSome(t', order, exports), exports, done + Names(order[..Exported(order, exports)]))
    decreases |order|
  {
    hide Ok; hide Filling; hide FillOne;
    var k := Exported(order, exports);
    assert t'.missing == t.missing by { MissingStays(t, t', exports, done); }
    if k == 0 {
      assert done + Names(order[..0]) == done;
    } else {
      var n := order[0];
      FillsOne(t, t', exports, done, n);
      FillsSome(t, FillOne(t', n, exports[n]), order[1..], exports, done + {n});
      assert order[..k] == [n] + order[1..][..k - 1];
      assert done + Names(order[..k]) == done + {n} + Names(order[1..][..k - 1]);
    }
  }

  lemma MissingStays(t: Table, t': Table, exports: map<Name, Func>, done: set<Name>)
    requires Filling(t, t', exports, done)
    ensures t'.missing == t.missing
  {
  }

  /** A link ends well exactly if every placeholder's name is exported: then every placeholder is
      filled, in the GOT and forgotten. Else those in front of the first name that is not
      exported are filled and in the GOT, and none is forgotten. */
  lemma FillMeans(t: Table, order: seq<Name>, exports: map<Name, Func>)
    requires Ok(t) && Walks(order, t.missing)
    ensures t.missing.Keys <= exports.Keys <==> Exported(order, exports) == |order|
    ensures if t.missing.Keys <= exports.Keys then Filled(t, Fill(t, order, exports), exports)
            else Filling(t, Fill(t, order, exports), exports, Names(order[..Exported(order, exports)]))
  {
    hide Ok; hide Filled; hide Filling; hide FillSome;
    var k := Exported(order, exports);
    NoneYet(t, exports);
    FillsSome(t, t, order, exports, {});
    assert {} + Names(order[..k]) == Names(order[..k]);
    if k == |order| {
      assert order[..k] == order && Names(order) == t.missing.Keys;
      AllFilled(t, FillSome(t, order, exports), exports);
    } else {
      assert order[k] in t.missing;
    }
  }

  lemma NoneYet(t: Table, exports: map<Name, Func>)
    ensures Filling(t, t, exports, {})
  {
  }

  lemma AllFilled(t: Table, t': Table, exports: map<Name, Func>)
    requires Filling(t, t', exports, t.missing.Keys)
    ensures Filled(t, t'.(missing := map[]), exports)
  {
    forall i | 0 <= i < |t.elems| && i !in t.missing.Values
      ensures t'.elems[i] == t.elems[i]
    {
      assert forall n <- t.missing :: t.missing[n] in t.missing.Values;
    }
  }

  /* Everything that changes the table, in any order. */

  datatype Op =
    | ModuleOp(size: nat, segments: seq<Segment>)              // a dynamic module's own elements
    | AddOp(f: Func)                                           // a function looked up by name
    | ResolveOp(name: Name, found: Option<Func>)               // an import
    | FillOp(order: seq<Name>, exports: map<Name, Func>)       // the end of a link, good or bad

  function Do(t: Table, op: Op): Table {
    match op
    case ModuleOp(size, segments) => Reserve(t, size).(got := AddElements(t.got,
                                                                          ModuleElems(false, |t.elems|, segments)))
    case AddOp(f) => AddFunction(t, f)
    case ResolveOp(name, found) => Resolve(t, name, found)
    case FillOp(order, exports) => Fill(t, order, exports)
  }

  function DoAll(t: Table, ops: seq<Op>): Table {
    if ops == [] then t else Do(DoAll(t, ops[..|ops| - 1]), ops[|ops| - 1])
  }

  lemma {:induction false} FillSomeKeeps(t: Table, order: seq<Name>, exports: map<Name, Func>)
    ensures var t' := FillSome(t, order, exports);
            && |t'.elems| == |t.elems| && t'.missing == t.missing
            && forall n <- t.got :: n in t'.got && t'.got[n] == t.got[n]
    decreases |order|
  {
    if order != [] && order[0] in exports && order[0] in t.missing {
      FillSomeKeeps(FillOne(t, order[0], exports[order[0]]), order[1..], exports);
    }
  }

  /** In any sequence of loads, lookups, imports and ends of links, the placeholders there are
      have slots of their own. */
  lemma {:induction false} AlwaysOk(t: Table, ops: seq<Op>)
    requires Ok(t)
    ensures Ok(DoAll(t, ops))
  {
    if ops != [] {
      var k := |ops| - 1;
      AlwaysOk(t, ops[..k]);
      DoOk(DoAll(t, ops[..k]), ops[k]);
      hide Ok; hide Do;
    }
  }

  lemma DoOk(t: Table, op: Op)
    requires Ok(t)
    ensures Ok(Do(t, op))
  {
    if op.FillOp? {
      FillSomeKeeps(t, op.order, op.exports);
    } else if op.ResolveOp? && op.found == None {
      OkMissing(t, op.name);
    }
    hide FillSome; hide AddElements; hide ModuleElems; hide Insert;
  }

  /** The table's length before operation i. */
  function Length(t: Table, ops: seq<Op>, i: nat): nat
    requires i <= |ops|
  {
    |DoAll(t, ops[..i]).elems|
  }

  /** The slots operation i takes. */
  function SlotsTaken(t: Table, ops: seq<Op>, i: nat): (r: Range)
    requires i < |ops|
  {
    var before, after := Length(t, ops, i), Length(t, ops, i + 1);
    Range(before, if after >= before then after - before else 0)
  }

  /** Every entry stays. */
  ghost predicate Stays(got: map<Name, nat>, got': map<Name, nat>) {
    forall n <- got :: n in got' && got'[n] == got[n]
  }

  lemma StaysOn(a: map<Name, nat>, b: map<Name, nat>, c: map<Name, nat>)
    requires Stays(a, b) && Stays(b, c)
    ensures Stays(a, c)
  {
  }

  lemma DoKeeps(t: Table, op: Op)
    ensures |t.elems| <= |Do(t, op).elems| && Stays(t.got, Do(t, op).got)
  {
    hide FillSome;
    match op
    case ModuleOp(size, segments) => AddElementsKeeps(t.got, ModuleElems(false, |t.elems|, segments));
    case FillOp(order, exports) => FillSomeKeeps(t, order, exports);
    case _ =>
  }

  /** In any sequence of operations the table does not shrink, and an entry of the GOT, once
      there, stays as it is. */
  lemma {:induction false} EntriesStay(t: Table, ops: seq<Op>, i: nat)
    requires i <= |ops|
    ensures |DoAll(t, ops[..i]).elems| <= |DoAll(t, ops).elems| && Stays(DoAll(t, ops[..i]).got, DoAll(t, ops).got)
    decreases |ops|
  {
    if i == |ops| {
      assert ops[..i] == ops;
    } else {
      var k := |ops| - 1;
      EntriesStay(t, ops[..k], i);
      assert ops[..k][..i] == ops[..i];
      DoKeeps(DoAll(t, ops[..k]), ops[k]);
      hide Do; hide Stays;
      StaysOn(DoAll(t, ops[..i]).got, DoAll(t, ops[..k]).got, DoAll(t, ops).got);
    }
  }

  lemma LengthGrows(t: Table, ops: seq<Op>, i: nat, j: nat)
    requires i <= j <= |ops|
    ensures Length(t, ops, i) <= Length(t, ops, j)
  {
    EntriesStay(t, ops[..j], i);
    assert ops[..j][..i] == ops[..i];
  }

  lemma TakenIs(t: Table, ops: seq<Op>, i: nat)
    requires i < |ops|
    ensures Length(t, ops, i) <= Length(t, ops, i + 1)
    ensures SlotsTaken(t, ops, i) == Range(Length(t, ops, i), Length(t, ops, i + 1) - Length(t, ops, i))
  {
    LengthGrows(t, ops, i, i + 1);
    hide Length;
  }

  /** No slot is handed out twice, be it to a module's elements, a function looked up, an import
      or a placeholder, also when links fail. */
  lemma SlotsTakenOnce(t: Table, ops: seq<Op>, i: nat, j: nat)
    requires i < j < |ops|
    ensures SlotsTaken(t, ops, i).start + SlotsTaken(t, ops, i).size <= SlotsTaken(t, ops, j).start
    ensures SlotsTaken(t, ops, j).start + SlotsTaken(t, ops, j).size <= Length(t, ops, |ops|)
  {
    hide *;
    TakenIs(t, ops, i);
    LengthGrows(t, ops, i + 1, j);
    TakenIs(t, ops, j);
    LengthGrows(t, ops, j + 1, |ops|);
  }

  /** A placeholder name imported twice gets two slots; only the first can be its GOT entry. */
  lemma TwoPlaceholdersExample()
    ensures var t := Table([], map[], map[]);
            SlotOf(t, ["f", "f"], map[], 0) == 0 && SlotOf(t, ["f", "f"], map[], 1) == 1
  {
    assert ["f", "f"][..0] == [] && ["f", "f"][..1] == ["f"] && ["f"][..0] == [];
  }
}
