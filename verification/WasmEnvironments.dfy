/** The environment variables and arguments a module sees, and the sizes it is told before it
    asks for them. */
module WasmEnvironments {
  import opened Bytes
  import opened Sequences
  import opened StringArrays

  const EQUALS: Byte := 61

  /** A variable; the list of them is in the order in which the code's map iterates. */
  datatype Var = Var(key: Text, value: Text)

  function Joined(v: Var): Text {
    v.key + [EQUALS] + v.value
  }

  function AllJoined(vars: seq<Var>): (r: seq<Text>)
    ensures |r| == |vars|
  {
    seq(|vars|, i requires 0 <= i < |vars| => Joined(vars[i]))
  }

  /** The text is the key, an equals sign and the value. */
  ghost predicate Spells(s: Text, v: Var) {
    && |s| == |v.key| + 1 + |v.value|
    && s[..|v.key|] == v.key && s[|v.key|] == 61 && s[|v.key| + 1..] == v.value
  }

  /** Splitting at the first equals sign gives a key without one, and its value, back. */
  lemma SplitsBack(s: Text, v: Var)
    requires Spells(s, v) && 61 !in v.key
    ensures First(s, 61) < |s| && s[..First(s, 61)] == v.key && s[First(s, 61) + 1..] == v.value
  {
    assert forall k :: 0 <= k < |v.key| ==> s[k] == v.key[k];
    FirstIs(s, 61, |v.key|);
  }

  /** The room n variables take with their equals signs and terminators. */
  function Room(vars: seq<Var>): nat {
    if vars == [] then 0 else |vars[0].key| + |vars[0].value| + 2 + Room(vars[1..])
  }

  lemma {:induction false} RoomIs(vars: seq<Var>)
    ensures Size(AllJoined(vars)) == Room(vars)
  {
    if vars != [] {
      assert AllJoined(vars)[1..] == AllJoined(vars[1..]);
      RoomIs(vars[1..]);
    }
  }

  lemma {:induction false} SizeAppend(strings: seq<Text>, s: Text)
    ensures Size(strings + [s]) == Size(strings) + |s| + 1
  {
    if strings == [] {
      assert [s][1..] == [];
    } else {
      assert (strings + [s])[1..] == strings[1..] + [s];
      SizeAppend(strings[1..], s);
    }
  }

  class WasmEnvironment {
    var vars: seq<Var>

    ghost predicate Valid()
      reads this
    {
      forall i, j :: 0 <= i < j < |vars| ==> vars[i].key != vars[j].key
    }

    ghost predicate Has(key: Text)
      reads this
    {
      exists i :: 0 <= i < |vars| && vars[i].key == key
    }

    constructor (vars: seq<Var>)
      requires forall i, j :: 0 <= i < j < |vars| ==> vars[i].key != vars[j].key
      ensures Valid() && this.vars == vars
    {
      this.vars := vars;
    }

    /** The place of a key, or the number of variables. */
    method Find(key: Text) returns (i: nat)
      ensures i <= |vars| && (i < |vars| ==> vars[i].key == key)
      ensures i == |vars| <==> !Has(key)
    {
      i := 0;
      while i < |vars|
        invariant i <= |vars| && forall k :: 0 <= k < i ==> vars[k].key != key
      {
        if vars[i].key == key {
          return;
        }
        i := i + 1;
      }
    }

    method AddEnv(key: Text, value: Text)
      requires Valid()
      modifies this
      ensures Valid()
      ensures forall v :: v in vars <==> v == Var(key, value) || (v in old(vars) && v.key != key)
    {
      var i := Find(key);
      vars := if i < |vars| then vars[i := Var(key, value)] else vars + [Var(key, value)];
      assert vars[i] == Var(key, value);
      forall v | v in old(vars) && v.key != key
        ensures v in vars
      {
        var k :| 0 <= k < |old(vars)| && old(vars)[k] == v;
        assert vars[k] == v;
      }
    }

    /** Looking a key up adds it with an empty value if it is not there. */
    method GetEnv(key: Text) returns (value: Text)
      requires Valid()
      modifies this
      ensures Valid() && Var(key, value) in vars
      ensures if old(Has(key)) then vars == old(vars) else value == [] && vars == old(vars) + [Var(key, [])]
    {
      var i := Find(key);
      if i == |vars| {
        vars := vars + [Var(key, [])];
        assert vars[i] == Var(key, []);
      }
      value := vars[i].value;
    }

    method GetVars() returns (result: seq<Text>)
      ensures result == AllJoined(vars)
      ensures |result| == |vars| && forall i :: 0 <= i < |vars| ==> Spells(result[i], vars[i])
    {
      result := [];
      var i := 0;
      while i < |vars|
        invariant i <= |vars| && result == AllJoined(vars)[..i]
      {
        result := result + [Joined(vars[i])];
        i := i + 1;
      }
    }

    method GetEnvCount() returns (count: nat)
      ensures count == |vars|
    {
      count := |vars|;
    }

    /** The size announced is the number of bytes the strings of GetVars span, as a 32-bit number. */
    method GetEnvBufferSize() returns (size: nat)
      ensures size == Size(AllJoined(vars)) % 0x1_0000_0000 == Room(vars) % 0x1_0000_0000
    {
      RoomIs(vars);
      size := 0;
      var i := 0;
      assert AllJoined(vars)[..0] == [];
      while i < |vars|
        invariant i <= |vars| && size == Size(AllJoined(vars)[..i]) % TWO_32
      {
        assert AllJoined(vars)[..i + 1] == AllJoined(vars)[..i] + [Joined(vars[i])];
        SizeAppend(AllJoined(vars)[..i], Joined(vars[i]));
        size := (size + |vars[i].key| + |vars[i].value| + 2) % TWO_32;
        i := i + 1;
      }
      assert AllJoined(vars)[..|vars|] == AllJoined(vars);
    }
  }

  /** `function.wasm`. */
  const PROGRAM: Text := [102, 117, 110, 99, 116, 105, 111, 110, 46, 119, 97, 115, 109]

  /** The argument list and the sizes announced for it. */
  method PrepareArgcArgv() returns (argv: seq<Text>, argc: nat, argvBufferSize: nat)
    ensures argv == [PROGRAM] && argc == |argv| && argvBufferSize == Size(argv) == 14
  {
    argv := [PROGRAM];
    argc := |argv|;
    argvBufferSize := 0;
    var i := 0;
    assert argv[..0] == [];
    while i < |argv|
      invariant i <= |argv| && argvBufferSize == Size(argv[..i]) % TWO_32
    {
      assert argv[..i + 1] == argv[..i] + [argv[i]];
      SizeAppend(argv[..i], argv[i]);
      argvBufferSize := (argvBufferSize + |argv[i]| + 1) % TWO_32;
      i := i + 1;
    }
    assert argv[..|argv|] == argv;
    assert Size(argv) == 14;
  }
}
