/**
 Writing argument and environment strings to wasm memory for WASI snapshot_preview1's args_get
 and environ_get: the strings one behind another, with room for a terminator that is not
 written, and an array of 32-bit pointers to them.
 */
module StringArrays {
  import opened Bytes
  import opened Wrappers

  type Text = seq<Byte>

  /** The bytes spanned, one terminator for each string included. */
  function Size(strings: seq<Text>): nat {
    if strings == [] then 0 else |strings[0]| + 1 + Size(strings[1..])
  }

  /** All strings in a row. */
  function InARow(strings: seq<Text>): Text {
    if strings == [] then [] else strings[0] + InARow(strings[1..])
  }

  /** A string starts where those before it, each with one byte more, end. */
  lemma {:induction false} SizeIs(strings: seq<Text>)
    ensures Size(strings) == |InARow(strings)| + |strings|
  {
    if strings != [] {
      SizeIs(strings[1..]);
    }
  }

  /** Where string number i starts, counted from the start of the buffer. */
  function Offset(strings: seq<Text>, i: nat): nat
    requires i <= |strings|
  {
    Size(strings[..i])
  }

  /** The terminated string at an address; none if no zero byte follows. */
  function CString(memory: seq<Byte>, at: nat): Option<Text>
    decreases |memory| - at
  {
    if at >= |memory| then None
    else if memory[at] == 0 then Some([])
    else
      match CString(memory, at + 1)
      case None => None
      case Some(rest) => Some([memory[at]] + rest)
  }

  lemma {:induction false} CStringIs(memory: seq<Byte>, at: nat, s: Text)
    requires at + |s| < |memory| && memory[at..at + |s|] == s
    ensures CString(memory, at) == Some(s) <==> 0 !in s && memory[at + |s|] == 0
    decreases |s|
  {
    if s == [] {
      if memory[at] != 0 {
        assert CString(memory, at) != Some([]);
      }
    } else {
      assert memory[at] == memory[at..at + |s|][0] == s[0];
      assert memory[at + 1..at + 1 + |s[1..]|] == memory[at..at + |s|][1..] == s[1..];
      CStringIs(memory, at + 1, s[1..]);
      assert s == [s[0]] + s[1..];
      if s[0] != 0 && CString(memory, at) == Some(s) {
        assert CString(memory, at + 1) == Some(s[1..]);
      }
    }
  }

  /** Pointer number i of the array at an address. */
  function Pointer(memory: seq<Byte>, pointers: nat, i: nat): nat
    requires pointers + 4 * i + 4 <= |memory|
  {
    FromLittleEndian(memory[pointers + 4 * i..pointers + 4 * i + 4])
  }

  ghost predicate Disjoint(a: nat, m: nat, b: nat, n: nat) {
    a + m <= b || b + n <= a
  }

  lemma {:induction false} OffsetNext(strings: seq<Text>, i: nat)
    requires i < |strings|
    ensures Offset(strings, i + 1) == Offset(strings, i) + |strings[i]| + 1
    decreases |strings|
  {
    if i == 0 {
      assert strings[..1][1..] == [] && strings[..0] == [];
    } else {
      assert strings[..i + 1][1..] == strings[1..][..i] && strings[..i][1..] == strings[1..][..i - 1];
      OffsetNext(strings[1..], i - 1);
    }
  }

  lemma {:induction false} OffsetGrows(strings: seq<Text>, i: nat, j: nat)
    requires i <= j <= |strings|
    ensures Offset(strings, i) <= Offset(strings, j)
    ensures i < j ==> Offset(strings, i) + |strings[i]| + 1 <= Offset(strings, j)
    decreases j - i
  {
    if i < j {
      OffsetNext(strings, i);
      OffsetGrows(strings, i + 1, j);
    }
  }

  lemma OffsetEnd(strings: seq<Text>)
    ensures Offset(strings, |strings|) == Size(strings)
  {
    assert strings[..|strings|] == strings;
  }

  /** What the memory holds after the first i strings: each at its place and its pointer in the
      array; every other byte of the memory as before. */
  ghost predicate Written(memory: seq<Byte>, was: seq<Byte>, strings: seq<Text>, pointers: nat, buffer: nat, i: nat)
    requires i <= |strings|
  {
    && |memory| == |was| && pointers + 4 * |strings| <= |memory| && buffer + Size(strings) <= |memory|
    && (forall k :: 0 <= k < i ==>
          TextAt(memory, strings, buffer, k) && PointerAt(memory, strings, pointers, buffer, k))
    && (forall b :: 0 <= b < |memory| && !InText(strings, buffer, i, b) && !(pointers <= b < pointers + 4 * i) ==>
        memory[b] == was[b])
  }

  ghost predicate TextAt(memory: seq<Byte>, strings: seq<Text>, buffer: nat, k: nat)
    requires k < |strings|
  {
    var at := buffer + Offset(strings, k);
    at + |strings[k]| < |memory| && memory[at..at + |strings[k]|] == strings[k]
  }

  ghost predicate PointerAt(memory: seq<Byte>, strings: seq<Text>, pointers: nat, buffer: nat, k: nat)
    requires k < |strings|
  {
    pointers + 4 * k + 4 <= |memory| && memory[pointers + 4 * k..pointers + 4 * k + 4] ==
      LittleEndian(buffer + Offset(strings, k), 4)
  }

  /** Byte b belongs to the text of one of the first i strings; terminators do not. */
  ghost predicate InText(strings: seq<Text>, buffer: nat, i: nat, b: nat)
    requires i <= |strings|
  {
    exists k :: 0 <= k < i && buffer + Offset(strings, k) <= b < buffer + Offset(strings, k) + |strings[k]|
  }

  /** Reading a pointer back and following it gives the string exactly if the string has no zero
      byte and the byte behind it, which is never written, was zero. */
  lemma ReadBackIff(memory: seq<Byte>, was: seq<Byte>, strings: seq<Text>, pointers: nat, buffer: nat, i: nat)
    requires Written(memory, was, strings, pointers, buffer, |strings|) && i < |strings|
    requires Disjoint(pointers, 4 * |strings|, buffer, Size(strings)) && buffer + Size(strings) <= TWO_32
    ensures buffer + Offset(strings, i) + |strings[i]| < |was|
    ensures Pointer(memory, pointers, i) == buffer + Offset(strings, i)
    ensures CString(memory, Pointer(memory, pointers, i)) == Some(strings[i]) <==>
            0 !in strings[i] && was[buffer + Offset(strings, i) + |strings[i]|] == 0
  {
    hide Offset; hide Size;
    var at := buffer + Offset(strings, i);
    OffsetGrows(strings, i, |strings|);
    OffsetEnd(strings);
    TerminatorKept(strings, buffer, i);
    var b := at + |strings[i]|;
    assert buffer <= b < buffer + Size(strings) && at < TWO_32;
    assert !(pointers <= b < pointers + 4 * |strings|);
    hide Disjoint; hide FromLittleEndian; hide LittleEndian; hide CString; hide InText; hide Written;
    WrittenBounds(memory, was, strings, pointers, buffer, |strings|);
    WrittenAt(memory, was, strings, pointers, buffer, |strings|, i);
    WrittenElse(memory, was, strings, pointers, buffer, b);
    PointerReads(memory, pointers, i, at);
    CStringIs(memory, at, strings[i]);
  }

  lemma PointerReads(memory: seq<Byte>, pointers: nat, i: nat, at: nat)
    requires pointers + 4 * i + 4 <= |memory| && memory[pointers + 4 * i..pointers + 4 * i + 4] == LittleEndian(at, 4)
             && at < TWO_32
    ensures Pointer(memory, pointers, i) == at
  {
    PowValues();
    LittleEndianRoundTrip(at, 4);
  }

  lemma WrittenElse(m: seq<Byte>, was: seq<Byte>, strings: seq<Text>, pointers: nat, buffer: nat, b: nat)
    requires Written(m, was, strings, pointers, buffer, |strings|) && b < |m|
    requires !InText(strings, buffer, |strings|, b) && !(pointers <= b < pointers + 4 * |strings|)
    ensures m[b] == was[b]
  {
  }

  lemma TerminatorKept(strings: seq<Text>, buffer: nat, i: nat)
    requires i < |strings|
    ensures !InText(strings, buffer, |strings|, buffer + Offset(strings, i) + |strings[i]|)
  {
    forall k | 0 <= k < |strings|
      ensures !(buffer + Offset(strings, k) <= buffer + Offset(strings, i) + |strings[i]| < buffer + Offset(strings, k)
                + |strings[k]|)
    {
      if k < i {
        OffsetGrows(strings, k, i);
      } else if i < k {
        OffsetGrows(strings, i, k);
      }
    }
  }

  /** So a zeroed buffer gives every string without zero bytes back. */
  lemma ZeroedBufferReadsBack(memory: seq<Byte>, was: seq<Byte>, strings: seq<Text>, pointers: nat, buffer: nat)
    requires Written(memory, was, strings, pointers, buffer, |strings|)
    requires Disjoint(pointers, 4 * |strings|, buffer, Size(strings)) && buffer + Size(strings) <= TWO_32
    requires (forall s <- strings :: 0 !in s) && forall b :: buffer <= b < buffer + Size(strings) ==> was[b] == 0
    ensures forall i :: 0 <= i < |strings| ==> CString(memory, Pointer(memory, pointers, i)) == Some(strings[i])
  {
    forall i | 0 <= i < |strings|
      ensures CString(memory, Pointer(memory, pointers, i)) == Some(strings[i])
    {
      ReadBackIff(memory, was, strings, pointers, buffer, i);
      OffsetGrows(strings, i, |strings|);
      OffsetEnd(strings);
    }
  }

  /** One round: string i and its pointer are written. */
  lemma WriteNext(m: seq<Byte>, m1: seq<Byte>, m2: seq<Byte>, was: seq<Byte>, strings: seq<Text>, pointers: nat,
                  buffer: nat, i: nat)
    requires i < |strings| && Written(m, was, strings, pointers, buffer, i)
    requires Disjoint(pointers, 4 * |strings|, buffer, Size(strings))
    requires Patched(m, m1, buffer + Offset(strings, i), strings[i])
    requires Patched(m1, m2, pointers + 4 * i, LittleEndian(buffer + Offset(strings, i), 4))
    ensures Written(m2, was, strings, pointers, buffer, i + 1)
  {
    var at := buffer + Offset(strings, i);
    OffsetGrows(strings, i, |strings|);
    OffsetEnd(strings);
    hide Offset; hide Size; hide LittleEndian; hide Written; hide Patched;
    WrittenBounds(m, was, strings, pointers, buffer, i);
    PatchedAt(m, m1, at, strings[i]);
    PatchedAt(m1, m2, pointers + 4 * i, LittleEndian(at, 4));
    forall k | 0 <= k < i + 1
      ensures TextAt(m2, strings, buffer, k) && PointerAt(m2, strings, pointers, buffer, k)
    {
      if k < i {
        WrittenAt(m, was, strings, pointers, buffer, i, k);
        Kept(m, m1, m2, strings, pointers, buffer, i, k);
      } else {
        JustWritten(m, m1, m2, strings, pointers, buffer, i);
      }
    }
    forall b | 0 <= b < |m2| && !InText(strings, buffer, i + 1, b) && !(pointers <= b < pointers + 4 * (i + 1))
      ensures m2[b] == was[b]
    {
      Untouched(m, m1, m2, was, strings, pointers, buffer, i, b);
    }
    WrittenIf(m2, was, strings, pointers, buffer, i + 1);
  }

  lemma WrittenBounds(m: seq<Byte>, was: seq<Byte>, strings: seq<Text>, pointers: nat, buffer: nat, i: nat)
    requires i <= |strings| && Written(m, was, strings, pointers, buffer, i)
    ensures |m| == |was| && pointers + 4 * |strings| <= |m| && buffer + Size(strings) <= |m|
  {
  }

  lemma WrittenAt(m: seq<Byte>, was: seq<Byte>, strings: seq<Text>, pointers: nat, buffer: nat, i: nat, k: nat)
    requires k < i <= |strings| && Written(m, was, strings, pointers, buffer, i)
    ensures TextAt(m, strings, buffer, k) && PointerAt(m, strings, pointers, buffer, k)
  {
  }

  lemma WrittenIf(m: seq<Byte>, was: seq<Byte>, strings: seq<Text>, pointers: nat, buffer: nat, i: nat)
    requires i <= |strings| && |m| == |was| && pointers + 4 * |strings| <= |m| && buffer + Size(strings) <= |m|
    requires forall k :: 0 <= k < i ==> TextAt(m, strings, buffer, k) && PointerAt(m, strings, pointers, buffer, k)
    requires forall b :: 0 <= b < |m| && !InText(strings, buffer, i, b) && !(pointers <= b < pointers + 4 * i) ==>
             m[b] == was[b]
    ensures Written(m, was, strings, pointers, buffer, i)
  {
  }

  lemma Kept(m: seq<Byte>, m1: seq<Byte>, m2: seq<Byte>, strings: seq<Text>, pointers: nat, buffer: nat, i: nat, k: nat)
    requires k < i < |strings| && TextAt(m, strings, buffer, k) && PointerAt(m, strings, pointers, buffer, k)
    requires Disjoint(pointers, 4 * |strings|, buffer, Size(strings))
    requires Patched(m, m1, buffer + Offset(strings, i), strings[i])
    requires Patched(m1, m2, pointers + 4 * i, LittleEndian(buffer + Offset(strings, i), 4))
    ensures TextAt(m2, strings, buffer, k) && PointerAt(m2, strings, pointers, buffer, k)
  {
    hide Size; hide LittleEndian; hide Patched; hide Offset;
    var at, from := buffer + Offset(strings, i), buffer + Offset(strings, k);
    var to, p := from + |strings[k]|, pointers + 4 * i;
    OffsetGrows(strings, k, i);
    OffsetGrows(strings, i, |strings|);
    OffsetEnd(strings);
    assert to <= at && buffer <= from && at + |strings[i]| <= buffer + Size(strings);
    assert p + 4 <= pointers + 4 * |strings|;
    assert to <= p || p + 4 <= from;
    assert p <= at || at + |strings[i]| <= pointers;
    PatchedAt(m, m1, at, strings[i]);
    PatchedAt(m1, m2, p, LittleEndian(at, 4));
    hide Disjoint;
    KeptTwice(m, m1, m2, at, strings[i], p, LittleEndian(at, 4), from, to);
    PointerKept(m, m1, m2, at, strings[i], pointers, i, k, LittleEndian(at, 4));
  }

  lemma PointerKept(m: seq<Byte>, m1: seq<Byte>, m2: seq<Byte>, at: nat, s: Text, pointers: nat, i: nat, k: nat,
                    bytes: seq<Byte>)
    requires Patched(m, m1, at, s) && Patched(m1, m2, pointers + 4 * i, bytes) && k < i && pointers + 4 * i <= |m|
    requires pointers + 4 * i <= at || at + |s| <= pointers
    ensures |m2| == |m| && m2[pointers + 4 * k..pointers + 4 * k + 4] == m[pointers + 4 * k..pointers + 4 * k + 4]
  {
    hide Patched;
    KeptTwice(m, m1, m2, at, s, pointers + 4 * i, bytes, pointers + 4 * k, pointers + 4 * k + 4);
  }

  lemma KeptTwice(m: seq<Byte>, m1: seq<Byte>, m2: seq<Byte>, a: nat, x: seq<Byte>, b: nat, y: seq<Byte>, from: nat,
                  to: nat)
    requires Patched(m, m1, a, x) && Patched(m1, m2, b, y) && from <= to <= |m|
    requires (to <= a || a + |x| <= from) && (to <= b || b + |y| <= from)
    ensures |m2| == |m| && m2[from..to] == m[from..to]
  {
    PatchedElsewhere(m, m1, a, x, from, to);
    PatchedElsewhere(m1, m2, b, y, from, to);
  }

  lemma JustWritten(m: seq<Byte>, m1: seq<Byte>, m2: seq<Byte>, strings: seq<Text>, pointers: nat, buffer: nat, i: nat)
    requires i < |strings| && buffer + Size(strings) <= |m|
    requires Disjoint(pointers, 4 * |strings|, buffer, Size(strings))
    requires Patched(m, m1, buffer + Offset(strings, i), strings[i])
    requires Patched(m1, m2, pointers + 4 * i, LittleEndian(buffer + Offset(strings, i), 4))
    ensures TextAt(m2, strings, buffer, i) && PointerAt(m2, strings, pointers, buffer, i)
  {
    var at := buffer + Offset(strings, i);
    OffsetGrows(strings, i, |strings|);
    OffsetEnd(strings);
    hide Offset; hide Size; hide LittleEndian; hide Patched;
    PatchedAt(m, m1, at, strings[i]);
    PatchedAt(m1, m2, pointers + 4 * i, LittleEndian(at, 4));
    PatchedElsewhere(m1, m2, pointers + 4 * i, LittleEndian(at, 4), at, at + |strings[i]|);
  }

  lemma Untouched(m: seq<Byte>, m1: seq<Byte>, m2: seq<Byte>, was: seq<Byte>, strings: seq<Text>, pointers: nat,
                  buffer: nat, i: nat, b: nat)
    requires i < |strings| && Written(m, was, strings, pointers, buffer, i)
    requires Patched(m, m1, buffer + Offset(strings, i), strings[i])
    requires Patched(m1, m2, pointers + 4 * i, LittleEndian(buffer + Offset(strings, i), 4))
    requires b < |m2| && !InText(strings, buffer, i + 1, b) && !(pointers <= b < pointers + 4 * (i + 1))
    ensures m2[b] == was[b]
  {
    hide Offset; hide Size;
    assert !(buffer + Offset(strings, i) <= b < buffer + Offset(strings, i) + |strings[i]|);
    assert !InText(strings, buffer, i, b);
  }

  function Patch(m: seq<Byte>, at: nat, bytes: seq<Byte>): (r: seq<Byte>)
    requires at + |bytes| <= |m|
    ensures |r| == |m|
  {
    m[..at] + bytes + m[at + |bytes|..]
  }

  lemma PatchedIs(m: seq<Byte>, m': seq<Byte>, at: nat, bytes: seq<Byte>)
    requires Patched(m, m', at, bytes)
    ensures m' == Patch(m, at, bytes)
  {
    assert m'[at..at + |bytes|] == bytes;
  }

  /** Both arrays are within the memory. */
  predicate InBounds(length: nat, strings: seq<Text>, pointers: nat, buffer: nat) {
    pointers + 4 * |strings| <= length && buffer + Size(strings) <= length
  }

  /** The memory after the first i strings, each followed by its pointer, whether or not the
      arrays overlap. */
  function InTurn(was: seq<Byte>, strings: seq<Text>, pointers: nat, buffer: nat, i: nat): (r: seq<Byte>)
    requires i <= |strings| && InBounds(|was|, strings, pointers, buffer)
    ensures |r| == |was|
  {
    if i == 0 then was
    else
      var at := buffer + Offset(strings, i - 1);
      TextFits(strings, i - 1);
      var m := InTurn(was, strings, pointers, buffer, i - 1);
      Patch(Patch(m, at, strings[i - 1]), pointers + 4 * (i - 1), LittleEndian(at, 4))
  }

  lemma TextFits(strings: seq<Text>, i: nat)
    requires i < |strings|
    ensures Offset(strings, i) + |strings[i]| < Size(strings)
  {
    OffsetGrows(strings, i, |strings|);
    OffsetEnd(strings);
  }

  /** Writes the strings at buffer and the pointers to them at pointers. */
  method WriteStringArrayToMemory(memory: array<Byte>, strings: seq<Text>, pointers: nat, buffer: nat)
    requires memory.Length <= TWO_32 && InBounds(memory.Length, strings, pointers, buffer)
    modifies memory
    ensures memory[..] == InTurn(old(memory[..]), strings, pointers, buffer, |strings|)
    ensures Disjoint(pointers, 4 * |strings|, buffer, Size(strings)) ==>
              Written(memory[..], old(memory[..]), strings, pointers, buffer, |strings|)
  {
    ghost var was := memory[..];
    var nextBuffer, nextPointer := buffer, pointers;
    var i := 0;
    NothingWritten(was, strings, pointers, buffer);
    assert pointers + 4 * |strings| <= memory.Length && buffer + Size(strings) <= memory.Length;
    hide *;
    while i < |strings|
      invariant i <= |strings| && nextBuffer == buffer + Offset(strings, i) && nextPointer == pointers + 4 * i
      invariant memory[..] == InTurn(was, strings, pointers, buffer, i)
    {
      var s := strings[i];
      OffsetGrows(strings, i, |strings|);
      OffsetEnd(strings);
      ghost var m := memory[..];
      Copy(s, memory, nextBuffer);
      ghost var m1 := memory[..];
      Copy(LittleEndian(nextBuffer, 4), memory, nextPointer);
      NextInTurn(was, m, m1, memory[..], strings, pointers, buffer, i);
      OffsetNext(strings, i);
      nextBuffer := nextBuffer + |s| + 1;
      nextPointer := nextPointer + 4;
      i := i + 1;
    }
    if Disjoint(pointers, 4 * |strings|, buffer, Size(strings)) {
      WrittenInTurn(was, strings, pointers, buffer, |strings|);
    }
  }

  lemma InTurnNext(was: seq<Byte>, strings: seq<Text>, pointers: nat, buffer: nat, i: nat)
    requires i < |strings| && InBounds(|was|, strings, pointers, buffer)
    ensures Offset(strings, i) + |strings[i]| < Size(strings)
    ensures var at := buffer + Offset(strings, i);
            InTurn(was, strings, pointers, buffer, i + 1) ==
            Patch(Patch(InTurn(was, strings, pointers, buffer, i), at, strings[i]), pointers + 4 * i,
                  LittleEndian(at, 4))
  {
    TextFits(strings, i);
    hide Patch; hide LittleEndian; hide Offset; hide Size;
  }

  lemma PatchIs(m: seq<Byte>, at: nat, bytes: seq<Byte>)
    requires at + |bytes| <= |m|
    ensures Patched(m, Patch(m, at, bytes), at, bytes)
  {
  }

  lemma WrittenNext(was: seq<Byte>, m: seq<Byte>, strings: seq<Text>, pointers: nat, buffer: nat, i: nat)
    requires i < |strings| && InBounds(|was|, strings, pointers, buffer)
             && Disjoint(pointers, 4 * |strings|, buffer, Size(strings))
    requires Written(m, was, strings, pointers, buffer, i) && m == InTurn(was, strings, pointers, buffer, i)
    ensures Written(InTurn(was, strings, pointers, buffer, i + 1), was, strings, pointers, buffer, i + 1)
  {
    InTurnNext(was, strings, pointers, buffer, i);
    var at, p := buffer + Offset(strings, i), pointers + 4 * i;
    var bytes := LittleEndian(at, 4);
    hide Written; hide Patched; hide Patch; hide LittleEndian; hide Offset; hide Size; hide Disjoint; hide InTurn;
    var m1 := Patch(m, at, strings[i]);
    PatchIs(m, at, strings[i]);
    PatchIs(m1, p, bytes);
    WriteNext(m, m1, Patch(m1, p, bytes), was, strings, pointers, buffer, i);
  }

  /** Where the arrays do not overlap nothing is written over. */
  lemma {:induction false} WrittenInTurn(was: seq<Byte>, strings: seq<Text>, pointers: nat, buffer: nat, i: nat)
    requires i <= |strings| && InBounds(|was|, strings, pointers, buffer)
    requires Disjoint(pointers, 4 * |strings|, buffer, Size(strings))
    ensures Written(InTurn(was, strings, pointers, buffer, i), was, strings, pointers, buffer, i)
  {
    if i == 0 {
      NothingWritten(was, strings, pointers, buffer);
    } else {
      WrittenInTurn(was, strings, pointers, buffer, i - 1);
      hide Written; hide Size;
      WrittenNext(was, InTurn(was, strings, pointers, buffer, i - 1), strings, pointers, buffer, i - 1);
    }
  }

  lemma NextInTurn(was: seq<Byte>, m: seq<Byte>, m1: seq<Byte>, m2: seq<Byte>, strings: seq<Text>, pointers: nat,
                   buffer: nat, i: nat)
    requires i < |strings| && InBounds(|was|, strings, pointers, buffer)
    requires m == InTurn(was, strings, pointers, buffer, i) && Patched(m, m1, buffer + Offset(strings, i), strings[i])
    requires Patched(m1, m2, pointers + 4 * i, LittleEndian(buffer + Offset(strings, i), 4))
    ensures m2 == InTurn(was, strings, pointers, buffer, i + 1)
  {
    hide *;
    var at := buffer + Offset(strings, i);
    InTurnNext(was, strings, pointers, buffer, i);
    PatchedIs(m, m1, at, strings[i]);
    PatchedIs(m1, m2, pointers + 4 * i, LittleEndian(at, 4));
  }

  lemma NothingWritten(was: seq<Byte>, strings: seq<Text>, pointers: nat, buffer: nat)
    requires pointers + 4 * |strings| <= |was| && buffer + Size(strings) <= |was|
    ensures Written(was, was, strings, pointers, buffer, 0) && Offset(strings, 0) == 0
    ensures InTurn(was, strings, pointers, buffer, 0) == was
  {
    assert strings[..0] == [];
  }

  lemma OneOffset(s: Text)
    ensures Size([s]) == |s| + 1 && Offset([s], 0) == 0
  {
    assert [s][..0] == [];
  }

  lemma TwoInText(s: Text, buffer: nat)
    requires |s| == 2
    ensures InText([s], buffer, 1, buffer) && InText([s], buffer, 1, buffer + 1)
  {
    OneOffset(s);
    hide Offset;
    assert buffer + Offset([s], 0) <= buffer < buffer + 1 < buffer + Offset([s], 0) + |[s][0]|;
  }

  lemma FourBytes()
    ensures LittleEndian(4, 4) == [4, 0, 0, 0]
  {
    assert LittleEndian(0, 3) == [0, 0, 0];
  }

  /** Written over a buffer that was not zeroed, a string reads back with what is behind it. */
  lemma UnzeroedExample()
    ensures var was, memory := [0, 0, 0, 0, 88, 88, 67, 0], [4, 0, 0, 0, 65, 66, 67, 0];
            && Written(memory, was, [[65, 66]], 0, 4, 1) && Disjoint(0, 4, 4, Size([[65, 66]]))
            && CString(memory, Pointer(memory, 0, 0)) == Some([65, 66, 67])
  {
    var was, memory, strings := [0, 0, 0, 0, 88, 88, 67, 0], [4, 0, 0, 0, 65, 66, 67, 0], [[65, 66]];
    OneOffset([65, 66]);
    TwoInText([65, 66], 4);
    FourBytes();
    hide Offset; hide Size; hide InText; hide LittleEndian;
    assert memory[4..6] == strings[0] && memory[0..4] == LittleEndian(4, 4);
    assert memory[4..4 + 3] == [65, 66, 67];
    PointerReads(memory, 0, 0, 4);
    CStringIs(memory, 4, [65, 66, 67]);
    hide CString; hide Pointer;
    forall b | 0 <= b < |memory| && !InText(strings, 4, 1, b) && !(0 <= b < 4)
      ensures memory[b] == was[b]
    {
      assert b != 4 && b != 5;
    }
  }
}
