/** Bytes, machine words and their little-endian form. */
module Bytes {
  const TWO_32 := 0x1_0000_0000
  const TWO_64 := 0x1_0000_0000_0000_0000

  type Byte = x: nat | x < 256

  function Pow256(w: nat): nat {
    if w == 0 then 1 else 256 * Pow256(w - 1)
  }

  function LittleEndian(n: nat, w: nat): (r: seq<Byte>)
    ensures |r| == w
  {
    if w == 0 then [] else [n % 256] + LittleEndian(n / 256, w - 1)
  }

  function FromLittleEndian(b: seq<Byte>): nat {
    if b == [] then 0 else b[0] + 256 * FromLittleEndian(b[1..])
  }

  lemma {:induction false} LittleEndianRoundTrip(n: nat, w: nat)
    requires n < Pow256(w)
    ensures FromLittleEndian(LittleEndian(n, w)) == n
  {
    if w > 0 {
      LittleEndianRoundTrip(n / 256, w - 1);
      assert LittleEndian(n, w)[1..] == LittleEndian(n / 256, w - 1);
    }
  }

  lemma PowValues()
    ensures Pow256(4) == TWO_32 && Pow256(8) == TWO_64
  {
    assert Pow256(1) == 256 && Pow256(2) == 65536 && Pow256(3) == 16777216;
    assert Pow256(5) == 256 * TWO_32 && Pow256(6) == 65536 * TWO_32 && Pow256(7) == 16777216 * TWO_32;
  }

  /** After is before with the given bytes at an address. */
  ghost predicate Patched(before: seq<Byte>, after: seq<Byte>, at: nat, bytes: seq<Byte>) {
    && |after| == |before| && at + |bytes| <= |after| && after[at..at + |bytes|] == bytes
    && forall b :: 0 <= b < |after| && !(at <= b < at + |bytes|) ==> after[b] == before[b]
  }

  lemma PatchedAt(before: seq<Byte>, after: seq<Byte>, at: nat, bytes: seq<Byte>)
    requires Patched(before, after, at, bytes)
    ensures |after| == |before| && at + |bytes| <= |after| && after[at..at + |bytes|] == bytes
  {
  }

  /** Bytes elsewhere stay. */
  lemma PatchedElsewhere(before: seq<Byte>, after: seq<Byte>, at: nat, bytes: seq<Byte>, from: nat, to: nat)
    requires Patched(before, after, at, bytes) && from <= to <= |after| && (to <= at || at + |bytes| <= from)
    ensures after[from..to] == before[from..to]
  {
  }

  /** Copies bytes into memory at an address. */
  method Copy(bytes: seq<Byte>, memory: array<Byte>, at: nat)
    requires at + |bytes| <= memory.Length
    modifies memory
    ensures memory[at..at + |bytes|] == bytes
    ensures memory[..at] == old(memory[..at]) && memory[at + |bytes|..] == old(memory[at + |bytes|..])
    ensures Patched(old(memory[..]), memory[..], at, bytes)
  {
    var i := 0;
    while i < |bytes|
      invariant i <= |bytes|
      invariant memory[..at] == old(memory[..at]) && memory[at..at + i] == bytes[..i]
                && memory[at + i..] == old(memory[at + i..])
    {
      memory[at + i] := bytes[i];
      i := i + 1;
    }
  }
}
