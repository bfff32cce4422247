/**
 Directory entries as WASI snapshot_preview1 lays them out for fd_readdir: a 24-byte
 little-endian header (next cookie, inode, name length, type, three bytes of padding)
 followed by the name. `Page` says what one call leaves in the caller's buffer, `Decode` how
 the caller reads it.
 */
module DirentSpec {
  import opened Bytes

  const HEADER := 24

  datatype DirEnt = DirEnt(next: nat, ino: nat, kind: Byte, path: seq<Byte>)

  predicate EntOk(d: DirEnt) {
    d.next < TWO_64 && d.ino < TWO_64 && |d.path| < TWO_32
  }

  function Header(d: DirEnt): (r: seq<Byte>)
    ensures |r| == HEADER
  {
    LittleEndian(d.next, 8) + LittleEndian(d.ino, 8) + LittleEndian(|d.path|, 4) + [d.kind] + [0, 0, 0]
  }

  function Encode(d: DirEnt): (r: seq<Byte>)
    ensures |r| == HEADER + |d.path|
  {
    Header(d) + d.path
  }

  function NameLength(b: seq<Byte>): nat
    requires |b| >= HEADER
  {
    FromLittleEndian(b[16..20])
  }

  /** The complete entries at the front of a buffer. */
  function Decode(b: seq<Byte>): seq<DirEnt>
    decreases |b|
  {
    if |b| < HEADER || |b| < HEADER + NameLength(b) then []
    else
      var end := HEADER + NameLength(b);
      [DirEnt(FromLittleEndian(b[..8]), FromLittleEndian(b[8..16]), b[20], b[HEADER..end])] + Decode(b[end..])
  }

  predicate Fits(d: DirEnt, length: nat) {
    HEADER + |d.path| <= length
  }

  /** How many of the entries fit completely. */
  function Fitting(ents: seq<DirEnt>, length: nat): (k: nat)
    ensures k <= |ents|
  {
    if ents == [] || !Fits(ents[0], length) then 0 else 1 + Fitting(ents[1..], length - HEADER - |ents[0].path|)
  }

  function Image(ents: seq<DirEnt>): seq<Byte> {
    if ents == [] then [] else Encode(ents[0]) + Image(ents[1..])
  }

  /** As many entries fit as have room, one behind the other. */
  lemma {:induction false} FittingIsMost(ents: seq<DirEnt>, length: nat)
    ensures var k := Fitting(ents, length);
            |Image(ents[..k])| <= length && (k < |ents| ==> |Image(ents[..k + 1])| > length)
    decreases |ents|
  {
    var k := Fitting(ents, length);
    if k == 0 {
      assert ents[..0] == [];
      if ents != [] {
        ImageFront(ents, 1);
        assert ents[1..][..0] == [];
      }
    } else {
      FittingIsMost(ents[1..], length - HEADER - |ents[0].path|);
      ImageFront(ents, k);
      if k < |ents| {
        ImageFront(ents, k + 1);
      }
    }
  }

  /** The bytes of entries: 24 each, and the names. */
  lemma {:induction false} ImageSize(ents: seq<DirEnt>)
    ensures |Image(ents)| == Names(ents) + 24 * |ents|
  {
    if ents != [] {
      ImageSize(ents[1..]);
    }
  }

  function Names(ents: seq<DirEnt>): nat {
    if ents == [] then 0 else |ents[0].path| + Names(ents[1..])
  }

  /** The value a call returns: the buffer length if an entry is left over. */
  function Result(ents: seq<DirEnt>, length: nat): nat {
    if Fitting(ents, length) < |ents| then length else |Image(ents)|
  }

  /** How many bytes a call writes: the complete entries, and the next header if that fits. */
  function Used(ents: seq<DirEnt>, length: nat): nat {
    var k := Fitting(ents, length);
    var n := |Image(ents[..k])|;
    if k < |ents| && n + HEADER <= length then n + HEADER else n
  }

  /** A call has left the complete entries in the buffer, and behind them the header of the next
      one if there is room for that. */
  ghost predicate Page(ents: seq<DirEnt>, buffer: seq<Byte>) {
    var k := Fitting(ents, |buffer|);
    var n := |Image(ents[..k])|;
    && n <= |buffer| && buffer[..n] == Image(ents[..k])
    && (k < |ents| && HEADER <= |buffer| - n ==> buffer[n..n + HEADER] == Header(ents[k]))
  }

  /** Reading a header back. */
  lemma HeaderRoundTrip(d: DirEnt, b: seq<Byte>)
    requires EntOk(d) && |b| >= HEADER && b[..HEADER] == Header(d)
    ensures NameLength(b) == |d.path| && FromLittleEndian(b[..8]) == d.next && FromLittleEndian(b[8..16]) == d.ino
            && b[20] == d.kind
  {
    PowValues();
    LittleEndianRoundTrip(d.next, 8);
    LittleEndianRoundTrip(d.ino, 8);
    LittleEndianRoundTrip(|d.path|, 4);
    var h := Header(d);
    assert b[..8] == h[..8] == LittleEndian(d.next, 8);
    assert b[8..16] == h[8..16] == LittleEndian(d.ino, 8);
    assert b[16..20] == h[16..20] == LittleEndian(|d.path|, 4);
    assert b[20] == h[20];
  }

  lemma ImageFront(ents: seq<DirEnt>, k: nat)
    requires 0 < k <= |ents|
    ensures ents[..k][0] == ents[0] && ents[..k][1..] == ents[1..][..k - 1]
    ensures Image(ents[..k]) == Encode(ents[0]) + Image(ents[1..][..k - 1])
  {
    assert ents[..k][1..] == ents[1..][..k - 1];
  }

  /** What is behind the first entry of a page is the page of the other entries. */
  lemma PageRest(ents: seq<DirEnt>, buffer: seq<Byte>)
    requires ents != [] && Fits(ents[0], |buffer|) && Page(ents, buffer)
    ensures var end := HEADER + |ents[0].path|;
            buffer[..end] == Encode(ents[0]) && Page(ents[1..], buffer[end..])
  {
    var end := HEADER + |ents[0].path|;
    var k := Fitting(ents, |buffer|);
    ImageFront(ents, k);
    hide Image; hide Encode; hide Header;
    var first, rest := Encode(ents[0]), Image(ents[1..][..k - 1]);
    var n := |rest|;
    assert buffer[..end + n] == first + rest;
    assert buffer[..end] == buffer[..end + n][..end] == first;
    assert buffer[end..][..n] == buffer[..end + n][end..] == rest;
    assert k < |ents| ==> ents[1..][k - 1] == ents[k];
    assert k < |ents| && HEADER <= |buffer| - end - n ==>
           buffer[end..][n..n + HEADER] == buffer[end + n..end + n + HEADER];
  }

  lemma ResultRest(ents: seq<DirEnt>, length: nat)
    requires ents != [] && Fits(ents[0], length)
    ensures Result(ents, length) == HEADER + |ents[0].path| + Result(ents[1..], length - HEADER - |ents[0].path|)
  {
  }

  lemma {:induction false} ResultFits(ents: seq<DirEnt>, length: nat)
    ensures Result(ents, length) <= length
    ensures |Image(ents[..Fitting(ents, length)])| <= length
    ensures Result(ents, length) < length ==> Fitting(ents, length) == |ents|
    decreases |ents|
  {
    if ents != [] && Fits(ents[0], length) {
      ResultFits(ents[1..], length - HEADER - |ents[0].path|);
      ImageFront(ents, Fitting(ents, length));
    } else {
      assert ents[..0] == [];
    }
  }

  /** The caller decodes exactly the complete entries, whatever the rest of the buffer holds:
      neither a lone header nor a few bytes left over read as an entry. */
  lemma {:induction false} DecodePage(ents: seq<DirEnt>, buffer: seq<Byte>)
    requires Page(ents, buffer) && forall d <- ents :: EntOk(d)
    ensures Result(ents, |buffer|) <= |buffer|
    ensures Decode(buffer[..Result(ents, |buffer|)]) == ents[..Fitting(ents, |buffer|)]
    decreases |ents|
  {
    var length := |buffer|;
    ResultFits(ents, length);
    if ents == [] {
      assert buffer[..0] == [];
    } else if !Fits(ents[0], length) {
      assert buffer[..length] == buffer && ents[..0] == [] && Image([]) == [];
      if HEADER <= length {
        assert buffer[0..0 + HEADER] == buffer[..HEADER];
        HeaderRoundTrip(ents[0], buffer);
      }
    } else {
      DecodeFirst(ents, buffer);
    }
  }

  lemma DecodeStep(d: DirEnt, b: seq<Byte>)
    requires EntOk(d) && |b| >= HEADER + |d.path| && b[..HEADER + |d.path|] == Encode(d)
    ensures Decode(b) == [d] + Decode(b[HEADER + |d.path|..])
  {
    var end := HEADER + |d.path|;
    assert b[..HEADER] == Encode(d)[..HEADER] == Header(d);
    assert b[HEADER..end] == Encode(d)[HEADER..] == d.path;
    HeaderRoundTrip(d, b);
  }

  lemma {:induction false} DecodeFirst(ents: seq<DirEnt>, buffer: seq<Byte>)
    requires ents != [] && Fits(ents[0], |buffer|) && Page(ents, buffer) && forall d <- ents :: EntOk(d)
    ensures Result(ents, |buffer|) <= |buffer|
    ensures Decode(buffer[..Result(ents, |buffer|)]) == ents[..Fitting(ents, |buffer|)]
    decreases |ents|, 0
  {
    hide Header; hide Encode; hide Decode;
    var d, length := ents[0], |buffer|;
    var end := HEADER + |d.path|;
    PageRest(ents, buffer);
    hide Page;
    ResultRest(ents, length);
    DecodePage(ents[1..], buffer[end..]);
    var r := Result(ents, length);
    var b := buffer[..r];
    hide Result;
    assert b[..end] == buffer[..end] == Encode(d);
    DecodeStep(d, b);
    assert b[end..] == buffer[end..][..r - end];
    assert ents[..Fitting(ents, length)] == [d] + ents[1..][..Fitting(ents, length) - 1];
  }

  lemma {:induction false} StopsBefore(ents: seq<DirEnt>, length: nat, j: nat)
    requires j < |ents| && !Fits(ents[j], length)
    ensures Fitting(ents, length) <= j
    decreases |ents|
  {
    if j > 0 && Fits(ents[0], length) {
      assert ents[j] == ents[1..][j - 1];
      StopsBefore(ents[1..], length - HEADER - |ents[0].path|, j - 1);
    }
  }

  lemma {:induction false} ImageAppend(ents: seq<DirEnt>, d: DirEnt)
    ensures Image(ents + [d]) == Image(ents) + Encode(d)
  {
    if ents == [] {
      assert [d][1..] == [];
    } else {
      assert (ents + [d])[1..] == ents[1..] + [d];
      ImageAppend(ents[1..], d);
      hide Encode;
      assert (Encode(ents[0]) + Image(ents[1..])) + Encode(d) == Encode(ents[0]) + (Image(ents[1..]) + Encode(d));
    }
  }

  /** After i whole entries, with n bytes written and the rest of the buffer free. */
  ghost predicate Copied(ents: seq<DirEnt>, length: nat, i: nat, n: nat) {
    i <= |ents| && n <= length && n == |Image(ents[..i])| && Fitting(ents, length) == i + Fitting(ents[i..], length - n)
  }

  lemma CopiedNone(ents: seq<DirEnt>, length: nat)
    ensures Copied(ents, length, 0, 0)
  {
    assert ents[..0] == [] && ents[0..] == ents;
  }

  lemma CopiedOne(ents: seq<DirEnt>, length: nat, i: nat, n: nat)
    requires Copied(ents, length, i, n) && i < |ents|
    ensures Image(ents[..i + 1]) == Image(ents[..i]) + Encode(ents[i])
    ensures Fits(ents[i], length - n) ==> Copied(ents, length, i + 1, n + HEADER + |ents[i].path|)
    ensures !Fits(ents[i], length - n) ==> Fitting(ents, length) == i
  {
    assert ents[..i + 1] == ents[..i] + [ents[i]];
    ImageAppend(ents[..i], ents[i]);
    assert ents[i..][0] == ents[i] && ents[i..][1..] == ents[i + 1..];
  }

  lemma CopiedAll(ents: seq<DirEnt>, length: nat, n: nat)
    requires Copied(ents, length, |ents|, n)
    ensures Fitting(ents, length) == |ents| && Result(ents, length) == n
  {
    assert ents[..|ents|] == ents;
  }

  /** A page being filled: i whole entries in its first n bytes; if full, entry i does not fit
      behind them, but its header is there if that does. */
  ghost predicate Part(ents: seq<DirEnt>, page: seq<Byte>, i: nat, n: nat, full: bool) {
    && Copied(ents, |page|, i, n) && page[..n] == Image(ents[..i])
    && (full ==>
          i < |ents| && !Fits(ents[i], |page| - n) && (HEADER <= |page| - n ==> page[n..n + HEADER] == Header(ents[i])))
  }

  lemma PartEmpty(ents: seq<DirEnt>, page: seq<Byte>)
    ensures Part(ents, page, 0, 0, false)
  {
    CopiedNone(ents, |page|);
    assert ents[..0] == [];
  }

  lemma PartMore(ents: seq<DirEnt>, page: seq<Byte>, page': seq<Byte>, i: nat, n: nat)
    requires Part(ents, page, i, n, false) && i < |ents| && |page'| == |page| && page'[..n] == page[..n]
    requires Fits(ents[i], |page| - n) && page'[n..n + HEADER + |ents[i].path|] == Encode(ents[i])
    ensures Part(ents, page', i + 1, n + HEADER + |ents[i].path|, false)
  {
    CopiedOne(ents, |page|, i, n);
    hide Encode; hide Copied;
    var end := n + HEADER + |ents[i].path|;
    assert page'[..end] == page'[..n] + page'[n..end];
  }

  lemma PartFull(ents: seq<DirEnt>, page: seq<Byte>, page': seq<Byte>, i: nat, n: nat)
    requires Part(ents, page, i, n, false) && i < |ents| && |page'| == |page| && page'[..n] == page[..n]
    requires !Fits(ents[i], |page| - n)
    requires HEADER <= |page| - n ==> page'[n..n + HEADER] == Header(ents[i])
    ensures Part(ents, page', i, n, true)
  {
  }

  /** The page when the loop ends, by the end of the listing or by entry i. */
  lemma PageIs(ents: seq<DirEnt>, page: seq<Byte>, i: nat, n: nat, full: bool)
    requires Part(ents, page, i, n, full) && (full || i == |ents|)
    ensures Page(ents, page) && Fitting(ents, |page|) == i
    ensures Result(ents, |page|) == if full then |page| else n
    ensures Used(ents, |page|) == if full && n + HEADER <= |page| then n + HEADER else n
  {
    if full {
      CopiedOne(ents, |page|, i, n);
    } else {
      CopiedAll(ents, |page|, n);
    }
  }
}
