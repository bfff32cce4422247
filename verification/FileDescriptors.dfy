/** The directory iterator of a file descriptor, and the copying of entries into a buffer in
    wasm memory. */
module FileDescriptors {
  import opened Bytes
  import opened DirentSpec
  import opened Wrappers

  /** What readdir returns for an entry. */
  datatype Native = Native(ino: nat, kind: Byte, name: seq<Byte>)

  datatype Status = Copied | Invalid | Threw

  datatype Error = NotStarted | AlreadyAtZero | PastEnd | CannotOpen

  /** The entries of a listing, each with its position, counted from one, as its cookie. */
  function Numbered(listing: seq<Native>): (r: seq<DirEnt>)
    ensures |r| == |listing|
    ensures forall i :: 0 <= i < |r| ==> r[i] == DirEnt(i + 1, listing[i].ino, listing[i].kind, listing[i].name)
  {
    seq(|listing|, i requires 0 <= i < |listing| => DirEnt(i + 1, listing[i].ino, listing[i].kind, listing[i].name))
  }

  class FileDescriptor {
    const openable: bool            // whether the directory can be opened
    const listing: seq<Native>      // what reading it gives
    var dirContentsLoaded: bool
    var dirContents: seq<DirEnt>
    var dirContentsIdx: nat

    constructor (openable: bool, listing: seq<Native>)
      ensures Valid() && this.openable == openable && this.listing == listing && !dirContentsLoaded
    {
      this.openable, this.listing, dirContentsLoaded, dirContents, dirContentsIdx := openable, listing, false, [], 0;
    }

    ghost predicate Valid()
      reads this
    {
      && dirContents == (if dirContentsLoaded then Numbered(listing) else [])
      && dirContentsIdx <= |dirContents|
    }

    /** The entries still to come. */
    ghost function Rest(): seq<DirEnt>
      reads this
      requires Valid()
    {
      Numbered(listing)[dirContentsIdx..]
    }

    method LoadDirContents() returns (thrown: Option<Error>)
      requires Valid() && !dirContentsLoaded
      modifies this
      ensures Valid() && dirContentsLoaded == openable && dirContentsIdx == 0
      ensures thrown == if openable then None else Some(CannotOpen)
    {
      if !openable {
        return Some(CannotOpen);
      }
      var i := 0;
      while i < |listing|
        invariant i <= |listing| && dirContents == Numbered(listing)[..i] && dirContentsIdx == 0
      {
        var e := listing[i];
        i := i + 1;
        dirContents := dirContents + [DirEnt(i, e.ino, e.kind, e.name)];
      }
      dirContentsLoaded := true;
      thrown := None;
    }

    predicate IterFinished()
      reads this
    {
      dirContentsLoaded && dirContentsIdx >= |dirContents|
    }

    method IterNext() returns (entry: Option<DirEnt>, thrown: Option<Error>)
      requires Valid()
      modifies this
      ensures Valid() && dirContentsLoaded == (old(dirContentsLoaded) || openable)
      ensures if !dirContentsLoaded then thrown == Some(CannotOpen) && entry == None
              && dirContentsIdx == old(dirContentsIdx)
              else if old(Rest()) == [] then thrown == Some(PastEnd) && entry == None
                && dirContentsIdx == old(dirContentsIdx)
              else thrown == None && entry == Some(old(Rest())[0]) && dirContentsIdx == old(dirContentsIdx) + 1
    {
      if !dirContentsLoaded {
        thrown := LoadDirContents();
        if thrown.Some? {
          return None, thrown;
        }
      }
      if IterFinished() {
        return None, Some(PastEnd);
      }
      entry, thrown := Some(dirContents[dirContentsIdx]), None;
      dirContentsIdx := dirContentsIdx + 1;
    }

    method IterBack() returns (thrown: Option<Error>)
      requires Valid()
      modifies this`dirContentsIdx
      ensures Valid()
      ensures thrown == if !dirContentsLoaded then Some(NotStarted)
              else if old(dirContentsIdx) == 0 then Some(AlreadyAtZero) else None
      ensures dirContentsIdx == if thrown == None then old(dirContentsIdx) - 1 else old(dirContentsIdx)
    {
      if !dirContentsLoaded {
        return Some(NotStarted);
      }
      if dirContentsIdx == 0 {
        return Some(AlreadyAtZero);
      }
      dirContentsIdx := dirContentsIdx - 1;
      thrown := None;
    }

    method IterReset()
      modifies this
      ensures Valid() && !dirContentsLoaded && dirContentsIdx == 0
    {
      dirContentsLoaded, dirContentsIdx, dirContents := false, 0, [];
    }

    lemma FinishedIs()
      requires Valid()
      ensures IterFinished() <==> dirContentsLoaded && Rest() == []
    {
    }

    /** Copies entries to the length bytes of memory at base, as far as they fit; if one does
        not, the iterator steps back to it. A directory that cannot be opened throws, and an
        empty one on the first call. */
    method CopyDirentsToWasiBuffer(memory: array<Byte>, base: nat, length: nat)
      returns (copied: nat, thrown: Option<Error>)
      requires Valid() && base + length <= memory.Length
      modifies this, memory
      ensures Valid() && dirContentsLoaded == (old(dirContentsLoaded) || openable)
      ensures thrown == if !dirContentsLoaded then Some(CannotOpen)
                        else if old(Rest()) == [] && !old(dirContentsLoaded) then Some(PastEnd) else None
      ensures thrown == None ==> copied == Result(old(Rest()), length) && Page(old(Rest()), memory[base..base + length])
      ensures dirContentsIdx == old(dirContentsIdx) + (if thrown == None then Fitting(old(Rest()), length) else 0)
      ensures var used := if thrown == None then Used(old(Rest()), length) else 0;
              used <= length && Within(old(memory[..]), memory[..], base, base + used)
    {
      hide Fitting; hide Part; hide Page; hide Result; hide Used; hide Within; hide Valid; hide Rest; hide IterFinished;
      ghost var ents, was := Rest(), memory[..];
      FinishedIs();
      ghost var end := base;
      WithinNone(was, base);
      var bytesLeft, buffer := length, base;
      var isBufferFull := false;
      ghost var i := 0;
      PartEmpty(ents, memory[base..base + length]);
      while !isBufferFull && !IterFinished()
        invariant Valid() && (IterFinished() <==> dirContentsLoaded && Rest() == [])
        invariant i <= |ents| && (isBufferFull ==> i < |ents|)
        invariant dirContentsLoaded == (i > 0 || isBufferFull || old(dirContentsLoaded))
        invariant dirContentsLoaded ==> old(dirContentsLoaded) || openable
        invariant dirContentsIdx == old(dirContentsIdx) + i + (if isBufferFull then 1 else 0)
        invariant !isBufferFull ==> Rest() == ents[i..]
        invariant bytesLeft >= 0 && buffer + bytesLeft == base + length && buffer >= base
        invariant Part(ents, memory[base..base + length], i, buffer - base, isBufferFull)
        invariant end == buffer + if isBufferFull && HEADER <= bytesLeft then HEADER else 0
        invariant end <= memory.Length && (i == 0 && !isBufferFull ==> end == base)
        invariant Within(was, memory[..], base, end)
        decreases |ents| - i, !isBufferFull
      {
        ghost var before, from := memory[..], end;
        var failed, size;
        failed, isBufferFull, size, end := CopyNext(memory, base, buffer, length, ents, i);
        FinishedIs();
        if failed.Some? {
          return 0, failed;
        }
        WithinOn(was, before, memory[..], base, from, end);
        if !isBufferFull {
          bytesLeft, buffer := bytesLeft - size, buffer + size;
          i := i + 1;
        }
      }
      thrown := None;
      PageIs(ents, memory[base..base + length], i, buffer - base, isBufferFull);
      if isBufferFull {
        var failed := IterBack();
        copied := length;
      } else {
        copied := length - bytesLeft;
      }
    }

    /** Takes the next entry, behind the i ones before buffer, and copies it as far as it fits. */
    method CopyNext(memory: array<Byte>, base: nat, buffer: nat, length: nat, ghost ents: seq<DirEnt>, ghost i: nat)
      returns (failed: Option<Error>, full: bool, size: nat, ghost end: nat)
      requires Valid() && base <= buffer <= base + length <= memory.Length && i <= |ents| && Rest() == ents[i..]
      requires Part(ents, memory[base..base + length], i, buffer - base, false)
      modifies this, memory
      ensures Valid() && dirContentsLoaded == (old(dirContentsLoaded) || openable)
      ensures failed == if !dirContentsLoaded then Some(CannotOpen) else if i == |ents| then Some(PastEnd) else None
      ensures dirContentsIdx == old(dirContentsIdx) + if failed == None then 1 else 0
      ensures failed.Some? ==> memory[..] == old(memory[..])
      ensures failed == None ==>
                && i < |ents| && (!full ==> Rest() == ents[i + 1..])
                && full == !Fits(ents[i], base + length - buffer) && size == HEADER + |ents[i].path|
                && Part(ents, memory[base..base + length], if full then i else i + 1,
                        buffer - base + if full then 0 else size, full)
                && end == buffer + (if !full then size else if HEADER <= base + length - buffer then HEADER else 0)
                && end <= base + length && Within(old(memory[..]), memory[..], base, end)
    {
      hide Part; hide Within; hide Numbered;
      full, size, end := false, 0, buffer;
      var d;
      d, failed := IterNext();
      if failed == None {
        assert d == Some(ents[i]);
        full, end := CopyDirent(d.value, memory, base, buffer, length, ents, i);
        size := HEADER + |d.value.path|;
      }
    }

    /** fd_readdir: the cookie only tells whether this is the first call for the directory. */
    method FdReaddir(memory: array<Byte>, base: nat, length: nat, startCookie: nat)
      returns (copied: nat, status: Status)
      requires Valid() && base + length <= memory.Length
      modifies this, memory
      ensures Valid()
      ensures status == if old(dirContentsLoaded) && startCookie == 0 then Invalid
                        else if !old(dirContentsLoaded) && (startCookie != 0 || !openable || listing == []) then Threw
                        else Copied
      ensures dirContentsLoaded == (old(dirContentsLoaded) || (startCookie == 0 && openable))
      ensures dirContentsIdx == old(dirContentsIdx) + (if status == Copied then Fitting(old(Rest()), length) else 0)
      ensures status == Copied ==>
                copied == Result(old(Rest()), length) && Page(old(Rest()), memory[base..base + length])
      ensures var used := if status == Copied then Used(old(Rest()), length) else 0;
              used <= length && Within(old(memory[..]), memory[..], base, base + used)
    {
      WithinNone(memory[..], base);
      copied := 0;
      var isStartCookie := startCookie == 0;
      if dirContentsLoaded && isStartCookie {
        return 0, Invalid;
      } else if !dirContentsLoaded && !isStartCookie {
        return 0, Threw;
      }
      hide Page; hide Result; hide Fitting; hide Used; hide Within;
      assert !dirContentsLoaded ==> (Rest() == [] <==> listing == []);
      var thrown;
      copied, thrown := CopyDirentsToWasiBuffer(memory, base, length);
      status := if thrown == None then Copied else Threw;
    }

    /** Copies entry d behind the i ones before buffer: all of it, or its header, or nothing. */
    method CopyDirent(d: DirEnt, memory: array<Byte>, base: nat, buffer: nat, length: nat, ghost ents: seq<DirEnt>,
                      ghost i: nat)
      returns (full: bool, ghost end: nat)
      requires base <= buffer <= base + length <= memory.Length && i < |ents| && d == ents[i]
      requires Part(ents, memory[base..base + length], i, buffer - base, false)
      modifies memory
      ensures full == !Fits(d, base + length - buffer)
      ensures full ==> Part(ents, memory[base..base + length], i, buffer - base, true)
      ensures !full ==> Part(ents, memory[base..base + length], i + 1, buffer - base + HEADER + |d.path|, false)
      ensures end == buffer + if !full then HEADER + |d.path| else if HEADER <= base + length - buffer then HEADER
              else 0
      ensures buffer <= end <= base + length && Within(old(memory[..]), memory[..], base, end)
    {
      hide Header; hide Part;
      ghost var page, n := memory[base..base + length], buffer - base;
      if base + length - buffer < HEADER {
        PartFull(ents, page, page, i, n);
        return true, buffer;
      }
      Place(Header(d), memory, base, buffer, length);
      if base + length - buffer - HEADER < |d.path| {
        PartFull(ents, page, memory[base..base + length], i, n);
        return true, buffer + HEADER;
      }
      Place(d.path, memory, base, buffer + HEADER, length);
      ghost var to := n + HEADER + |d.path|;
      assert memory[base..base + length][n..to] ==
             memory[base..base + length][n..n + HEADER] + memory[base..base + length][n + HEADER..to];
      PartMore(ents, page, memory[base..base + length], i, n);
      full, end := false, base + to;
    }
  }

  /** No byte but those from a to b has changed. */
  ghost predicate Within(before: seq<Byte>, after: seq<Byte>, a: nat, b: nat) {
    |after| == |before| && forall i :: 0 <= i < |before| && !(a <= i < b) ==> after[i] == before[i]
  }

  lemma WithinNone(m: seq<Byte>, a: nat)
    ensures Within(m, m, a, a)
  {
  }

  lemma WithinOn(m: seq<Byte>, m1: seq<Byte>, m2: seq<Byte>, a: nat, b: nat, c: nat)
    requires Within(m, m1, a, b) && Within(m1, m2, a, c) && b <= c
    ensures Within(m, m2, a, c)
  {
  }

  /** A caller that decodes the buffer up to the value a call returned gets exactly the entries
      the iterator passed, with their inodes, types, names and cookies. */
  lemma CallerReads(listing: seq<Native>, i: nat, buffer: seq<Byte>)
    requires i <= |listing| < TWO_64 - 1 && forall e <- listing :: e.ino < TWO_64 && |e.name| < TWO_32
    requires Page(Numbered(listing)[i..], buffer)
    ensures var ents := Numbered(listing)[i..];
            && Result(ents, |buffer|) <= |buffer|
            && Decode(buffer[..Result(ents, |buffer|)]) == ents[..Fitting(ents, |buffer|)]
  {
    DecodePage(Numbered(listing)[i..], buffer);
  }

  /** Copies bytes behind the ones already placed between base and at, within length bytes. */
  method Place(bytes: seq<Byte>, memory: array<Byte>, base: nat, at: nat, length: nat)
    requires base <= at && at + |bytes| <= base + length <= memory.Length
    modifies memory
    ensures memory[base..base + length][at - base..at - base + |bytes|] == bytes
    ensures memory[base..base + length][..at - base] == old(memory[base..base + length])[..at - base]
    ensures Within(old(memory[..]), memory[..], base, at + |bytes|)
  {
    Copy(bytes, memory, at);
    assert memory[base..base + length][at - base..at - base + |bytes|] == memory[at..at + |bytes|];
    assert memory[base..base + length][..at - base] == memory[..at][base..] == old(memory[..at])[base..];
  }
}
