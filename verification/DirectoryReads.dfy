/**
 A caller that lists a directory: it calls fd_readdir again and again, each time with the cookie
 of the last entry it has decoded, until a call returns less than the buffer length or fails.
 */
module DirectoryReads {
  import opened Bytes
  import opened DirentSpec
  import opened FileDescriptors

  /** Still calling; stopped because a call returned less than the buffer length; or stopped by
      an error or an exception. */
  datatype Outcome = Going | Complete | Rejected | Failed

  /** The descriptor's iterator, and the entries the caller has decoded so far. */
  datatype Reading = Reading(started: bool, at: nat, got: seq<DirEnt>, outcome: Outcome)

  /** The cookie of the last entry, the start cookie when there is none. */
  function Cookie(got: seq<DirEnt>): nat {
    if got == [] then 0 else got[|got| - 1].next
  }

  /** One more call with a buffer of the given length. */
  function Call(r: Reading, openable: bool, contents: seq<DirEnt>, length: nat): (r': Reading)
    requires r.at <= |contents|
    ensures r'.at <= |contents|
  {
    if r.outcome != Going then r
    else if r.started && Cookie(r.got) == 0 then r.(outcome := Rejected)
    else if !r.started && (Cookie(r.got) != 0 || !openable) then r.(outcome := Failed)
    else if !r.started && contents == [] then r.(started := true, outcome := Failed)
    else
      var rest := contents[r.at..];
      var k := Fitting(rest, length);
      Reading(true, r.at + k, r.got + rest[..k], if Result(rest, length) < length then Complete else Going)
  }

  /** After n calls for a directory that was not read before. */
  function Calls(openable: bool, contents: seq<DirEnt>, length: nat, n: nat): (r: Reading)
    ensures r.at <= |contents|
  {
    if n == 0 then Reading(false, 0, [], Going)
    else Call(Calls(openable, contents, length, n - 1), openable, contents, length)
  }

  /** The entries are the first of the listing, with their positions, counted from one, as cookies. */
  ghost predicate Lists(got: seq<DirEnt>, listing: seq<Native>) {
    |got| <= |listing|
    && forall i :: 0 <= i < |got| ==>
         && got[i].next == i + 1 && got[i].ino == listing[i].ino
         && got[i].kind == listing[i].kind && got[i].path == listing[i].name
  }

  lemma GotLists(openable: bool, listing: seq<Native>, length: nat, n: nat)
    ensures var r := Calls(openable, Numbered(listing), length, n);
            Lists(r.got, listing) && |r.got| == r.at && (r.outcome == Complete ==> |r.got| == |listing|)
  {
    ListedInOrder(openable, Numbered(listing), length, n);
    if Calls(openable, Numbered(listing), length, n).outcome == Complete {
      ReadingIsComplete(openable, Numbered(listing), length, n);
    }
  }

  /** The caller's loop, at most n calls of it. */
  method ReadDirectory(fd: FileDescriptor, memory: array<Byte>, base: nat, length: nat, n: nat)
    returns (got: seq<DirEnt>, outcome: Outcome)
    requires fd.Valid() && !fd.dirContentsLoaded && base + length <= memory.Length
    requires |fd.listing| < TWO_64 - 1 && forall e <- fd.listing :: e.ino < TWO_64 && |e.name| < TWO_32
    modifies fd, memory
    ensures fd.Valid()
    ensures Calls(fd.openable, Numbered(fd.listing), length, n) ==
            Reading(fd.dirContentsLoaded, fd.dirContentsIdx, got, outcome)
    ensures Lists(got, fd.listing) && |got| == fd.dirContentsIdx && (outcome == Complete ==> |got| == |fd.listing|)
    ensures memory[..base] == old(memory[..base]) && memory[base + length..] == old(memory[base + length..])
  {
    got, outcome := [], Going;
    ghost var openable, contents := fd.openable, Numbered(fd.listing);
    NoCalls(openable, contents, length);
    hide *;
    var calls := 0;
    while calls < n && outcome == Going
      invariant fd.Valid() && calls <= n
      invariant Calls(openable, contents, length, calls) ==
                Reading(fd.dirContentsLoaded, fd.dirContentsIdx, got, outcome)
      invariant memory[..base] == old(memory[..base]) && memory[base + length..] == old(memory[base + length..])
    {
      NextCall(openable, contents, length, calls);
      got, outcome := CallOnce(fd, memory, base, length, got);
      calls := calls + 1;
    }
    Settled(openable, contents, length, calls, n);
    GotLists(openable, fd.listing, length, n);
  }

  /** One call, for a caller that has decoded got. */
  method CallOnce(fd: FileDescriptor, memory: array<Byte>, base: nat, length: nat, got: seq<DirEnt>)
    returns (got': seq<DirEnt>, outcome: Outcome)
    requires fd.Valid() && base + length <= memory.Length
    requires |fd.listing| < TWO_64 - 1 && forall e <- fd.listing :: e.ino < TWO_64 && |e.name| < TWO_32
    modifies fd, memory
    ensures fd.Valid()
    ensures Call(Reading(old(fd.dirContentsLoaded), old(fd.dirContentsIdx), got, Going), fd.openable,
                 Numbered(fd.listing), length)
            == Reading(fd.dirContentsLoaded, fd.dirContentsIdx, got', outcome)
    ensures memory[..base] == old(memory[..base]) && memory[base + length..] == old(memory[base + length..])
  {
    hide Page; hide Result; hide Fitting; hide Decode;
    ghost var at := fd.dirContentsIdx;
    var copied, status := fd.FdReaddir(memory, base, length, Cookie(got));
    if status == Invalid {
      return got, Rejected;
    } else if status == Threw {
      return got, Failed;
    }
    CallerReads(fd.listing, at, memory[base..base + length]);
    assert memory[base..base + length][..copied] == memory[base..base + copied];
    hide Numbered;
    got' := got + Decode(memory[base..base + copied]);
    outcome := if copied < length then Complete else Going;
  }

  lemma NoCalls(openable: bool, contents: seq<DirEnt>, length: nat)
    ensures Calls(openable, contents, length, 0) == Reading(false, 0, [], Going)
  {
  }

  lemma NextCall(openable: bool, contents: seq<DirEnt>, length: nat, n: nat)
    ensures Calls(openable, contents, length, n + 1) ==
            Call(Calls(openable, contents, length, n), openable, contents, length)
  {
  }

  /** Once the caller has stopped nothing changes. */
  lemma {:induction false} Settled(openable: bool, contents: seq<DirEnt>, length: nat, m: nat, n: nat)
    requires m <= n && (m == n || Calls(openable, contents, length, m).outcome != Going)
    ensures Calls(openable, contents, length, n) == Calls(openable, contents, length, m)
    decreases n
  {
    if m < n {
      Settled(openable, contents, length, m, n - 1);
    }
  }

  /** What the caller has decoded is the listing as far as the iterator has come: in order,
      nothing twice and nothing left out. */
  lemma {:induction false} ListedInOrder(openable: bool, contents: seq<DirEnt>, length: nat, n: nat)
    ensures var r := Calls(openable, contents, length, n); r.got == contents[..r.at]
  {
    if n > 0 {
      ListedInOrder(openable, contents, length, n - 1);
      var i := Calls(openable, contents, length, n - 1).at;
      TakeMore(contents, i, Fitting(contents[i..], length));
    }
  }

  lemma TakeMore<X>(s: seq<X>, i: nat, k: nat)
    requires i + k <= |s|
    ensures s[..i] + s[i..][..k] == s[..i + k]
  {
  }

  /** When the caller takes the listing to be complete, it is. */
  lemma {:induction false} ReadingIsComplete(openable: bool, contents: seq<DirEnt>, length: nat, n: nat)
    requires Calls(openable, contents, length, n).outcome == Complete
    ensures Calls(openable, contents, length, n).got == contents
  {
    var r := Calls(openable, contents, length, n - 1);
    if r.outcome == Complete {
      ReadingIsComplete(openable, contents, length, n - 1);
    } else {
      ResultFits(contents[r.at..], length);
      ListedInOrder(openable, contents, length, n);
    }
  }

  ghost predicate AllFit(contents: seq<DirEnt>, length: nat) {
    forall d <- contents :: Fits(d, length)
  }

  /** The directory can be opened, and its first entry fits the buffer. */
  predicate Begins(openable: bool, contents: seq<DirEnt>, length: nat) {
    openable && contents != [] && Fits(contents[0], length)
  }

  /** Cookies are counted from one. */
  ghost predicate Counted(contents: seq<DirEnt>) {
    forall i :: 0 <= i < |contents| ==> contents[i].next == i + 1
  }

  /** Once the first entry is decoded, every call is answered. */
  lemma {:induction false} Answered(openable: bool, contents: seq<DirEnt>, length: nat, n: nat)
    requires Begins(openable, contents, length) && Counted(contents) && n > 0
    ensures var r := Calls(openable, contents, length, n);
            r.started && r.at > 0 && Cookie(r.got) == r.at && (r.outcome == Going || r.outcome == Complete)
  {
    ListedInOrder(openable, contents, length, n);
    if n == 1 {
      assert contents[0..] == contents && Calls(openable, contents, length, 0) == Reading(false, 0, [], Going);
      assert Fitting(contents, length) > 0;
    } else {
      Answered(openable, contents, length, n - 1);
    }
    var r := Calls(openable, contents, length, n);
    assert r.got[r.at - 1] == contents[r.at - 1];
  }

  /** The caller's next call is answered. */
  predicate Willing(r: Reading, openable: bool, contents: seq<DirEnt>) {
    r.outcome == Going && if r.started then Cookie(r.got) > 0 else r.got == [] && openable && contents != []
  }

  /** The caller has stopped with everything, or has got at least n entries. */
  predicate HasGot(r: Reading, n: nat) {
    r.outcome == Complete || (r.outcome == Going && r.at >= n)
  }

  /** As long as the caller goes on its next call is answered. */
  lemma Before(openable: bool, contents: seq<DirEnt>, length: nat, n: nat)
    requires Begins(openable, contents, length) && Counted(contents)
    ensures var r := Calls(openable, contents, length, n);
            r.outcome == Going ==> Willing(r, openable, contents)
  {
    if n > 0 {
      Answered(openable, contents, length, n);
    }
  }

  lemma OneMore(r: Reading, openable: bool, contents: seq<DirEnt>, length: nat, n: nat)
    requires r.at <= |contents| && AllFit(contents, length) && length > 0
    requires HasGot(r, n) && (r.outcome == Going ==> Willing(r, openable, contents))
    ensures HasGot(Call(r, openable, contents, length), n + 1)
  {
    if r.outcome == Going {
      if r.at < |contents| {
        assert Fits(contents[r.at], length) && contents[r.at..][0] == contents[r.at];
      } else {
        assert contents[r.at..] == [];
      }
    }
  }

  /** While every entry fits, each call but the last gets at least one entry further. */
  lemma {:induction false} Advances(openable: bool, contents: seq<DirEnt>, length: nat, n: nat)
    requires Begins(openable, contents, length) && Counted(contents) && AllFit(contents, length)
    ensures HasGot(Calls(openable, contents, length, n), n)
  {
    if n == 0 {
    } else {
      Advances(openable, contents, length, n - 1);
      Before(openable, contents, length, n - 1);
      hide AllFit; hide Counted; hide HasGot; hide Willing; hide Call;
      OneMore(Calls(openable, contents, length, n - 1), openable, contents, length, n - 1);
    }
  }

  /** An entry that does not fit is never passed, and until then the caller does not stop. */
  lemma {:induction false} Stuck(openable: bool, contents: seq<DirEnt>, length: nat, j: nat, n: nat)
    requires Begins(openable, contents, length) && Counted(contents) && j < |contents| && !Fits(contents[j], length)
    ensures var r := Calls(openable, contents, length, n); r.at <= j && r.outcome == Going
  {
    if n > 0 {
      Stuck(openable, contents, length, j, n - 1);
      Answered(openable, contents, length, n);
      if n > 1 {
        Answered(openable, contents, length, n - 1);
      }
      var i := Calls(openable, contents, length, n - 1).at;
      StopsBefore(contents[i..], length, j - i);
      ResultFits(contents[i..], length);
    }
  }

  /** The first entry does not fit: the second call comes with the start cookie again. */
  lemma SecondRejected(listing: seq<Native>, length: nat)
    requires listing != [] && !Fits(Numbered(listing)[0], length)
    ensures Calls(true, Numbered(listing), length, 1).outcome == Going
    ensures Calls(true, Numbered(listing), length, 2).outcome == Rejected
  {
    var contents := Numbered(listing);
    assert contents[0..] == contents && Fitting(contents, length) == 0;
    assert Calls(true, contents, length, 0) == Reading(false, 0, [], Going);
    assert Calls(true, contents, length, 1) == Reading(true, 0, [], Going);
  }

  lemma FirstFails(openable: bool, contents: seq<DirEnt>, length: nat)
    requires !openable || contents == []
    ensures Calls(openable, contents, length, 1).outcome == Failed
  {
    assert Calls(openable, contents, length, 0) == Reading(false, 0, [], Going);
  }

  /** Every entry of the listing, a header of 24 bytes and a name, has room by itself. */
  ghost predicate HaveRoom(listing: seq<Native>, length: nat) {
    forall e <- listing :: 24 + |e.name| <= length
  }

  lemma RoomIsFit(listing: seq<Native>, length: nat)
    ensures HaveRoom(listing, length) <==> AllFit(Numbered(listing), length)
    ensures listing != [] ==> (Fits(Numbered(listing)[0], length) <==> 24 + |listing[0].name| <= length)
  {
    var contents := Numbered(listing);
    if HaveRoom(listing, length) {
      forall d | d in contents
        ensures Fits(d, length)
      {
        var i :| 0 <= i < |contents| && contents[i] == d;
        assert listing[i] in listing;
      }
    } else {
      var e :| e in listing && 24 + |e.name| > length;
      var i :| 0 <= i < |listing| && listing[i] == e;
      assert contents[i] in contents;
    }
  }

  /** How reading a directory ends, for every buffer length: with the whole listing exactly if the
      directory can be opened, is not empty, and every entry fits the buffer by itself, at the
      latest with one call more than there are entries; it fails exactly if the directory cannot
      be opened or is empty; it is rejected exactly if the first entry does not fit. */
  lemma ReadingEnds(openable: bool, listing: seq<Native>, length: nat)
    ensures var contents := Numbered(listing);
            && ((exists n :: Calls(openable, contents, length, n).outcome == Complete) <==>
                openable && listing != [] && HaveRoom(listing, length))
            && ((exists n :: Calls(openable, contents, length, n).outcome == Failed) <==> !openable || listing == [])
            && ((exists n :: Calls(openable, contents, length, n).outcome == Rejected) <==>
                openable && listing != [] && 24 + |listing[0].name| > length)
            && (openable && listing != [] && HaveRoom(listing, length) ==>
                  Calls(openable, contents, length, |listing| + 1).outcome == Complete)
  {
    var contents := Numbered(listing);
    RoomIsFit(listing, length);
    hide Calls; hide HaveRoom;
    if !openable || listing == [] {
      FirstFails(openable, contents, length);
      OnlyEnd(openable, contents, length, 1);
    } else if !Fits(contents[0], length) {
      SecondRejected(listing, length);
      OnlyEnd(openable, contents, length, 2);
      assert contents[0] in contents;
    } else if AllFit(contents, length) {
      Advances(openable, contents, length, |listing| + 1);
      OnlyEnd(openable, contents, length, |listing| + 1);
    } else {
      NeverEnds(openable, contents, length);
    }
  }

  /** A caller stops for one reason only. */
  lemma OnlyEnd(openable: bool, contents: seq<DirEnt>, length: nat, m: nat)
    requires Calls(openable, contents, length, m).outcome != Going
    ensures forall n :: var o := Calls(openable, contents, length, n).outcome;
            o == Going || o == Calls(openable, contents, length, m).outcome
  {
    forall n: nat
      ensures var o := Calls(openable, contents, length, n).outcome;
              o == Going || o == Calls(openable, contents, length, m).outcome
    {
      if m <= n {
        Settled(openable, contents, length, m, n);
      } else if Calls(openable, contents, length, n).outcome != Going {
        Settled(openable, contents, length, n, m);
      }
    }
  }

  /** The caller goes on for ever exactly if the first entry fits and some other does not. */
  lemma ReadingNeverEndsIff(openable: bool, listing: seq<Native>, length: nat)
    ensures var contents := Numbered(listing);
            (forall n :: Calls(openable, contents, length, n).outcome == Going) <==>
            openable && listing != [] && 24 + |listing[0].name| <= length && !HaveRoom(listing, length)
  {
    ReadingEnds(openable, listing, length);
    RoomIsFit(listing, length);
    var contents := Numbered(listing);
    hide Calls; hide AllFit; hide HaveRoom;
    if Begins(openable, contents, length) && !AllFit(contents, length) {
      NeverEnds(openable, contents, length);
    }
  }

  lemma NeverEnds(openable: bool, contents: seq<DirEnt>, length: nat)
    requires Begins(openable, contents, length) && Counted(contents) && !AllFit(contents, length)
    ensures forall n :: Calls(openable, contents, length, n).outcome == Going
  {
    var d :| d in contents && !Fits(d, length);
    var j :| 0 <= j < |contents| && contents[j] == d;
    forall n: nat
      ensures Calls(openable, contents, length, n).outcome == Going
    {
      Stuck(openable, contents, length, j, n);
    }
  }

  /** Room for the first entry but not for the second: the caller goes on for ever. */
  lemma StuckExample(n: nat)
    ensures Calls(true, Numbered([Native(7, 4, [97]), Native(8, 4, [97, 98])]), HEADER + 1, n).outcome == Going
  {
    var contents := Numbered([Native(7, 4, [97]), Native(8, 4, [97, 98])]);
    assert !Fits(contents[1], HEADER + 1);
    NeverEnds(true, contents, HEADER + 1);
  }

  /** Room for the header of the only entry but not for its name: the second call is rejected. */
  lemma RejectedExample()
    ensures Calls(true, Numbered([Native(7, 4, [97])]), HEADER, 2).outcome == Rejected
  {
    SecondRejected([Native(7, 4, [97])], HEADER);
  }
}
