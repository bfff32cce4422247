/**
 The order a least-recently-used list keeps: keys in order of their last access, oldest
 first. `KeepLast` says it from the whole access history, `Access` by one access.
 */
module LruSpec {
  import opened Sequences

  /** One access: u leaves its place, if it has one, and goes to the back. */
  function Access<U(==)>(s: seq<U>, u: U): seq<U> {
    (if u in s then Drop(s, First(s, u)) else s) + [u]
  }

  /** A history with every access dropped that a later access to the same key follows. */
  function KeepLast<U(==)>(h: seq<U>): (r: seq<U>)
    ensures (forall u <- r :: u in h) && forall u <- h :: u in r
  {
    if h == [] then [] else
      if h[0] in h[1..] then KeepLast(h[1..]) else [h[0]] + KeepLast(h[1..])
  }

  /** The index of the last u in h, -1 when there is none. */
  function LastUse<U(==)>(h: seq<U>, u: U): (i: int)
    ensures -1 <= i < |h|
    ensures i >= 0 ==> h[i] == u
    ensures forall k :: i < k < |h| ==> h[k] != u
  {
    if h == [] then -1 else if h[|h| - 1] == u then |h| - 1 else LastUse(h[..|h| - 1], u)
  }

  /** Accessing step by step gives the history's order. */
  lemma {:induction false} AccessKeepsLast<U>(h: seq<U>, u: U)
    ensures KeepLast(h + [u]) == Access(KeepLast(h), u)
  {
    if h == [] {
      assert h + [u] == [u];
    } else {
      var x, rest := h[0], h[1..];
      assert (h + [u])[1..] == rest + [u];
      AccessKeepsLast(rest, u);
      var kept := KeepLast(rest);
      if x !in rest {
        assert KeepLast(h) == [x] + kept;
        AccessBehind(x, kept, u);
      }
    }
  }

  lemma DropBehind<U>(x: U, s: seq<U>, i: nat)
    requires i < |s|
    ensures Drop([x] + s, i + 1) == [x] + Drop(s, i)
  {
  }

  lemma FirstBehind<U>(x: U, s: seq<U>, u: U)
    ensures First([x] + s, u) == if x == u then 0 else First(s, u) + 1
  {
    assert ([x] + s)[1..] == s;
  }

  lemma AccessBehind<U>(x: U, s: seq<U>, u: U)
    requires x !in s
    ensures Access([x] + s, u) == if x == u then Access(s, u) else [x] + Access(s, u)
  {
    FirstBehind(x, s, u);
    hide First; hide Drop;
    if x == u {
      DropHead(x, s);
    } else if u in s {
      DropBehind(x, s, First(s, u));
      assert ([x] + Drop(s, First(s, u))) + [u] == [x] + (Drop(s, First(s, u)) + [u]);
    } else {
      assert ([x] + s) + [u] == [x] + (s + [u]);
    }
  }

  lemma DropHead<U>(x: U, s: seq<U>)
    ensures Drop([x] + s, 0) == s
  {
  }

  /** The list holds every key once, and an earlier key was last used earlier. */
  lemma {:induction false} OldestFirst<U>(h: seq<U>)
    ensures Distinct(KeepLast(h))
    ensures forall i, j :: 0 <= i < j < |KeepLast(h)| ==> LastUse(h, KeepLast(h)[i]) < LastUse(h, KeepLast(h)[j])
  {
    if h != [] {
      var x, rest := h[0], h[1..];
      OldestFirst(rest);
      var kept := KeepLast(rest);
      forall u | u in kept
        ensures LastUse(h, u) == LastUse(rest, u) + 1
      {
        LastUseBehind(x, rest, u);
      }
      if x !in rest {
        LastUseBehind(x, rest, x);
        assert KeepLast(h) == [x] + kept;
      }
    }
  }

  lemma LastUseIs<U>(h: seq<U>, u: U, i: int)
    requires -1 <= i < |h| && (i >= 0 ==> h[i] == u)
    requires forall k :: i < k < |h| ==> h[k] != u
    ensures LastUse(h, u) == i
  {
  }

  lemma LastUseBehind<U>(x: U, s: seq<U>, u: U)
    ensures LastUse([x] + s, u) == if u in s then LastUse(s, u) + 1 else if u == x then 0 else -1
  {
    var xs := [x] + s;
    var i := if u in s then LastUse(s, u) + 1 else if u == x then 0 else -1;
    forall k | i < k < |xs|
      ensures xs[k] != u
    {
      assert k > 0 ==> xs[k] == s[k - 1];
    }
    LastUseIs(xs, u, i);
  }
}
