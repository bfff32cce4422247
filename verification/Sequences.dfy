/** Putting an element into a sequence and dropping one, by position. */
module Sequences {

  function Put<X>(s: seq<X>, i: nat, x: X): (r: seq<X>)
    requires i <= |s|
    ensures |r| == |s| + 1
  {
    s[..i] + [x] + s[i..]
  }

  function Drop<X>(s: seq<X>, i: nat): (r: seq<X>)
    requires i < |s|
    ensures |r| == |s| - 1
  {
    s[..i] + s[i + 1..]
  }

  lemma PutAt<X>(s: seq<X>, i: nat, x: X, k: nat)
    requires i <= |s| && k <= |s|
    ensures Put(s, i, x)[k] == if k < i then s[k] else if k == i then x else s[k - 1]
  {
  }

  lemma DropAt<X>(s: seq<X>, i: nat, k: nat)
    requires i < |s| && k < |s| - 1
    ensures Drop(s, i)[k] == s[if k < i then k else k + 1]
  {
  }

  /** Putting an element in and then dropping an earlier one is dropping that one first. */
  lemma PutThenDrop<X>(s: seq<X>, i: nat, q: nat, x: X)
    requires i < q <= |s|
    ensures Drop(Put(s, q, x), i) == Put(Drop(s, i), q - 1, x)
  {
  }

  lemma PutThenDropLater<X>(s: seq<X>, i: nat, q: nat, x: X)
    requires q <= i < |s|
    ensures Drop(Put(s, q, x), i + 1) == Put(Drop(s, i), q, x)
  {
  }

  /** Element i, found again behind an element put in at q, is dropped. */
  lemma Replaced<X>(s: seq<X>, i: nat, q: nat, x: X, k: nat, p: nat)
    requires i < |s| && q <= |s|
    requires k == (if q <= i then i + 1 else i) && p == (if q <= i then q else q - 1)
    ensures Put(s, q, x)[k] == s[i]
    ensures Drop(Put(s, q, x), k) == Put(Drop(s, i), p, x)
  {
    PutAt(s, q, x, k);
    if q <= i {
      PutThenDropLater(s, i, q, x);
    } else {
      PutThenDrop(s, i, q, x);
    }
  }

  ghost predicate Distinct<X>(s: seq<X>) {
    forall i, j :: 0 <= i < j < |s| ==> s[i] != s[j]
  }

  lemma DistinctPut<X>(s: seq<X>, i: nat, x: X)
    requires Distinct(s) && i <= |s| && x !in s
    ensures Distinct(Put(s, i, x))
  {
  }

  lemma DistinctDrop<X>(s: seq<X>, i: nat)
    requires Distinct(s) && i < |s|
    ensures Distinct(Drop(s, i)) && s[i] !in Drop(s, i)
  {
  }

  /** The index of the first u in s, |s| when there is none. */
  function First<U(==)>(s: seq<U>, u: U): (i: nat)
    ensures i <= |s|
    ensures i < |s| ==> s[i] == u
    ensures forall k :: 0 <= k < i ==> s[k] != u
    ensures i < |s| <==> u in s
  {
    if s == [] || s[0] == u then 0 else 1 + First(s[1..], u)
  }

  lemma FirstIs<U>(s: seq<U>, u: U, i: nat)
    requires i < |s| && s[i] == u && forall k :: 0 <= k < i ==> s[k] != u
    ensures First(s, u) == i
  {
  }
}
