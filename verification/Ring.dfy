/**
 Circular doubly linked lists, as in src/sys/eros/Link.h: `next` and `prev` are the link
 fields, and a ring is the sequence of links met from any starting point.
 */
module Ring {

  ghost predicate IsRing<T(!new)>(c: seq<T>, next: map<T, T>, prev: map<T, T>) {
    && (forall i :: 0 <= i < |c| ==> c[i] in next && c[i] in prev)
    && (forall i, j :: 0 <= i < j < |c| ==> c[i] != c[j])
    && (forall i :: 0 <= i < |c| - 1 ==> next[c[i]] == c[i + 1])
    && (forall i :: 1 <= i < |c| ==> prev[c[i]] == c[i - 1])
    && (|c| > 0 ==> next[c[|c| - 1]] == c[0] && prev[c[0]] == c[|c| - 1])
  }

  /** A ring does not depend on the links of others. */
  lemma RingFrame<T(!new)>(c: seq<T>, next: map<T, T>, prev: map<T, T>, next': map<T, T>, prev': map<T, T>)
    requires IsRing(c, next, prev)
    requires forall x :: x in c ==> x in next' && x in prev' && next'[x] == next[x] && prev'[x] == prev[x]
    ensures IsRing(c, next', prev')
  {
  }

  /** The same ring, met from its last link. */
  function FromLast<T(!new)>(c: seq<T>): (r: seq<T>)
    ensures |r| == |c| && forall x :: x in r <==> x in c
  {
    if c == [] then [] else
      assert c == c[..|c| - 1] + [c[|c| - 1]];
      [c[|c| - 1]] + c[..|c| - 1]
  }

  lemma RingFromLast<T(!new)>(c: seq<T>, next: map<T, T>, prev: map<T, T>)
    requires IsRing(c, next, prev)
    ensures IsRing(FromLast(c), next, prev)
  {
  }

  function InsertedAfter<T(!new)>(c: seq<T>, i: nat, x: T): (r: seq<T>)
    requires i < |c|
    ensures |r| == |c| + 1 && forall y :: y in r <==> y in c || y == x
  {
    assert c == c[..i + 1] + c[i + 1..];
    c[..i + 1] + [x] + c[i + 1..]
  }

  /** link_insertBetween(x, p, n), with p = c[i] and n the link after it. */
  lemma RingInsert<T(!new)>(c: seq<T>, i: nat, x: T, next: map<T, T>, prev: map<T, T>, next': map<T, T>,
                     prev': map<T, T>)
    requires IsRing(c, next, prev) && i < |c| && x !in c
    requires next' == next[c[i] := x][x := next[c[i]]]
    requires prev' == prev[next[c[i]] := x][x := c[i]]
    ensures IsRing(InsertedAfter(c, i, x), next', prev')
  {
    var r := InsertedAfter(c, i, x);
    forall j | 0 <= j < |r|
      ensures r[j] == if j <= i then c[j] else if j == i + 1 then x else c[j - 1]
    {
    }
    assert next[c[i]] == if i < |c| - 1 then c[i + 1] else c[0];
  }

  function Removed<T(!new)>(c: seq<T>, i: nat): (r: seq<T>)
    requires i < |c|
    ensures |r| == |c| - 1
  {
    c[..i] + c[i + 1..]
  }

  lemma RemovedMembers<T(!new)>(c: seq<T>, i: nat)
    requires i < |c|
    requires forall i, j :: 0 <= i < j < |c| ==> c[i] != c[j]
    ensures forall y :: y in Removed(c, i) <==> y in c && y != c[i]
  {
    assert c == c[..i] + [c[i]] + c[i + 1..];
  }

  /** link_UnlinkUnsafe(c[i]), whatever then happens to the links of c[i] itself. */
  lemma RingRemove<T(!new)>(c: seq<T>, i: nat, next: map<T, T>, prev: map<T, T>, next': map<T, T>, prev': map<T, T>)
    requires IsRing(c, next, prev) && i < |c|
    requires next'.Keys == next.Keys && prev'.Keys == prev.Keys
    requires forall y :: y in c && y != c[i] ==> next'[y] == if y == prev[c[i]] then next[c[i]] else next[y]
    requires forall y :: y in c && y != c[i] ==> prev'[y] == if y == next[c[i]] then prev[c[i]] else prev[y]
    ensures IsRing(Removed(c, i), next', prev')
  {
    var r := Removed(c, i);
    forall j | 0 <= j < |r|
      ensures r[j] == if j < i then c[j] else c[j + 1]
    {
    }
    assert |c| > 0;
    assert prev[c[i]] == if i > 0 then c[i - 1] else c[|c| - 1];
    assert next[c[i]] == if i < |c| - 1 then c[i + 1] else c[0];
  }

  /** x takes the place of c[i]: it has the links of c[i], and its neighbours are made to point to it. */
  lemma RingReplace<T(!new)>(c: seq<T>, i: nat, x: T, next: map<T, T>, prev: map<T, T>, next': map<T, T>,
                      prev': map<T, T>)
    requires IsRing(c, next, prev) && 0 < i < |c| && x !in c
    requires next' == next[x := next[c[i]]][prev[c[i]] := x]
    requires prev' == prev[x := prev[c[i]]][next[c[i]] := x]
    ensures IsRing(c[i := x], next', prev')
  {
    var r := c[i := x];
    assert prev[c[i]] == c[i - 1] && next[c[i]] == if i < |c| - 1 then c[i + 1] else c[0];
    forall j | 0 <= j < |r|
      ensures r[j] in next' && r[j] in prev'
      ensures next'[r[j]] == if j < |r| - 1 then r[j + 1] else r[0]
      ensures prev'[r[j]] == if j > 0 then r[j - 1] else r[|r| - 1]
    {
    }
  }
}
