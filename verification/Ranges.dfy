/**
 The tables of mounted ranges in src/sys/kernel/kern_ObjectSource.c: binary search, insertion in
 order, and the extent of the main log.
 */
module Ranges {

  /** ObjectRange: the OIDs or LIDs start to end - 1, and what holds them. */
  datatype ObjectRange = ObjectRange(start: nat, end: nat, source: nat)

  predicate Contains(r: ObjectRange, oid: nat) { r.start <= oid < r.end }

  predicate Overlap(r: ObjectRange, s: ObjectRange) { r.start < s.end && s.start < r.end }

  ghost predicate Ordered(s: seq<ObjectRange>) {
    forall i, j :: 0 <= i < j < |s| ==> s[i].start <= s[j].start
  }

  /** No range is empty and no two have anything in common. */
  ghost predicate Apart(s: seq<ObjectRange>) {
    && (forall i :: 0 <= i < |s| ==> s[i].start < s[i].end)
    && (forall i, j :: 0 <= i < j < |s| ==> s[i].end <= s[j].start)
  }

  ghost predicate Mounted(s: seq<ObjectRange>, oid: nat) {
    exists i :: 0 <= i < |s| && Contains(s[i], oid)
  }

  /** The last range starting at or before oid is u, with -1 for none. */
  ghost predicate Last(s: seq<ObjectRange>, oid: nat, u: int) {
    && -1 <= u < |s|
    && (forall i :: 0 <= i <= u ==> s[i].start <= oid)
    && (forall i :: u < i < |s| ==> oid < s[i].start)
  }

  function Inserted(s: seq<ObjectRange>, i: nat, r: ObjectRange): seq<ObjectRange>
    requires i <= |s|
  {
    s[..i] + [r] + s[i..]
  }

  /** Among ranges apart, the one found by its start is the only one that can hold oid. */
  lemma LastContains(s: seq<ObjectRange>, oid: nat, u: int)
    requires Apart(s) && Last(s, oid, u)
    ensures forall i :: 0 <= i < |s| && Contains(s[i], oid) ==> i == u
  {
    assert forall i :: 0 <= i < u ==> s[i].end <= s[u].start;
  }

  lemma {:induction false} LastThere(s: seq<ObjectRange>, oid: nat) returns (u: int)
    requires Ordered(s)
    ensures Last(s, oid, u)
  {
    if s == [] {
      u := -1;
    } else {
      var n := |s| - 1;
      assert forall i :: 0 <= i < n ==> s[..n][i] == s[i];
      u := LastThere(s[..n], oid);
      if s[n].start <= oid {
        assert forall i :: 0 <= i < n ==> s[i].start <= s[n].start;
        u := n;
      }
    }
  }

  lemma NoneAfter(s: seq<ObjectRange>, oid: nat, u: int, k: nat)
    requires Last(s, oid, u) && k < |s| && s[k].start <= oid
    ensures k <= u
  {
  }

  /** Only one range is the last to start. */
  lemma LastUnique(s: seq<ObjectRange>, oid: nat, u: int, v: int)
    requires Last(s, oid, u) && Last(s, oid, v)
    ensures u == v
  {
    if u >= 0 {
      NoneAfter(s, oid, v, u);
    }
    if v >= 0 {
      NoneAfter(s, oid, u, v);
    }
  }

  /** The last range that starts at or before oid has ended by then, and an earlier one holds oid. */
  ghost predicate Missed(s: seq<ObjectRange>, oid: nat) {
    exists u, k :: 0 <= k < u < |s| && Last(s, oid, u) && s[u].end <= oid && Contains(s[k], oid)
  }

  /** What is found: the last range that starts at or before oid if it holds oid, and nothing otherwise. */
  ghost predicate Looked(s: seq<ObjectRange>, oid: nat, i: int) {
    exists u :: Last(s, oid, u) && i == if u >= 0 && Contains(s[u], oid) then u else -1
  }

  /** A mounted OID is not found exactly when it is missed. */
  lemma LookedMissed(s: seq<ObjectRange>, oid: nat, u: int)
    requires Last(s, oid, u)
    ensures Mounted(s, oid) && !(u >= 0 && Contains(s[u], oid)) <==> Missed(s, oid)
  {
    if Mounted(s, oid) && !(u >= 0 && Contains(s[u], oid)) {
      var k :| 0 <= k < |s| && Contains(s[k], oid);
      assert k < u && s[u].end <= oid;
    }
    if Missed(s, oid) {
      var v, k :| 0 <= k < v < |s| && Last(s, oid, v) && s[v].end <= oid && Contains(s[k], oid);
      LastUnique(s, oid, u, v);
    }
  }

  /** Every lookup finds the only range that holds the OID, if one does. */
  ghost predicate LookupsExact(s: seq<ObjectRange>) {
    forall oid: nat, u, k :: Last(s, oid, u) && 0 <= k < |s| && Contains(s[k], oid) ==> k == u
  }

  /** Lookups in ordered ranges, none empty, are exact if and only if the ranges are apart. */
  lemma ExactIffApart(s: seq<ObjectRange>)
    requires Ordered(s) && forall i :: 0 <= i < |s| ==> s[i].start < s[i].end
    ensures LookupsExact(s) <==> Apart(s)
  {
    if Apart(s) {
      forall oid: nat, u, k | Last(s, oid, u) && 0 <= k < |s| && Contains(s[k], oid)
        ensures k == u
      {
        LastContains(s, oid, u);
      }
    }
    if LookupsExact(s) {
      forall i, j | 0 <= i < j < |s|
        ensures s[i].end <= s[j].start
      {
        var u := LastThere(s, s[j].start);
        assert Contains(s[j], s[j].start) && j == u;
        assert !Contains(s[i], s[j].start);
      }
    }
  }

  /** After the last range that starts no later is a place that keeps the order. */
  lemma InsertedOrdered(s: seq<ObjectRange>, r: ObjectRange, u: int)
    requires Ordered(s) && Last(s, r.start, u)
    ensures Ordered(Inserted(s, u + 1, r))
  {
    var t := Inserted(s, u + 1, r);
    forall i, j | 0 <= i < j < |t|
      ensures t[i].start <= t[j].start
    {
      assert i <= u ==> t[i] == s[i];
      assert j > u + 1 ==> t[j] == s[j - 1];
      assert j <= u ==> t[j] == s[j];
      assert i > u + 1 ==> t[i] == s[i - 1];
    }
  }

  /** A neighbour of the place for r reaches into it. */
  predicate Crowded(s: seq<ObjectRange>, r: ObjectRange, u: int)
    requires -1 <= u < |s|
  {
    (u >= 0 && s[u].end > r.start) || (u + 1 < |s| && s[u + 1].start < r.end)
  }

  /** Looking at the two neighbours finds every overlap. */
  lemma NeighboursTell(s: seq<ObjectRange>, r: ObjectRange, u: int)
    requires Apart(s) && Last(s, r.start, u) && r.start < r.end
    ensures (exists i :: 0 <= i < |s| && Overlap(s[i], r)) <==> Crowded(s, r, u)
  {
    if u >= 0 && s[u].end > r.start {
      assert Overlap(s[u], r);
    }
    if u + 1 < |s| && s[u + 1].start < r.end {
      assert Overlap(s[u + 1], r);
    }
  }

  lemma InsertedAt(s: seq<ObjectRange>, i: nat, r: ObjectRange)
    requires i <= |s|
    ensures var t := Inserted(s, i, r);
      && |t| == |s| + 1 && t[i] == r
      && (forall k :: 0 <= k < i ==> t[k] == s[k])
      && (forall k :: i < k < |t| ==> t[k] == s[k - 1])
  {
  }

  /** The table stays apart exactly when neither neighbour reaches into the new range. */
  lemma InsertedApart(s: seq<ObjectRange>, r: ObjectRange, u: int)
    requires Apart(s) && Last(s, r.start, u) && r.start < r.end
    ensures Apart(Inserted(s, u + 1, r)) <==> !Crowded(s, r, u)
  {
    hide Inserted;
    var t := Inserted(s, u + 1, r);
    InsertedAt(s, u + 1, r);
    if Apart(t) {
      assert u >= 0 ==> t[u].end <= t[u + 1].start;
      assert u + 1 < |s| ==> t[u + 1].end <= t[u + 2].start;
    } else if !Crowded(s, r, u) {
      forall i | 0 <= i < |t|
        ensures t[i].start < t[i].end
        ensures forall j :: i < j < |t| ==> t[i].end <= t[j].start
      {
        InsertedBefore(s, r, u, i);
      }
    }
  }

  lemma InsertedBefore(s: seq<ObjectRange>, r: ObjectRange, u: int, i: nat)
    requires Apart(s) && Last(s, r.start, u) && r.start < r.end && i <= |s|
    requires !Crowded(s, r, u)
    ensures var t := Inserted(s, u + 1, r);
      |t| == |s| + 1 && t[i].start < t[i].end && forall j :: i < j < |t| ==> t[i].end <= t[j].start
  {
    hide Inserted;
    var t := Inserted(s, u + 1, r);
    InsertedAt(s, u + 1, r);
    forall j | i < j < |t|
      ensures t[i].end <= t[j].start
    {
      if i <= u {
        assert s[i].end <= r.start;
        assert j <= u ==> s[i].end <= s[j].start;
        assert j > u + 1 ==> s[i].end <= s[j - 1].start;
      } else if i == u + 1 {
        assert t[j] == s[j - 1];
        assert s[u + 1].start <= s[j - 1].start by {
          assert j - 1 > u + 1 ==> s[u + 1].end <= s[j - 1].start;
        }
      } else {
        assert t[j] == s[j - 1] && t[i] == s[i - 1];
      }
    }
  }

  lemma OnlyPlace(s: seq<ObjectRange>, r: ObjectRange, u: int)
    requires Last(s, r.start, u)
    ensures (exists v :: Last(s, r.start, v) && Crowded(s, r, v)) <==> Crowded(s, r, u)
  {
    forall v | Last(s, r.start, v)
      ensures v == u
    {
      LastUnique(s, r.start, u, v);
    }
  }

  lemma LastBounds(s: seq<ObjectRange>, oid: nat, u: int)
    requires Last(s, oid, u)
    ensures -1 <= u < |s|
  {
  }

  /** The range found at the end of another comes after it. */
  lemma FoundLater(s: seq<ObjectRange>, done: nat, i: nat, limit: nat)
    requires Last(s, limit, i) && done <= |s| && Contains(s[i], limit)
    requires done > 0 ==> s[done - 1].start <= limit == s[done - 1].end
    ensures i >= done
  {
    if done > 0 {
      NoneAfter(s, limit, i, done - 1);
    }
  }

  lemma LookedIs(s: seq<ObjectRange>, oid: nat, i: nat)
    requires Looked(s, oid, i)
    ensures Last(s, oid, i)
  {
  }

  /** A table of ranges: obRanges or lidRanges. */
  class RangeTable {
    const ranges: array<ObjectRange>
    var n: nat
    var logWrapPoint: nat

    ghost predicate Valid()
      reads this, ranges
    {
      n <= ranges.Length && Ordered(ranges[..n])
    }

    ghost function Contents(): seq<ObjectRange>
      requires Valid()
      reads this, ranges
    {
      ranges[..n]
    }

    constructor (capacity: nat)
      ensures Valid() && fresh(ranges) && ranges.Length == capacity && Contents() == []
    {
      ranges := new ObjectRange[capacity](_ => ObjectRange(0, 0, 0));
      n, logWrapPoint := 0, 0;
    }

    /** LookupRange: binary search. */
    method LookupRange(oid: nat) returns (u: int)
      requires Valid()
      ensures Last(Contents(), oid, u)
    {
      var l := 0;
      u := n - 1;
      while u >= l
        invariant 0 <= l <= u + 1 <= n
        invariant forall i :: 0 <= i < l ==> ranges[i].start <= oid
        invariant forall i :: u < i < n ==> oid < ranges[i].start
      {
        var i := (l + u) / 2;
        assert forall k :: 0 <= k < n ==> ranges[..n][k] == ranges[k];
        if oid < ranges[i].start {
          u := i - 1;
        } else {
          l := i + 1;
        }
      }
    }

    /**
     LookupOID: the place of a range that holds oid, -1 for NULL. It misses a range that holds oid exactly
     when a later one starts, and has ended, at or before oid.
     */
    method LookupOID(oid: nat) returns (i: int)
      requires Valid()
      ensures -1 <= i < n && Looked(Contents(), oid, i) && (i >= 0 ==> Contains(Contents()[i], oid))
      ensures i < 0 && Mounted(Contents(), oid) <==> Missed(Contents(), oid)
      ensures i >= 0 <==> Mounted(Contents(), oid) && !Missed(Contents(), oid)
      ensures Apart(Contents()) ==> forall k :: 0 <= k < n && Contains(Contents()[k], oid) ==> k == i
    {
      hide Ordered, Missed;
      var u := LookupRange(oid);
      LookedMissed(Contents(), oid, u);
      if Apart(Contents()) {
        LastContains(Contents(), oid, u);
      }
      i := if u >= 0 && oid < ranges[u].end then u else -1;
      assert u >= 0 ==> (Contains(Contents()[u], oid) <==> oid < ranges[u].end);
    }

    /**
     objC_AddRange and AddLIDRange, which halt when the table is full. The new range goes in even when
     it overlaps another; then the kernel only prints a warning.
     */
    method AddRange(rng: ObjectRange) returns (ok: bool, warned: bool)
      requires Valid()
      modifies this`n, ranges
      ensures Valid() && ok == (old(n) < ranges.Length)
      ensures !ok ==> Contents() == old(Contents())
      ensures ok ==>
        exists u :: Last(old(Contents()), rng.start, u) && Contents() == Inserted(old(Contents()), u + 1, rng)
      ensures warned <==> ok && exists u :: Last(old(Contents()), rng.start, u) && Crowded(old(Contents()), rng, u)
      ensures ok && Apart(old(Contents())) && rng.start < rng.end ==>
        (warned <==> exists i :: 0 <= i < |old(Contents())| && Overlap(old(Contents())[i], rng))
      ensures ok && Apart(old(Contents())) && rng.start < rng.end ==> (Apart(Contents()) <==> !warned)
    {
      hide Ordered, Apart, Last, Overlap, Inserted;
      warned := false;
      ok := n < ranges.Length;
      if !ok {
        return;
      }
      ghost var s := Contents();
      var u := LookupRange(rng.start);
      LastBounds(s, rng.start, u);
      var i := u + 1;
      if i > 0 && ranges[i - 1].end > rng.start {
        warned := true;
      }
      if i < n && ranges[i].start < rng.end {
        warned := true;
      }
      assert warned <==> Crowded(s, rng, u);
      OnlyPlace(s, rng, u);
      InsertedOrdered(s, rng, u);
      if Apart(s) && rng.start < rng.end {
        NeighboursTell(s, rng, u);
        InsertedApart(s, rng, u);
      }
      InsertAt(i, rng);
    }

    /** The tail of AddRange, which moves the higher ranges up. */
    method InsertAt(i: nat, rng: ObjectRange)
      requires i <= n < ranges.Length
      modifies this`n, ranges
      ensures n == old(n) + 1 <= ranges.Length && ranges[..n] == Inserted(old(ranges[..n]), i, rng)
    {
      ghost var s := ranges[..n];
      var j := n;
      while j > i
        invariant i <= j <= n < ranges.Length && n == old(n)
        invariant forall k :: 0 <= k < j ==> ranges[k] == s[k]
        invariant forall k :: j < k <= n ==> ranges[k] == s[k - 1]
      {
        ranges[j] := ranges[j - 1];
        j := j - 1;
      }
      n := n + 1;
      ranges[i] := rng;
      assert ranges[..n] == Inserted(s, i, rng);
    }

    /**
     CalcLogExtent: all LIDs below logWrapPoint are mounted, and there is no finding a range that holds
     logWrapPoint. So it is the least LID that is not mounted, unless that LID is missed.
     */
    method CalcLogExtent()
      requires Valid()
      modifies this`logWrapPoint
      ensures Valid() && Looked(Contents(), logWrapPoint, -1)
      ensures forall lid: nat :: lid < logWrapPoint ==> Mounted(Contents(), lid)
      ensures Mounted(Contents(), logWrapPoint) <==> Missed(Contents(), logWrapPoint)
      ensures Apart(Contents()) ==> !Mounted(Contents(), logWrapPoint)
    {
      hide Ordered, Missed, Looked;
      var limit: nat := 0;
      ghost var done := 0;
      while true
        invariant done <= n && Valid() && Contents() == old(Contents())
        invariant forall lid: nat :: lid < limit ==> Mounted(Contents(), lid)
        invariant done > 0 ==> Contents()[done - 1].start <= limit == Contents()[done - 1].end
        decreases n - done
      {
        var i := LookupOID(limit);
        if i < 0 {
          logWrapPoint := limit;
          return;
        }
        LookedIs(Contents(), limit, i);
        FoundLater(Contents(), done, i, limit);
        var next := ranges[i].end;
        forall lid: nat | limit <= lid < next
          ensures Mounted(Contents(), lid)
        {
          assert Contains(Contents()[i], lid);
        }
        limit := next;
        done := i + 1;
      }
    }
  }

  /** A range mounted inside another hides what of that comes after it. The kernel warns, and goes on. */
  method Hidden(a: ObjectRange, b: ObjectRange) returns (t: RangeTable, warned: bool)
    requires a.start <= b.start < b.end < a.end
    ensures fresh(t) && t.Valid() && t.Contents() == [a, b] && warned
    ensures forall oid: nat :: b.end <= oid < a.end ==> Mounted(t.Contents(), oid) && Missed(t.Contents(), oid)
  {
    t := new RangeTable(2);
    var ok;
    ok, warned := t.AddRange(a);
    assert Inserted([], 0, a) == [a] && t.Contents() == [a];
    ok, warned := t.AddRange(b);
    assert Last([a], b.start, 0);
    LastUnique([a], b.start, 0, 0);
    HiddenFrom(a, b, t.Contents());
  }

  lemma HiddenFrom(a: ObjectRange, b: ObjectRange, s: seq<ObjectRange>)
    requires a.start <= b.start < b.end < a.end && s == [a, b]
    ensures forall oid: nat :: b.end <= oid < a.end ==> Mounted(s, oid) && Missed(s, oid)
  {
    forall oid: nat | b.end <= oid < a.end
      ensures Mounted(s, oid) && Missed(s, oid)
    {
      assert Contains(s[0], oid) && Last(s, oid, 1);
    }
  }
}
