/**
 The sort of src/sys/kernel/kern_qsort.c, from Bentley and McIlroy: a three-way partition that
 collects keys equal to the pivot at both ends and then swaps them into the middle.
 */
module Qsort {

  /** What qsort asks of cmp: a total preorder. */
  ghost predicate TotalPreorder<T(!new)>(cmp: (T, T) -> int) {
    && (forall x, y :: cmp(x, y) < 0 <==> cmp(y, x) > 0)
    && (forall x, y, z :: cmp(x, y) <= 0 && cmp(y, z) <= 0 ==> cmp(x, z) <= 0)
  }

  ghost predicate SortedFrom<T>(s: seq<T>, lo: nat, hi: nat, cmp: (T, T) -> int)
    requires hi <= |s|
  {
    forall i, j :: lo <= i < j < hi ==> cmp(s[i], s[j]) <= 0
  }

  /** t is s with the elements lo to hi - 1 in some other order. */
  ghost predicate Shuffled<T>(s: seq<T>, t: seq<T>, lo: nat, hi: nat) {
    && lo <= hi <= |s| == |t| && multiset(s) == multiset(t)
    && (forall i :: 0 <= i < lo || hi <= i < |s| ==> s[i] == t[i])
  }

  lemma ShuffledTrans<T>(s: seq<T>, t: seq<T>, u: seq<T>, lo: nat, hi: nat, lo': nat, hi': nat)
    requires Shuffled(s, t, lo, hi) && Shuffled(t, u, lo', hi') && lo <= lo' && hi' <= hi
    ensures Shuffled(s, u, lo, hi)
  {
  }

  lemma InThree<T>(s: seq<T>, lo: nat, hi: nat)
    requires lo <= hi <= |s|
    ensures multiset(s) == multiset(s[..lo]) + multiset(s[lo..hi]) + multiset(s[hi..])
  {
    assert s == s[..lo] + s[lo..];
    assert s[lo..] == s[lo..hi] + s[hi..];
  }

  /** Shuffling keeps the elements of the range. */
  lemma ShuffledSame<T>(s: seq<T>, t: seq<T>, lo: nat, hi: nat)
    requires Shuffled(s, t, lo, hi)
    ensures multiset(s[lo..hi]) == multiset(t[lo..hi])
    ensures forall x :: x in t[lo..hi] ==> x in s[lo..hi]
  {
    InThree(s, lo, hi);
    InThree(t, lo, hi);
    assert s[..lo] == t[..lo] && s[hi..] == t[hi..];
    assert multiset(s[lo..hi]) == multiset(s) - multiset(s[..lo]) - multiset(s[hi..]);
    assert multiset(t[lo..hi]) == multiset(t) - multiset(t[..lo]) - multiset(t[hi..]);
    forall x | x in t[lo..hi]
      ensures x in s[lo..hi]
    {
      assert x in multiset(t[lo..hi]);
    }
  }

  function Swapped<T>(s: seq<T>, i: nat, j: nat): seq<T>
    requires i < |s| && j < |s|
  {
    s[i := s[j]][j := s[i]]
  }

  lemma SwapShuffles<T>(s: seq<T>, i: nat, j: nat, lo: nat, hi: nat)
    requires lo <= i < hi <= |s| && lo <= j < hi
    ensures Shuffled(s, Swapped(s, i, j), lo, hi)
  {
  }

  method Swap<T>(a: array<T>, i: nat, j: nat)
    requires i < a.Length && j < a.Length
    modifies a
    ensures a[..] == Swapped(old(a[..]), i, j)
  {
    a[i], a[j] := a[j], a[i];
  }

  /** med3: the middle one of three places. */
  function Med3<T>(a: array<T>, i: nat, j: nat, k: nat, cmp: (T, T) -> int): (m: nat)
    requires i < a.Length && j < a.Length && k < a.Length
    reads a
    ensures m in {i, j, k}
  {
    if cmp(a[i], a[j]) < 0 then
      if cmp(a[j], a[k]) < 0 then j else if cmp(a[i], a[k]) < 0 then k else i
    else
      if cmp(a[j], a[k]) > 0 then j else if cmp(a[i], a[k]) < 0 then i else k
  }

  predicate Between<T>(x: T, m: T, y: T, cmp: (T, T) -> int) {
    (cmp(x, m) <= 0 && cmp(m, y) <= 0) || (cmp(y, m) <= 0 && cmp(m, x) <= 0)
  }

  /** The place med3 picks has an element between the other two. */
  lemma Med3Median<T(!new)>(a: array<T>, i: nat, j: nat, k: nat, cmp: (T, T) -> int)
    requires i < a.Length && j < a.Length && k < a.Length && TotalPreorder(cmp)
    ensures var m := Med3(a, i, j, k, cmp);
      || (m == i && Between(a[j], a[i], a[k], cmp))
      || (m == j && Between(a[i], a[j], a[k], cmp))
      || (m == k && Between(a[i], a[k], a[j], cmp))
  {
  }

  /** In a sorted range but for the element at pl, which belongs further left than pm. */
  ghost predicate Sinking<T>(s: seq<T>, lo: nat, pl: nat, pm: nat, cmp: (T, T) -> int)
    requires lo <= pl <= pm < |s|
  {
    && (forall i, j :: lo <= i < j <= pm && i != pl && j != pl ==> cmp(s[i], s[j]) <= 0)
    && (forall j :: pl < j <= pm ==> cmp(s[pl], s[j]) <= 0)
  }

  lemma SinkStep<T(!new)>(s: seq<T>, lo: nat, pl: nat, pm: nat, cmp: (T, T) -> int)
    requires TotalPreorder(cmp) && lo < pl <= pm < |s| && Sinking(s, lo, pl, pm, cmp) && cmp(s[pl - 1], s[pl]) > 0
    ensures Sinking(Swapped(s, pl, pl - 1), lo, pl - 1, pm, cmp)
  {
  }

  lemma SinkEnd<T(!new)>(s: seq<T>, lo: nat, pl: nat, pm: nat, cmp: (T, T) -> int)
    requires TotalPreorder(cmp) && lo <= pl <= pm < |s| && Sinking(s, lo, pl, pm, cmp)
    requires pl > lo ==> cmp(s[pl - 1], s[pl]) <= 0
    ensures SortedFrom(s, lo, pm + 1, cmp)
  {
    forall i | lo <= i < pl
      ensures cmp(s[i], s[pl]) <= 0
    {
      assert i < pl - 1 ==> cmp(s[i], s[pl - 1]) <= 0;
    }
  }

  method InsertionSort<T(!new)>(a: array<T>, lo: nat, hi: nat, cmp: (T, T) -> int)
    requires lo <= hi <= a.Length && TotalPreorder(cmp)
    modifies a
    ensures Shuffled(old(a[..]), a[..], lo, hi) && SortedFrom(a[..], lo, hi, cmp)
  {
    hide TotalPreorder, Shuffled, Sinking, Swapped;
    var pm := lo + 1;
    ShuffledRefl(a[..], lo, hi);
    while pm < hi
      invariant lo + 1 <= pm && (lo < hi ==> pm <= hi)
      invariant Shuffled(old(a[..]), a[..], lo, hi)
      invariant lo < hi ==> SortedFrom(a[..], lo, pm, cmp)
    {
      var pl := pm;
      SinkStart(a[..], lo, pm, cmp);
      while pl > lo && cmp(a[pl - 1], a[pl]) > 0
        invariant lo <= pl <= pm < hi
        invariant Shuffled(old(a[..]), a[..], lo, hi) && Sinking(a[..], lo, pl, pm, cmp)
        decreases pl
      {
        ghost var s := a[..];
        SinkStep(s, lo, pl, pm, cmp);
        SwapShuffles(s, pl, pl - 1, lo, hi);
        Swap(a, pl, pl - 1);
        ShuffledTrans(old(a[..]), s, a[..], lo, hi, lo, hi);
        pl := pl - 1;
      }
      SinkEnd(a[..], lo, pl, pm, cmp);
      pm := pm + 1;
    }
  }

  lemma ShuffledRefl<T>(s: seq<T>, lo: nat, hi: nat)
    requires lo <= hi <= |s|
    ensures Shuffled(s, s, lo, hi)
  {
  }

  lemma SinkStart<T>(s: seq<T>, lo: nat, pm: nat, cmp: (T, T) -> int)
    requires lo <= pm < |s| && SortedFrom(s, lo, pm, cmp)
    ensures Sinking(s, lo, pm, pm, cmp)
  {
  }

  // ---------- Partitioning ----------

  /**
   The layout of the partition loop: from lo, elements equal to v, below v, not yet looked at, above v,
   and again equal to v. `pc` and `pd` are one past where the source has them.
   */
  ghost predicate Parts<T>(s: seq<T>, lo: nat, hi: nat, v: T, pa: nat, pb: nat, pc: nat, pd: nat, cmp: (T, T) -> int) {
    && lo < pa <= pb <= pc <= pd <= hi <= |s| && s[lo] == v
    && (forall i :: lo <= i < pa ==> cmp(s[i], v) == 0)
    && (forall i :: pa <= i < pb ==> cmp(s[i], v) < 0)
    && (forall i :: pc <= i < pd ==> cmp(s[i], v) > 0)
    && (forall i :: pd <= i < hi ==> cmp(s[i], v) == 0)
  }

  /** One step up: s[pb] is not above v. */
  lemma PartsUp<T>(s: seq<T>, lo: nat, hi: nat, v: T, pa: nat, pb: nat, pc: nat, pd: nat, cmp: (T, T) -> int)
    requires Parts(s, lo, hi, v, pa, pb, pc, pd, cmp) && pb < pc && cmp(s[pb], v) <= 0
    ensures if cmp(s[pb], v) == 0 then Parts(Swapped(s, pa, pb), lo, hi, v, pa + 1, pb + 1, pc, pd, cmp)
            else Parts(s, lo, hi, v, pa, pb + 1, pc, pd, cmp)
  {
  }

  /** One step down: s[pc - 1] is not below v. */
  lemma PartsDown<T>(s: seq<T>, lo: nat, hi: nat, v: T, pa: nat, pb: nat, pc: nat, pd: nat, cmp: (T, T) -> int)
    requires Parts(s, lo, hi, v, pa, pb, pc, pd, cmp) && pb < pc && cmp(s[pc - 1], v) >= 0
    ensures if cmp(s[pc - 1], v) == 0 then Parts(Swapped(s, pc - 1, pd - 1), lo, hi, v, pa, pb, pc - 1, pd - 1, cmp)
            else Parts(s, lo, hi, v, pa, pb, pc - 1, pd, cmp)
  {
  }

  /** Two elements on the wrong sides change places. */
  lemma PartsCross<T>(s: seq<T>, lo: nat, hi: nat, v: T, pa: nat, pb: nat, pc: nat, pd: nat, cmp: (T, T) -> int)
    requires Parts(s, lo, hi, v, pa, pb, pc, pd, cmp) && pb < pc && cmp(s[pb], v) > 0 && cmp(s[pc - 1], v) < 0
    ensures pb + 1 < pc && Parts(Swapped(s, pb, pc - 1), lo, hi, v, pa, pb + 1, pc - 1, pd, cmp)
  {
  }

  /** The partition loop; `swapped` is swap_cnt. */
  method Partition<T(!new)>(a: array<T>, lo: nat, hi: nat, cmp: (T, T) -> int)
    returns (pa: nat, pb: nat, pc: nat, pd: nat, swapped: bool)
    requires lo < hi <= a.Length && TotalPreorder(cmp)
    modifies a
    ensures Shuffled(old(a[..]), a[..], lo, hi) && pb == pc
    ensures Parts(a[..], lo, hi, old(a[lo]), pa, pb, pc, pd, cmp)
    ensures !swapped ==> a[..] == old(a[..])
  {
    hide Parts, Shuffled, Swapped, TotalPreorder;
    ghost var s0, v := a[..], a[lo];
    swapped := false;
    pa, pb, pc, pd := lo + 1, lo + 1, hi, hi;
    ShuffledRefl(s0, lo, hi);
    PartsStart(s0, lo, hi, v, cmp);
    while true
      invariant Shuffled(s0, a[..], lo, hi) && Parts(a[..], lo, hi, v, pa, pb, pc, pd, cmp)
      invariant lo < pa <= pb <= pc <= pd <= hi && a[lo] == v && (!swapped ==> a[..] == s0)
      decreases pc - pb
    {
      ghost var width := pc - pb;
      while pb < pc && cmp(a[pb], a[lo]) <= 0
        invariant Shuffled(s0, a[..], lo, hi) && Parts(a[..], lo, hi, v, pa, pb, pc, pd, cmp)
        invariant lo < pa <= pb <= pc <= pd <= hi && a[lo] == v && (!swapped ==> a[..] == s0)
        invariant pc - pb <= width
        decreases pc - pb
      {
        PartsUp(a[..], lo, hi, v, pa, pb, pc, pd, cmp);
        if cmp(a[pb], a[lo]) == 0 {
          swapped := true;
          SwapWithin(s0, a, pa, pb, lo, hi);
          pa := pa + 1;
        }
        pb := pb + 1;
        PartsBounds(a[..], lo, hi, v, pa, pb, pc, pd, cmp);
      }
      while pb < pc && cmp(a[pc - 1], a[lo]) >= 0
        invariant Shuffled(s0, a[..], lo, hi) && Parts(a[..], lo, hi, v, pa, pb, pc, pd, cmp)
        invariant lo < pa <= pb <= pc <= pd <= hi && a[lo] == v && (!swapped ==> a[..] == s0)
        invariant pc - pb <= width && (pb < pc ==> cmp(a[pb], v) > 0)
        decreases pc - pb
      {
        PartsDown(a[..], lo, hi, v, pa, pb, pc, pd, cmp);
        if cmp(a[pc - 1], a[lo]) == 0 {
          swapped := true;
          SwapWithin(s0, a, pc - 1, pd - 1, lo, hi);
          pd := pd - 1;
        }
        pc := pc - 1;
        PartsBounds(a[..], lo, hi, v, pa, pb, pc, pd, cmp);
      }
      if pb >= pc {
        return;
      }
      PartsCross(a[..], lo, hi, v, pa, pb, pc, pd, cmp);
      SwapWithin(s0, a, pb, pc - 1, lo, hi);
      swapped := true;
      pb := pb + 1;
      pc := pc - 1;
      PartsBounds(a[..], lo, hi, v, pa, pb, pc, pd, cmp);
    }
  }

  lemma PartsStart<T(!new)>(s: seq<T>, lo: nat, hi: nat, v: T, cmp: (T, T) -> int)
    requires lo < hi <= |s| && s[lo] == v && TotalPreorder(cmp)
    ensures Parts(s, lo, hi, v, lo + 1, lo + 1, hi, hi, cmp)
  {
  }

  lemma PartsBounds<T>(s: seq<T>, lo: nat, hi: nat, v: T, pa: nat, pb: nat, pc: nat, pd: nat, cmp: (T, T) -> int)
    requires Parts(s, lo, hi, v, pa, pb, pc, pd, cmp)
    ensures lo < pa <= pb <= pc <= pd <= hi <= |s| && s[lo] == v
  {
  }

  method SwapWithin<T>(ghost s0: seq<T>, a: array<T>, i: nat, j: nat, ghost lo: nat, ghost hi: nat)
    requires lo <= i < hi <= a.Length && lo <= j < hi && Shuffled(s0, a[..], lo, hi)
    modifies a
    ensures a[..] == Swapped(old(a[..]), i, j) && Shuffled(s0, a[..], lo, hi)
    ensures forall k :: 0 <= k < a.Length && k != i && k != j ==> a[k] == old(a[k])
  {
    hide Shuffled;
    ghost var s := a[..];
    SwapShuffles(s, i, j, lo, hi);
    Swap(a, i, j);
    ShuffledTrans(s0, s, a[..], lo, hi, lo, hi);
  }

  // ---------- Bringing equal keys to the middle ----------

  /** s with the n elements from i and the n from j exchanged. */
  ghost function Exchanged<T>(s: seq<T>, i: nat, j: nat, n: nat): (t: seq<T>)
    requires i + n <= j && j + n <= |s|
    ensures |t| == |s|
  {
    s[..i] + s[j..j + n] + s[i + n..j] + s[i..i + n] + s[j + n..]
  }

  lemma ExchangedNext<T>(s: seq<T>, i: nat, j: nat, k: nat)
    requires i + k < j && j + k < |s|
    ensures Swapped(Exchanged(s, i, j, k), i + k, j + k) == Exchanged(s, i, j, k + 1)
  {
  }

  /** vecswap. */
  method BlockSwap<T>(a: array<T>, i: nat, j: nat, n: nat, ghost lo: nat, ghost hi: nat)
    requires lo <= i && i + n <= j && j + n <= hi <= a.Length
    modifies a
    ensures a[..] == Exchanged(old(a[..]), i, j, n) && Shuffled(old(a[..]), a[..], lo, hi)
  {
    hide Shuffled, Swapped, Exchanged;
    ghost var s0 := a[..];
    ShuffledRefl(s0, lo, hi);
    ExchangedNone(s0, i, j);
    var k := 0;
    while k < n
      invariant k <= n && Shuffled(s0, a[..], lo, hi) && a[..] == Exchanged(s0, i, j, k)
    {
      ExchangedNext(s0, i, j, k);
      SwapWithin(s0, a, i + k, j + k, lo, hi);
      k := k + 1;
    }
  }

  lemma ExchangedNone<T>(s: seq<T>, i: nat, j: nat)
    requires i <= j <= |s|
    ensures Exchanged(s, i, j, 0) == s
  {
  }

  /** Below v up to l, equal to v up to g, and above v up to hi. */
  ghost predicate ThreeParts<T>(s: seq<T>, lo: nat, hi: nat, v: T, l: nat, g: nat, cmp: (T, T) -> int) {
    && lo <= l < g <= hi <= |s|
    && (forall i :: lo <= i < l ==> cmp(s[i], v) < 0)
    && (forall i :: l <= i < g ==> cmp(s[i], v) == 0)
    && (forall i :: g <= i < hi ==> cmp(s[i], v) > 0)
  }

  /** The left block swap: equal keys at the left end come after those below. */
  ghost predicate LeftDone<T>(s: seq<T>, lo: nat, hi: nat, v: T, l: nat, pb: nat, pd: nat, cmp: (T, T) -> int) {
    && lo <= l < pb <= pd <= hi <= |s|
    && (forall i :: lo <= i < l ==> cmp(s[i], v) < 0)
    && (forall i :: l <= i < pb ==> cmp(s[i], v) == 0)
    && (forall i :: pb <= i < pd ==> cmp(s[i], v) > 0)
    && (forall i :: pd <= i < hi ==> cmp(s[i], v) == 0)
  }

  lemma ExchangedAt<T>(s: seq<T>, i: nat, j: nat, n: nat, k: nat)
    requires i + n <= j && j + n <= |s| && k < |s|
    ensures Exchanged(s, i, j, n)[k] == s[if i <= k < i + n then k - i + j else if j <= k < j + n then k - j + i else k]
  {
  }

  lemma LeftSwap<T>(s: seq<T>, lo: nat, hi: nat, v: T, pa: nat, pb: nat, pd: nat, cmp: (T, T) -> int, r: nat)
    requires Parts(s, lo, hi, v, pa, pb, pb, pd, cmp) && r == if pa - lo < pb - pa then pa - lo else pb - pa
    ensures lo + r <= pb - r && pb <= |s|
    ensures LeftDone(Exchanged(s, lo, pb - r, r), lo, hi, v, lo + (pb - pa), pb, pd, cmp)
  {
    hide Exchanged;
    var t, l := Exchanged(s, lo, pb - r, r), lo + (pb - pa);
    forall i | lo <= i < hi
      ensures i < l ==> cmp(t[i], v) < 0
      ensures l <= i < pb || pd <= i ==> cmp(t[i], v) == 0
      ensures pb <= i < pd ==> cmp(t[i], v) > 0
    {
      ExchangedAt(s, lo, pb - r, r, i);
    }
  }

  lemma RightSwap<T>(s: seq<T>, lo: nat, hi: nat, v: T, l: nat, pb: nat, pd: nat, cmp: (T, T) -> int, r: nat)
    requires LeftDone(s, lo, hi, v, l, pb, pd, cmp) && r == if pd - pb < hi - pd then pd - pb else hi - pd
    ensures pb + r <= hi - r && ThreeParts(Exchanged(s, pb, hi - r, r), lo, hi, v, l, hi - (pd - pb), cmp)
  {
    hide Exchanged;
    var t, g := Exchanged(s, pb, hi - r, r), hi - (pd - pb);
    forall i | lo <= i < hi
      ensures i < l ==> cmp(t[i], v) < 0
      ensures l <= i < g ==> cmp(t[i], v) == 0
      ensures g <= i ==> cmp(t[i], v) > 0
    {
      ExchangedAt(s, pb, hi - r, r, i);
    }
  }

  // ---------- The sort ----------

  /** From lo up to l is final: it is sorted, and nothing there is above an element between l and hi. */
  ghost predicate Done<T>(s: seq<T>, lo: nat, l: nat, hi: nat, cmp: (T, T) -> int) {
    && lo <= l <= hi <= |s| && SortedFrom(s, lo, l, cmp)
    && (forall i, j :: lo <= i < l <= j < hi ==> cmp(s[i], s[j]) <= 0)
  }

  lemma DoneShuffled<T>(s: seq<T>, t: seq<T>, lo: nat, l: nat, hi: nat, cmp: (T, T) -> int)
    requires Done(s, lo, l, hi, cmp) && Shuffled(s, t, l, hi)
    ensures Done(t, lo, l, hi, cmp)
  {
    ShuffledSame(s, t, l, hi);
    forall i, j | lo <= i < l <= j < hi
      ensures cmp(t[i], t[j]) <= 0
    {
      assert t[l..hi][j - l] == t[j] && t[j] in s[l..hi];
      var k :| 0 <= k < |s[l..hi]| && s[l..hi][k] == t[j];
      assert s[l + k] == t[j];
    }
  }

  lemma DoneSorted<T>(s: seq<T>, lo: nat, l: nat, hi: nat, cmp: (T, T) -> int)
    requires Done(s, lo, l, hi, cmp) && SortedFrom(s, l, hi, cmp)
    ensures SortedFrom(s, lo, hi, cmp)
  {
  }

  /** Sorting the part below the pivot moves no key across the other two parts. */
  lemma ThreePartsShuffled<T>(s: seq<T>, t: seq<T>, lo: nat, hi: nat, v: T, l: nat, g: nat, cmp: (T, T) -> int)
    requires ThreeParts(s, lo, hi, v, l, g, cmp) && Shuffled(s, t, lo, l)
    ensures ThreeParts(t, lo, hi, v, l, g, cmp)
  {
    ShuffledSame(s, t, lo, l);
    forall i | lo <= i < l
      ensures cmp(t[i], v) < 0
    {
      assert t[lo..l][i - lo] == t[i] && t[i] in s[lo..l];
      var k :| 0 <= k < |s[lo..l]| && s[lo..l][k] == t[i];
      assert s[lo + k] == t[i];
    }
  }

  /** With the lower part sorted too, all up to the upper part is final. */
  lemma PartsDone<T(!new)>(s: seq<T>, lo0: nat, lo: nat, hi: nat, v: T, l: nat, g: nat, cmp: (T, T) -> int)
    requires TotalPreorder(cmp) && ThreeParts(s, lo, hi, v, l, g, cmp)
    requires Done(s, lo0, lo, hi, cmp) && SortedFrom(s, lo, l, cmp)
    ensures Done(s, lo0, g, hi, cmp)
  {
    forall i, j | lo <= i < g && i < j < hi
      ensures cmp(s[i], s[j]) <= 0
    {
      if j >= l {
        assert cmp(s[i], v) <= 0 && cmp(v, s[j]) <= 0;
      }
    }
  }

  lemma SortedShort<T>(s: seq<T>, lo: nat, hi: nat, cmp: (T, T) -> int)
    requires hi <= |s| && hi <= lo + 1
    ensures SortedFrom(s, lo, hi, cmp)
  {
  }

  lemma DoneStart<T>(s: seq<T>, lo: nat, hi: nat, cmp: (T, T) -> int)
    requires lo <= hi <= |s|
    ensures Done(s, lo, lo, hi, cmp)
  {
  }

  /** Of the elements lo to hi - 1, besides that at m, one is not above it and another is not below it. */
  ghost predicate Median<T>(s: seq<T>, lo: nat, hi: nat, m: nat, cmp: (T, T) -> int)
    requires lo <= m < hi <= |s|
  {
    exists i, k :: lo <= i < hi && lo <= k < hi && i != k && i != m && k != m && Between(s[i], s[m], s[k], cmp)
  }

  lemma Med3IsMedian<T(!new)>(a: array<T>, lo: nat, hi: nat, i: nat, j: nat, k: nat, cmp: (T, T) -> int)
    requires hi <= a.Length && lo <= i < j < k < hi && TotalPreorder(cmp)
    ensures lo <= Med3(a, i, j, k, cmp) < hi && Median(a[..], lo, hi, Med3(a, i, j, k, cmp), cmp)
  {
    hide TotalPreorder, Between;
    Med3Median(a, i, j, k, cmp);
    var m := Med3(a, i, j, k, cmp);
    var x, y := if m == i then j else i, if m == k then j else k;
    assert a[..][x] == a[x] && a[..][m] == a[m] && a[..][y] == a[y];
    assert Between(a[x], a[m], a[y], cmp);
  }

  /** The element at x is another than that at m, and not above it. */
  predicate NotAbove<T>(s: seq<T>, lo: nat, hi: nat, x: nat, m: nat, cmp: (T, T) -> int)
    requires m < hi <= |s|
  {
    lo <= x < hi && x != m && cmp(s[x], s[m]) <= 0
  }

  /** The element at x is another than that at m, and not below it. */
  predicate NotBelow<T>(s: seq<T>, lo: nat, hi: nat, x: nat, m: nat, cmp: (T, T) -> int)
    requires m < hi <= |s|
  {
    lo <= x < hi && x != m && cmp(s[m], s[x]) <= 0
  }

  /** At least three other elements of the range are not above that at m, and at least three not below it. */
  ghost predicate WellInside<T>(s: seq<T>, lo: nat, hi: nat, m: nat, cmp: (T, T) -> int)
    requires m < hi <= |s|
  {
    && (exists x: nat, y: nat, z: nat ::
         (&& x != y && y != z && x != z
          && NotAbove(s, lo, hi, x, m, cmp) && NotAbove(s, lo, hi, y, m, cmp) && NotAbove(s, lo, hi, z, m, cmp)))
    && (exists x: nat, y: nat, z: nat ::
         (&& x != y && y != z && x != z
          && NotBelow(s, lo, hi, x, m, cmp) && NotBelow(s, lo, hi, y, m, cmp) && NotBelow(s, lo, hi, z, m, cmp)))
  }

  lemma MedianSides<T(!new)>(s: seq<T>, lo: nat, hi: nat, m: nat, cmp: (T, T) -> int) returns (x: nat, y: nat)
    requires lo <= m < hi <= |s| && Median(s, lo, hi, m, cmp)
    ensures NotAbove(s, lo, hi, x, m, cmp) && NotBelow(s, lo, hi, y, m, cmp)
  {
    var i, k :| lo <= i < hi && lo <= k < hi && i != k && i != m && k != m && Between(s[i], s[m], s[k], cmp);
    x, y := i, k;
    if !(cmp(s[i], s[m]) <= 0 && cmp(s[m], s[k]) <= 0) {
      x, y := k, i;
    }
  }

  /** A median of three medians, of ranges apart: that at b is not above that at m, and that at c not below it. */
  lemma MedianOfNine<T(!new)>(s: seq<T>, lo: nat, hi: nat, b: nat, m: nat, c: nat, bs: (nat, nat), ms: (nat, nat),
                              cs: (nat, nat), cmp: (T, T) -> int)
    requires TotalPreorder(cmp) && lo <= bs.0 <= b < bs.1 <= hi && lo <= ms.0 <= m < ms.1 <= hi <= |s|
    requires lo <= cs.0 <= c < cs.1 <= hi
    requires bs.1 <= ms.0 || ms.1 <= bs.0
    requires cs.1 <= ms.0 || ms.1 <= cs.0
    requires Median(s, bs.0, bs.1, b, cmp) && Median(s, ms.0, ms.1, m, cmp) && Median(s, cs.0, cs.1, c, cmp)
    requires cmp(s[b], s[m]) <= 0 && cmp(s[m], s[c]) <= 0
    ensures WellInside(s, lo, hi, m, cmp)
  {
    hide Median;
    var x0, _ := MedianSides(s, bs.0, bs.1, b, cmp);
    var x1, y1 := MedianSides(s, ms.0, ms.1, m, cmp);
    var _, y2 := MedianSides(s, cs.0, cs.1, c, cmp);
    assert NotAbove(s, lo, hi, x0, m, cmp) && NotAbove(s, lo, hi, b, m, cmp) && NotAbove(s, lo, hi, x1, m, cmp);
    assert NotBelow(s, lo, hi, y2, m, cmp) && NotBelow(s, lo, hi, c, m, cmp) && NotBelow(s, lo, hi, y1, m, cmp);
  }

  /** The median of the medians of three ranges, one after the other. */
  lemma Med3OfMedians<T(!new)>(a: array<T>, lo: nat, hi: nat, i: nat, j: nat, k: nat, e: nat, f: nat,
                               cmp: (T, T) -> int)
    requires TotalPreorder(cmp) && lo <= i < e <= j < f <= k < hi <= a.Length
    requires Median(a[..], lo, e, i, cmp) && Median(a[..], e, f, j, cmp) && Median(a[..], f, hi, k, cmp)
    ensures lo <= Med3(a, i, j, k, cmp) < hi && WellInside(a[..], lo, hi, Med3(a, i, j, k, cmp), cmp)
  {
    hide TotalPreorder, Median, WellInside;
    Med3Median(a, i, j, k, cmp);
    var s, m := a[..], Med3(a, i, j, k, cmp);
    var x, y := if m == i then j else i, if m == k then j else k;
    var at := map[i := (lo, e), j := (e, f), k := (f, hi)];
    assert s[x] == a[x] && s[m] == a[m] && s[y] == a[y] && Between(s[x], s[m], s[y], cmp);
    if cmp(s[x], s[m]) <= 0 && cmp(s[m], s[y]) <= 0 {
      MedianOfNine(s, lo, hi, x, m, y, at[x], at[m], at[y], cmp);
    } else {
      MedianOfNine(s, lo, hi, y, m, x, at[y], at[m], at[x], cmp);
    }
  }

  /**
   The place of the pivot: the middle, the median of three, or the median of nine in three threes. Of
   more than seven elements, it is at neither end of the order alone; of more than 40, three others are
   not above it and three not below it.
   */
  method ChoosePivot<T(!new)>(a: array<T>, lo: nat, hi: nat, cmp: (T, T) -> int) returns (pm: nat)
    requires lo + 7 <= hi <= a.Length && TotalPreorder(cmp)
    ensures lo <= pm < hi && (hi - lo > 7 ==> Median(a[..], lo, hi, pm, cmp))
    ensures hi - lo > 40 ==> WellInside(a[..], lo, hi, pm, cmp)
  {
    hide TotalPreorder, Median, WellInside, Med3;
    var n := hi - lo;
    pm := lo + n / 2;
    if n > 7 {
      var pl, pn := lo, hi - 1;
      if n > 40 {
        var d := n / 8;
        ghost var e, f := pm - d, pm + d + 1;
        Med3IsMedian(a, lo, e, pl, pl + d, pl + 2 * d, cmp);
        Med3IsMedian(a, e, f, pm - d, pm, pm + d, cmp);
        Med3IsMedian(a, f, hi, pn - 2 * d, pn - d, pn, cmp);
        pl := Med3(a, pl, pl + d, pl + 2 * d, cmp);
        pm := Med3(a, pm - d, pm, pm + d, cmp);
        pn := Med3(a, pn - 2 * d, pn - d, pn, cmp);
        Med3OfMedians(a, lo, hi, pl, pm, pn, e, f, cmp);
      }
      Med3IsMedian(a, lo, hi, pl, pm, pn, cmp);
      pm := Med3(a, pl, pm, pn, cmp);
    }
  }

  /** From the partition to the three parts in order: the elements from l to g - 1 are equal to the pivot. */
  method GatherEqual<T>(a: array<T>, lo: nat, hi: nat, ghost v: T, pa: nat, pb: nat, pc: nat, pd: nat, cmp: (T,
                        T) -> int)
    returns (l: nat, g: nat)
    requires hi <= a.Length && pb == pc && Parts(a[..], lo, hi, v, pa, pb, pc, pd, cmp)
    modifies a
    ensures Shuffled(old(a[..]), a[..], lo, hi) && ThreeParts(a[..], lo, hi, v, l, g, cmp)
  {
    hide Shuffled, Parts, LeftDone, ThreeParts, Exchanged;
    ghost var s0 := a[..];
    PartsBounds(s0, lo, hi, v, pa, pb, pc, pd, cmp);
    var r := if pa - lo < pb - pa then pa - lo else pb - pa;
    LeftSwap(s0, lo, hi, v, pa, pb, pd, cmp, r);
    BlockSwap(a, lo, pb - r, r, lo, hi);
    ghost var s1 := a[..];
    l := lo + (pb - pa);
    r := if pd - pc < hi - pd then pd - pc else hi - pd;
    RightSwap(s1, lo, hi, v, l, pb, pd, cmp, r);
    BlockSwap(a, pb, hi - r, r, lo, hi);
    g := hi - (pd - pc);
    ShuffledTrans(s0, s1, a[..], lo, hi, lo, hi);
  }

  lemma ThreePartsBounds<T>(s: seq<T>, lo: nat, hi: nat, v: T, l: nat, g: nat, cmp: (T, T) -> int)
    requires ThreeParts(s, lo, hi, v, l, g, cmp)
    ensures lo <= l < g <= hi <= |s|
  {
  }

  lemma Finish<T>(s0: seq<T>, s: seq<T>, t: seq<T>, lo: nat, start: nat, hi: nat, cmp: (T, T) -> int)
    requires Shuffled(s0, s, lo, hi) && Done(s, lo, start, hi, cmp)
    requires Shuffled(s, t, start, hi) && SortedFrom(t, start, hi, cmp)
    ensures Shuffled(s0, t, lo, hi) && SortedFrom(t, lo, hi, cmp)
  {
    hide Shuffled, Done, SortedFrom;
    DoneBounds(s, lo, start, hi, cmp);
    ShuffledTrans(s0, s, t, lo, hi, start, hi);
    DoneShuffled(s, t, lo, start, hi, cmp);
    DoneSorted(t, lo, start, hi, cmp);
  }

  lemma DoneBounds<T>(s: seq<T>, lo: nat, l: nat, hi: nat, cmp: (T, T) -> int)
    requires Done(s, lo, l, hi, cmp)
    ensures lo <= l <= hi <= |s|
  {
  }

  /** qsort: the elements lo to hi - 1 of the array come out in order, and nothing else changes. */
  method Sort<T(!new)>(a: array<T>, lo: nat, hi: nat, cmp: (T, T) -> int)
    requires lo <= hi <= a.Length && TotalPreorder(cmp)
    modifies a
    ensures Shuffled(old(a[..]), a[..], lo, hi) && SortedFrom(a[..], lo, hi, cmp)
    decreases hi - lo
  {
    hide Shuffled, SortedFrom, Parts, ThreeParts, Done, Swapped, TotalPreorder;
    ghost var s0 := a[..];
    var start := lo;
    ShuffledRefl(s0, lo, hi);
    DoneStart(s0, lo, hi, cmp);
    while true
      invariant lo <= start <= hi && Shuffled(s0, a[..], lo, hi) && Done(a[..], lo, start, hi, cmp)
      decreases hi - start
    {
      ghost var s1 := a[..];
      if hi - start < 7 {
        InsertionSort(a, start, hi, cmp);
        Finish(s0, s1, a[..], lo, start, hi, cmp);
        return;
      }
      var pm := ChoosePivot(a, start, hi, cmp);
      ShuffledRefl(s1, start, hi);
      SwapWithin(s1, a, start, pm, start, hi);
      ghost var s2, v := a[..], a[start];
      var pa, pb, pc, pd, swapped := Partition(a, start, hi, cmp);
      ShuffledTrans(s1, s2, a[..], start, hi, start, hi);
      ghost var s3 := a[..];
      if !swapped {
        InsertionSort(a, start, hi, cmp);
        ShuffledTrans(s1, s3, a[..], start, hi, start, hi);
        Finish(s0, s1, a[..], lo, start, hi, cmp);
        return;
      }
      var l, g := GatherEqual(a, start, hi, v, pa, pb, pc, pd, cmp);
      ghost var s4 := a[..];
      ShuffledTrans(s1, s3, s4, start, hi, start, hi);
      ThreePartsBounds(s4, start, hi, v, l, g, cmp);
      if l - start > 1 {
        Sort(a, start, l, cmp);
      } else {
        SortedShort(s4, start, l, cmp);
        ShuffledRefl(s4, start, l);
      }
      ShuffledTrans(s1, s4, a[..], start, hi, start, l);
      DoneShuffled(s1, a[..], lo, start, hi, cmp);
      ThreePartsShuffled(s4, a[..], start, hi, v, l, g, cmp);
      PartsDone(a[..], lo, start, hi, v, l, g, cmp);
      ShuffledTrans(s0, s1, a[..], lo, hi, start, hi);
      start := g;
      if hi - start <= 1 {
        SortedShort(a[..], start, hi, cmp);
        DoneSorted(a[..], lo, start, hi, cmp);
        return;
      }
    }
  }
}
