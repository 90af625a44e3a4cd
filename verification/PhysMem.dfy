/**
 The page allocator of src/sys/kernel/kern_PhysMem.c: the page headers and the free lists, kept in
 agreement with the map of free blocks.
 */
module PhysMem {
  import opened Bits
  import opened Buddy

  /** pObj->obType: other types are of pages in use. */
  datatype ObType = FreeFrame | FreeSecondary | NewAlloc | InUse(t: nat)

  type Lists = seq<seq<nat>>

  function Del(l: seq<nat>, p: nat): seq<nat> {
    if l == [] then [] else if l[0] == p then l[1..] else [l[0]] + Del(l[1..], p)
  }

  ghost predicate Distinct(l: seq<nat>) {
    forall i, j :: 0 <= i < j < |l| ==> l[i] != l[j]
  }

  lemma DistinctCons(x: nat, d: seq<nat>)
    ensures Distinct([x] + d) <==> Distinct(d) && x !in d
    ensures forall y :: y in [x] + d <==> y == x || y in d
  {
    var l := [x] + d;
    assert forall i :: 0 <= i < |d| ==> l[i + 1] == d[i];
    if Distinct(l) {
      forall i, j | 0 <= i < j < |d|
        ensures d[i] != d[j]
      {
        assert l[i + 1] != l[j + 1];
      }
      forall i | 0 <= i < |d|
        ensures d[i] != x
      {
        assert l[0] != l[i + 1];
      }
    }
  }

  lemma {:induction false} DelMembers(l: seq<nat>, p: nat)
    requires Distinct(l)
    ensures Distinct(Del(l, p)) && forall x :: x in Del(l, p) <==> x in l && x != p
  {
    if l != [] {
      hide Distinct;
      assert l == [l[0]] + l[1..];
      DistinctCons(l[0], l[1..]);
      DelMembers(l[1..], p);
      DistinctCons(l[0], Del(l[1..], p));
    }
  }

  ghost predicate ListsOk(lists: Lists, b: Blocks) {
    && |lists| == MAX_LOG + 1
    && (forall j :: 0 <= j <= MAX_LOG ==> Distinct(lists[j]))
    && (forall j, x :: 0 <= j <= MAX_LOG && x in lists[j] ==> x in b && b[x] == j)
    && (forall x :: x in b && b[x] <= MAX_LOG ==> x in lists[b[x]])
  }

  /** The headers of the first pages of free blocks; those in `holes` are between states. */
  ghost predicate HeadsOk(ob: map<nat, ObType>, log2: map<nat, nat>, b: Blocks, holes: set<nat>) {
    && ob.Keys == log2.Keys
    && (forall p :: p in b ==> p in ob && ob[p] == FreeFrame && log2[p] == b[p] <= MAX_LOG && p !in holes)
    && (forall p :: p in ob && ob[p] == FreeFrame && p !in holes ==> p in b)
  }

  /** Every page of a free block but the first is marked so. */
  ghost predicate Marked(ob: map<nat, ObType>, b: Blocks) {
    forall q :: IsFree(b, q) && q !in b ==> q in ob && ob[q] == FreeSecondary
  }

  ghost predicate Paged(ob: map<nat, ObType>, regions: seq<Region>) {
    forall q: nat :: q in ob <==> Somewhere(regions, q, 1)
  }

  /** link_insertAfter at the head of list j. */
  lemma ListPushed(lists: Lists, b: Blocks, j: nat, p: nat)
    requires ListsOk(lists, b) && j <= MAX_LOG && p !in b
    ensures ListsOk(lists[j := [p] + lists[j]], b[p := j])
  {
    var l := [p] + lists[j];
    assert forall i :: 1 <= i < |l| ==> l[i] == lists[j][i - 1] && l[i] in lists[j];
    assert Distinct(l);
    assert forall x :: x in l <==> x == p || x in lists[j];
  }

  /** link_Unlink of the block at p. */
  lemma ListPopped(lists: Lists, b: Blocks, p: nat)
    requires ListsOk(lists, b) && p in b && b[p] <= MAX_LOG
    ensures ListsOk(lists[b[p] := Del(lists[b[p]], p)], b - {p})
  {
    DelMembers(lists[b[p]], p);
  }

  /** The first pages of the blocks that freeing m pages at p makes. */
  function Heads(p: nat, m: nat): (s: set<nat>)
    ensures forall q :: q in s ==> p <= q < p + m
    decreases m
  {
    if m == 0 then {}
    else
      EndBlock(m);
      Heads(p, m - Pow2(EndOrder(m))) + {p + m - Pow2(EndOrder(m))}
  }

  /** The page types after freeing the block at p, which merges with the one at y if that is given. */
  function FreedTypes(ob: map<nat, ObType>, p: nat, y: nat, merged: bool): map<nat, ObType> {
    if merged then ob[if p < y then y else p := FreeSecondary][Min(p, y) := FreeFrame] else ob[p := FreeFrame]
  }

  /** Freeing a block without merging: its own pages but the first count as they were marked. */
  lemma FreedMarks(ob: map<nat, ObType>, b: Blocks, p: nat, j: nat)
    requires p !in b && (forall q :: p <= q < p + Pow2(j) ==> !IsFree(b, q)) && (forall q :: q in b ==> IsFree(b, q))
    requires forall q: nat :: IsFree(b[p := j], q) <==> IsFree(b, q) || p <= q < p + Pow2(j)
    ensures Marked(ob[p := FreeFrame], b[p := j])
       <==> Marked(ob, b) && forall q :: p < q < p + Pow2(j) ==> q in ob && ob[q] == FreeSecondary
  {
    hide Pow2, IsFree;
  }

  /** The same, when it merges with its buddy. */
  lemma MergedMarks(ob: map<nat, ObType>, b: Blocks, p: nat, y: nat, j: nat)
    requires p !in b && y in b && p != y && (forall q :: p <= q < p + Pow2(j) ==> !IsFree(b, q))
    requires !IsFree(b, p) && forall q :: q in b ==> IsFree(b, q)
    requires forall q: nat :: IsFree((b - {y})[Min(p, y) := j + 1], q) <==> IsFree(b, q) || p <= q < p + Pow2(j)
    ensures Marked(FreedTypes(ob, p, y, true), (b - {y})[Min(p, y) := j + 1])
       <==> Marked(ob, b) && forall q :: p < q < p + Pow2(j) ==> q in ob && ob[q] == FreeSecondary
  {
    hide Pow2, IsFree;
    var ob', b' := FreedTypes(ob, p, y, true), (b - {y})[Min(p, y) := j + 1];
    forall q: nat | q != p && q != y
      ensures (q in ob' <==> q in ob) && (q in ob ==> ob'[q] == ob[q]) && (q in b' <==> q in b)
    {
    }
    if Marked(ob', b') {
      forall q | IsFree(b, q) && q !in b
        ensures q in ob && ob[q] == FreeSecondary
      {
        assert IsFree(b', q) && q !in b';
      }
      forall q | p < q < p + Pow2(j)
        ensures q in ob && ob[q] == FreeSecondary
      {
        assert !IsFree(b, q) && q !in b && q != y;
        assert IsFree(b', q) && q !in b';
      }
    }
  }

  /** Pages lo up to hi, but for those in `heads`, are marked. */
  ghost predicate RestMarked(ob: map<nat, ObType>, lo: nat, hi: nat, heads: set<nat>) {
    forall q :: lo <= q < hi && q !in heads ==> q in ob && ob[q] == FreeSecondary
  }

  lemma MarksRound(ob: map<nat, ObType>, b: Blocks, regions: seq<Region>, i: nat, p: nat, j: nat)
    requires Sound(b, regions) && RegionsApart(regions) && i < |regions|
    requires j <= MAX_LOG && Aligned(p, j) && Inside(regions[i], p, Pow2(j)) && Apart(b, p, Pow2(j))
    ensures Marked(FreedTypes(ob, p, BuddyOf(p, j), Merges(b, regions[i], p, j)), FreeOne(b, regions[i], p, j))
       <==> Marked(ob, b) && RestMarked(ob, p, p + Pow2(j), {p})
  {
    hide Sound, Aligned, Apart, Pow2, RegionsApart, Marked, IsFree, Range, Inside, FreeSet, RestMarked, BuddyOf;
    FreeOneSound(b, regions, i, p, j);
    ApartIff(b, p, Pow2(j));
    HeadsFree(b);
    BuddyFacts(p, j);
    FreeGrown(b, FreeOne(b, regions[i], p, j), p, Pow2(j));
    RestIs(ob, p, p + Pow2(j));
    assert !IsFree(b, p);
    if Merges(b, regions[i], p, j) {
      MergedMarks(ob, b, p, BuddyOf(p, j), j);
    } else {
      FreedMarks(ob, b, p, j);
    }
  }

  lemma FreeGrown(b: Blocks, b': Blocks, p: nat, w: nat)
    requires FreeSet(b') == FreeSet(b) + Range(p, w)
    ensures forall q: nat :: IsFree(b', q) <==> IsFree(b, q) || p <= q < p + w
  {
    hide IsFree;
    forall q: nat
      ensures IsFree(b', q) <==> IsFree(b, q) || p <= q < p + w
    {
      assert q in FreeSet(b') <==> q in FreeSet(b) || q in Range(p, w);
    }
  }

  lemma RestIs(ob: map<nat, ObType>, p: nat, hi: nat)
    ensures RestMarked(ob, p, hi, {p}) <==> forall q :: p < q < hi ==> q in ob && ob[q] == FreeSecondary
  {
  }

  lemma HeadsFree(b: Blocks)
    ensures forall q :: q in b ==> IsFree(b, q)
  {
    forall q | q in b
      ensures IsFree(b, q)
    {
      assert q in Range(q, Pow2(b[q]));
    }
  }

  /** The pages not freed yet are as they were. */
  ghost predicate PagesLeft(ob0: map<nat, ObType>, ob: map<nat, ObType>, b: Blocks, p: nat, n: nat, m: nat) {
    && (forall q :: p <= q < p + m ==>
        q in ob && q in ob0 && ob[q] == ob0[q] && (q in Heads(p, n) <==> q in Heads(p, m)))
    && (forall q :: q in ob0 && q !in FreeSet(b) ==> q in ob && ob[q] == ob0[q])
  }

  lemma PagesLeftStep(ob0: map<nat, ObType>, ob: map<nat, ObType>, b: Blocks, ob': map<nat, ObType>, b': Blocks,
                      p: nat, n: nat, m: nat, w: nat)
    requires PagesLeft(ob0, ob, b, p, n, m) && 0 < w <= m && FreeSet(b') == FreeSet(b) + Range(p + m - w, w)
    requires Heads(p, m) == Heads(p, m - w) + {p + m - w}
    requires forall q :: q in ob && q !in FreeSet(b') ==> q in ob' && ob'[q] == ob[q]
    requires forall q :: p <= q < p + m - w && q in ob ==> q in ob' && ob'[q] == ob[q]
    ensures PagesLeft(ob0, ob', b', p, n, m - w)
  {
    hide FreeSet, Range;
  }

  /** The marks needed of the pages freed so far, and of the next block. */
  lemma MarksLeft(ob0: map<nat, ObType>, ob: map<nat, ObType>, b: Blocks, p: nat, n: nat, m: nat, w: nat)
    requires PagesLeft(ob0, ob, b, p, n, m) && 0 < w <= m <= n && Heads(p, m) == Heads(p, m - w) + {p + m - w}
    ensures RestMarked(ob0, p + m, p + n, Heads(p, n)) && RestMarked(ob, p + m - w, p + m, {p + m - w})
       <==> RestMarked(ob0, p + m - w, p + n, Heads(p, n))
  {
    hide FreeSet;
    forall q | p + m - w <= q < p + m
      ensures q in Heads(p, n) <==> q == p + m - w
      ensures q in ob && q in ob0 && ob[q] == ob0[q]
    {
      assert q !in Heads(p, m - w);
    }
  }

  /** Of n pages at p, given back from the end, m are left. */
  ghost predicate FreedSoFar(ob0: map<nat, ObType>, b0: Blocks, ob: map<nat, ObType>, b: Blocks,
                             regions: seq<Region>, i: nat, p: nat, n: nat, m: nat) {
    && m <= n && i < |regions| && Inside(regions[i], p, n) && Fits(p, n) && Fits(p, m)
    && Sound(b, regions) && FreeSet(b) == FreeSet(b0) + Range(p + m, n - m) && (m > 0 ==> Apart(b, p, m))
    && FreeRange(b, regions[i], p, m) == FreeRange(b0, regions[i], p, n)
    && PagesLeft(ob0, ob, b, p, n, m)
    && (Marked(ob, b) <==> Marked(ob0, b0) && RestMarked(ob0, p + m, p + n, Heads(p, n)))
  }

  lemma FreedStart(ob: map<nat, ObType>, b: Blocks, regions: seq<Region>, i: nat, p: nat, n: nat)
    requires Sound(b, regions) && Paged(ob, regions) && i < |regions|
    requires Inside(regions[i], p, n) && Fits(p, n) && Apart(b, p, n)
    ensures FreedSoFar(ob, b, ob, b, regions, i, p, n, n)
  {
    hide Sound, Fits, Apart, Heads, FreeRange;
    forall q | p <= q < p + n
      ensures q in ob
    {
      SomewhereIs(regions, i, q, 1);
    }
    assert Range(p + n, 0) == {};
  }

  /** The next block to be freed of m left, at the end of them. */
  lemma FreedNext(ob0: map<nat, ObType>, b0: Blocks, ob: map<nat, ObType>, b: Blocks, regions: seq<Region>, i: nat,
                  p: nat,
                  n: nat, m: nat, j: nat, w: nat)
    requires FreedSoFar(ob0, b0, ob, b, regions, i, p, n, m) && m > 0 && j == EndOrder(m) && w == Pow2(j)
    ensures w <= m && Aligned(p + m - w, j) && p + m - w in ob && p + m - w !in b && Fits(p, m) && Fits(p, m - w)
    ensures FreeRange(b, regions[i], p, m) == FreeRange(FreeOne(b, regions[i], p + m - w, j), regions[i], p, m - w)
  {
    hide Sound, Apart, FreeRange, FreeOne, Marked, IsFree, Aligned, Pow2, Range, FreeSet, BuddyOf;
    FreeRangeStep(b, regions[i], p, m, w);
    ApartPart(b, p, m, p + m - w, w);
    HeadApart(b, p + m - w, w);
  }

  lemma FreedStep(ob0: map<nat, ObType>, b0: Blocks, ob: map<nat, ObType>, b: Blocks, regions: seq<Region>, i: nat,
                  p: nat,
                  n: nat, m: nat, j: nat, w: nat, x: nat, ob': map<nat, ObType>, b': Blocks)
    requires FreedSoFar(ob0, b0, ob, b, regions, i, p, n, m) && RegionsApart(regions) && m > 0
    requires j == EndOrder(m) && w == Pow2(j) && x == p + m - w && w <= m && Aligned(x, j) && x !in b
    requires b' == FreeOne(b, regions[i], x, j) && ob' == FreedTypes(ob, x, BuddyOf(x, j), Merges(b, regions[i], x, j))
    ensures FreedSoFar(ob0, b0, ob', b', regions, i, p, n, m - w)
  {
    hide Sound, Fits, Apart, FreeRange, FreeOne, RegionsApart, Marked, IsFree, Aligned, Pow2, EndOrder, Range, Merges,
      FreedTypes, FreeSet, BuddyOf, PagesLeft, RestMarked, Heads;
    FreedNext(ob0, b0, ob, b, regions, i, p, n, m, j, w);
    ApartPart(b, p, m, x, w);
    MarksRound(ob, b, regions, i, x, j);
    FreeOneSound(b, regions, i, x, j);
    if m > w {
      StillApart(b, b', p, m - w, x, w);
    }
    RangeSplit(x, w, n - m);
    HeadsStep(p, m, w);
    TypesElsewhere(ob, b, regions[i], x, j);
    BelowUntouched(ob, ob', b, FreeSet(b'), p, x, w);
    PagesLeftStep(ob0, ob, b, ob', b', p, n, m, w);
    MarksLeft(ob0, ob, b, p, n, m, w);
  }

  lemma FreedEnd(ob0: map<nat, ObType>, b0: Blocks, ob: map<nat, ObType>, b: Blocks, regions: seq<Region>, i: nat,
                 p: nat, n: nat)
    requires FreedSoFar(ob0, b0, ob, b, regions, i, p, n, 0) && Apart(b0, p, n) && n > 0
    ensures Sound(b, regions) && b == FreeRange(b0, regions[i], p, n) && FreeSet(b) == FreeSet(b0) + Range(p, n)
    ensures |FreeSet(b)| == |FreeSet(b0)| + n
    ensures forall q :: q in ob0 && q !in FreeSet(b) ==> q in ob && ob[q] == ob0[q]
    ensures Marked(ob, b) <==> Marked(ob0, b0) && RestMarked(ob0, p, p + n, Heads(p, n))
  {
    hide Sound, Apart, Marked, RestMarked, IsFree, Heads, Fits, FreeSet, Range;
    ApartIff(b0, p, n);
    RangeSize(p, n);
    assert forall q :: q in Range(p, n) ==> q !in FreeSet(b0);
    assert FreeSet(b0) !! Range(p, n);
  }

  lemma HeadsStep(p: nat, m: nat, w: nat)
    requires m > 0 && w == Pow2(EndOrder(m)) <= m
    ensures Heads(p, m) == Heads(p, m - w) + {p + m - w}
  {
  }

  /** A round changes the types of pages that are free afterwards only. */
  lemma TypesElsewhere(ob: map<nat, ObType>, b: Blocks, r: Region, x: nat, j: nat)
    requires Aligned(x, j) && FreeSet(FreeOne(b, r, x, j)) == FreeSet(b) + Range(x, Pow2(j))
    ensures var ob' := FreedTypes(ob, x, BuddyOf(x, j), Merges(b, r, x, j));
      forall q :: q in ob && q !in FreeSet(FreeOne(b, r, x, j)) ==> q in ob' && ob'[q] == ob[q]
  {
    hide Aligned, FreeOne, IsFree, Pow2, BuddyOf, Inside, FreeSet, Range;
    HeadsFree(b);
    var y := BuddyOf(x, j);
    assert y in b ==> y in FreeSet(b);
    assert x in Range(x, Pow2(j));
  }

  /** So the pages yet to be freed stay as they were. */
  lemma BelowUntouched(ob: map<nat, ObType>, ob': map<nat, ObType>, b: Blocks, free: set<nat>, p: nat, x: nat, w: nat)
    requires free == FreeSet(b) + Range(x, w) && p <= x && Apart(b, p, x + w - p) && w > 0
    requires forall q :: q in ob && q !in free ==> q in ob' && ob'[q] == ob[q]
    ensures forall q :: p <= q < x && q in ob ==> q in ob' && ob'[q] == ob[q]
  {
    hide IsFree, FreeSet, Range;
    ApartIff(b, p, x + w - p);
    forall q | p <= q < x && q in ob
      ensures q !in free
    {
      assert !IsFree(b, q);
    }
  }

  lemma HeadThere(ob: map<nat, ObType>, log2: map<nat, nat>, b: Blocks, h: nat)
    requires HeadsOk(ob, log2, b, {}) && h in b
    ensures h in ob && h in log2 && log2[h] == b[h] <= MAX_LOG
  {
  }

  /** fls32(n - 1) is the order of the smallest block that holds n pages. */
  lemma LeastOrder(n: nat, k: nat)
    requires n < 0x1_0000_0000
    requires var w := if n == 0 then 0xffff_ffff else n - 1;
      (w == 0 ==> k == 0) && (w > 0 ==> 1 <= k <= 32 && Pow2(k - 1) <= w < Pow2(k))
    ensures n > 0 ==> forall j: nat :: k <= j <==> n <= Pow2(j)
    ensures k > MAX_LOG <==> n == 0 || n > Pow2(MAX_LOG)
  {
    hide Pow2;
    Pow2Values();
    forall j: nat | n > 0
      ensures k <= j <==> n <= Pow2(j)
    {
      if k <= j {
        Pow2Monotone(k, j);
      } else {
        Pow2Monotone(j, k - 1);
      }
    }
    if n == 0 {
      Pow2Monotone(k, if k <= MAX_LOG then MAX_LOG else k);
    }
  }

  lemma Enough(b: Blocks, n: nat, k: nat)
    requires n > 0 && forall j: nat :: k <= j <==> n <= Pow2(j)
    ensures forall p :: p in b ==> (b[p] >= k <==> n <= Pow2(b[p]))
  {
  }

  /**
   Of the block at h, the pages before x are allocated and m more are to be, of the 2**j at x; those
   above are free again. Only first pages of free blocks have changed, and h.
   */
  ghost predicate Carving(ob0: map<nat, ObType>, b0: Blocks, ob: map<nat, ObType>, b: Blocks, h: nat, n: nat, x: nat,
                          j: nat, m: nat) {
    && h in b0 && 0 < n <= Pow2(b0[h]) && 0 < m <= Pow2(j) && j <= MAX_LOG
    && h <= x && x + Pow2(j) <= h + Pow2(b0[h]) && x - h + m == n
    && Apart(b, x, Pow2(j)) && h !in b && Carve(b, x, j, m) == Allocated(b0, h, n)
    && ob.Keys == ob0.Keys && h in ob && ob[h] == NewAlloc
    && (forall q :: q in ob0 && q != h && q !in b ==> ob[q] == ob0[q])
    && (forall q :: q in b0 && q != h ==> q in b)
  }

  lemma CarvingStart(ob: map<nat, ObType>, log2: map<nat, nat>, b: Blocks, regions: seq<Region>, h: nat, n: nat)
    requires HeadsOk(ob, log2, b, {}) && Sound(b, regions) && h in b && 0 < n <= Pow2(b[h])
    ensures h in log2 && Carving(ob, b, ob[h := NewAlloc], b - {h}, h, n, h, log2[h], n)
  {
    hide Aligned, Somewhere, Pow2, Carve;
    HeadThere(ob, log2, b, h);
  }

  /** The half above is in the pages, is not free, and if it is a marked free page was so at the start. */
  lemma CarvingStep(ob0: map<nat, ObType>, b0: Blocks, ob: map<nat, ObType>, b: Blocks, regions: seq<Region>,
                    h: nat, n: nat, x: nat, j: nat, m: nat)
    requires Carving(ob0, b0, ob, b, h, n, x, j, m) && m != Pow2(j)
    requires Sound(b0, regions) && Paged(ob0, regions)
    ensures 0 < j <= MAX_LOG
    ensures var w := Pow2(j - 1);
      && x + w in ob && x + w !in b
      && (w >= m ==> Carving(ob0, b0, ob[x + w := FreeFrame], b[x + w := j - 1], h, n, x, j - 1, m))
      && (w < m ==> Carving(ob0, b0, ob, b, h, n, x + w, j - 1, m - w))
      && (Marked(ob0, b0) ==> ob[x + w] == FreeSecondary)
  {
    hide Aligned, Somewhere, Pow2, Carve, Allocated, Sound, Paged, Marked, IsFree;
    var w := if j > 0 then Pow2(j - 1) else 0;
    CarveStep(b, x, j, m, w);
    InBlock(ob0, b0, regions, h, x + w);
    ApartBelow(b, x, w, j - 1);
  }

  /** A page of a free block that is not its first. */
  lemma InBlock(ob: map<nat, ObType>, b: Blocks, regions: seq<Region>, h: nat, q: nat)
    requires Sound(b, regions) && Paged(ob, regions) && h in b && h < q < h + Pow2(b[h])
    ensures q in ob && q !in b && IsFree(b, q) && (Marked(ob, b) ==> ob[q] == FreeSecondary)
  {
    hide Aligned, Pow2;
    assert q in Range(h, Pow2(b[h]));
    var i :| 0 <= i < |regions| && Inside(regions[i], h, Pow2(b[h]));
    SomewhereIs(regions, i, q, 1);
  }

  lemma CarvingEnd(ob0: map<nat, ObType>, b0: Blocks, ob: map<nat, ObType>, b: Blocks, regions: seq<Region>, h: nat,
                   n: nat)
    requires Sound(b0, regions) && Paged(ob0, regions) && exists x, j :: Carving(ob0, b0, ob, b, h, n, x, j, Pow2(j))
    ensures h in b0 && 0 < n <= Pow2(b0[h]) && b == Allocated(b0, h, n) && Sound(b, regions) && Fits(h, n)
    ensures FreeSet(b) == FreeSet(b0) - Range(h, n) && Range(h, n) <= FreeSet(b0) && |FreeSet(b)| == |FreeSet(b0)| - n
    ensures Marked(ob0, b0) ==> Marked(ob, b) && RestMarked(ob, h, h + n, {h})
  {
    hide Aligned, Somewhere, Pow2, Sound, IsFree, Paged, Allocated, Apart;
    var x, j :| Carving(ob0, b0, ob, b, h, n, x, j, Pow2(j));
    CarveNone(b, x, j);
    AllocatedSound(b0, regions, h, n);
    BlockFacts(b0, regions, h);
    if h > 0 {
      LowBitAligned(h, b0[h]);
    }
    RangeSize(h, n);
    CarvedMarks(ob0, b0, ob, b, regions, h, n);
  }

  lemma CarvedMarks(ob0: map<nat, ObType>, b0: Blocks, ob: map<nat, ObType>, b: Blocks, regions: seq<Region>, h: nat,
                    n: nat)
    requires Sound(b0, regions) && Paged(ob0, regions) && h in b0 && 0 < n <= Pow2(b0[h])
    requires FreeSet(b) == FreeSet(b0) - Range(h, n)
    requires ob.Keys == ob0.Keys && (forall q :: q in ob0 && q != h && q !in b ==> ob[q] == ob0[q])
    requires forall q :: q in b0 && q != h ==> q in b
    ensures Marked(ob0, b0) ==> Marked(ob, b) && RestMarked(ob, h, h + n, {h})
  {
    hide Aligned, Somewhere, Pow2, Sound, IsFree, Paged;
    if Marked(ob0, b0) {
      forall q | IsFree(b, q) && q !in b
        ensures q in ob && ob[q] == FreeSecondary
      {
        assert q in FreeSet(b) && q in FreeSet(b0) && h in Range(h, n);
        assert IsFree(b0, q) && q != h;
      }
      forall q | h < q < h + n
        ensures q in ob && ob[q] == FreeSecondary
      {
        InBlock(ob0, b0, regions, h, q);
        HeadsFree(b);
        assert q in Range(h, n) && q !in FreeSet(b) && q !in b;
      }
    }
  }

  /** A page of a free block is its first, or marked as another. */
  lemma BlockPages(ob: map<nat, ObType>, log2: map<nat, nat>, b: Blocks, regions: seq<Region>, h: nat, x: nat)
    requires HeadsOk(ob, log2, b, {}) && Sound(b, regions) && Paged(ob, regions) && Marked(ob, b)
    requires h in b && h <= x < h + Pow2(b[h])
    ensures x in ob && x in log2 && (ob[x] == FreeFrame <==> x == h) && (x != h ==> ob[x] == FreeSecondary)
    ensures h in log2 && log2[h] == b[h] <= MAX_LOG
  {
    hide Sound, Marked, IsFree, Pow2;
    if x > h {
      InBlock(ob, b, regions, h, x);
    }
  }

  lemma PageAlone(ob: map<nat, ObType>, log2: map<nat, nat>, b: Blocks, regions: seq<Region>, h: nat, p: nat)
    requires HeadsOk(ob, log2, b, {}) && Sound(b, regions) && Paged(ob, regions) && Marked(ob, b)
    requires h in b && h <= p < h + Pow2(b[h])
    ensures p in ob && p in log2 && (ob[p] == FreeFrame && log2[p] == 0 <==> b[h] == 0)
    ensures b[h] == 0 ==> p == h
  {
    hide Sound, Marked, IsFree, HeadsOk, Paged;
    BlockPages(ob, log2, b, regions, h, p);
    assert b[h] == 0 ==> Pow2(b[h]) == 1;
  }

  lemma ContainingStep(b: Blocks, regions: seq<Region>, h: nat, x: nat)
    requires Sound(b, regions) && h in b && h < x < h + Pow2(b[h])
    ensures x > 0 && h <= ClearLowBit(x) < x
  {
    hide Aligned, Pow2;
    ClearLowBitStays(x, h, b[h]);
  }

  lemma SplitFacts(ob: map<nat, ObType>, log2: map<nat, nat>, b: Blocks, regions: seq<Region>, h: nat, j: nat, w: nat)
    requires h in b && j == b[h] > 0 && w == Pow2(j - 1)
    requires HeadsOk(ob, log2, b, {}) && Sound(b, regions) && Paged(ob, regions) && Marked(ob, b)
    ensures
      && j <= MAX_LOG && h in ob && HeadsOk(ob, log2, b - {h}, {h}) && h + w in ob && h + w !in b && w > 0
      && (b - {h})[h := j - 1][h + w := j - 1] == SplitAt(b, h)
      && Marked(ob[h := FreeFrame][h + w := FreeFrame], SplitAt(b, h))
  {
    hide Aligned, Sound, IsFree, Somewhere, Paged, FreeSet, Range;
    BlockFacts(b, regions, h);
    InBlock(ob, b, regions, h, h + Pow2(j - 1));
    SplitSound(b, regions, h);
    var b', ob' := SplitAt(b, h), ob[h := FreeFrame][h + Pow2(j - 1) := FreeFrame];
    forall q: nat | IsFree(b', q) && q !in b'
      ensures q in ob' && ob'[q] == FreeSecondary
    {
      assert q in FreeSet(b') && q in FreeSet(b);
      assert IsFree(b, q) && q !in b;
    }
  }

  ghost function Containing(b: Blocks, p: nat): (h: nat)
    requires IsFree(b, p)
    ensures h in b && h <= p < h + Pow2(b[h])
  {
    var h :| h in b && p in Range(h, Pow2(b[h]));
    h
  }

  /** The half of a split block that has page p. */
  lemma SplitHead(b: Blocks, h: nat, p: nat)
    requires h in b && b[h] > 0 && h <= p < h + Pow2(b[h])
    ensures var b', w := SplitAt(b, h), Pow2(b[h] - 1);
      var h' := if p < h + w then h else h + w;
      h' in b' && b'[h'] == b[h] - 1 && h' <= p < h' + Pow2(b'[h'])
  {
  }

  lemma AllLess(b: Blocks, h: nat)
    ensures forall r :: Coalesced(b, r) ==> Coalesced(b - {h}, r)
  {
    forall r | Coalesced(b, r)
      ensures Coalesced(b - {h}, r)
    {
      LessCoalesced(b, r, h);
    }
  }

  /** But for the block that page p is in, splitting leaves every region coalesced that was so. */
  lemma SplitLess(b: Blocks, regions: seq<Region>, h: nat, p: nat)
    requires Sound(b, regions) && h in b && b[h] > 0
    ensures var w := Pow2(b[h] - 1);
      forall r :: Coalesced(b - {h}, r) ==> Coalesced(SplitAt(b, h) - {if p < h + w then h else h + w}, r)
  {
    hide Aligned, Sound, Coalesced, Pow2, Apart, FreeSet, SplitAt, Somewhere;
    var j, w := b[h] - 1, Pow2(b[h] - 1);
    BlockFacts(b, regions, h);
    BlockRemoved(b, regions, h);
    HalfAt(h, j + 1);
    ApartPart(b - {h}, h, 2 * w, h + w, w);
    HeadApart(b - {h}, h + w, w);
    SplitLeaves(b, h);
    forall r | Coalesced(b - {h}, r)
      ensures Coalesced(SplitAt(b, h) - {if p < h + w then h else h + w}, r)
    {
      HalfCoalesced(b - {h}, r, h, j, p < h + w);
    }
  }

  lemma SplitLeaves(b: Blocks, h: nat)
    requires h in b && b[h] > 0 && h + Pow2(b[h] - 1) !in b - {h}
    ensures var j, w := b[h] - 1, Pow2(b[h] - 1);
      w > 0 && SplitAt(b, h) - {h} == (b - {h})[h + w := j] && SplitAt(b, h) - {h + w} == (b - {h})[h := j]
  {
    hide Pow2;
  }

  lemma RangeOne(p: nat)
    ensures Range(p, Pow2(0)) == {p}
  {
  }

  /** A block of one page is allocated. */
  lemma TakePage(ob: map<nat, ObType>, b: Blocks, regions: seq<Region>, h: nat, p: nat)
    requires Sound(b, regions) && Marked(ob, b) && h in b && b[h] == 0 && p == h
    ensures Sound(b - {p}, regions) && FreeSet(b - {p}) == FreeSet(b) - {p}
    ensures |FreeSet(b - {p})| == |FreeSet(b)| - 1
    ensures Marked(ob[p := NewAlloc], b - {p})
  {
    hide Sound, IsFree, Pow2, Range, Apart, FreeSet;
    BlockRemoved(b, regions, p);
    HeadsFree(b);
    RangeOne(p);
    assert p in FreeSet(b);
    forall q: nat | IsFree(b - {p}, q) && q !in b - {p}
      ensures q in ob && ob[q] == FreeSecondary && q != p
    {
      assert q in FreeSet(b - {p}) && q in FreeSet(b);
    }
  }

  lemma FreeAllStep(pgNum: nat, j: nat, nPages: nat, pgs: nat)
    requires nPages > 0 && pgNum + nPages < 0x8000_0000 && pgs == Pow2(j)
    requires pgNum == 0 ==> j == 31
    requires pgNum > 0 ==> exists odd: nat :: odd % 2 == 1 && Shifted(pgNum, odd, j)
    ensures pgs > 0 && Fits(pgNum, if pgs > nPages then nPages else pgs)
    ensures pgNum > 0 ==> j == Ord(pgNum)
    ensures pgNum == 0 ==> pgs > nPages
  {
    hide Pow2;
    if pgNum > 0 {
      FfsIsOrd(pgNum, j);
    } else {
      Pow2Values();
      Pow2Add(16, 15);
      Pow2Add(8, 7);
    }
  }

  lemma NotFreeApart(b: Blocks, p: nat, n: nat)
    requires n > 0 && forall q :: p <= q < p + n ==> q !in FreeSet(b)
    ensures Apart(b, p, n)
  {
    hide IsFree;
    forall q: nat | p <= q < p + n
      ensures !IsFree(b, q)
    {
      assert q !in FreeSet(b);
    }
    ApartIff(b, p, n);
  }

  /** All pages of the regions. */
  function AllPages(regions: seq<Region>): set<nat> {
    if regions == [] then {} else
      var n := |regions| - 1;
      AllPages(regions[..n]) + Range(regions[n].first, regions[n].nPages)
  }

  lemma {:induction false} AllPagesIs(regions: seq<Region>)
    ensures forall q: nat :: q in AllPages(regions) <==> Somewhere(regions, q, 1)
  {
    if regions != [] {
      var n := |regions| - 1;
      AllPagesIs(regions[..n]);
      forall q: nat
        ensures Somewhere(regions, q, 1) <==> Somewhere(regions[..n], q, 1) || Inside(regions[n], q, 1)
      {
        if i :| 0 <= i < |regions| && Inside(regions[i], q, 1) {
          assert i < n ==> Inside(regions[..n][i], q, 1);
        }
        if i :| 0 <= i < n && Inside(regions[..n][i], q, 1) {
          assert Inside(regions[i], q, 1);
        }
      }
    }
  }

  /** Pages of a region are not among those of the regions before it. */
  lemma RegionNew(regions: seq<Region>, rgn: nat)
    requires RegionsApart(regions) && rgn < |regions|
    ensures forall q :: Inside(regions[rgn], q, 1) ==> q !in AllPages(regions[..rgn])
    ensures AllPages(regions[..rgn + 1]) == AllPages(regions[..rgn]) + Range(regions[rgn].first, regions[rgn].nPages)
  {
    AllPagesIs(regions[..rgn]);
    assert regions[..rgn + 1][..rgn] == regions[..rgn];
    forall q, i | Inside(regions[rgn], q, 1) && 0 <= i < rgn
      ensures !Inside(regions[..rgn][i], q, 1)
    {
      assert regions[..rgn][i] == regions[i];
    }
  }

  /** A page in no free block is marked as a page of one that is yet to be. */
  lemma MarkedOne(ob: map<nat, ObType>, log2: map<nat, nat>, b: Blocks, regions: seq<Region>, p: nat)
    requires HeadsOk(ob, log2, b, {}) && Paged(ob, regions) && p in ob && !IsFree(b, p) && Marked(ob, b)
    ensures var ob' := ob[p := FreeSecondary]; HeadsOk(ob', log2, b, {}) && Paged(ob', regions) && Marked(ob', b)
  {
    hide IsFree, HeadsOk, Paged;
    HeadsFree(b);
    PagedKept(ob, regions, p, FreeSecondary);
    MarkedHeads(ob, log2, b, p);
  }

  lemma MarkedHeads(ob: map<nat, ObType>, log2: map<nat, nat>, b: Blocks, p: nat)
    requires HeadsOk(ob, log2, b, {}) && p in ob && p !in b
    ensures HeadsOk(ob[p := FreeSecondary], log2, b, {})
  {
  }

  /** Of a region, the pages below p have been freed. */
  ghost predicate AllSoFar(ob0: map<nat, ObType>, b0: Blocks, ob: map<nat, ObType>, b: Blocks, first: nat, p: nat,
                           end: nat) {
    && first <= p <= end && FreeSet(b) == FreeSet(b0) + Range(first, p - first)
    && (forall q :: first <= q < end ==> q !in FreeSet(b0))
    && (forall q :: q in ob0 && q !in FreeSet(b) ==> q in ob && ob[q] == ob0[q])
    && (Marked(ob0, b0) && RestMarked(ob0, first, end, {}) ==> Marked(ob, b) && RestMarked(ob, p, end, {}))
  }

  /** No aligned run that starts among the pages from first up to p reaches beyond p. */
  ghost predicate NoneCross(first: nat, p: nat) {
    forall q: nat, k: nat :: Aligned(q, k) && first <= q < p ==> q + Pow2(k) <= p
  }

  lemma CrossStep(first: nat, p: nat, j: nat)
    requires NoneCross(first, p) && p > 0 && j == Ord(p)
    ensures NoneCross(first, p + Pow2(j))
  {
    hide Aligned, Pow2;
    OrdAligned(p);
    Multiple(1, j);
    AlignedAdd(p, Pow2(j), j);
    forall q: nat, k: nat | Aligned(q, k) && first <= q < p + Pow2(j)
      ensures q + Pow2(k) <= p + Pow2(j)
    {
      if q == p {
        OrdBound(p, k);
        Pow2Monotone(k, j);
      } else if q > p {
        Between(p, q, k, j);
      }
    }
  }

  /** Between multiples of 2**j next to each other, aligned runs are shorter, and stay there. */
  lemma Between(p: nat, q: nat, k: nat, j: nat)
    requires Aligned(p, j) && Aligned(p + Pow2(j), j) && Aligned(q, k) && p < q < p + Pow2(j)
    ensures q + Pow2(k) <= p + Pow2(j)
  {
    hide Aligned, Pow2;
    if k >= j {
      AlignedLess(q, j, k);
      NoCrossing(p, q, j);
      assert false;
    }
    AlignedLess(p + Pow2(j), k, j);
    NoCrossing(q, p + Pow2(j), k);
  }

  /** Runs on both sides of a page that no run crosses. */
  lemma RunsJoin(b: Blocks, first: nat, p: nat, n: nat)
    requires first <= p && Runs(b, first, p - first) && Runs(b, p, n) && NoneCross(first, p)
    ensures Runs(b, first, p - first + n)
  {
    hide WithinBlock, Pow2;
    forall q: nat, k: nat | k <= MAX_LOG && q % Pow2(k) == 0 && first <= q && q + Pow2(k) <= p + n
      ensures WithinBlock(b, q, k)
    {
      RunIsAligned(q, k);
      if q < p {
        assert q + Pow2(k) <= p;
      }
    }
  }

  lemma NoneCrossStart(p: nat)
    ensures NoneCross(p, p)
  {
  }

  /** The pages up to p are in blocks as large as can be. */
  ghost predicate RunsSoFar(b0: Blocks, b: Blocks, first: nat, p: nat) {
    first <= p && Grown(b0, b) && Runs(b, first, p - first) && NoneCross(first, p)
  }

  lemma RunsStart(b: Blocks, first: nat)
    ensures RunsSoFar(b, b, first, first)
  {
    GrownSame(b);
    NoRuns(b, first);
  }

  lemma RunsStep(b0: Blocks, b: Blocks, first: nat, p: nat, n: nat, b': Blocks)
    requires RunsSoFar(b0, b, first, p) && Grown(b, b') && Runs(b', p, n)
    ensures Grown(b0, b') && Runs(b', first, p - first + n)
    ensures p > 0 && n == Pow2(Ord(p)) ==> RunsSoFar(b0, b', first, p + n)
  {
    hide Grown, Runs, NoneCross, Pow2;
    GrownTrans(b0, b, b');
    RunsGrown(b, b', first, p - first);
    RunsJoin(b', first, p, n);
    if p > 0 && n == Pow2(Ord(p)) {
      CrossStep(first, p, Ord(p));
    }
  }

  /** Every block that starts in a region is inside it. */
  lemma BlocksInside(b: Blocks, regions: seq<Region>, i: nat)
    requires Sound(b, regions) && RegionsApart(regions) && i < |regions|
    ensures forall p :: p in b && Inside(regions[i], p, 1) ==> Inside(regions[i], p, Pow2(b[p]))
  {
    hide Aligned, Pow2, RegionsApart, Somewhere;
    forall p | p in b && Inside(regions[i], p, 1)
      ensures Inside(regions[i], p, Pow2(b[p]))
    {
      SameRegion(regions, i, p, Pow2(b[p]));
    }
  }

  lemma AllStart(ob: map<nat, ObType>, b: Blocks, first: nat, end: nat)
    requires first <= end && forall q :: first <= q < end ==> q !in FreeSet(b)
    ensures AllSoFar(ob, b, ob, b, first, first, end)
  {
    assert Range(first, 0) == {};
  }

  lemma AllApart(ob0: map<nat, ObType>, b0: Blocks, ob: map<nat, ObType>, b: Blocks, first: nat, p: nat, end: nat,
                 n: nat)
    requires AllSoFar(ob0, b0, ob, b, first, p, end) && n > 0 && p + n <= end
    ensures Apart(b, p, n)
  {
    hide IsFree, Marked, RestMarked, Apart;
    NotFreeApart(b, p, n);
  }

  lemma AllStep(ob0: map<nat, ObType>, b0: Blocks, ob: map<nat, ObType>, b: Blocks, first: nat, p: nat, end: nat,
                n: nat,
                ob': map<nat, ObType>, b': Blocks, heads: set<nat>)
    requires AllSoFar(ob0, b0, ob, b, first, p, end) && p + n <= end
    requires FreeSet(b') == FreeSet(b) + Range(p, n)
    requires forall q :: q in ob && q !in FreeSet(b') ==> q in ob' && ob'[q] == ob[q]
    requires Marked(ob, b) && RestMarked(ob, p, p + n, heads) ==> Marked(ob', b')
    ensures AllSoFar(ob0, b0, ob', b', first, p + n, end)
  {
    hide IsFree, Marked, FreeSet, Range;
    RangeSplit(first, p - first, n);
    forall q | p + n <= q < end
      ensures q !in FreeSet(b')
    {
      assert q !in FreeSet(b0);
    }
  }

  lemma HeadsFreed(ob: map<nat, ObType>, log2: map<nat, nat>, b: Blocks, p: nat, j: nat)
    requires HeadsOk(ob, log2, b, {p}) && p in ob && j <= MAX_LOG
    ensures HeadsOk(ob[p := FreeFrame], log2[p := j], b[p := j], {})
  {
  }

  /** Unlinking the free buddy y and marking the upper half leaves the lower half to be freed. */
  lemma HeadsMerged(ob: map<nat, ObType>, log2: map<nat, nat>, b: Blocks, p: nat, y: nat)
    requires HeadsOk(ob, log2, b, {p}) && p in ob && y in b
    ensures y != p && HeadsOk(ob[if p < y then y else p := FreeSecondary], log2, b - {y}, {Min(p, y)})
  {
  }

  lemma HeadsTaken(ob: map<nat, ObType>, log2: map<nat, nat>, b: Blocks, p: nat, t: ObType)
    requires HeadsOk(ob, log2, b, {}) && p in b && t != FreeFrame
    ensures HeadsOk(ob[p := t], log2, b - {p}, {})
  {
  }

  lemma HoleAdded(ob: map<nat, ObType>, log2: map<nat, nat>, b: Blocks, p: nat)
    requires HeadsOk(ob, log2, b, {}) && p !in b
    ensures HeadsOk(ob, log2, b, {p})
  {
  }

  /** pageH_IsFree(bPageH) && bPageH->kt_u.free.log2Pages == j. */
  lemma FreeHead(ob: map<nat, ObType>, log2: map<nat, nat>, b: Blocks, holes: set<nat>, y: nat, j: nat)
    requires HeadsOk(ob, log2, b, holes) && y in ob && y !in holes
    ensures y in log2 && (ob[y] == FreeFrame && log2[y] == j <==> y in b && b[y] == j)
    ensures y in b ==> b[y] <= MAX_LOG
  {
  }

  class PageAllocator {
    const regions: seq<Region>
    var obType: map<nat, ObType>
    var log2Pages: map<nat, nat>
    var freePages: Lists
    var numFreePageFrames: int
    ghost var blocks: Blocks

    /** Headers and free lists agree with the map of blocks, but for the page in `holes`. */
    ghost predicate Linked(holes: set<nat>)
      reads this
    {
      && RegionsApart(regions) && Paged(obType, regions)
      && HeadsOk(obType, log2Pages, blocks, holes) && ListsOk(freePages, blocks)
    }

    /** physMem_Init, once the regions are known and the headers are cleared. */
    constructor (rs: seq<Region>)
      requires RegionsApart(rs)
      ensures Valid() && regions == rs && blocks == map[]
      ensures forall p :: p in obType ==> obType[p] == InUse(0)
    {
      regions := rs;
      obType := map p | p in AllPages(rs) :: InUse(0);
      log2Pages := map p | p in AllPages(rs) :: 0;
      freePages := seq(MAX_LOG + 1, _ => []);
      numFreePageFrames := 0;
      blocks := map[];
      AllPagesIs(rs);
      new;
      assert FreeSet(blocks) == {};
    }

    /** The end of objC_AllocateUserPages: region by region, marks all pages and frees them. */
    method FreeAllRegions()
      requires Valid() && blocks == map[]
      requires forall i :: 0 <= i < |regions| ==> regions[i].first + regions[i].nPages < 0x8000_0000
      modifies this
      ensures Valid() && Marked(obType, blocks) && FreeSet(blocks) == AllPages(regions)
      ensures numFreePageFrames == |AllPages(regions)|
      ensures forall i :: 0 <= i < |regions| ==>
        Runs(blocks, regions[i].first, regions[i].nPages) && Coalesced(blocks, regions[i])
    {
      hide Paged, HeadsOk, ListsOk, Sound, Marked, IsFree, FreeSet, RestMarked, RegionsApart, Range, AllPages, Runs,
        Grown, Coalesced;
      NoneFree(obType);
      AllPagesNone(regions[..0]);
      var rgn := 0;
      while rgn < |regions|
        invariant 0 <= rgn <= |regions| && Valid() && Marked(obType, blocks)
        invariant FreeSet(blocks) == AllPages(regions[..rgn])
        invariant forall i :: 0 <= i < rgn ==> Runs(blocks, regions[i].first, regions[i].nPages)
      {
        RegionNew(regions, rgn);
        MarkRegion(rgn);
        ghost var b := blocks;
        FreeAll(rgn);
        forall i | 0 <= i < rgn
          ensures Runs(blocks, regions[i].first, regions[i].nPages)
        {
          RunsGrown(b, blocks, regions[i].first, regions[i].nPages);
        }
        rgn := rgn + 1;
      }
      forall i | 0 <= i < |regions|
        ensures Coalesced(blocks, regions[i])
      {
        BlocksInside(blocks, regions, i);
        RunsCoalesced(blocks, regions, regions[i]);
      }
      assert regions[..rgn] == regions;
    }

    method MarkRegion(i: nat)
      requires Valid() && i < |regions| && Marked(obType, blocks)
      requires forall q :: Inside(regions[i], q, 1) ==> q !in FreeSet(blocks)
      modifies this`obType
      ensures Valid() && Marked(obType, blocks)
      ensures RestMarked(obType, regions[i].first, regions[i].first + regions[i].nPages, {})
      ensures forall q :: q in old(obType) && !Inside(regions[i], q, 1) ==> q in obType && obType[q] == old(obType)[q]
    {
      hide Paged, HeadsOk, ListsOk, Sound, Marked, IsFree, FreeSet, RegionsApart;
      var pg := 0;
      var first := regions[i].first;
      while pg < regions[i].nPages
        invariant pg <= regions[i].nPages && Valid() && Marked(obType, blocks)
        invariant RestMarked(obType, first, first + pg, {})
        invariant forall q :: q in old(obType) && !Inside(regions[i], q, 1) ==>
          q in obType && obType[q] == old(obType)[q]
      {
        InRegion(obType, regions, i, first + pg);
        assert Inside(regions[i], first + pg, 1);
        assert first + pg !in FreeSet(blocks) && !IsFree(blocks, first + pg);
        MarkedOne(obType, log2Pages, blocks, regions, first + pg);
        obType := obType[first + pg := FreeSecondary];
        pg := pg + 1;
      }
    }

    ghost predicate Valid()
      reads this
    {
      Linked({}) && Sound(blocks, regions) && numFreePageFrames == |FreeSet(blocks)|
    }

    /** pmi_FreeOneBlock. */
    method FreeOneBlock(p: nat, j: nat)
      requires Linked({p}) && p in obType && j <= MAX_LOG
      modifies this`obType, this`log2Pages, this`freePages, this`blocks
      ensures Linked({}) && blocks == old(blocks)[p := j] && obType == old(obType)[p := FreeFrame]
    {
      hide RegionsApart, Paged, HeadsOk, ListsOk;
      PagedKept(obType, regions, p, FreeFrame);
      NotHead(obType, log2Pages, blocks, p);
      HeadsFreed(obType, log2Pages, blocks, p, j);
      ListPushed(freePages, blocks, j, p);
      ListsThere(freePages, blocks);
      obType := obType[p := FreeFrame];
      log2Pages := log2Pages[p := j];
      freePages := freePages[j := [p] + freePages[j]];
      blocks := blocks[p := j];
    }

    /**
     One round of physMem_FreeBlock: frees the block of order j at p. Merging doubles the block but
     not jSize, so the second look at the buddy finds the half just merged and stops.
     */
    method FreeEnd(p: nat, j: nat, i: nat)
      requires Linked({}) && p in obType && p !in blocks && j <= MAX_LOG && Aligned(p, j) && i < |regions|
      modifies this`obType, this`log2Pages, this`freePages, this`blocks
      ensures Linked({}) && blocks == FreeOne(old(blocks), regions[i], p, j)
      ensures obType == FreedTypes(old(obType), p, BuddyOf(p, j), Merges(old(blocks), regions[i], p, j))
    {
      hide RegionsApart, Paged, HeadsOk, ListsOk, Aligned;
      HoleAdded(obType, log2Pages, blocks, p);
      var jj, jPgNum, recheck := j, p, true;
      ghost var ob0, b0, y0 := obType, blocks, BuddyOf(p, j);
      ghost var merged := false;
      BuddyFacts(p, j);
      if y0 < p {
        BuddyTwice(p, j);
      }
      while recheck
        invariant !merged ==> jj == j && jPgNum == p && obType == ob0 && blocks == b0
        invariant merged ==>
          jj == j + 1 <= MAX_LOG && jPgNum == Min(p, y0) && y0 in b0 && b0[y0] == j && Inside(regions[i], y0, 1)
        invariant merged ==> blocks == b0 - {y0} && obType == ob0[if p < y0 then y0 else p := FreeSecondary]
        invariant merged ==> Aligned(jPgNum, j) && BuddyOf(jPgNum, j) == if p < y0 then y0 else p
        invariant Linked({jPgNum}) && jPgNum in obType
        invariant !recheck && !merged ==> !(j < MAX_LOG && Inside(regions[i], y0, 1) && y0 in b0 && b0[y0] == j)
        decreases !merged, recheck
      {
        recheck := false;
        if jj < MAX_LOG {
          var bPgNum := BuddyOf(jPgNum, j);
          if Inside(regions[i], bPgNum, 1) {
            InRegion(obType, regions, i, bPgNum);
            FreeHead(obType, log2Pages, blocks, {jPgNum}, bPgNum, jj);
            if obType[bPgNum] == FreeFrame && log2Pages[bPgNum] == jj {
              HeadsMerged(obType, log2Pages, blocks, jPgNum, bPgNum);
              ListsThere(freePages, blocks);
              ListPopped(freePages, blocks, bPgNum);
              freePages := freePages[jj := Del(freePages[jj], bPgNum)];
              blocks := blocks - {bPgNum};
              jj := jj + 1;
              if bPgNum < jPgNum {
                PagedKept(obType, regions, jPgNum, FreeSecondary);
                obType := obType[jPgNum := FreeSecondary];
                jPgNum := bPgNum;
              } else {
                PagedKept(obType, regions, bPgNum, FreeSecondary);
                obType := obType[bPgNum := FreeSecondary];
              }
              recheck, merged := true, true;
            }
          }
        }
      }
      FreeOneBlock(jPgNum, jj);
    }

    /**
     physMem_FreeBlock. The pages other than first pages of freed blocks must be marked already to be so
     afterwards.
     */
    method FreeBlock(p: nat, n: nat, i: nat)
      requires Valid() && 0 < n < 0x1_0000_0000 && Fits(p, n) && i < |regions| && Inside(regions[i], p, n)
      requires Apart(blocks, p, n)
      modifies this
      ensures Valid() && blocks == FreeRange(old(blocks), regions[i], p, n)
      ensures FreeSet(blocks) == old(FreeSet(blocks)) + Range(p, n)
      ensures forall q :: q in old(obType) && q !in FreeSet(blocks) ==> q in obType && obType[q] == old(obType)[q]
      ensures Marked(obType, blocks) <==> old(Marked(obType, blocks)) && RestMarked(old(obType), p, p + n, Heads(p, n))
      ensures Grown(old(blocks), blocks) && Runs(blocks, p, n)
      ensures Coalesced(blocks, regions[i])
         <==> Coalesced(old(blocks), regions[i]) && NoneFindsTwo(old(blocks), regions[i], p, n)
    {
      hide RegionsApart, Paged, HeadsOk, ListsOk, Sound, Apart, Fits, Inside, FreedSoFar, Marked, RestMarked, FreeRange,
        FreedTypes, FreeOne, FreeSet, Aligned, Grown, Runs, Coalesced, NoneFindsTwo;
      FreeRangeRuns(blocks, regions, i, p, n);
      FreeRangeCoalesced(blocks, regions, i, p, n);
      ghost var ob0, b0 := obType, blocks;
      numFreePageFrames := numFreePageFrames + n;
      FreedStart(obType, blocks, regions, i, p, n);
      var numPages: nat := n;
      while numPages > 0
        invariant Linked({}) && numPages <= n && FreedSoFar(ob0, b0, obType, blocks, regions, i, p, n, numPages)
        invariant numFreePageFrames == old(numFreePageFrames) + n
      {
        var j := Ffs32(numPages);
        FfsIsOrd(numPages, j);
        if j > MAX_LOG {
          j := MAX_LOG;
        }
        var jSize := Pow2(j);
        FreedNext(ob0, b0, obType, blocks, regions, i, p, n, numPages, j, jSize);
        ghost var ob, b := obType, blocks;
        FreeEnd(p + numPages - jSize, j, i);
        FreedStep(ob0, b0, ob, b, regions, i, p, n, numPages, j, jSize, p + numPages - jSize, obType, blocks);
        numPages := numPages - jSize;
      }
      FreedEnd(ob0, b0, obType, blocks, regions, i, p, n);
    }

    /** Takes the block at h off its free list, for a page type that is not free. */
    method TakeBlock(h: nat)
      requires Linked({}) && h in blocks
      modifies this`obType, this`freePages, this`blocks
      ensures Linked({}) && blocks == old(blocks) - {h} && obType == old(obType)[h := NewAlloc]
    {
      hide RegionsApart, Paged, HeadsOk, ListsOk;
      HeadThere(obType, log2Pages, blocks, h);
      PagedKept(obType, regions, h, NewAlloc);
      HeadsTaken(obType, log2Pages, blocks, h, NewAlloc);
      ListPopped(freePages, blocks, h);
      ListsThere(freePages, blocks);
      freePages := freePages[log2Pages[h] := Del(freePages[log2Pages[h]], h)];
      obType := obType[h := NewAlloc];
      blocks := blocks - {h};
    }

    /** The search of physMem_AllocateBlock: the first block of the first list from k up that has one. */
    method FindBlock(k: nat) returns (found: bool, h: nat)
      requires Linked({}) && k <= MAX_LOG
      ensures found <==> exists p :: p in blocks && blocks[p] >= k
      ensures found ==> h in blocks && blocks[h] >= k && forall p :: p in blocks && blocks[p] >= k ==>
        blocks[h] <= blocks[p]
    {
      found, h := false, 0;
      var j := k;
      while j <= MAX_LOG
        invariant k <= j <= MAX_LOG + 1
        invariant forall p :: p in blocks && blocks[p] >= k ==> blocks[p] >= j
      {
        if freePages[j] != [] {
          assert freePages[j][0] in freePages[j];
          assert freePages[j][0] in blocks && blocks[freePages[j][0]] == j;
          return true, freePages[j][0];
        }
        j := j + 1;
      }
    }

    /**
     physMem_AllocateBlock. It halts for no pages or more than the largest block, and perhaps when
     the pages of free blocks are not marked. Otherwise it takes the n pages at the start of a
     smallest block large enough, and fails only when there is none.
     */
    method AllocateBlock(n: nat) returns (halted: bool, found: bool, h: nat)
      requires Valid() && n < 0x1_0000_0000
      modifies this
      ensures n == 0 || n > Pow2(MAX_LOG) ==> halted
      ensures halted ==> n == 0 || n > Pow2(MAX_LOG) || !old(Marked(obType, blocks))
      ensures 0 < n <= 128 && old(Marked(obType, blocks)) ==> !halted
      ensures !halted ==> Valid()
      ensures !halted && !found ==> blocks == old(blocks) && forall p :: p in blocks ==> Pow2(blocks[p]) < n
      ensures !halted && found ==>
        h in old(blocks) && n <= Pow2(old(blocks)[h]) && blocks == Allocated(old(blocks), h, n)
      ensures !halted && found ==>
        FreeSet(blocks) == old(FreeSet(blocks)) - Range(h, n) && Range(h, n) <= old(FreeSet(blocks))
      ensures !halted && found ==> forall p :: p in old(blocks) && Pow2(old(blocks)[p]) >= n ==>
        old(blocks)[h] <= old(blocks)[p]
      ensures !halted && found ==> Fits(h, n)
      ensures !halted ==> forall r :: Coalesced(old(blocks), r) ==> Coalesced(blocks, r)
      ensures !halted && old(Marked(obType, blocks)) ==> Marked(obType, blocks)
      ensures !halted && found && old(Marked(obType, blocks)) ==> RestMarked(obType, h, h + n, {h})
    {
      hide RegionsApart, Paged, HeadsOk, ListsOk, Sound, Apart, Fits, Marked, RestMarked, FreeSet, Carve, Carving,
        Allocated, IsFree, Range, Pow2, Aligned, LowBit, Coalesced;
      LargestBlock();
      found, h := false, 0;
      var k := Fls32(if n == 0 then 0xffff_ffff else n - 1);
      LeastOrder(n, k);
      if k > MAX_LOG {
        return true, found, h;
      }
      found, h := FindBlock(k);
      Enough(blocks, n, k);
      if !found {
        return false, found, h;
      }
      ghost var ob0, b0 := obType, blocks;
      CarvingStart(obType, log2Pages, blocks, regions, h, n);
      var j := log2Pages[h];
      TakeBlock(h);
      numFreePageFrames := numFreePageFrames - n;
      halted := CarveBlock(h, j, n, ob0, b0);
      if !halted {
        CarvingEnd(ob0, b0, obType, blocks, regions, h, n);
        forall r | Coalesced(b0, r)
          ensures Coalesced(blocks, r)
        {
          AllocatedCoalesced(b0, regions, r, h, n);
        }
      }
    }

    /** The loop of physMem_AllocateBlock. */
    method CarveBlock(h: nat, j0: nat, n: nat, ghost ob0: map<nat, ObType>, ghost b0: Blocks) returns (halted: bool)
      requires Linked({}) && Carving(ob0, b0, obType, blocks, h, n, h, j0, n)
      requires Sound(b0, regions) && Paged(ob0, regions)
      modifies this`obType, this`log2Pages, this`freePages, this`blocks
      ensures halted ==> !Marked(ob0, b0)
      ensures !halted ==> Linked({}) && exists x, j :: Carving(ob0, b0, obType, blocks, h, n, x, j, Pow2(j))
    {
      hide RegionsApart, Paged, HeadsOk, ListsOk, Sound, Apart, Marked, FreeSet, Carve, Carving, Allocated, IsFree,
        Range, Pow2, Aligned;
      var xPgNum, j, numPages := h, j0, n;
      var jSize := Pow2(j);
      while jSize != numPages
        invariant Linked({}) && jSize == Pow2(j)
        invariant Carving(ob0, b0, obType, blocks, h, n, xPgNum, j, numPages)
        decreases j
      {
        CarvingStep(ob0, b0, obType, blocks, regions, h, n, xPgNum, j, numPages);
        j := j - 1;
        jSize := Pow2(j);
        if jSize >= numPages {
          HoleAdded(obType, log2Pages, blocks, xPgNum + jSize);
          FreeOneBlock(xPgNum + jSize, j);
        } else {
          numPages := numPages - jSize;
          xPgNum := xPgNum + jSize;
          if obType[xPgNum] != FreeSecondary {
            return true;
          }
        }
      }
      return false;
    }

    /**
     The search of physMem_SplitContainingFreeBlock: clearing the lowest one bit again and again
     leads from a page of a free block to the first.
     */
    method FindContaining(p: nat, ghost h: nat) returns (x: nat)
      requires Valid() && Marked(obType, blocks) && h in blocks && h <= p < h + Pow2(blocks[h])
      ensures x == h && x in obType && x in log2Pages && log2Pages[x] == blocks[x]
    {
      hide RegionsApart, Paged, HeadsOk, ListsOk, Sound, Marked, IsFree, Pow2, Aligned, FreeSet, Apart;
      x := p;
      BlockPages(obType, log2Pages, blocks, regions, h, x);
      while obType[x] != FreeFrame
        invariant h <= x < h + Pow2(blocks[h]) && x in obType
        invariant obType[x] == FreeFrame <==> x == h
        decreases x
      {
        assert obType[x] == FreeSecondary by {
          BlockPages(obType, log2Pages, blocks, regions, h, x);
        }
        ContainingStep(blocks, regions, h, x);
        x := ClearLowBit(x);
        BlockPages(obType, log2Pages, blocks, regions, h, x);
      }
    }

    /**
     physMem_SplitContainingFreeBlock, for a page of a free block of more than one page; h is the first page
     of the block.
     */
    method SplitContainingFreeBlock(p: nat, ghost h: nat)
      requires Valid() && Marked(obType, blocks) && h in blocks && h <= p < h + Pow2(blocks[h]) && blocks[h] > 0
      modifies this`obType, this`log2Pages, this`freePages, this`blocks
      ensures Valid() && Marked(obType, blocks) && blocks == SplitAt(old(blocks), h)
      ensures FreeSet(blocks) == old(FreeSet(blocks))
    {
      hide RegionsApart, Paged, HeadsOk, ListsOk, Sound, Marked, IsFree, Pow2, Aligned, FreeSet, Apart;
      var x := FindContaining(p, h);
      var j := log2Pages[x];
      SplitSound(blocks, regions, h);
      SplitFacts(obType, log2Pages, blocks, regions, h, j, Pow2(j - 1));
      ListPopped(freePages, blocks, x);
      ListsThere(freePages, blocks);
      freePages := freePages[j := Del(freePages[j], x)];
      blocks := blocks - {x};
      j := j - 1;
      FreeOneBlock(x, j);
      HoleAdded(obType, log2Pages, blocks, x + Pow2(j));
      FreeOneBlock(x + Pow2(j), j);
    }

    /** AllocateThisPhysPage of src/sys/kernel/kern_PreloadObSource.c: splits blocks until page p is a block. */
    method AllocateThisPhysPage(p: nat)
      requires Valid() && Marked(obType, blocks) && IsFree(blocks, p)
      modifies this
      ensures Valid() && Marked(obType, blocks) && obType[p] == NewAlloc
      ensures FreeSet(blocks) == old(FreeSet(blocks)) - {p}
      ensures forall r :: Coalesced(old(blocks), r) ==> Coalesced(blocks, r)
    {
      hide RegionsApart, Paged, HeadsOk, ListsOk, Sound, Marked, Aligned, FreeSet, Apart, SplitAt, IsFree, Pow2,
        Coalesced;
      ghost var h := Containing(blocks, p);
      BlockPages(obType, log2Pages, blocks, regions, h, p);
      PageAlone(obType, log2Pages, blocks, regions, h, p);
      AllLess(blocks, h);
      while obType[p] != FreeFrame || log2Pages[p] != 0
        invariant forall r :: Coalesced(old(blocks), r) ==> Coalesced(blocks - {h}, r)
        invariant Valid() && Marked(obType, blocks) && FreeSet(blocks) == old(FreeSet(blocks))
        invariant numFreePageFrames == old(numFreePageFrames)
        invariant h in blocks && h <= p < h + Pow2(blocks[h]) && p in obType && p in log2Pages
        invariant obType[p] == FreeFrame && log2Pages[p] == 0 <==> blocks[h] == 0
        invariant blocks[h] == 0 ==> p == h
        decreases blocks[h]
      {
        ghost var j := blocks[h];
        SplitHead(blocks, h, p);
        SplitLess(blocks, regions, h, p);
        SplitContainingFreeBlock(p, h);
        h := if p < h + Pow2(j - 1) then h else h + Pow2(j - 1);
        BlockPages(obType, log2Pages, blocks, regions, h, p);
        PageAlone(obType, log2Pages, blocks, regions, h, p);
      }
      TakePage(obType, blocks, regions, h, p);
      TakeBlock(p);
      numFreePageFrames := numFreePageFrames - 1;
    }

    /**
     physMem_FreeAll: frees a whole region, into blocks as large as can be: every aligned run of pages in
     the region, up to the largest order, is in one block.
     */
    method FreeAll(i: nat)
      requires Valid() && i < |regions| && regions[i].first + regions[i].nPages < 0x8000_0000
      requires forall q :: Inside(regions[i], q, 1) ==> q !in FreeSet(blocks)
      modifies this
      ensures Valid() && FreeSet(blocks) == old(FreeSet(blocks)) + Range(regions[i].first, regions[i].nPages)
      ensures old(Marked(obType, blocks)
                  && RestMarked(obType, regions[i].first, regions[i].first + regions[i].nPages, {})) ==>
        Marked(obType, blocks)
      ensures forall q :: q in old(obType) && q !in FreeSet(blocks) ==> q in obType && obType[q] == old(obType)[q]
      ensures Grown(old(blocks), blocks) && Runs(blocks, regions[i].first, regions[i].nPages)
      ensures Coalesced(blocks, regions[i])
    {
      hide RegionsApart, Paged, HeadsOk, ListsOk, Sound, Marked, IsFree, Pow2, FreeSet, RestMarked, Fits, AllSoFar,
        Range, RunsSoFar, Grown, Runs, Coalesced;
      var pgNum: nat, nPages: nat := regions[i].first, regions[i].nPages;
      ghost var ob0, b0, first, end := obType, blocks, pgNum, pgNum + nPages;
      ghost var at := pgNum;
      AllStart(obType, blocks, first, end);
      RunsStart(blocks, first);
      RunsEnd(b0, blocks, first);
      while nPages > 0
        invariant Valid() && pgNum + nPages == end && first <= pgNum == at
        invariant AllSoFar(ob0, b0, obType, blocks, first, pgNum, end) && RunsSoFar(b0, blocks, first, pgNum)
        invariant Grown(b0, blocks) && Runs(blocks, first, pgNum - first)
        decreases nPages
      {
        var j := Ffs32(pgNum);
        var pgs := Pow2(j);
        FreeAllStep(pgNum, j, nPages, pgs);
        if pgs > nPages {
          FreePart(i, pgNum, nPages, ob0, b0, first, end);
          at := end;
          break;
        } else {
          FreePart(i, pgNum, pgs, ob0, b0, first, end);
        }
        pgNum := pgNum + pgs;
        nPages := nPages - pgs;
        at := pgNum;
      }
      AllDone(ob0, b0, obType, blocks, first, at, end);
      BlocksInside(blocks, regions, i);
      RunsCoalesced(blocks, regions, regions[i]);
    }

    /** One round of physMem_FreeAll. */
    method FreePart(i: nat, p: nat, n: nat, ghost ob0: map<nat, ObType>, ghost b0: Blocks, ghost first: nat,
                    ghost end: nat)
      requires Valid() && i < |regions| && first == regions[i].first && end == first + regions[i].nPages < 0x8000_0000
      requires AllSoFar(ob0, b0, obType, blocks, first, p, end) && 0 < n && first <= p && p + n <= end && Fits(p, n)
      requires RunsSoFar(b0, blocks, first, p)
      modifies this
      ensures Valid() && AllSoFar(ob0, b0, obType, blocks, first, p + n, end)
      ensures Grown(b0, blocks) && Runs(blocks, first, p + n - first)
      ensures p > 0 && n == Pow2(Ord(p)) ==> RunsSoFar(b0, blocks, first, p + n)
    {
      hide RegionsApart, Paged, HeadsOk, ListsOk, Sound, Marked, IsFree, FreeSet, RestMarked, Fits, AllSoFar, Range,
        FreeRange, Apart, RunsSoFar, Grown, Runs, Pow2, Coalesced, NoneFindsTwo;
      ghost var ob, b := obType, blocks;
      AllApart(ob0, b0, ob, b, first, p, end, n);
      FreeBlock(p, n, i);
      AllStep(ob0, b0, ob, b, first, p, end, n, obType, blocks, Heads(p, n));
      RunsStep(b0, b, first, p, n, blocks);
      assert p - first + n == p + n - first;
    }
  }

  lemma RunsEnd(b0: Blocks, b: Blocks, first: nat)
    requires RunsSoFar(b0, b, first, first)
    ensures Grown(b0, b) && Runs(b, first, 0)
  {
  }

  lemma LargestBlock()
    ensures Pow2(MAX_LOG) == 128
  {
    Pow2Values();
  }

  lemma NoneFree(ob: map<nat, ObType>)
    ensures FreeSet(map[]) == {} && Marked(ob, map[])
  {
  }

  lemma AllPagesNone(regions: seq<Region>)
    requires regions == []
    ensures AllPages(regions) == {}
  {
  }

  lemma AllDone(ob0: map<nat, ObType>, b0: Blocks, ob: map<nat, ObType>, b: Blocks, first: nat, p: nat, end: nat)
    requires AllSoFar(ob0, b0, ob, b, first, p, end) && p == end
    ensures FreeSet(b) == FreeSet(b0) + Range(first, end - first)
    ensures Marked(ob0, b0) && RestMarked(ob0, first, end, {}) ==> Marked(ob, b)
    ensures forall q :: q in ob0 && q !in FreeSet(b) ==> q in ob && ob[q] == ob0[q]
  {
  }

  lemma PagedKept(ob: map<nat, ObType>, regions: seq<Region>, p: nat, t: ObType)
    requires Paged(ob, regions) && p in ob
    ensures Paged(ob[p := t], regions)
  {
  }

  lemma NotHead(ob: map<nat, ObType>, log2: map<nat, nat>, b: Blocks, p: nat)
    requires HeadsOk(ob, log2, b, {p})
    ensures p !in b
  {
  }

  lemma ListsThere(lists: Lists, b: Blocks)
    requires ListsOk(lists, b)
    ensures |lists| == MAX_LOG + 1
  {
  }

  lemma InRegion(ob: map<nat, ObType>, regions: seq<Region>, i: nat, p: nat)
    requires Paged(ob, regions) && i < |regions| && Inside(regions[i], p, 1)
    ensures p in ob
  {
    SomewhereIs(regions, i, p, 1);
  }
}
