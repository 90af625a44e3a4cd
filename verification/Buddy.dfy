/**
 The algebra of free blocks behind src/sys/kernel/kern_PhysMem.c: a block of 2**j pages starts at a
 physical page number that is a multiple of 2**j and lies in one region.
 */
module Buddy {
  import opened Bits

  const MAX_LOG: nat := 7  // logMaxFreePageBlock

  /** A PmemInfo: pages first to first + nPages - 1. */
  datatype Region = Region(first: nat, nPages: nat)

  /** The order of each free block, by its first page. */
  type Blocks = map<nat, nat>

  predicate Inside(r: Region, p: nat, n: nat) {
    r.first <= p && p + n <= r.first + r.nPages
  }

  ghost predicate Somewhere(regions: seq<Region>, p: nat, n: nat) {
    exists i :: 0 <= i < |regions| && Inside(regions[i], p, n)
  }

  ghost predicate RegionsApart(regions: seq<Region>) {
    forall i, j :: 0 <= i < j < |regions| ==>
      regions[i].first + regions[i].nPages <= regions[j].first ||
        regions[j].first + regions[j].nPages <= regions[i].first
  }

  /** No free block overlaps the n pages from p. */
  ghost predicate Apart(b: Blocks, p: nat, n: nat) {
    forall q :: q in b ==> q + Pow2(b[q]) <= p || p + n <= q
  }

  /** Free blocks are aligned to their size, inside a region, and disjoint. */
  ghost predicate Sound(b: Blocks, regions: seq<Region>) {
    && (forall p :: p in b ==> b[p] <= MAX_LOG && Aligned(p, b[p]) && Somewhere(regions, p, Pow2(b[p])))
    && (forall p, q :: p in b && q in b && p < q ==> p + Pow2(b[p]) <= q)
  }

  function Range(p: nat, n: nat): (s: set<nat>)
    ensures forall q :: q in s <==> p <= q < p + n
  {
    if n == 0 then {} else Range(p, n - 1) + {p + n - 1}
  }

  /** Page q is in a free block. */
  ghost predicate IsFree(b: Blocks, q: nat) {
    exists p :: p in b && q in Range(p, Pow2(b[p]))
  }

  lemma ApartIff(b: Blocks, p: nat, n: nat)
    requires n > 0
    ensures Apart(b, p, n) <==> forall q :: p <= q < p + n ==> !IsFree(b, q)
  {
    forall h | h in b && !(h + Pow2(b[h]) <= p || p + n <= h)
      ensures exists q :: p <= q < p + n && IsFree(b, q)
    {
      var q := if h < p then p else h;
      assert q in Range(h, Pow2(b[h])) && IsFree(b, q);
    }
  }

  lemma {:induction false} Multiple(q: nat, j: nat)
    ensures Aligned(q * Pow2(j), j)
  {
    MulMod(q, Pow2(j));
  }

  lemma MulAdd(a: nat, b: nat, p: nat)
    ensures (a + b) * p == a * p + b * p
  {
  }

  lemma MulSub(a: nat, b: nat, p: nat)
    requires a * p >= b * p && p > 0
    ensures a >= b && (a - b) * p == a * p - b * p
  {
    MulLess(p, b, a + 1);
  }

  lemma AlignedAdd(x: nat, y: nat, j: nat)
    requires Aligned(x, j) && Aligned(y, j)
    ensures Aligned(x + y, j) && (x >= y ==> Aligned(x - y, j))
  {
    hide Aligned, Pow2;
    var p := Pow2(j);
    var a, b := x / p, y / p;
    Exact(x, j);
    Exact(y, j);
    MulAdd(a, b, p);
    Multiple(a + b, j);
    if x >= y {
      MulSub(a, b, p);
      Multiple(a - b, j);
    }
  }

  lemma AlignedLess(x: nat, i: nat, j: nat)
    requires i <= j && Aligned(x, j)
    ensures Aligned(x, i)
  {
    Pow2Add(i, j - i);
    var q := x / Pow2(j);
    MulAssoc(q, Pow2(j - i), Pow2(i));
    assert x == (q * Pow2(j - i)) * Pow2(i);
    Multiple(q * Pow2(j - i), i);
  }

  /** jPgNum ^ jSize: the other half of the block of twice the size. */
  function BuddyOf(p: nat, j: nat): (y: nat)
    requires Aligned(p, j)
  {
    if (p / Pow2(j)) % 2 == 0 then p + Pow2(j) else
      BuddyBelow(p, j);
      p - Pow2(j)
  }

  lemma BuddyBelow(p: nat, j: nat)
    requires Aligned(p, j) && (p / Pow2(j)) % 2 == 1
    ensures p >= Pow2(j)
  {
    var q := p / Pow2(j);
    assert p == q * Pow2(j);
    MulMono(1, q, Pow2(j));
  }

  function Min(a: nat, b: nat): nat {
    if a <= b then a else b
  }

  /** An even multiple of 2**j is a multiple of 2**(j+1). */
  lemma EvenMultiple(p: nat, j: nat, q: nat)
    requires p == q * Pow2(j) && q % 2 == 0
    ensures Aligned(p, j + 1)
  {
    var h := q / 2;
    MulAssoc(h, 2, Pow2(j));
    assert q == h * 2 && Pow2(j + 1) == Pow2(j) * 2;
    Multiple(h, j + 1);
  }

  lemma Exact(p: nat, j: nat)
    requires Aligned(p, j)
    ensures p == (p / Pow2(j)) * Pow2(j)
  {
  }

  lemma MulPred(q: nat, w: nat)
    requires q > 0
    ensures (q - 1) * w == q * w - w
  {
  }

  lemma BuddyFacts(p: nat, j: nat)
    requires Aligned(p, j)
    ensures Aligned(BuddyOf(p, j), j) && Aligned(Min(p, BuddyOf(p, j)), j + 1)
    ensures BuddyOf(p, j) == p + Pow2(j) || BuddyOf(p, j) + Pow2(j) == p
  {
    hide Aligned, Pow2;
    var q, w := p / Pow2(j), Pow2(j);
    Exact(p, j);
    Multiple(1, j);
    AlignedAdd(p, w, j);
    if q % 2 == 0 {
      EvenMultiple(p, j, q);
    } else {
      BuddyBelow(p, j);
      MulPred(q, w);
      EvenMultiple(p - w, j, q - 1);
    }
  }

  /** The buddy of the lower half is the upper half. */
  lemma BuddyTwice(p: nat, j: nat)
    requires Aligned(p, j) && BuddyOf(p, j) < p
    ensures Aligned(BuddyOf(p, j), j) && BuddyOf(BuddyOf(p, j), j) == p
  {
    hide Aligned, Pow2;
    BuddyFacts(p, j);
    var q, w, y := p / Pow2(j), Pow2(j), BuddyOf(p, j);
    Exact(p, j);
    MulPred(q, w);
    MulMod(q - 1, w);
  }

  // ---------- Sets of pages ----------

  lemma {:induction false} RangeSize(p: nat, n: nat)
    ensures |Range(p, n)| == n
  {
    if n > 0 {
      RangeSize(p, n - 1);
      assert p + n - 1 !in Range(p, n - 1);
    }
  }

  ghost function FreeSet(b: Blocks): (s: set<nat>)
    ensures forall q :: q in s <==> IsFree(b, q)
  {
    set p: nat, q: nat | p in b && q in Range(p, Pow2(b[p])) :: q
  }

  /** A block added where nothing was free. */
  lemma BlockAdded(b: Blocks, regions: seq<Region>, p: nat, j: nat)
    requires Sound(b, regions) && j <= MAX_LOG && Aligned(p, j) && Somewhere(regions, p, Pow2(j))
    requires Apart(b, p, Pow2(j))
    ensures p !in b && Sound(b[p := j], regions)
    ensures FreeSet(b[p := j]) == FreeSet(b) + Range(p, Pow2(j))
  {
    hide Aligned, Somewhere, Pow2;
    var b' := b[p := j];
    forall q: nat
      ensures IsFree(b', q) <==> IsFree(b, q) || q in Range(p, Pow2(j))
    {
      if q in Range(p, Pow2(j)) {
        assert p in b' && b'[p] == j;
      }
      if IsFree(b, q) {
        var h :| h in b && q in Range(h, Pow2(b[h]));
        assert h in b' && b'[h] == b[h];
      }
    }
  }

  lemma BlockRemoved(b: Blocks, regions: seq<Region>, p: nat)
    requires Sound(b, regions) && p in b
    ensures Sound(b - {p}, regions) && Apart(b - {p}, p, Pow2(b[p]))
    ensures FreeSet(b - {p}) == FreeSet(b) - Range(p, Pow2(b[p]))
  {
    hide Aligned, Somewhere, Pow2, IsFree, FreeSet, Range;
    FreeSetRemoved(b, p);
  }

  lemma FreeSetRemoved(b: Blocks, p: nat)
    requires p in b && Apart(b - {p}, p, Pow2(b[p]))
    ensures FreeSet(b - {p}) == FreeSet(b) - Range(p, Pow2(b[p]))
  {
    hide Pow2;
    var b' := b - {p};
    forall q: nat
      ensures IsFree(b', q) <==> IsFree(b, q) && q !in Range(p, Pow2(b[p]))
    {
      if IsFree(b, q) && q !in Range(p, Pow2(b[p])) {
        var h :| h in b && q in Range(h, Pow2(b[h]));
        assert h in b';
      }
      if IsFree(b', q) {
        var h :| h in b' && q in Range(h, Pow2(b'[h]));
        assert h in b && b[h] == b'[h];
      }
    }
  }

  lemma BlockFacts(b: Blocks, regions: seq<Region>, p: nat)
    requires Sound(b, regions) && p in b
    ensures b[p] <= MAX_LOG && Aligned(p, b[p]) && Somewhere(regions, p, Pow2(b[p]))
    ensures forall q :: q in Range(p, Pow2(b[p])) ==> IsFree(b, q)
  {
  }

  lemma ApartJoin(b: Blocks, p: nat, y: nat, w: nat)
    requires Apart(b, p, w) && Apart(b, y, w) && (y == p + w || y + w == p)
    ensures Apart(b, Min(p, y), 2 * w)
    ensures Range(Min(p, y), 2 * w) == Range(p, w) + Range(y, w)
  {
    hide Pow2;
    if w > 0 {
      ApartIff(b, p, w);
      ApartIff(b, y, w);
      ApartIff(b, Min(p, y), 2 * w);
    }
  }

  lemma ApartPart(b: Blocks, p: nat, n: nat, p': nat, n': nat)
    requires Apart(b, p, n) && p <= p' && p' + n' <= p + n
    ensures Apart(b, p', n')
  {
  }

  /** The region of a page holds the whole of any block that starts there or has its end there. */
  lemma SameRegion(regions: seq<Region>, i: nat, p: nat, n: nat)
    requires RegionsApart(regions) && i < |regions| && Somewhere(regions, p, n) && n > 0 && Inside(regions[i], p, 1)
    ensures Inside(regions[i], p, n)
  {
  }

  // ---------- Freeing ----------

  /** The buddy of the block at p is in the same region, and a free block as large. */
  predicate Merges(b: Blocks, r: Region, p: nat, j: nat)
    requires Aligned(p, j)
  {
    var y := BuddyOf(p, j);
    j < MAX_LOG && Inside(r, y, 1) && y in b && b[y] == j
  }

  /**
   One round of physMem_FreeBlock: a block of order j is freed, merging with its buddy if that is free and as
   large.
   */
  function FreeOne(b: Blocks, r: Region, p: nat, j: nat): Blocks
    requires Aligned(p, j)
  {
    var y := BuddyOf(p, j);
    if Merges(b, r, p, j) then (b - {y})[Min(p, y) := j + 1] else b[p := j]
  }

  lemma FreeOneSound(b: Blocks, regions: seq<Region>, i: nat, p: nat, j: nat)
    requires Sound(b, regions) && RegionsApart(regions) && i < |regions|
    requires j <= MAX_LOG && Aligned(p, j) && Inside(regions[i], p, Pow2(j)) && Apart(b, p, Pow2(j))
    ensures Sound(FreeOne(b, regions[i], p, j), regions)
    ensures FreeSet(FreeOne(b, regions[i], p, j)) == FreeSet(b) + Range(p, Pow2(j))
  {
    hide Aligned, Sound, Pow2, IsFree, Apart, Somewhere, RegionsApart, Range, FreeSet;
    var y, w := BuddyOf(p, j), Pow2(j);
    SomewhereIs(regions, i, p, w);
    if j < MAX_LOG && Inside(regions[i], y, 1) && y in b && b[y] == j {
      BuddyFacts(p, j);
      BlockFacts(b, regions, y);
      SameRegion(regions, i, y, w);
      BlockRemoved(b, regions, y);
      var b0, m := b - {y}, Min(p, y);
      Doubled(j);
      SomewhereIs(regions, i, m, 2 * w);
      ApartFewer(b, y, p, w);
      ApartJoin(b0, p, y, w);
      BlockAdded(b0, regions, m, j + 1);
    } else {
      BlockAdded(b, regions, p, j);
    }
  }

  lemma SomewhereIs(regions: seq<Region>, i: nat, p: nat, n: nat)
    requires i < |regions| && Inside(regions[i], p, n)
    ensures Somewhere(regions, p, n)
  {
  }

  lemma Doubled(j: nat)
    ensures Pow2(j + 1) == 2 * Pow2(j)
  {
  }

  lemma ApartFewer(b: Blocks, y: nat, p: nat, n: nat)
    requires Apart(b, p, n)
    ensures Apart(b - {y}, p, n)
  {
  }

  /** ffs32, for a number that is not zero. */
  function Ord(m: nat): nat
    requires m > 0
  {
    if m % 2 == 1 then 0 else 1 + Ord(m / 2)
  }

  lemma {:induction false} OrdOf(odd: nat, n: nat)
    requires odd % 2 == 1
    ensures odd * Pow2(n) > 0 && Ord(odd * Pow2(n)) == n
  {
    if n > 0 {
      OrdOf(odd, n - 1);
      assert odd * Pow2(n) == 2 * (odd * Pow2(n - 1));
    } else {
      assert odd * Pow2(0) == odd;
    }
  }

  lemma FfsIsOrd(w: nat, num: nat)
    requires w > 0 && exists odd: nat :: odd % 2 == 1 && Shifted(w, odd, num)
    ensures Ord(w) == num && LowBit(w) == Pow2(num)
  {
    var odd: nat :| odd % 2 == 1 && Shifted(w, odd, num);
    OrdOf(odd, num);
    LowBitOf(odd, num);
  }

  lemma {:induction false} OrdAligned(m: nat)
    requires m > 0
    ensures LowBit(m) == Pow2(Ord(m)) && Aligned(m, Ord(m))
  {
    if m % 2 == 0 {
      OrdAligned(m / 2);
      HalfAligned(m, Pow2(Ord(m / 2)));
    }
  }

  /** The order of the smallest block at the end of m pages. */
  function EndOrder(m: nat): (j: nat)
    requires m > 0
    ensures j <= MAX_LOG
  {
    Min(Ord(m), MAX_LOG)
  }

  lemma EndBlock(m: nat)
    requires m > 0
    ensures Pow2(EndOrder(m)) <= m && Aligned(m, EndOrder(m))
  {
    hide Aligned, Pow2;
    OrdAligned(m);
    AlignedLess(m, EndOrder(m), Ord(m));
    Pow2Monotone(EndOrder(m), Ord(m));
  }

  /** m pages can be freed, or start, at p: p is a multiple of a power of two that is at least m. */
  predicate Fits(p: nat, m: nat) {
    p == 0 || LowBit(p) >= m
  }

  lemma FitsAligned(p: nat, m: nat, j: nat)
    requires Fits(p, m) && Pow2(j) <= m
    ensures Aligned(p, j)
  {
    hide Pow2;
    if p > 0 {
      LowBitAligned(p, j);
    }
  }

  /** physMem_FreeBlock: the smallest block at the end first. */
  function FreeRange(b: Blocks, r: Region, p: nat, m: nat): Blocks
    requires Fits(p, m)
    decreases m
  {
    if m == 0 then b
    else
      EndAligned(p, m);
      var j := EndOrder(m);
      FreeRange(FreeOne(b, r, p + m - Pow2(j), j), r, p, m - Pow2(j))
  }

  lemma EndAligned(p: nat, m: nat)
    requires m > 0 && Fits(p, m)
    ensures Pow2(EndOrder(m)) <= m && Aligned(p + m - Pow2(EndOrder(m)), EndOrder(m)) && Fits(p, m - Pow2(EndOrder(m)))
  {
    hide Aligned, Pow2, LowBit;
    var j := EndOrder(m);
    EndBlock(m);
    FitsAligned(p, m, j);
    AlignedAdd(p, m, j);
    Multiple(1, j);
    AlignedAdd(p + m, Pow2(j), j);
  }

  lemma FreeRangeStep(b: Blocks, r: Region, p: nat, m: nat, w: nat)
    requires m > 0 && Fits(p, m) && w == Pow2(EndOrder(m))
    ensures w <= m && Aligned(p + m - w, EndOrder(m)) && Fits(p, m - w)
    ensures FreeRange(b, r, p, m) == FreeRange(FreeOne(b, r, p + m - w, EndOrder(m)), r, p, m - w)
  {
    hide Aligned, Pow2, LowBit, FreeOne, EndOrder, Fits;
    EndAligned(p, m);
  }

  lemma {:induction false} FreeRangeSound(b: Blocks, regions: seq<Region>, i: nat, p: nat, m: nat)
    requires Sound(b, regions) && RegionsApart(regions) && i < |regions| && Fits(p, m)
    requires Inside(regions[i], p, m) && (m > 0 ==> Apart(b, p, m))
    ensures Sound(FreeRange(b, regions[i], p, m), regions)
    ensures FreeSet(FreeRange(b, regions[i], p, m)) == FreeSet(b) + Range(p, m)
    decreases m
  {
    if m > 0 {
      FreeRangeSoundStep(b, regions, i, p, m, Pow2(EndOrder(m)));
    } else {
      assert Range(p, 0) == {};
    }
  }

  lemma {:induction false} FreeRangeSoundStep(b: Blocks, regions: seq<Region>, i: nat, p: nat, m: nat, w: nat)
    requires Sound(b, regions) && RegionsApart(regions) && i < |regions| && Fits(p, m)
    requires Inside(regions[i], p, m) && m > 0 && Apart(b, p, m) && w == Pow2(EndOrder(m))
    ensures Sound(FreeRange(b, regions[i], p, m), regions)
    ensures FreeSet(FreeRange(b, regions[i], p, m)) == FreeSet(b) + Range(p, m)
    decreases m, 0
  {
    hide Aligned, FreeOne, FreeRange, Sound, Fits, Apart, Pow2, IsFree, EndOrder, RegionsApart, FreeSet;
    FreeRangeStep(b, regions[i], p, m, w);
    var x := p + m - w;
    var b' := FreeOne(b, regions[i], x, EndOrder(m));
    ApartPart(b, p, m, x, w);
    FreeOneSound(b, regions, i, x, EndOrder(m));
    if m > w {
      StillApart(b, b', p, m - w, x, w);
    }
    FreeRangeSound(b', regions, i, p, m - w);
    RangeSplit(p, m - w, w);
  }

  lemma RangeSplit(p: nat, n: nat, w: nat)
    ensures Range(p, n + w) == Range(p, n) + Range(p + n, w)
  {
  }

  /** What was apart from both stays apart when the free pages grow by the other. */
  lemma StillApart(b: Blocks, b': Blocks, p: nat, n: nat, x: nat, w: nat)
    requires n > 0 && Apart(b, p, n + w) && x == p + n && FreeSet(b') == FreeSet(b) + Range(x, w)
    ensures Apart(b', p, n)
  {
    ApartIff(b, p, n + w);
    forall q | p <= q < p + n
      ensures !IsFree(b', q)
    {
      assert q !in FreeSet(b) && q !in Range(x, w);
    }
    ApartIff(b', p, n);
  }

  // ---------- Splitting and allocating ----------

  lemma HalfAt(x: nat, j: nat)
    requires j > 0 && Aligned(x, j)
    ensures Pow2(j) == 2 * Pow2(j - 1) && Aligned(x, j - 1) && Aligned(x + Pow2(j - 1), j - 1)
  {
    hide Aligned;
    AlignedLess(x, j - 1, j);
    Multiple(1, j - 1);
    AlignedAdd(x, Pow2(j - 1), j - 1);
  }

  /** physMem_SplitContainingFreeBlock, of the block at h. */
  function SplitAt(b: Blocks, h: nat): Blocks
    requires h in b && b[h] > 0
  {
    b[h := b[h] - 1][h + Pow2(b[h] - 1) := b[h] - 1]
  }

  lemma SplitSound(b: Blocks, regions: seq<Region>, h: nat)
    requires Sound(b, regions) && h in b && b[h] > 0
    ensures Sound(SplitAt(b, h), regions) && FreeSet(SplitAt(b, h)) == FreeSet(b)
  {
    hide Aligned, Sound, Apart, IsFree, FreeSet, Pow2;
    var j := b[h];
    BlockFacts(b, regions, h);
    BlockRemoved(b, regions, h);
    HalfAt(h, j);
    var i :| 0 <= i < |regions| && Inside(regions[i], h, Pow2(j));
    var b0: Blocks := b - {h};
    var w := Pow2(j - 1);
    ApartPart(b0, h, 2 * w, h, w);
    BlockAdded(b0, regions, h, j - 1);
    ApartBeside(b0, h, w, j - 1);
    SomewhereIs(regions, i, h + w, w);
    BlockAdded(b0[h := j - 1], regions, h + w, j - 1);
    assert SplitAt(b, h) == b0[h := j - 1][h + w := j - 1];
    RangeSplit(h, w, w);
    WholeFree(b, h);
  }

  lemma ApartBeside(b: Blocks, h: nat, w: nat, j: nat)
    requires Apart(b, h, 2 * w) && w == Pow2(j)
    ensures Apart(b[h := j], h + w, w)
  {
  }

  lemma WholeFree(b: Blocks, h: nat)
    requires h in b
    ensures FreeSet(b) == FreeSet(b) - Range(h, Pow2(b[h])) + Range(h, Pow2(b[h]))
  {
    assert forall q :: q in Range(h, Pow2(b[h])) ==> IsFree(b, q);
  }

  /** The loop of physMem_AllocateBlock: m pages are kept from the 2**j at x, the rest is freed in halves. */
  function Carve(b: Blocks, x: nat, j: nat, m: nat): Blocks
    requires 0 < m <= Pow2(j)
    decreases j
  {
    if m == Pow2(j) then b
    else if Pow2(j - 1) >= m then Carve(b[x + Pow2(j - 1) := j - 1], x, j - 1, m)
    else Carve(b, x + Pow2(j - 1), j - 1, m - Pow2(j - 1))
  }

  lemma CarveStep(b: Blocks, x: nat, j: nat, m: nat, w: nat)
    requires 0 < m < Pow2(j) && (j > 0 ==> w == Pow2(j - 1))
    ensures j > 0 && Pow2(j) == 2 * w
    ensures Carve(b, x, j, m) == if w >= m then Carve(b[x + w := j - 1], x, j - 1, m) else Carve(b, x + w, j - 1, m - w)
  {
  }

  lemma CarveNone(b: Blocks, x: nat, j: nat)
    ensures Carve(b, x, j, Pow2(j)) == b && Range(x + Pow2(j), 0) == {}
  {
  }

  lemma {:induction false} CarveSound(b: Blocks, regions: seq<Region>, i: nat, x: nat, j: nat, m: nat)
    requires Sound(b, regions) && i < |regions| && j <= MAX_LOG && Aligned(x, j) && Inside(regions[i], x, Pow2(j))
    requires Apart(b, x, Pow2(j)) && 0 < m <= Pow2(j)
    ensures Sound(Carve(b, x, j, m), regions)
    ensures FreeSet(Carve(b, x, j, m)) == FreeSet(b) + Range(x + m, Pow2(j) - m)
    decreases j
  {
    hide Aligned, Sound, Apart, FreeSet, IsFree, Pow2, Somewhere, Carve, Range;
    if m == Pow2(j) {
      CarveNone(b, x, j);
    } else {
      var w := if j > 0 then Pow2(j - 1) else 0;
      CarveStep(b, x, j, m, w);
      HalfAt(x, j);
      ApartPart(b, x, 2 * w, x + w, w);
      ApartPart(b, x, 2 * w, x, w);
      if w >= m {
        SomewhereIs(regions, i, x + w, w);
        BlockAdded(b, regions, x + w, j - 1);
        ApartBelow(b, x, w, j - 1);
        CarveSound(b[x + w := j - 1], regions, i, x, j - 1, m);
        RangeSplit(x + m, w - m, w);
      } else {
        CarveSound(b, regions, i, x + w, j - 1, m - w);
      }
    }
  }

  lemma ApartBelow(b: Blocks, h: nat, w: nat, j: nat)
    requires Apart(b, h, w)
    ensures Apart(b[h + w := j], h, w)
  {
  }

  /** Taking n pages from the start of the block at h. */
  function Allocated(b: Blocks, h: nat, n: nat): Blocks
    requires h in b && 0 < n <= Pow2(b[h])
  {
    Carve(b - {h}, h, b[h], n)
  }

  lemma AllocatedSound(b: Blocks, regions: seq<Region>, h: nat, n: nat)
    requires Sound(b, regions) && h in b && 0 < n <= Pow2(b[h])
    ensures Sound(Allocated(b, h, n), regions)
    ensures FreeSet(Allocated(b, h, n)) == FreeSet(b) - Range(h, n) && Range(h, n) <= FreeSet(b)
  {
    hide Aligned, Sound, Apart, FreeSet, IsFree, Carve;
    BlockFacts(b, regions, h);
    var i :| 0 <= i < |regions| && Inside(regions[i], h, Pow2(b[h]));
    BlockRemoved(b, regions, h);
    CarveSound(b - {h}, regions, i, h, b[h], n);
    RangeSplit(h, n, Pow2(b[h]) - n);
    WholeFree(b, h);
  }

  /** The pages allocated can be freed again, and then the same pages are free as before. */
  lemma AllocateThenFree(b: Blocks, regions: seq<Region>, i: nat, h: nat, n: nat)
    requires Sound(b, regions) && RegionsApart(regions) && i < |regions| && h in b && 0 < n <= Pow2(b[h])
    requires Inside(regions[i], h, n)
    ensures Fits(h, n) && FreeSet(FreeRange(Allocated(b, h, n), regions[i], h, n)) == FreeSet(b)
  {
    hide Aligned, Sound, Apart, IsFree, FreeRange, Allocated, Pow2, RegionsApart;
    BlockFacts(b, regions, h);
    if h > 0 {
      LowBitAligned(h, b[h]);
    }
    AllocatedSound(b, regions, h, n);
    var b' := Allocated(b, h, n);
    assert forall q :: h <= q < h + n ==> q !in FreeSet(b');
    ApartIff(b', h, n);
    FreeRangeSound(b', regions, i, h, n);
  }

  // ---------- Coalescing ----------

  /** No two free blocks of the region are the halves of an aligned block that is small enough. */
  ghost predicate Coalesced(b: Blocks, r: Region) {
    forall p: nat, j: nat :: j < MAX_LOG && FreeAs(b, r, p, j) && p % Pow2(j + 1) == 0 ==> !FreeAs(b, r, p + Pow2(j), j)
  }

  /** There is a free block of order j at p, in the region. */
  predicate FreeAs(b: Blocks, r: Region, p: nat, j: nat) {
    p in b && b[p] == j && Inside(r, p, 1)
  }

  /** Of the aligned block of order j + 1 that x is a half of, the other half is a free block, at y. */
  predicate OtherHalfFree(b: Blocks, r: Region, x: nat, y: nat, j: nat) {
    && j < MAX_LOG && FreeAs(b, r, y, j)
    && ((y == x + Pow2(j) && x % Pow2(j + 1) == 0) || (x == y + Pow2(j) && y % Pow2(j + 1) == 0))
  }

  /** The other half of a block is free, and that of the two together is free as well. */
  ghost predicate FindsTwo(b: Blocks, r: Region, x: nat, j: nat) {
    exists y: nat :: OtherHalfFree(b, r, x, y, j) && SomeHalfFree(b, r, Min(x, y), j + 1)
  }

  ghost predicate SomeHalfFree(b: Blocks, r: Region, x: nat, j: nat) {
    exists y: nat :: OtherHalfFree(b, r, x, y, j)
  }

  lemma WidthUnaligned(j: nat)
    ensures !Aligned(Pow2(j), j + 1)
  {
  }

  /** jPgNum ^ jSize finds the other half. */
  lemma BuddyIsOtherHalf(x: nat, y: nat, j: nat)
    requires Aligned(x, j)
    ensures y == BuddyOf(x, j)
       <==> (y == x + Pow2(j) && Aligned(x, j + 1)) || (x == y + Pow2(j) && Aligned(y, j + 1))
  {
    hide Aligned, Pow2, BuddyOf;
    BuddyFacts(x, j);
    WidthUnaligned(j);
    var z := BuddyOf(x, j);
    if y == x + Pow2(j) && Aligned(x, j + 1) && z < x {
      AlignedAdd(x, z, j + 1);
    }
    if x == y + Pow2(j) && Aligned(y, j + 1) && x < z {
      AlignedAdd(x, y, j + 1);
    }
  }

  lemma MergesIs(b: Blocks, r: Region, x: nat, j: nat)
    requires Aligned(x, j)
    ensures Merges(b, r, x, j) <==> OtherHalfFree(b, r, x, BuddyOf(x, j), j)
    ensures forall y: nat :: OtherHalfFree(b, r, x, y, j) ==> y == BuddyOf(x, j)
  {
    BuddyIsOtherHalf(x, BuddyOf(x, j), j);
    forall y: nat | OtherHalfFree(b, r, x, y, j)
      ensures y == BuddyOf(x, j)
    {
      BuddyIsOtherHalf(x, y, j);
    }
  }

  /** What one round of physMem_FreeBlock does, without looking for buddies. */
  lemma FreeOneIs(b: Blocks, r: Region, x: nat, j: nat)
    requires Aligned(x, j)
    ensures forall y: nat :: OtherHalfFree(b, r, x, y, j) ==> FreeOne(b, r, x, j) == (b - {y})[Min(x, y) := j + 1]
    ensures !SomeHalfFree(b, r, x, j) ==> FreeOne(b, r, x, j) == b[x := j]
  {
    hide OtherHalfFree, Aligned, BuddyOf;
    MergesIs(b, r, x, j);
  }

  /** The same, by what FreeBlock looks for. */
  ghost predicate NoneMerges(b: Blocks, r: Region) {
    forall p :: p in b && Aligned(p, b[p]) && Inside(r, p, 1) ==> !Merges(b, r, p, b[p])
  }

  lemma CoalescedIs(b: Blocks, r: Region)
    ensures Coalesced(b, r) <==> NoneMerges(b, r)
  {
    hide Aligned, Pow2, BuddyOf;
    if Coalesced(b, r) {
      forall p | p in b && Aligned(p, b[p]) && Inside(r, p, 1)
        ensures !Merges(b, r, p, b[p])
      {
        PairIs(b, r, p, b[p]);
      }
    }
    if NoneMerges(b, r) {
      forall p: nat, j: nat | j < MAX_LOG && FreeAs(b, r, p, j) && p % Pow2(j + 1) == 0
        ensures !FreeAs(b, r, p + Pow2(j), j)
      {
        LowerHalf(b, r, p, j);
      }
    }
  }

  lemma PairIs(b: Blocks, r: Region, p: nat, j: nat)
    requires Coalesced(b, r) && Aligned(p, j) && FreeAs(b, r, p, j)
    ensures !Merges(b, r, p, j)
  {
    hide Aligned, Pow2, BuddyOf, Coalesced;
    MergesIs(b, r, p, j);
    var y := BuddyOf(p, j);
    PairApart(b, r, p, y, j);
  }

  lemma PairApart(b: Blocks, r: Region, p: nat, y: nat, j: nat)
    requires Coalesced(b, r) && FreeAs(b, r, p, j)
    ensures !OtherHalfFree(b, r, p, y, j)
  {
    hide Pow2;
  }

  lemma LowerHalf(b: Blocks, r: Region, p: nat, j: nat)
    requires j < MAX_LOG && FreeAs(b, r, p, j) && p % Pow2(j + 1) == 0
    ensures Aligned(p, j) && (Merges(b, r, p, j) <==> FreeAs(b, r, p + Pow2(j), j))
  {
    assert Aligned(p, j + 1);
    hide Pow2, BuddyOf;
    AlignedLess(p, j, j + 1);
    BuddyIsOtherHalf(p, p + Pow2(j), j);
  }

  /** Having merged, the block could merge again. FreeBlock looks for that buddy in the wrong place. */
  predicate MergesTwice(b: Blocks, r: Region, p: nat, j: nat)
    requires Aligned(p, j)
  {
    BuddyFacts(p, j);
    var y := BuddyOf(p, j);
    Merges(b, r, p, j) && Merges(b - {y}, r, Min(p, y), j + 1)
  }

  lemma MergesTwiceIs(b: Blocks, r: Region, p: nat, j: nat)
    requires Aligned(p, j)
    ensures MergesTwice(b, r, p, j) <==> FindsTwo(b, r, p, j)
  {
    hide Aligned, Pow2, BuddyOf;
    BuddyFacts(p, j);
    var y := BuddyOf(p, j);
    var m := Min(p, y);
    MergesIs(b, r, p, j);
    MergesIs(b - {y}, r, m, j + 1);
    MergesIs(b, r, m, j + 1);
  }

  lemma BuddySymmetric(p: nat, j: nat)
    requires Aligned(p, j)
    ensures Aligned(BuddyOf(p, j), j) && BuddyOf(BuddyOf(p, j), j) == p
  {
    hide Aligned, Pow2;
    BuddyFacts(p, j);
    var q, w, y := p / Pow2(j), Pow2(j), BuddyOf(p, j);
    if y < p {
      BuddyTwice(p, j);
    } else {
      Exact(p, j);
      MulAdd(q, 1, w);
      MulMod(q + 1, w);
    }
  }

  lemma AddedNoneMerges(b: Blocks, r: Region, p: nat, j: nat)
    requires p !in b && Aligned(p, j) && Inside(r, p, 1)
    ensures NoneMerges(b[p := j], r) <==> NoneMerges(b, r) && !Merges(b, r, p, j)
  {
    hide Aligned, Pow2, BuddyOf;
    var b' := b[p := j];
    BuddySymmetric(p, j);
    BuddyFacts(p, j);
    forall q | q in b && Aligned(q, b[q]) && Inside(r, q, 1)
      ensures Merges(b', r, q, b[q]) <==> Merges(b, r, q, b[q]) || (q == BuddyOf(p, j) && b[q] == j < MAX_LOG)
    {
      BuddySymmetric(q, b[q]);
      BuddyFacts(q, b[q]);
    }
    assert Merges(b', r, p, j) <==> Merges(b, r, p, j);
  }

  /** A free block goes only to merge, and then its buddy was not free: pairs stay pairs. */
  lemma FewerNoneMerges(b: Blocks, r: Region, p: nat, j: nat)
    requires p !in b && Aligned(p, j) && BuddyOf(p, j) in b && b[BuddyOf(p, j)] == j
    ensures NoneMerges(b - {BuddyOf(p, j)}, r) <==> NoneMerges(b, r)
  {
    hide Aligned, Pow2, BuddyOf;
    var y := BuddyOf(p, j);
    BuddySymmetric(p, j);
    forall q | q in b && Aligned(q, b[q]) && Inside(r, q, 1)
      ensures Merges(b, r, q, b[q]) <==> q != y && Merges(b - {y}, r, q, b[q])
    {
      BuddySymmetric(q, b[q]);
    }
  }

  /** Freeing a block leaves the region coalesced exactly when it was, and the block does not find two free halves. */
  lemma FreeOneCoalesced(b: Blocks, r: Region, p: nat, j: nat)
    requires p !in b && Aligned(p, j) && Inside(r, p, 1)
    ensures Coalesced(FreeOne(b, r, p, j), r) <==> Coalesced(b, r) && !FindsTwo(b, r, p, j)
  {
    hide NoneMerges, Coalesced, FindsTwo, Aligned, Pow2, BuddyOf;
    CoalescedIs(b, r);
    CoalescedIs(FreeOne(b, r, p, j), r);
    MergesTwiceIs(b, r, p, j);
    if Merges(b, r, p, j) {
      var y := BuddyOf(p, j);
      BuddyFacts(p, j);
      FewerNoneMerges(b, r, p, j);
      AddedNoneMerges(b - {y}, r, Min(p, y), j + 1);
    } else {
      AddedNoneMerges(b, r, p, j);
    }
  }

  /** A block beside which the other half is not free. */
  lemma AddedCoalesced(b: Blocks, r: Region, p: nat, j: nat)
    requires p !in b && Aligned(p, j) && Inside(r, p, 1)
    ensures Coalesced(b[p := j], r) <==> Coalesced(b, r) && !SomeHalfFree(b, r, p, j)
  {
    hide NoneMerges, Coalesced, OtherHalfFree, Aligned, Pow2, BuddyOf;
    CoalescedIs(b, r);
    CoalescedIs(b[p := j], r);
    MergesIs(b, r, p, j);
    AddedNoneMerges(b, r, p, j);
  }

  lemma LessCoalesced(b: Blocks, r: Region, h: nat)
    requires Coalesced(b, r)
    ensures Coalesced(b - {h}, r)
  {
    hide Pow2;
    forall p: nat, j: nat | j < MAX_LOG && FreeAs(b - {h}, r, p, j) && p % Pow2(j + 1) == 0
      ensures !FreeAs(b - {h}, r, p + Pow2(j), j)
    {
      assert FreeAs(b, r, p, j) && !FreeAs(b, r, p + Pow2(j), j);
    }
  }

  /** In freeing m pages from p, no block finds two free halves. */
  ghost predicate NoneFindsTwo(b: Blocks, r: Region, p: nat, m: nat)
    requires Fits(p, m)
    decreases m
  {
    if m == 0 then true
    else
      EndAligned(p, m);
      var j := EndOrder(m);
      var x := p + m - Pow2(j);
      !FindsTwo(b, r, x, j) && NoneFindsTwo(FreeOne(b, r, x, j), r, p, m - Pow2(j))
  }

  lemma NoneFindsTwoStep(b: Blocks, r: Region, p: nat, m: nat, w: nat)
    requires m > 0 && Fits(p, m) && w == Pow2(EndOrder(m))
    ensures w <= m && Aligned(p + m - w, EndOrder(m)) && Fits(p, m - w)
    ensures NoneFindsTwo(b, r, p, m)
       <==> (!FindsTwo(b, r, p + m - w, EndOrder(m)) &&
         NoneFindsTwo(FreeOne(b, r, p + m - w, EndOrder(m)), r, p, m - w))
  {
    hide Aligned, Pow2, LowBit, FreeOne, EndOrder, Fits, FindsTwo;
    EndAligned(p, m);
  }

  /** physMem_FreeBlock coalesces fully exactly when no block it frees finds two buddies. */
  lemma {:induction false} FreeRangeCoalesced(b: Blocks, regions: seq<Region>, i: nat, p: nat, m: nat)
    requires Sound(b, regions) && RegionsApart(regions) && i < |regions| && Fits(p, m)
    requires Inside(regions[i], p, m) && (m > 0 ==> Apart(b, p, m))
    ensures Coalesced(FreeRange(b, regions[i], p, m), regions[i])
       <==> Coalesced(b, regions[i]) && NoneFindsTwo(b, regions[i], p, m)
    decreases m
  {
    hide Aligned, FreeOne, FreeRange, Sound, Fits, Apart, Pow2, IsFree, EndOrder, RegionsApart, FreeSet, Range,
      Coalesced, FindsTwo, NoneFindsTwo;
    if m == 0 {
      FreeNone(b, regions[i], p);
    } else {
      var j, w, r := EndOrder(m), Pow2(EndOrder(m)), regions[i];
      FreeRangeStep(b, r, p, m, w);
      NoneFindsTwoStep(b, r, p, m, w);
      var x := p + m - w;
      ApartPart(b, p, m, x, w);
      HeadApart(b, x, w);
      FreeOneCoalesced(b, r, x, j);
      FreeOneSound(b, regions, i, x, j);
      if m > w {
        StillApart(b, FreeOne(b, r, x, j), p, m - w, x, w);
      }
      FreeRangeCoalesced(FreeOne(b, r, x, j), regions, i, p, m - w);
    }
  }

  lemma FreeNone(b: Blocks, r: Region, p: nat)
    requires Fits(p, 0)
    ensures FreeRange(b, r, p, 0) == b && NoneFindsTwo(b, r, p, 0)
  {
  }

  lemma HeadApart(b: Blocks, x: nat, w: nat)
    requires Apart(b, x, w) && w > 0
    ensures x !in b
  {
  }

  /**
   A freed block merges at most once, because the size that locates the buddy is not doubled along
   with the block: here pages 0 to 3 are all free, in two blocks of two pages that are buddies.
   */
  lemma NotFullyMerged()
    ensures var b: Blocks := map[0 := 0, 2 := 1];
      var b' := FreeOne(b, Region(0, 4), 1, 0);
      && b' == map[0 := 1, 2 := 1] && BuddyOf(0, 1) == 2 && FreeSet(b') == Range(0, 4)
  {
    assert Pow2(0) == 1 && Pow2(1) == 2;
    var b: Blocks := map[0 := 0, 2 := 1];
    var b' := FreeOne(b, Region(0, 4), 1, 0);
    assert BuddyOf(1, 0) == 0;
    assert b' == map[0 := 1, 2 := 1];
    assert Pow2(b'[0]) == 2 && Pow2(b'[2]) == 2;
    forall q: nat
      ensures IsFree(b', q) <==> q in Range(0, 4)
    {
      if q in Range(0, 4) {
        assert q in Range(if q < 2 then 0 else 2, 2);
      }
      if IsFree(b', q) {
        var h :| h in b' && q in Range(h, Pow2(b'[h]));
        assert h == 0 || h == 2;
      }
    }
  }

  /**
   So a free block may stay beside its free other half, at every order but the last two: the failing case
   of FreeOneCoalesced.
   */
  lemma TwoBuddiesFound(p: nat, j: nat, r: Region)
    requires j + 1 < MAX_LOG && p % Pow2(j + 2) == 0 && Inside(r, p, Pow2(j + 2))
    ensures var w := Pow2(j);
      var b: Blocks := map[p := j, p + 2 * w := j + 1];
      && Aligned(p + w, j) && Coalesced(b, r) && FindsTwo(b, r, p + w, j)
      && FreeOne(b, r, p + w, j) == map[p := j + 1, p + 2 * w := j + 1]
      && !Coalesced(FreeOne(b, r, p + w, j), r)
  {
    var w := Pow2(j);
    var b: Blocks := map[p := j, p + 2 * w := j + 1];
    Doubled(j);
    Doubled(j + 1);
    UpperAligned(p, j);
    hide Pow2, BuddyOf, Aligned, FreeOne, Coalesced, OtherHalfFree, SomeHalfFree, FindsTwo;
    Lonely(p, j, w, r, b);
    BothFree(p, j, w, r, b);
    FreeOneIs(b, r, p + w, j);
    PairMerged(p, p + 2 * w, j);
    FreeOneCoalesced(b, r, p + w, j);
  }

  lemma PairMerged(p: nat, z: nat, j: nat)
    requires p != z
    ensures var b: Blocks := map[p := j, z := j + 1]; (b - {p})[p := j + 1] == map[p := j + 1, z := j + 1]
  {
  }

  lemma BothFree(p: nat, j: nat, w: nat, r: Region, b: Blocks)
    requires j + 1 < MAX_LOG && p % Pow2(j + 2) == 0 && p % Pow2(j + 1) == 0 && Inside(r, p, Pow2(j + 2))
    requires w == Pow2(j) > 0 && Pow2(j + 1) == 2 * w && Pow2(j + 2) == 4 * w && b == map[p := j, p + 2 * w := j + 1]
    ensures OtherHalfFree(b, r, p + w, p, j) && FindsTwo(b, r, p + w, j) && Min(p + w, p) == p
  {
    hide Pow2;
    assert OtherHalfFree(b, r, p, p + 2 * w, j + 1) && SomeHalfFree(b, r, p, j + 1);
  }

  lemma Lonely(p: nat, j: nat, w: nat, r: Region, b: Blocks)
    requires w == Pow2(j) > 0 && Pow2(j + 1) == 2 * w && b == map[p := j, p + 2 * w := j + 1]
    ensures Coalesced(b, r)
  {
    hide Pow2;
    forall q: nat, i: nat | i < MAX_LOG && FreeAs(b, r, q, i)
      ensures !FreeAs(b, r, q + Pow2(i), i)
    {
    }
  }

  lemma UpperAligned(p: nat, j: nat)
    requires p % Pow2(j + 2) == 0
    ensures Aligned(p, j + 2) && Aligned(p, j + 1) && p % Pow2(j + 1) == 0 && Aligned(p, j) && Aligned(p + Pow2(j), j)
    ensures Pow2(j) > 0
  {
    hide Pow2;
    assert Aligned(p, j + 2);
    AlignedLess(p, j + 1, j + 2);
    AlignedLess(p, j, j + 2);
    Multiple(1, j);
    AlignedAdd(p, Pow2(j), j);
  }

  // ---------- The largest blocks ----------

  /** The aligned run of 2**k pages at q lies in one free block. */
  ghost predicate WithinBlock(b: Blocks, q: nat, k: nat) {
    exists h :: h in b && h <= q && q + Pow2(k) <= h + Pow2(b[h])
  }

  /** Every aligned run of 2**k pages among the n at p lies in one free block, for each k up to the largest order. */
  ghost predicate Runs(b: Blocks, p: nat, n: nat) {
    forall q: nat, k: nat :: k <= MAX_LOG && q % Pow2(k) == 0 && p <= q && q + Pow2(k) <= p + n ==> WithinBlock(b, q, k)
  }

  /** What was in one block is in one block. */
  ghost predicate Grown(b: Blocks, b': Blocks) {
    forall q: nat, k: nat :: WithinBlock(b, q, k) ==> WithinBlock(b', q, k)
  }

  /** An aligned run does not cross a multiple of its size. */
  lemma NoCrossing(q: nat, x: nat, k: nat)
    requires Aligned(q, k) && Aligned(x, k) && q < x
    ensures q + Pow2(k) <= x
  {
    hide Aligned;
    var w := Pow2(k);
    Exact(q, k);
    Exact(x, k);
    MulLess(w, q / w, x / w);
    MulMono(q / w + 1, x / w, w);
    MulAdd(q / w, 1, w);
  }

  lemma {:induction false} OrdBound(m: nat, k: nat)
    requires m > 0 && Aligned(m, k)
    ensures k <= Ord(m)
  {
    if k > 0 {
      if m % 2 == 1 {
        OddUnaligned(m, Pow2(k - 1));
      } else {
        HalfAligned(m, Pow2(k - 1));
        OrdBound(m / 2, k - 1);
      }
    }
  }

  lemma FreeOneGrows(b: Blocks, r: Region, x: nat, j: nat)
    requires x !in b && Aligned(x, j)
    ensures Grown(b, FreeOne(b, r, x, j)) && WithinBlock(FreeOne(b, r, x, j), x, j)
  {
    hide Aligned, Pow2, BuddyOf;
    BuddyFacts(x, j);
    Doubled(j);
    var y, b' := BuddyOf(x, j), FreeOne(b, r, x, j);
    forall q: nat, k: nat | WithinBlock(b, q, k)
      ensures WithinBlock(b', q, k)
    {
      var h :| h in b && h <= q && q + Pow2(k) <= h + Pow2(b[h]);
      var h' := if Merges(b, r, x, j) && h == y then Min(x, y) else h;
      assert h' in b' && h' <= q && q + Pow2(k) <= h' + Pow2(b'[h']);
    }
    var h' := if Merges(b, r, x, j) then Min(x, y) else x;
    assert h' in b' && h' <= x && x + Pow2(j) <= h' + Pow2(b'[h']);
  }

  lemma GrownTrans(a: Blocks, b: Blocks, c: Blocks)
    requires Grown(a, b) && Grown(b, c)
    ensures Grown(a, c)
  {
    hide WithinBlock;
  }

  lemma RunsGrown(b: Blocks, b': Blocks, p: nat, n: nat)
    requires Runs(b, p, n) && Grown(b, b')
    ensures Runs(b', p, n)
  {
    hide WithinBlock, Pow2;
  }

  lemma PartOfBlock(b: Blocks, x: nat, j: nat, q: nat, k: nat)
    requires WithinBlock(b, x, j) && x <= q && q + Pow2(k) <= x + Pow2(j)
    ensures WithinBlock(b, q, k)
  {
    hide Pow2;
  }

  /** In p + m pages that fit at p, an aligned run does not cross into the block freed first. */
  lemma RunApart(p: nat, m: nat, q: nat, k: nat)
    requires m > 0 && Fits(p, m) && k <= MAX_LOG && Aligned(q, k) && p <= q && q + Pow2(k) <= p + m
    ensures var w := Pow2(EndOrder(m)); w <= m && (q >= p + m - w || q + Pow2(k) <= p + m - w)
  {
    hide Aligned, Pow2, LowBit, Fits;
    var j, w, x := EndOrder(m), Pow2(EndOrder(m)), p + m - Pow2(EndOrder(m));
    EndAligned(p, m);
    EndBlock(m);
    if k <= j {
      AlignedLess(x, k, j);
      if q < x {
        NoCrossing(q, x, k);
      }
    } else {
      RunShort(p, m, q, k, j);
    }
  }

  lemma RunShort(p: nat, m: nat, q: nat, k: nat, j: nat)
    requires m > 0 && Fits(p, m) && Aligned(q, k) && p <= q && q + Pow2(k) <= p + m
    requires j == Ord(m) < k && Aligned(m, j)
    ensures q + Pow2(k) + Pow2(j) <= p + m
  {
    hide Aligned, Pow2, LowBit, Fits;
    FitsAligned(p, m, k);
    AlignedAdd(q, p, k);
    Multiple(1, k);
    AlignedAdd(q - p, Pow2(k), k);
    var e := q - p + Pow2(k);
    if e == m {
      OrdBound(m, k);
    }
    AlignedLess(e, j, k);
    NoCrossing(e, m, j);
  }

  /** physMem_FreeBlock leaves the pages freed in blocks as large as can be, and splits no other. */
  lemma {:induction false} FreeRangeRuns(b: Blocks, regions: seq<Region>, i: nat, p: nat, m: nat)
    requires Sound(b, regions) && RegionsApart(regions) && i < |regions| && Fits(p, m)
    requires Inside(regions[i], p, m) && (m > 0 ==> Apart(b, p, m))
    ensures Grown(b, FreeRange(b, regions[i], p, m)) && Runs(FreeRange(b, regions[i], p, m), p, m)
    decreases m
  {
    hide Aligned, FreeOne, FreeRange, Sound, Fits, Apart, Pow2, IsFree, EndOrder, RegionsApart, FreeSet, Range, Grown,
      WithinBlock;
    if m == 0 {
      FreeNone(b, regions[i], p);
      GrownSame(b);
      NoRuns(b, p);
    } else {
      var j, w, r := EndOrder(m), Pow2(EndOrder(m)), regions[i];
      FreeRangeStep(b, r, p, m, w);
      var x := p + m - w;
      var b1, b2 := FreeOne(b, r, x, j), FreeRange(b, r, p, m);
      ApartPart(b, p, m, x, w);
      HeadApart(b, x, w);
      FreeOneSound(b, regions, i, x, j);
      if m > w {
        StillApart(b, b1, p, m - w, x, w);
      }
      FreeRangeRuns(b1, regions, i, p, m - w);
      FreeOneGrows(b, r, x, j);
      GrownTrans(b, b1, b2);
      GrownAt(b1, b2, x, j);
      forall q: nat, k: nat | k <= MAX_LOG && q % Pow2(k) == 0 && p <= q && q + Pow2(k) <= p + m
        ensures WithinBlock(b2, q, k)
      {
        RunIsAligned(q, k);
        RunApart(p, m, q, k);
        if q >= x {
          PartOfBlock(b2, x, j, q, k);
        }
      }
    }
  }

  lemma RunIsAligned(q: nat, k: nat)
    ensures q % Pow2(k) == 0 <==> Aligned(q, k)
  {
  }

  lemma GrownSame(b: Blocks)
    ensures Grown(b, b)
  {
  }

  lemma GrownAt(b: Blocks, b': Blocks, q: nat, k: nat)
    requires Grown(b, b') && WithinBlock(b, q, k)
    ensures WithinBlock(b', q, k)
  {
  }

  lemma NoRuns(b: Blocks, p: nat)
    ensures Runs(b, p, 0)
  {
  }

  // ---------- What else keeps blocks coalesced ----------

  /** The rest of a block, given back in halves, makes no pair: the other half of each is not free. */
  lemma {:induction false} CarveCoalesced(b: Blocks, regions: seq<Region>, i: nat, r: Region, x: nat, j: nat, m: nat)
    requires Sound(b, regions) && i < |regions| && j <= MAX_LOG && Aligned(x, j) && Inside(regions[i], x, Pow2(j))
    requires Apart(b, x, Pow2(j)) && 0 < m <= Pow2(j) && Coalesced(b, r)
    ensures Coalesced(Carve(b, x, j, m), r)
    decreases j
  {
    hide Aligned, Sound, Apart, FreeSet, IsFree, Pow2, Somewhere, Carve, Range, Coalesced;
    if m == Pow2(j) {
      CarveNone(b, x, j);
    } else {
      var w := if j > 0 then Pow2(j - 1) else 0;
      CarveStep(b, x, j, m, w);
      HalfAt(x, j);
      ApartPart(b, x, 2 * w, x + w, w);
      ApartPart(b, x, 2 * w, x, w);
      if w >= m {
        SomewhereIs(regions, i, x + w, w);
        BlockAdded(b, regions, x + w, j - 1);
        HeadApart(b, x, 2 * w);
        HalfCoalesced(b, r, x, j - 1, true);
        ApartBelow(b, x, w, j - 1);
        CarveCoalesced(b[x + w := j - 1], regions, i, r, x, j - 1, m);
      } else {
        CarveCoalesced(b, regions, i, r, x + w, j - 1, m - w);
      }
    }
  }

  /** One half of a block is free and no block starts at the other. */
  lemma HalfCoalesced(b: Blocks, r: Region, x: nat, j: nat, upper: bool)
    requires Aligned(x, j + 1) && Coalesced(b, r) && x !in b && x + Pow2(j) !in b
    ensures Coalesced(b[if upper then x + Pow2(j) else x := j], r)
  {
    hide Aligned, Coalesced, NoneMerges, Pow2;
    HalfAt(x, j + 1);
    var p, y := if upper then x + Pow2(j) else x, if upper then x else x + Pow2(j);
    BuddyIsOtherHalf(p, y, j);
    CoalescedIs(b, r);
    CoalescedIs(b[p := j], r);
    if Inside(r, p, 1) {
      AddedNoneMerges(b, r, p, j);
    } else {
      OutsideAdded(b, r, p, j);
    }
  }

  lemma OutsideAdded(b: Blocks, r: Region, p: nat, j: nat)
    requires p !in b && Aligned(p, j) && !Inside(r, p, 1) && NoneMerges(b, r)
    ensures NoneMerges(b[p := j], r)
  {
    hide Aligned, Pow2, BuddyOf;
  }

  /** Allocating keeps the region coalesced. */
  lemma AllocatedCoalesced(b: Blocks, regions: seq<Region>, r: Region, h: nat, n: nat)
    requires Sound(b, regions) && h in b && 0 < n <= Pow2(b[h]) && Coalesced(b, r)
    ensures Coalesced(Allocated(b, h, n), r)
  {
    hide Aligned, Sound, Apart, FreeSet, IsFree, Carve, Coalesced, Pow2;
    BlockFacts(b, regions, h);
    var i :| 0 <= i < |regions| && Inside(regions[i], h, Pow2(b[h]));
    BlockRemoved(b, regions, h);
    LessCoalesced(b, r, h);
    CarveCoalesced(b - {h}, regions, i, r, h, b[h], n);
  }

  /** So a region all of whose aligned runs are in blocks is coalesced. */
  lemma RunsCoalesced(b: Blocks, regions: seq<Region>, r: Region)
    requires Sound(b, regions) && Runs(b, r.first, r.nPages)
    requires forall p :: p in b && Inside(r, p, 1) ==> Inside(r, p, Pow2(b[p]))
    ensures Coalesced(b, r)
  {
    hide Aligned, Somewhere;
    forall p: nat, j: nat | j < MAX_LOG && FreeAs(b, r, p, j) && p % Pow2(j + 1) == 0
      ensures !FreeAs(b, r, p + Pow2(j), j)
    {
      Doubled(j);
      assert FreeAs(b, r, p + Pow2(j), j) ==> Inside(r, p, Pow2(j + 1));
      if Inside(r, p, Pow2(j + 1)) {
        assert WithinBlock(b, p, j + 1);
        var h :| h in b && h <= p && p + Pow2(j + 1) <= h + Pow2(b[h]);
        NoneInside(b, regions, h, p + Pow2(j));
      }
    }
  }

  lemma NoneInside(b: Blocks, regions: seq<Region>, h: nat, q: nat)
    requires Sound(b, regions) && h in b && h < q < h + Pow2(b[h])
    ensures q !in b
  {
    hide Aligned, Somewhere, Pow2;
  }
}
