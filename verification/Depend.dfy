/**
 The depend table of src/sys/kernel/kern_Depend.c: for each slot that mapping table entries were made
 from, where those entries are. Entries of the table merge, and evict each other, but every mapping
 table entry still valid can be found from its slot.
 */
module Depend {

  const KEY_BUCKET_SIZE: nat := 33
  const COUNT_LIMIT: nat := 0x1000  // pteCount has 12 bits

  /** KeyDependEntry: mapping table entries from `start`; a count of zero is for the field in a Process. */
  datatype Entry = Entry(start: nat, pteCount: nat, slotTag: nat)

  type Bucket = seq<Entry>

  /** A slot, by its address, and a mapping table entry made from it, by its address in entries. */
  datatype Made = Made(slot: nat, mte: nat)

  function Tag(slot: nat): nat {
    (slot / 16) % 0x10_0000
  }

  predicate InUse(e: Entry) {
    e.start != 0
  }

  /** KeyDependEntry_Invalidate of e invalidates mte. */
  predicate Covers(e: Entry, mte: nat) {
    InUse(e) && if e.pteCount == 0 then mte == e.start else e.start <= mte < e.start + e.pteCount
  }

  /**
   Where mapping table entries are: those in Process structures, and for any other the size of the table
   that it is in. A table starts at a multiple of its size.
   */
  datatype Layout = Layout(procs: set<nat>, size: nat -> nat)

  predicate SameTable(a: nat, b: nat, size: nat)
    requires size > 0
  {
    a / size == b / size
  }

  /** Tables do not overlap each other or a Process structure, and have no more entries than pteCount can count to. */
  ghost predicate LayoutOk(y: Layout) {
    && (forall a: nat :: 0 < y.size(a) <= COUNT_LIMIT)
    && (forall a: nat, b: nat :: SameTable(a, b, y.size(a)) ==> y.size(b) == y.size(a))
    && (forall p, a: nat :: p in y.procs && a !in y.procs ==> !SameTable(p, a, y.size(a)))
  }

  /** Entries of zero length are those of Process structures; the others are in one table. */
  ghost predicate EntryOk(e: Entry, y: Layout)
    requires LayoutOk(y)
  {
    e.pteCount < COUNT_LIMIT && (InUse(e) ==> (e.pteCount == 0 <==> e.start in y.procs))
    && (InUse(e) && e.pteCount > 0 ==> SameTable(e.start, e.start + e.pteCount - 1, y.size(e.start)))
  }

  ghost predicate BucketOk(b: Bucket, y: Layout)
    requires LayoutOk(y)
  {
    |b| == KEY_BUCKET_SIZE && forall i :: 0 <= i < |b| ==> EntryOk(b[i], y)
  }

  /** Some entry of the bucket with the tag of the slot covers mte. */
  ghost predicate Found(b: Bucket, slot: nat, mte: nat) {
    exists i :: 0 <= i < |b| && b[i].slotTag == Tag(slot) && Covers(b[i], mte)
  }

  /** keybucket_ndx, for a table of n buckets. */
  function BucketOf(slot: nat, n: nat): (b: nat)
    requires n > 0
    ensures b < n
  {
    (slot / 16) % n
  }

  /** Every mapping table entry that is valid can be found from the slot it was made from. */
  ghost predicate TableOk(table: seq<Bucket>, live: set<Made>, y: Layout, n: nat)
    requires n > 0 && LayoutOk(y)
  {
    && |table| == n && (forall b :: 0 <= b < n ==> BucketOk(table[b], y))
    && (forall d :: d in live ==> Found(table[BucketOf(d.slot, n)], d.slot, d.mte))
  }

  /** An entry is changed so that it still covers what must be found through it. */
  lemma EntryChanged(table: seq<Bucket>, live: set<Made>, y: Layout, n: nat, b: nat, i: nat, e: Entry,
                     live': set<Made>)
    requires n > 0 && LayoutOk(y) && TableOk(table, live, y, n) && b < n && i < KEY_BUCKET_SIZE && EntryOk(e, y)
    requires live' <= live && BucketOk(table[b], y)
    requires forall d :: d in live' && table[b][i].slotTag == Tag(d.slot) && Covers(table[b][i], d.mte) ==>
      e.slotTag == Tag(d.slot) && Covers(e, d.mte)
    ensures TableOk(table[b := table[b][i := e]], live', y, n)
  {
    var table' := table[b := table[b][i := e]];
    forall d | d in live'
      ensures Found(table'[BucketOf(d.slot, n)], d.slot, d.mte)
    {
      var c := BucketOf(d.slot, n);
      var k :| 0 <= k < |table[c]| && table[c][k].slotTag == Tag(d.slot) && Covers(table[c][k], d.mte);
      assert table'[c][k].slotTag == Tag(d.slot) && Covers(table'[c][k], d.mte);
    }
  }

  /** The entry with mte merged in. */
  function Merged(e: Entry, mte: nat): Entry {
    var end := e.start + e.pteCount;
    var start' := if mte < e.start then mte else e.start;
    var end' := if mte >= e.start && mte >= end then mte + 1 else end;
    e.(start := start', pteCount := (end' - start') % COUNT_LIMIT)
  }

  /** How many entries the merged entry must span. */
  function Span(e: Entry, mte: nat): nat {
    if mte < e.start then e.start + e.pteCount - mte
    else if mte >= e.start + e.pteCount then mte + 1 - e.start
    else e.pteCount
  }

  /**
   A merged entry covers what it did and the new entry exactly when the span fits in 12 bits; it then
   covers what is between them, and no more.
   */
  lemma MergeCovers(e: Entry, mte: nat)
    requires InUse(e) && 0 < e.pteCount < COUNT_LIMIT && mte > 0
    ensures Span(e, mte) < COUNT_LIMIT ==> forall m: nat :: Covers(Merged(e, mte), m) <==>
      (e.start <= m || mte <= m) && (m < e.start + e.pteCount || m <= mte)
    ensures (forall m :: Covers(e, m) || m == mte ==> Covers(Merged(e, mte), m)) <==> Span(e, mte) < COUNT_LIMIT
  {
    var e' := Merged(e, mte);
    assert e'.pteCount == Span(e, mte) % COUNT_LIMIT;
    if Span(e, mte) >= COUNT_LIMIT {
      assert Covers(e, e.start) && Covers(e, e.start + e.pteCount - 1);
      TooWide(e, mte);
    }
  }

  /** The first or the last of the entries is not covered when the span is too wide. */
  lemma TooWide(e: Entry, mte: nat)
    requires InUse(e) && 0 < e.pteCount < COUNT_LIMIT && mte > 0 && Span(e, mte) >= COUNT_LIMIT
    ensures !Covers(Merged(e, mte), mte) || !Covers(Merged(e, mte), e.start) ||
      !Covers(Merged(e, mte), e.start + e.pteCount - 1)
  {
  }

  /** The entry with mte would reach from the first entry of a table of this size to the last. */
  predicate WholeTable(e: Entry, mte: nat, size: nat)
    requires size > 0
  {
    var first := mte - mte % size;
    && (mte == first || Covers(e, first))
    && (mte == first + size - 1 || Covers(e, first + size - 1))
  }

  /** What is merged in a table stays in it, so it spans too much only in a table of 4096, and only all of it. */
  lemma SpanInTable(e: Entry, mte: nat, size: nat)
    requires InUse(e) && e.pteCount > 0 && size > 0
    requires SameTable(e.start, mte, size) && SameTable(e.start, e.start + e.pteCount - 1, size)
    ensures Span(e, mte) <= size && (Span(e, mte) == size <==> WholeTable(e, mte, size))
    ensures var start := if mte < e.start then mte else e.start;
      && SameTable(mte, start, size) && SameTable(start, start + Span(e, mte) - 1, size)
      && (Span(e, mte) == size ==> start == mte - mte % size)
  {
    Within(e.start, size);
    Within(mte, size);
    Within(e.start + e.pteCount - 1, size);
    var start := if mte < e.start then mte else e.start;
    var last := if mte >= e.start + e.pteCount then mte else e.start + e.pteCount - 1;
    assert start + Span(e, mte) - 1 == last;
  }

  lemma SameBack(a: nat, b: nat, size: nat)
    requires size > 0 && SameTable(a, b, size)
    ensures SameTable(b, a, size)
  {
  }

  lemma Within(a: nat, size: nat)
    requires size > 0
    ensures a - a % size == a / size * size && 0 <= a % size < size
  {
  }

  /** The merged entry is one in the same table again, unless it spans too much. */
  lemma MergedOk(e: Entry, mte: nat, y: Layout)
    requires LayoutOk(y) && EntryOk(e, y) && InUse(e) && e.pteCount > 0 && mte > 0 && mte !in y.procs
    requires SameTable(e.start, mte, y.size(mte))
    ensures Span(e, mte) >= COUNT_LIMIT <==> y.size(mte) == COUNT_LIMIT && WholeTable(e, mte, COUNT_LIMIT)
    ensures Span(e, mte) < COUNT_LIMIT ==> EntryOk(Merged(e, mte), y)
    ensures Span(e, mte) >= COUNT_LIMIT ==> Merged(e, mte) == Entry(mte - mte % COUNT_LIMIT, 0, e.slotTag)
  {
    hide SameTable, WholeTable, Covers, Merged, Span;
    var size := y.size(mte);
    SameBack(e.start, mte, size);
    assert y.size(e.start) == size;
    SpanInTable(e, mte, size);
    var start := if mte < e.start then mte else e.start;
    assert y.size(start) == size;
    MergedIs(e, mte);
  }

  lemma MergedIs(e: Entry, mte: nat)
    requires e.pteCount < COUNT_LIMIT
    ensures Merged(e, mte) == Entry(if mte < e.start then mte else e.start, Span(e, mte) % COUNT_LIMIT, e.slotTag)
    ensures e.pteCount > 0 ==> Span(e, mte) > 0
  {
  }

  class DependTable {
    const keyBuckets: nat
    const layout: Layout
    var table: seq<Bucket>
    var keyDependLru: seq<nat>
    ghost var live: set<Made>  // the mapping table entries made from slots, and not invalidated since

    ghost predicate Valid()
      reads this
    {
      && keyBuckets > 0 && |keyDependLru| == keyBuckets && LayoutOk(layout) && TableOk(table, live, layout, keyBuckets)
      && (forall b :: 0 <= b < keyBuckets ==> keyDependLru[b] < KEY_BUCKET_SIZE)
    }

    /** Depend_InitKeyDependTable. */
    constructor (buckets: nat, y: Layout)
      requires buckets > 0 && LayoutOk(y)
      ensures Valid() && live == {} && keyBuckets == buckets && layout == y
      ensures |table| == buckets && forall b :: 0 <= b < buckets ==>
        keyDependLru[b] == 0 && |table[b]| == KEY_BUCKET_SIZE
      ensures forall b, i :: 0 <= b < buckets && 0 <= i < KEY_BUCKET_SIZE ==> table[b][i] == Entry(0, 0, 0)
    {
      keyBuckets, layout := buckets, y;
      table := seq(buckets, _ => seq(KEY_BUCKET_SIZE, _ => Entry(0, 0, 0)));
      keyDependLru := seq(buckets, _ => 0);
      live := {};
    }

    /** KeyDependEntry_Invalidate: the mapping table entries it covers are no longer valid. */
    method Invalidate(b: nat, i: nat)
      requires Valid() && b < keyBuckets && i < KEY_BUCKET_SIZE
      modifies this`table, this`live
      ensures Valid()
      ensures table == old(table)[b := old(table)[b][i := old(table)[b][i].(start := 0)]]
      ensures live == Without(old(live), old(table)[b][i])
    {
      EntryChanged(table, live, layout, keyBuckets, b, i, table[b][i].(start := 0), Without(live, table[b][i]));
      live := Without(live, table[b][i]);
      table := table[b := table[b][i := table[b][i].(start := 0)]];
    }

    /** NewDependEntry: takes the place of the next entry of the bucket in turn. */
    method NewDependEntry(start: nat, count: nat, slot: nat)
      requires Valid() && start > 0 && count <= 1 && (count == 0 <==> start in layout.procs)
      modifies this
      ensures Valid() && live <= old(live) && Found(table[BucketOf(slot, keyBuckets)], slot, start)
      ensures var b := BucketOf(slot, keyBuckets);
        var i := old(keyDependLru)[b];
        && live == Without(old(live), old(table)[b][i])
        && keyDependLru == old(keyDependLru)[b := (i + 1) % KEY_BUCKET_SIZE]
        && table == old(table)[b := old(table)[b][i := Entry(start, count, Tag(slot))]]
    {
      hide Without;
      ghost var table0 := table;
      var b := BucketOf(slot, keyBuckets);
      var i := keyDependLru[b];
      keyDependLru := keyDependLru[b := (i + 1) % KEY_BUCKET_SIZE];
      NotUsed(live, table[b][i]);
      if InUse(table[b][i]) {
        Invalidate(b, i);
        Rewritten(table0, b, i, table[b][i], Entry(start, count, Tag(slot)));
      }
      EntryChanged(table, live, layout, keyBuckets, b, i, Entry(start, count, Tag(slot)), live);
      assert Covers(Entry(start, count, Tag(slot)), start);
      table := table[b := table[b][i := Entry(start, count, Tag(slot))]];
      assert table[b][i].slotTag == Tag(slot) && Covers(table[b][i], start);
    }

    /**
     Merges mte into an entry in use for the same table. Where the entry would have to span a table of 4096
     entries, pteCount overruns: the entry comes to be one of a Process structure, at the start of the table.
     */
    method Merge(b: nat, i: nat, slot: nat, mte: nat) returns (overrun: bool)
      requires Valid() && b == BucketOf(slot, keyBuckets) && i < KEY_BUCKET_SIZE && mte > 0
      requires InUse(table[b][i]) && table[b][i].slotTag == Tag(slot) && mte !in layout.procs
      requires SameTable(table[b][i].start, mte, layout.size(mte))
      modifies this`table, this`live
      ensures table == old(table)[b := old(table)[b][i := Merged(old(table)[b][i], mte)]]
      ensures overrun <==> layout.size(mte) == COUNT_LIMIT && WholeTable(old(table)[b][i], mte, COUNT_LIMIT)
      ensures overrun ==> table[b][i] == Entry(mte - mte % COUNT_LIMIT, 0, Tag(slot))
      ensures overrun ==> live == old(live) + {Made(slot, mte)}
      ensures !overrun ==> Valid() && live == old(live) + {Made(slot, mte)}
    {
      hide WholeTable;
      var e := table[b][i];
      assert EntryOk(e, layout);
      InTable(e, mte, layout);
      overrun := Span(e, mte) >= COUNT_LIMIT;
      MergedOk(e, mte, layout);
      MergeCovers(e, mte);
      if !overrun {
        EntryChanged(table, live, layout, keyBuckets, b, i, Merged(e, mte), live);
      }
      table := table[b := table[b][i := Merged(e, mte)]];
      assert table[b][i].slotTag == Tag(slot) && (!overrun ==> Covers(table[b][i], mte));
      live := live + {Made(slot, mte)};
    }

    /**
     Depend_AddKey: mte was made from a slot. mapLevel is zero for the field in a Process. It fails exactly
     when mte and the entry it is merged with would have to span a whole table of 4096 entries.
     */
    method AddKey(slot: nat, mte: nat, mapLevel: nat) returns (overrun: bool)
      requires Valid() && mte > 0 && (mapLevel == 0 <==> mte in layout.procs)
      requires mapLevel != 0 ==> layout.size(mte) <= mte
      modifies this
      ensures var b := old(table)[BucketOf(slot, keyBuckets)];
        var i := FirstTaken(b, 0, slot, mte, mapLevel, layout.size(mte));
        overrun <==> (&& mapLevel != 0 && layout.size(mte) == COUNT_LIMIT && i < |b|
                      && b[i].start != mte && WholeTable(b[i], mte, COUNT_LIMIT))
      ensures overrun ==> live == old(live) + {Made(slot, mte)}
      ensures !overrun && (exists e ::
          e in old(table)[BucketOf(slot, keyBuckets)] && Serves(e, slot, mte, mapLevel, layout.size(mte))) ==>
        live == old(live) + {Made(slot, mte)}
      ensures !overrun ==> Valid() && Made(slot, mte) in live && live <= old(live) + {Made(slot, mte)}
      ensures !overrun ==> var b := BucketOf(slot, keyBuckets);
        var e := old(table)[b][old(keyDependLru)[b]];
        var k := FirstTaken(old(table)[b], 0, slot, mte, mapLevel, layout.size(mte));
        live == {Made(slot, mte)} + if k < KEY_BUCKET_SIZE then old(live) else Without(old(live), e)
      ensures var b := BucketOf(slot, keyBuckets);
        var k := FirstTaken(old(table)[b], 0, slot, mte, mapLevel, layout.size(mte));
        if k == KEY_BUCKET_SIZE then
          var i := old(keyDependLru)[b];
          && keyDependLru == old(keyDependLru)[b := (i + 1) % KEY_BUCKET_SIZE]
          && table == old(table)[b := old(table)[b][i := Entry(mte, if mapLevel != 0 then 1 else 0, Tag(slot))]]
        else
          && keyDependLru == old(keyDependLru)
          && table == if old(table)[b][k].start == mte then old(table)
                      else old(table)[b := old(table)[b][k := Merged(old(table)[b][k], mte)]]
    {
      hide WholeTable, Without, SameTable;
      ghost var size := layout.size(mte);
      var b := BucketOf(slot, keyBuckets);
      TakenIff(table[b], 0, slot, mte, mapLevel, size);
      for i := 0 to KEY_BUCKET_SIZE
        invariant Valid() && table == old(table) && live == old(live) && keyDependLru == old(keyDependLru)
        invariant FirstTaken(table[b], i, slot, mte, mapLevel, size) ==
          FirstTaken(table[b], 0, slot, mte, mapLevel, size)
      {
        var e := table[b][i];
        assert EntryOk(e, layout);
        if e.slotTag == Tag(slot) {
          if e.start == mte {
            assert Found(table[b], slot, mte);
            live := live + {Made(slot, mte)};
            return false;
          }
          if mapLevel != 0 && SameTable(e.start, mte, layout.size(mte)) {
            StartsThere(e.start, mte, layout.size(mte));
            overrun := Merge(b, i, slot, mte);
            return;
          }
        }
      }
      NewDependEntry(mte, if mapLevel != 0 then 1 else 0, slot);
      live := live + {Made(slot, mte)};
      return false;
    }

    /**
     Depend_InvalidateKey: no mapping table entry made from the slot is valid any more. Only what entries of
     the bucket with its tag cover is invalidated, and only those entries are given up.
     */
    method InvalidateKey(slot: nat)
      requires Valid()
      modifies this`table, this`live
      ensures Valid() && forall d :: d in live ==> d.slot != slot
      ensures live == set d | d in old(live) && !Found(old(table)[BucketOf(slot, keyBuckets)], slot, d.mte)
      ensures forall c, i :: 0 <= c < keyBuckets && 0 <= i < KEY_BUCKET_SIZE ==>
        table[c][i] == if c == BucketOf(slot, keyBuckets) && old(table)[c][i].slotTag == Tag(slot)
                       then old(table)[c][i].(start := 0) else old(table)[c][i]
    {
      hide Covers, LayoutOk, EntryOk;
      var b := BucketOf(slot, keyBuckets);
      ghost var old_b := table[b];
      for i := 0 to KEY_BUCKET_SIZE
        invariant Valid() && live == set d | d in old(live) && !FoundBelow(old_b, i, slot, d.mte)
        invariant table == old(table)[b := table[b]]
        invariant forall j :: i <= j < KEY_BUCKET_SIZE ==> table[b][j] == old_b[j]
        invariant forall j :: 0 <= j < i ==>
          table[b][j] == if old_b[j].slotTag == Tag(slot) then old_b[j].(start := 0) else old_b[j]
      {
        BelowNext(old(live), old_b, i, slot);
        if table[b][i].slotTag == Tag(slot) && InUse(table[b][i]) {
          Invalidate(b, i);
        }
      }
      NoneFoundAt(table[b], slot);
    }
  }

  ghost predicate FoundBelow(b: Bucket, n: nat, slot: nat, mte: nat)
    requires n <= |b|
  {
    exists i :: 0 <= i < n && b[i].slotTag == Tag(slot) && Covers(b[i], mte)
  }

  lemma BelowNext(live: set<Made>, b: Bucket, n: nat, slot: nat)
    requires n < |b|
    ensures var l := set d | d in live && !FoundBelow(b, n, slot, d.mte);
      (set d | d in live && !FoundBelow(b, n + 1, slot, d.mte)) ==
      if b[n].slotTag == Tag(slot) && InUse(b[n]) then Without(l, b[n]) else l
  {
    forall d | d in live
      ensures FoundBelow(b, n + 1, slot, d.mte)
         <==> FoundBelow(b, n, slot, d.mte) || (b[n].slotTag == Tag(slot) && Covers(b[n], d.mte))
    {
    }
  }

  lemma NoneFoundAt(b: Bucket, slot: nat)
    requires forall i :: 0 <= i < |b| && b[i].slotTag == Tag(slot) ==> !InUse(b[i])
    ensures forall m :: !Found(b, slot, m)
  {
  }

  /** Slots are 16 bytes apart, and those less than 2**24 bytes apart have different tags. */
  lemma TagsDiffer(a: nat, b: nat)
    requires a % 16 == 0 && b % 16 == 0 && a < b < a + 0x100_0000
    ensures Tag(a) != Tag(b)
  {
    var i, j := a / 16, b / 16;
    assert i < j < i + 0x10_0000;
  }

  /** As many slots as there are buckets, one after the other, each have a bucket of their own. */
  lemma BucketsDiffer(a: nat, b: nat, n: nat)
    requires a % 16 == 0 && b % 16 == 0 && a < b < a + 16 * n
    ensures BucketOf(a, n) != BucketOf(b, n)
  {
    var i, j := a / 16, b / 16;
    assert i < j < i + n;
    if i % n == j % n {
      assert j - i == (j / n - i / n) * n;
      NoMultiple(j / n - i / n, n);
    }
  }

  lemma NoMultiple(k: int, n: nat)
    requires n > 0
    ensures k * n <= 0 || k * n >= n
  {
  }

  lemma Rewritten(table: seq<Bucket>, b: nat, i: nat, e: Entry, e': Entry)
    requires b < |table| && i < |table[b]|
    ensures table[b := table[b][i := e]][b := table[b][i := e][i := e']] == table[b := table[b][i := e']]
  {
    assert table[b][i := e][i := e'] == table[b][i := e'];
  }

  lemma NotUsed(live: set<Made>, e: Entry)
    ensures Without(live, e) <= live && (!InUse(e) ==> Without(live, e) == live)
  {
  }

  /** What is still valid after the entry is invalidated. */
  ghost function Without(live: set<Made>, e: Entry): set<Made> {
    set d | d in live && !Covers(e, d.mte)
  }

  /** An entry would be merged with, or is there already. */
  predicate Takes(e: Entry, slot: nat, mte: nat, mapLevel: nat, size: nat)
    requires size > 0
  {
    e.slotTag == Tag(slot) && (e.start == mte || (mapLevel != 0 && SameTable(e.start, mte, size)))
  }

  /** The entry that Depend_AddKey goes no further than, from i on. */
  ghost function FirstTaken(b: Bucket, i: nat, slot: nat, mte: nat, mapLevel: nat, size: nat): (k: nat)
    requires i <= |b| && size > 0
    ensures k <= |b|
    decreases |b| - i
  {
    if i == |b| || Takes(b[i], slot, mte, mapLevel, size) then i else FirstTaken(b, i + 1, slot, mte, mapLevel, size)
  }

  /** The entry has the slot's tag, and starts at mte or, for an entry of a mapping table, in the same table. */
  predicate Serves(e: Entry, slot: nat, mte: nat, mapLevel: nat, size: nat)
    requires size > 0
  {
    e.slotTag == (slot / 16) % 0x10_0000 && (e.start == mte || (mapLevel != 0 && e.start / size == mte / size))
  }

  lemma {:induction false} TakenIff(b: Bucket, i: nat, slot: nat, mte: nat, mapLevel: nat, size: nat)
    requires i <= |b| && size > 0
    ensures FirstTaken(b, i, slot, mte, mapLevel, size) < |b| <==>
      exists e :: e in b[i..] && Serves(e, slot, mte, mapLevel, size)
    ensures b[0..] == b
    decreases |b| - i
  {
    if i < |b| {
      TakenIff(b, i + 1, slot, mte, mapLevel, size);
      TakesServes(b[i], slot, mte, mapLevel, size);
      assert b[i..] == [b[i]] + b[i + 1..];
      assert b[i] in b[i..];
      assert forall e :: e in b[i..] <==> (e == b[i] || e in b[i + 1..]);
    }
  }

  lemma TakesServes(e: Entry, slot: nat, mte: nat, mapLevel: nat, size: nat)
    requires size > 0
    ensures Takes(e, slot, mte, mapLevel, size) <==> Serves(e, slot, mte, mapLevel, size)
  {
  }

  lemma StartsThere(start: nat, mte: nat, size: nat)
    requires 0 < size <= mte && SameTable(start, mte, size)
    ensures start > 0
  {
  }

  /** An entry that shares a table is not one of a Process structure. */
  lemma InTable(e: Entry, mte: nat, y: Layout)
    requires LayoutOk(y) && EntryOk(e, y) && InUse(e) && mte !in y.procs && SameTable(e.start, mte, y.size(mte))
    ensures 0 < e.pteCount
  {
  }

  /**
   Two entries made from one slot, at the ends of a table of 4096, are enough to overrun pteCount: the
   second is valid, and is not found from its slot.
   */
  method LoseTheLast() returns (t: DependTable)
    ensures fresh(t) && LayoutOk(t.layout) && t.keyBuckets == 1 && |t.table| == 1
    ensures Made(0, 2 * COUNT_LIMIT - 1) in t.live && !Found(t.table[0], 0, 2 * COUNT_LIMIT - 1)
  {
    hide WholeTable, TableOk, Without, Found;
    t := new DependTable(1, Layout({}, _ => COUNT_LIMIT));
    var b := t.table[0];
    NothingTaken(b, 0, 0, COUNT_LIMIT, 1, COUNT_LIMIT);
    var overrun := t.AddKey(0, COUNT_LIMIT, 1);
    b := b[0 := Entry(COUNT_LIMIT, 1, 0)];
    assert t.table[0] == b;
    TakenFirst(b, 0, 2 * COUNT_LIMIT - 1, 1, COUNT_LIMIT);
    EndsWhole();
    overrun := t.AddKey(0, 2 * COUNT_LIMIT - 1, 1);
    assert t.table[0] == b[0 := Entry(COUNT_LIMIT, 0, 0)];
    LastLost(t.table[0]);
  }

  lemma LastLost(b: Bucket)
    requires b != [] && b[0] == Entry(COUNT_LIMIT, 0, 0) && forall i :: 1 <= i < |b| ==> !InUse(b[i])
    ensures !Found(b, 0, 2 * COUNT_LIMIT - 1)
  {
  }

  lemma NothingTaken(b: Bucket, i: nat, slot: nat, mte: nat, mapLevel: nat, size: nat)
    requires 0 < size <= mte && i <= |b| && forall k :: i <= k < |b| ==> !InUse(b[k])
    ensures FirstTaken(b, i, slot, mte, mapLevel, size) == |b|
    decreases |b| - i
  {
  }

  lemma TakenFirst(b: Bucket, slot: nat, mte: nat, mapLevel: nat, size: nat)
    requires size > 0 && b != [] && Takes(b[0], slot, mte, mapLevel, size)
    ensures FirstTaken(b, 0, slot, mte, mapLevel, size) == 0
  {
  }

  lemma EndsWhole()
    ensures WholeTable(Entry(COUNT_LIMIT, 1, 0), 2 * COUNT_LIMIT - 1, COUNT_LIMIT)
  {
  }
}
