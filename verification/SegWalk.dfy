/**
 The address space walk of src/sys/kernel/kern_GPT.c: from a memory key through GPTs, guards, local
 and background windows to a page. The graph of GPTs may have cycles.
 */
module SegWalk {
  import opened Bits

  const EROS_PAGE_LGSIZE: nat := 12
  const EROS_PAGE_SIZE: nat := 4096
  const MAX_SEG_DEPTH: nat := 20
  const N_SLOTS: nat := 32          // capros_GPT_nSlots
  const KEEPER_SLOT: nat := 31      // capros_GPT_keeperSlot
  const BACKGROUND_SLOT: nat := 30  // capros_GPT_backgroundSlot
  const TWO64: nat := 0x1_0000_0000_0000_0000

  /** The permission bits that a walk uses. */
  datatype Perms = Perms(readOnly: bool, noCall: bool)

  const NoPerms := Perms(false, false)

  function Or(a: Perms, b: Perms): Perms {
    Perms(a.readOnly || b.readOnly, a.noCall || b.noCall)
  }

  /**
   A key in a slot of a GPT. Memory keys have a guard and its position; a number key is a window,
   with an offset, restrictions, and the slot it stands for.
   */
  datatype SegKey =
    | VoidKey
    | OtherKey
    | MemKey(oid: nat, l2g: nat, guard: nat, perms: Perms)
    | Window(addr: nat, perms: Perms, wslot: nat)

  /** A page, a GPT, or a node that cannot be prepared as a GPT. */
  datatype Obj = PageObj | GptObj(l2v: nat, hasKeeper: bool, hasBackground: bool, slots: seq<SegKey>) | NotGpt

  type Graph = map<nat, Obj>

  predicate KeyOk(k: SegKey, g: Graph) {
    && (k.MemKey? ==> k.oid in g && EROS_PAGE_LGSIZE <= k.l2g <= 64 && k.guard < 256)
    && (k.Window? ==> k.addr < TWO64 && k.wslot < 256)
  }

  predicate GraphOk(g: Graph) {
    forall o :: o in g && g[o].GptObj? ==>
      (&& EROS_PAGE_LGSIZE <= g[o].l2v < 64 && |g[o].slots| == N_SLOTS
       && forall i :: 0 <= i < N_SLOTS ==> KeyOk(g[o].slots[i], g))
  }

  datatype FaultCode = NoFault | InvalidAddr | MalformedSpace | AccessViolation | TraverseLimit

  /** backgroundGPT and keeperGPT: unknown is SEGWALK_GPT_UNKNOWN. */
  datatype GptRef = NoGpt | Gpt(oid: nat) | Unknown

  /** struct SegWalk. */
  datatype Cursor = Cursor(memObj: nat, offset: nat, needWrite: bool, restrictions: Perms,
                           background: GptRef, keeper: GptRef, keeperOffset: nat, traverseCount: nat,
                           faultCode: FaultCode)

  /** The cursor is at a page or GPT, and its background GPT, if any, has a background key. */
  predicate CursorOk(c: Cursor, g: Graph) {
    && c.memObj in g && !g[c.memObj].NotGpt? && c.offset < TWO64
    && BackgroundOk(c.background, g) && (c.needWrite ==> !c.restrictions.readOnly)
  }

  predicate BackgroundOk(b: GptRef, g: Graph) {
    b != Unknown && (b.Gpt? ==> b.oid in g && g[b.oid].GptObj? && g[b.oid].hasBackground)
  }

  datatype Result = Result(ok: bool, c: Cursor)

  function Fault(c: Cursor, code: FaultCode): Result {
    Result(false, c.(faultCode := code))
  }

  /** The address bits from bit l2v up, and those below. */
  function High(va: nat, l2v: nat): nat {
    Quot(va, Pow2(l2v))
  }

  function Low(va: nat, l2v: nat): nat {
    Rem(va, Pow2(l2v))
  }

  function Quot(x: nat, p: nat): nat
    requires p > 0
  {
    x / p
  }

  function Rem(x: nat, p: nat): (r: nat)
    requires p > 0
    ensures r < p && r <= x
  {
    x % p
  }

  /** processKey. */
  function ProcessKey(g: Graph, c: Cursor, k: SegKey, va: nat): Result
    requires KeyOk(k, g)
  {
    if k.VoidKey? then Fault(c, InvalidAddr)
    else if !k.MemKey? || g[k.oid].NotGpt? then Fault(c, MalformedSpace)
    else if High(va, k.l2g) != k.guard then Fault(c, InvalidAddr)
    else
      var c' := c.(offset := Low(va, k.l2g), memObj := k.oid, restrictions := Or(c.restrictions, k.perms));
      if c'.restrictions.readOnly && c'.needWrite then Fault(c', AccessViolation) else Result(true, c')
  }

  /** segwalk_init. */
  function Start(g: Graph, c: Cursor, k: SegKey, va: nat): Result
    requires KeyOk(k, g)
  {
    ProcessKey(g, c.(restrictions := NoPerms, background := NoGpt, keeper := NoGpt), k, va)
  }

  predicate IsStop(g: Graph, c: Cursor, stopL2v: nat)
    requires c.memObj in g
  {
    g[c.memObj].GptObj? && g[c.memObj].l2v < stopL2v
  }

  /** The slots in which an address can be. */
  function MaxSlot(o: Obj): nat
    requires o.GptObj?
  {
    if o.hasBackground then BACKGROUND_SLOT - 1 else if o.hasKeeper then KEEPER_SLOT - 1 else N_SLOTS - 1
  }

  /** The keeper and background GPTs after the walk has come to a GPT. */
  function Noticed(g: Graph, c: Cursor): Cursor
    requires c.memObj in g && g[c.memObj].GptObj?
  {
    var o := g[c.memObj];
    var c' := if o.hasKeeper && c.keeper != Unknown && !c.restrictions.noCall
              then c.(keeper := Gpt(c.memObj), keeperOffset := c.offset) else c;
    if o.hasBackground then c'.(background := Gpt(c.memObj)) else c'
  }

  datatype Opening = Opening(ok: bool, c: Cursor, k: SegKey)

  /** The key to go on with from slot key k of o: what a window shows, or k itself. */
  function Opened(g: Graph, c: Cursor, o: Obj, k: SegKey): Opening
    requires GraphOk(g) && BackgroundOk(c.background, g) && o.GptObj? && |o.slots| == N_SLOTS
  {
    if !k.Window? then Opening(true, c, k)
    else if Low(k.addr, o.l2v) != 0 then Opening(false, c.(faultCode := MalformedSpace), k)
    else
      var c' := c.(offset := c.offset + k.addr, restrictions := Or(c.restrictions, k.perms));
      if c'.restrictions.readOnly && c'.needWrite then Opening(false, c'.(faultCode := AccessViolation), k)
      else if k.wslot < N_SLOTS then Opening(true, c', o.slots[k.wslot])
      else if k.wslot == 0xff && c'.background.Gpt? then
        Opening(true, c', g[c'.background.oid].slots[BACKGROUND_SLOT])
      else Opening(false, c'.(faultCode := MalformedSpace), k)
  }

  /** One traversal of a GPT by WalkSeg. */
  function Traverse(g: Graph, c: Cursor): Result
    requires GraphOk(g) && CursorOk(c, g) && g[c.memObj].GptObj?
  {
    var o, c1 := g[c.memObj], c.(traverseCount := c.traverseCount + 1);
    if c1.traverseCount >= MAX_SEG_DEPTH then Fault(c1, TraverseLimit)
    else
      var c2 := Noticed(g, c1);
      if High(c2.offset, o.l2v) > MaxSlot(o) then Fault(c2, InvalidAddr)
      else
        var k, c3 := o.slots[High(c2.offset, o.l2v)], c2.(offset := Low(c2.offset, o.l2v));
        var w := Opened(g, c3, o, k);
        if !w.ok then Result(false, w.c) else ProcessKey(g, w.c, w.k, w.c.offset)
  }

  /** WalkSeg. */
  function Walk(g: Graph, c: Cursor, stopL2v: nat): Result
    requires GraphOk(g) && CursorOk(c, g)
    decreases MAX_SEG_DEPTH - c.traverseCount
  {
    if g[c.memObj].PageObj? then
      if c.offset >= EROS_PAGE_SIZE then Fault(c, InvalidAddr) else Result(true, c)
    else if IsStop(g, c, stopL2v) then Result(true, c)
    else
      var r := Traverse(g, c);
      TraverseOk(g, c);
      if !r.ok then r else Walk(g, r.c, stopL2v)
  }

  lemma NoticedOk(g: Graph, c: Cursor)
    requires c.memObj in g && g[c.memObj].GptObj? && BackgroundOk(c.background, g)
    ensures BackgroundOk(Noticed(g, c).background, g) && Noticed(g, c).memObj == c.memObj
    ensures Noticed(g, c).offset == c.offset
  {
  }

  lemma MaxSlotBound(o: Obj)
    requires o.GptObj?
    ensures MaxSlot(o) < N_SLOTS
  {
  }

  /** A window shows a key of a GPT. */
  lemma OpenedOk(g: Graph, c: Cursor, o: Obj, k: SegKey)
    requires GraphOk(g) && BackgroundOk(c.background, g) && o.GptObj? && |o.slots| == N_SLOTS && KeyOk(k, g)
    requires forall i :: 0 <= i < N_SLOTS ==> KeyOk(o.slots[i], g)
    ensures KeyOk(Opened(g, c, o, k).k, g)
  {
    hide KeyOk, Low;
  }

  lemma LowLess(x: nat, l2v: nat)
    ensures Low(x, l2v) < Pow2(l2v) && Low(x, l2v) <= x
  {
  }

  lemma ProcessKeyOk(g: Graph, c: Cursor, k: SegKey, va: nat)
    requires KeyOk(k, g) && BackgroundOk(c.background, g) && va < TWO64
    ensures ProcessKey(g, c, k, va).ok ==> CursorOk(ProcessKey(g, c, k, va).c, g)
    ensures ProcessKey(g, c, k, va).ok ==> ProcessKey(g, c, k, va).c.traverseCount == c.traverseCount
  {
    hide High, Low, Pow2;
    if k.MemKey? {
      LowLess(va, k.l2g);
    }
  }

  lemma Pow64()
    ensures Pow2(64) == TWO64
  {
    Pow2Values();
    Pow2Add(32, 32);
  }

  /** A multiple of p below p * q leaves room for p. */
  lemma RoomAbove(a: nat, p: nat, q: nat)
    requires a * p < q * p
    ensures a * p + p <= q * p
  {
    assert a < q;
    MulMono(a + 1, q, p);
    assert (a + 1) * p == a * p + p;
  }

  /** The offset in a window does not overflow 64 bits. */
  lemma WindowFits(off: nat, addr: nat, l2v: nat)
    requires l2v < 64 && off < Pow2(l2v) && Low(addr, l2v) == 0 && addr < TWO64
    ensures off + addr < TWO64
  {
    hide Pow2;
    Pow64();
    Pow2Add(64 - l2v, l2v);
    Quotient(addr, Pow2(l2v));
    assert addr % Pow2(l2v) == 0;
    RoomAbove(addr / Pow2(l2v), Pow2(l2v), Pow2(64 - l2v));
  }

  /** A traversal that succeeds goes one level on. */
  lemma TraverseOk(g: Graph, c: Cursor)
    requires GraphOk(g) && CursorOk(c, g) && g[c.memObj].GptObj?
    ensures Traverse(g, c).ok ==> CursorOk(Traverse(g, c).c, g)
    ensures Traverse(g, c).ok ==> Traverse(g, c).c.traverseCount == c.traverseCount + 1 < MAX_SEG_DEPTH
  {
    hide High, Low, Pow2;
    var o, c2 := g[c.memObj], Noticed(g, c.(traverseCount := c.traverseCount + 1));
    LowLess(c.offset, o.l2v);
    if High(c.offset, o.l2v) <= MaxSlot(o) {
      var k, c3 := o.slots[High(c2.offset, o.l2v)], c2.(offset := Low(c2.offset, o.l2v));
      if !k.Window? {
        ProcessKeyOk(g, c3, k, c3.offset);
      } else if Low(k.addr, o.l2v) == 0 {
        WindowFits(c3.offset, k.addr, o.l2v);
        var c4 := c3.(offset := c3.offset + k.addr, restrictions := Or(c3.restrictions, k.perms));
        if k.wslot < N_SLOTS {
          ProcessKeyOk(g, c4, o.slots[k.wslot], c4.offset);
        } else if c4.background.Gpt? {
          ProcessKeyOk(g, c4, g[c4.background.oid].slots[BACKGROUND_SLOT], c4.offset);
        }
      }
    }
  }

  // ---------- Walking in stages ----------

  /** A walk to one stop level and on to a lower one ends as one walk to the lower level does, fault or not. */
  lemma {:induction false} WalkInStages(g: Graph, c: Cursor, high: nat, low: nat)
    requires GraphOk(g) && CursorOk(c, g) && low <= high
    ensures Walk(g, c, high).ok ==> CursorOk(Walk(g, c, high).c, g)
    ensures Walk(g, c, low) == if Walk(g, c, high).ok then Walk(g, Walk(g, c, high).c, low) else Walk(g, c, high)
    decreases MAX_SEG_DEPTH - c.traverseCount
  {
    hide Traverse, GraphOk;
    if g[c.memObj].GptObj? && !IsStop(g, c, high) {
      TraverseOk(g, c);
      if Traverse(g, c).ok {
        WalkInStages(g, Traverse(g, c).c, high, low);
      }
    }
  }

  /** A walk ends after at most MAX_SEG_DEPTH traversals, even where the graph has cycles. */
  lemma {:induction false} WalkBounded(g: Graph, c: Cursor, stopL2v: nat)
    requires GraphOk(g) && CursorOk(c, g) && c.traverseCount < MAX_SEG_DEPTH
    ensures c.traverseCount <= Walk(g, c, stopL2v).c.traverseCount <= MAX_SEG_DEPTH
    ensures Walk(g, c, stopL2v).ok ==> Walk(g, c, stopL2v).c.traverseCount < MAX_SEG_DEPTH
    ensures !Walk(g, c, stopL2v).ok && Walk(g, c, stopL2v).c.faultCode == TraverseLimit ==>
      Walk(g, c, stopL2v).c.traverseCount == MAX_SEG_DEPTH
    decreases MAX_SEG_DEPTH - c.traverseCount
  {
    if g[c.memObj].GptObj? && !IsStop(g, c, stopL2v) {
      TraverseOk(g, c);
      if Traverse(g, c).ok {
        WalkBounded(g, Traverse(g, c).c, stopL2v);
      }
    }
  }

  // ---------- What an address means ----------

  /** Slot i can be addressed: it is not the keeper's or the background key's, nor beyond. */
  predicate HasSlot(o: Obj, i: nat)
    requires o.GptObj?
  {
    i < 32 && (o.hasKeeper ==> i != 31) && (o.hasBackground ==> i < 30)
  }

  lemma MaxSlotIs(o: Obj, i: nat)
    requires o.GptObj?
    ensures i <= MaxSlot(o) <==> HasSlot(o, i)
  {
  }

  lemma HighLow(x: nat, l2v: nat)
    ensures High(x, l2v) == x / Pow2(l2v) && Low(x, l2v) == x % Pow2(l2v)
  {
  }

  /** An address is its high bits and its low bits. */
  lemma SplitAddress(x: nat, l2v: nat)
    ensures x == High(x, l2v) * Pow2(l2v) + Low(x, l2v) && Low(x, l2v) < Pow2(l2v)
  {
    hide Pow2;
    assert x == (x / Pow2(l2v)) * Pow2(l2v) + x % Pow2(l2v);
  }

  /** The page and offset that an address leads to, and the permissions of the way there taken together. */
  datatype Found = Missing | At(oid: nat, offset: nat, perms: Perms)

  function Under(p: Perms, f: Found): Found {
    if f.At? then f.(perms := Or(p, f.perms)) else Missing
  }

  /** The key that a window stands for. */
  function Shown(g: Graph, o: nat, w: SegKey, background: GptRef): (k: SegKey)
    requires GraphOk(g) && o in g && g[o].GptObj? && w.Window? && BackgroundOk(background, g)
    ensures KeyOk(k, g)
  {
    if w.wslot < N_SLOTS then g[o].slots[w.wslot]
    else if w.wslot == 0xff && background.Gpt? then g[background.oid].slots[BACKGROUND_SLOT]
    else OtherKey
  }

  /** Address va in the space of key k: its guard must match, and the object takes the rest. */
  function MeaningOfKey(g: Graph, k: SegKey, va: nat, background: GptRef, depth: nat): Found
    requires GraphOk(g) && KeyOk(k, g) && BackgroundOk(background, g)
    decreases depth, 1
  {
    if k.MemKey? && !g[k.oid].NotGpt? && High(va, k.l2g) == k.guard
    then Under(k.perms, Meaning(g, k.oid, Low(va, k.l2g), background, depth))
    else Missing
  }

  /** Address `rest` in what a slot of GPT o has. */
  function MeaningOfSlot(g: Graph, o: nat, k: SegKey, rest: nat, background: GptRef, depth: nat): Found
    requires GraphOk(g) && o in g && g[o].GptObj? && KeyOk(k, g) && BackgroundOk(background, g)
    decreases depth, 2
  {
    if !k.Window? then MeaningOfKey(g, k, rest, background, depth)
    else if Low(k.addr, g[o].l2v) != 0 then Missing
    else Under(k.perms, MeaningOfKey(g, Shown(g, o, k, background), rest + k.addr, background, depth))
  }

  function SlotAt(g: Graph, o: nat, off: nat): (k: SegKey)
    requires GraphOk(g) && o in g && g[o].GptObj? && HasSlot(g[o], High(off, g[o].l2v))
    ensures KeyOk(k, g)
  {
    g[o].slots[High(off, g[o].l2v)]
  }

  /** Address off in the space of an object, through at most `depth` GPTs. */
  function Meaning(g: Graph, o: nat, off: nat, background: GptRef, depth: nat): Found
    requires GraphOk(g) && o in g && BackgroundOk(background, g)
    decreases depth, 0
  {
    if g[o].PageObj? then if off < EROS_PAGE_SIZE then At(o, off, NoPerms) else Missing
    else if g[o].NotGpt? || depth == 0 || !HasSlot(g[o], High(off, g[o].l2v)) then Missing
    else
      var background' := if g[o].hasBackground then Gpt(o) else background;
      MeaningOfSlot(g, o, SlotAt(g, o, off), Low(off, g[o].l2v), background', depth - 1)
  }

  function Depth(c: Cursor): nat {
    if c.traverseCount + 1 < MAX_SEG_DEPTH then MAX_SEG_DEPTH - 1 - c.traverseCount else 0
  }

  /** The result of a walk is what the meaning says, unless it needs to write and the way there is read-only. */
  predicate Agrees(r: Result, c: Cursor, f: Found) {
    && (r.ok <==> f.At? && !(c.needWrite && Or(c.restrictions, f.perms).readOnly))
    && (r.ok ==> r.c.memObj == f.oid && r.c.offset == f.offset && r.c.restrictions == Or(c.restrictions, f.perms))
  }

  /** A whole walk finds the page that the address means, or faults if there is none. */
  lemma {:induction false} WalkAgrees(g: Graph, c: Cursor)
    requires GraphOk(g) && CursorOk(c, g)
    ensures Agrees(Walk(g, c, EROS_PAGE_LGSIZE), c, Meaning(g, c.memObj, c.offset, c.background, Depth(c)))
    decreases MAX_SEG_DEPTH - c.traverseCount
  {
    if g[c.memObj].GptObj? {
      TraverseOk(g, c);
      if Traverse(g, c).ok {
        WalkAgrees(g, Traverse(g, c).c);
      }
      TraverseMeans(g, c);
    }
  }

  /** From c, f is what the rest of the way from c' means, under the permissions up to there. */
  ghost predicate Onward(g: Graph, c: Cursor, c': Cursor, f: Found)
    requires GraphOk(g) && CursorOk(c', g)
  {
    exists p ::
      (&& c'.restrictions == Or(c.restrictions, p)
       && f == Under(p, Meaning(g, c'.memObj, c'.offset, c'.background, Depth(c'))))
  }

  /** A traversal goes where the meaning of the address goes. */
  lemma TraverseMeans(g: Graph, c: Cursor)
    requires GraphOk(g) && CursorOk(c, g) && g[c.memObj].GptObj?
    ensures var r, f := Traverse(g, c), Meaning(g, c.memObj, c.offset, c.background, Depth(c));
      if !r.ok then Agrees(r, c, f)
      else CursorOk(r.c, g) && r.c.needWrite == c.needWrite && Onward(g, c, r.c, f)
  {
    hide High, Low, Pow2, MeaningOfKey, MeaningOfSlot, ProcessKey, KeyOk, Onward, Opened, MaxSlot, HasSlot;
    TraverseOk(g, c);
    MaxSlotBound(g[c.memObj]);
    MaxSlotIs(g[c.memObj], High(c.offset, g[c.memObj].l2v));
    var o, c1 := g[c.memObj], c.(traverseCount := c.traverseCount + 1);
    if c1.traverseCount < MAX_SEG_DEPTH && High(c.offset, o.l2v) <= MaxSlot(o) {
      var c2 := Noticed(g, c1);
      var k, c3 := o.slots[High(c2.offset, o.l2v)], c2.(offset := Low(c2.offset, o.l2v));
      SlotMeans(g, c3, c.memObj, k, Depth(c) - 1);
      if Traverse(g, c).ok {
        UnderPath(g, c, Traverse(g, c), PathPerms(g, c.memObj, k, c3.background), Depth(c) - 1);
      }
    }
  }

  /** The permissions on the way through a slot. */
  function PathPerms(g: Graph, o: nat, k: SegKey, background: GptRef): Perms
    requires GraphOk(g) && o in g && g[o].GptObj? && BackgroundOk(background, g)
  {
    if k.MemKey? then k.perms
    else if k.Window? && Shown(g, o, k, background).MemKey? then Or(k.perms, Shown(g, o, k, background).perms)
    else NoPerms
  }

  /** A slot of a GPT, with its window if it has one, leads where its meaning says. */
  lemma SlotMeans(g: Graph, c: Cursor, o: nat, k: SegKey, depth: nat)
    requires GraphOk(g) && KeyOk(k, g) && BackgroundOk(c.background, g) && o in g && g[o].GptObj?
    requires c.needWrite ==> !c.restrictions.readOnly
    ensures var w, f := Opened(g, c, g[o], k), MeaningOfSlot(g, o, k, c.offset, c.background, depth);
      var p := PathPerms(g, o, k, c.background);
      if !w.ok then !f.At? || (c.needWrite && Or(c.restrictions, f.perms).readOnly)
      else KeyOk(w.k, g) && Through(g, c, ProcessKey(g, w.c, w.k, w.c.offset), f, p, depth)
  {
    hide High, Low, Pow2, MeaningOfKey, ProcessKey, KeyOk;
    if !k.Window? {
      KeyMeans(g, c, k, c.offset, depth);
    } else if Low(k.addr, g[o].l2v) == 0 {
      var c' := c.(offset := c.offset + k.addr, restrictions := Or(c.restrictions, k.perms));
      KeyMeans(g, c', Shown(g, o, k, c.background), c.offset + k.addr, depth);
    }
  }

  /** From c under permissions p to r, on the way that f means. */
  ghost predicate Through(g: Graph, c: Cursor, r: Result, f: Found, p: Perms, depth: nat)
    requires GraphOk(g) && BackgroundOk(c.background, g)
  {
    if !r.ok then !f.At? || (c.needWrite && Or(c.restrictions, f.perms).readOnly)
    else r.c.background == c.background && r.c.needWrite == c.needWrite && r.c.traverseCount == c.traverseCount
         && r.c.restrictions == Or(c.restrictions, p)
         && r.c.memObj in g && f == Under(p, Meaning(g, r.c.memObj, r.c.offset, c.background, depth))
  }

  /** The permissions of one level of the way. */
  lemma UnderPath(g: Graph, c: Cursor, r: Result, p: Perms, depth: nat)
    requires GraphOk(g) && CursorOk(r.c, g)
    ensures r.c.restrictions == Or(c.restrictions, p) && depth == Depth(r.c) ==>
      Onward(g, c, r.c, Under(p, Meaning(g, r.c.memObj, r.c.offset, r.c.background, depth)))
  {
  }

  lemma KeyMeans(g: Graph, c: Cursor, k: SegKey, va: nat, depth: nat)
    requires GraphOk(g) && KeyOk(k, g) && BackgroundOk(c.background, g)
    ensures var r := ProcessKey(g, c, k, va);
      && (r.ok ==> k.MemKey?)
      && Through(g, c, r, MeaningOfKey(g, k, va, c.background, depth), if k.MemKey? then k.perms else NoPerms, depth)
  {
  }

  /** The permissions of the keys and windows on the way to the page, in order. */
  function KeyTrail(g: Graph, k: SegKey, va: nat, background: GptRef, depth: nat): seq<Perms>
    requires GraphOk(g) && KeyOk(k, g) && BackgroundOk(background, g)
    decreases depth, 1
  {
    if k.MemKey? && !g[k.oid].NotGpt? && High(va, k.l2g) == k.guard
    then [k.perms] + Trail(g, k.oid, Low(va, k.l2g), background, depth)
    else []
  }

  function Trail(g: Graph, o: nat, off: nat, background: GptRef, depth: nat): seq<Perms>
    requires GraphOk(g) && o in g && BackgroundOk(background, g)
    decreases depth, 0
  {
    if !g[o].GptObj? || depth == 0 || !HasSlot(g[o], High(off, g[o].l2v)) then []
    else
      var k, rest := SlotAt(g, o, off), Low(off, g[o].l2v);
      var b := if g[o].hasBackground then Gpt(o) else background;
      if !k.Window? then KeyTrail(g, k, rest, b, depth - 1)
      else [k.perms] + KeyTrail(g, Shown(g, o, k, b), rest + k.addr, b, depth - 1)
  }

  /** Some key or window in the trail is read-only. */
  predicate SomeReadOnly(t: seq<Perms>) {
    exists i :: 0 <= i < |t| && t[i].readOnly
  }

  predicate SomeNoCall(t: seq<Perms>) {
    exists i :: 0 <= i < |t| && t[i].noCall
  }

  lemma PermsCons(p: Perms, t: seq<Perms>)
    ensures SomeReadOnly([p] + t) <==> p.readOnly || SomeReadOnly(t)
    ensures SomeNoCall([p] + t) <==> p.noCall || SomeNoCall(t)
  {
    if i :| 0 <= i < |t| && t[i].readOnly {
      assert ([p] + t)[i + 1].readOnly;
    }
    if i :| 0 <= i < |t| && t[i].noCall {
      assert ([p] + t)[i + 1].noCall;
    }
    assert ([p] + t)[0] == p;
  }

  lemma {:induction false} KeyTrailPerms(g: Graph, k: SegKey, va: nat, background: GptRef, depth: nat)
    requires GraphOk(g) && KeyOk(k, g) && BackgroundOk(background, g)
    ensures var f := MeaningOfKey(g, k, va, background, depth);
      f.At? ==>
        (&& (f.perms.readOnly <==> SomeReadOnly(KeyTrail(g, k, va, background, depth)))
         && (f.perms.noCall <==> SomeNoCall(KeyTrail(g, k, va, background, depth))))
    decreases depth, 1
  {
    if k.MemKey? && !g[k.oid].NotGpt? && High(va, k.l2g) == k.guard {
      TrailPerms(g, k.oid, Low(va, k.l2g), background, depth);
      PermsCons(k.perms, Trail(g, k.oid, Low(va, k.l2g), background, depth));
    }
  }

  /** The meaning of an address is read-only, or no-call, exactly when some key or window on the way is. */
  lemma {:induction false} TrailPerms(g: Graph, o: nat, off: nat, background: GptRef, depth: nat)
    requires GraphOk(g) && o in g && BackgroundOk(background, g)
    ensures var f := Meaning(g, o, off, background, depth);
      f.At? ==>
        (&& (f.perms.readOnly <==> SomeReadOnly(Trail(g, o, off, background, depth)))
         && (f.perms.noCall <==> SomeNoCall(Trail(g, o, off, background, depth))))
    decreases depth, 0
  {
    hide High, Low, GraphOk, SomeReadOnly, SomeNoCall;
    if g[o].GptObj? && depth > 0 && HasSlot(g[o], High(off, g[o].l2v)) {
      var k, rest := SlotAt(g, o, off), Low(off, g[o].l2v);
      var b := if g[o].hasBackground then Gpt(o) else background;
      if !k.Window? {
        KeyTrailPerms(g, k, rest, b, depth - 1);
      } else {
        var t := Shown(g, o, k, b);
        KeyTrailPerms(g, t, rest + k.addr, b, depth - 1);
        PermsCons(k.perms, KeyTrail(g, t, rest + k.addr, b, depth - 1));
      }
    } else {
      NoPermsNone();
    }
  }

  lemma NoPermsNone()
    ensures !SomeReadOnly([]) && !SomeNoCall([])
  {
  }

  /**
   A whole walk from an address space key. When it succeeds it is at a page, the offset is inside the
   page, and if it needed to write no key or window on the way was read-only.
   */
  lemma WalkFromKey(g: Graph, c: Cursor, k: SegKey, va: nat)
    requires GraphOk(g) && KeyOk(k, g) && va < TWO64 && c.traverseCount == 0
    requires Start(g, c, k, va).ok
    ensures var c0 := Start(g, c, k, va).c;
      CursorOk(c0, g) && Agrees(Walk(g, c0, EROS_PAGE_LGSIZE), c.(restrictions := NoPerms),
                                MeaningOfKey(g, k, va, NoGpt, MAX_SEG_DEPTH - 1))
    ensures var r := Walk(g, Start(g, c, k, va).c, EROS_PAGE_LGSIZE);
      r.ok ==>
        && r.c.memObj in g && g[r.c.memObj].PageObj? && r.c.offset < EROS_PAGE_SIZE
        && (c.needWrite ==> !SomeReadOnly(KeyTrail(g, k, va, NoGpt, MAX_SEG_DEPTH - 1)))
  {
    hide High, Low, GraphOk, SomeReadOnly, Walk, Meaning, Trail;
    var c1 := c.(restrictions := NoPerms, background := NoGpt, keeper := NoGpt);
    ProcessKeyOk(g, c1, k, va);
    KeyMeans(g, c1, k, va, MAX_SEG_DEPTH - 1);
    var c0 := Start(g, c, k, va).c;
    WalkAgrees(g, c0);
    KeyTrailPerms(g, k, va, NoGpt, MAX_SEG_DEPTH - 1);
    WalkEnds(g, c0);
  }

  /** A whole walk that succeeds ends inside a page. */
  lemma {:induction false} WalkEnds(g: Graph, c: Cursor)
    requires GraphOk(g) && CursorOk(c, g)
    ensures var r := Walk(g, c, EROS_PAGE_LGSIZE);
      r.ok ==> r.c.memObj in g && g[r.c.memObj].PageObj? && r.c.offset < EROS_PAGE_SIZE
    decreases MAX_SEG_DEPTH - c.traverseCount
  {
    if g[c.memObj].GptObj? {
      TraverseOk(g, c);
      if Traverse(g, c).ok {
        WalkEnds(g, Traverse(g, c).c);
      }
    }
  }

  // ---------- What a walk passes ----------

  /** The cursors with which a walk comes to the GPTs it traverses. */
  function Visits(g: Graph, c: Cursor, stopL2v: nat): seq<Cursor>
    requires GraphOk(g) && CursorOk(c, g)
    decreases MAX_SEG_DEPTH - c.traverseCount
  {
    if g[c.memObj].PageObj? || g[c.memObj].l2v < stopL2v || c.traverseCount + 1 >= MAX_SEG_DEPTH then []
    else
      TraverseOk(g, c);
      [c] + if Traverse(g, c).ok then Visits(g, Traverse(g, c).c, stopL2v) else []
  }

  /** The keeper of the GPT that c is at can be called. */
  predicate Callable(g: Graph, c: Cursor) {
    c.memObj in g && g[c.memObj].GptObj? && g[c.memObj].hasKeeper && !c.restrictions.noCall
  }

  ghost predicate LastCallable(g: Graph, vs: seq<Cursor>, i: int) {
    0 <= i < |vs| && Callable(g, vs[i]) && forall j :: i < j < |vs| ==> !Callable(g, vs[j])
  }

  /** The keeper is that of the last GPT passed that has one which can be called, with the offset there. */
  ghost predicate KeeperLast(g: Graph, vs: seq<Cursor>, c: Cursor, c': Cursor) {
    && (c.keeper == Unknown ==> c'.keeper == Unknown && c'.keeperOffset == c.keeperOffset)
    && ((forall i :: 0 <= i < |vs| ==> !Callable(g, vs[i])) ==>
        c'.keeper == c.keeper && c'.keeperOffset == c.keeperOffset)
    && (forall i :: c.keeper != Unknown && LastCallable(g, vs, i) ==>
        c'.keeper == Gpt(vs[i].memObj) && c'.keeperOffset == vs[i].offset)
  }

  lemma KeeperStep(g: Graph, v: Cursor, vs: seq<Cursor>, c1: Cursor, c': Cursor)
    requires KeeperLast(g, vs, c1, c')
    requires if v.keeper != Unknown && Callable(g, v) then c1.keeper == Gpt(v.memObj) && c1.keeperOffset == v.offset
             else c1.keeper == v.keeper && c1.keeperOffset == v.keeperOffset
    ensures KeeperLast(g, [v] + vs, v, c')
  {
    hide Callable;
    var ws := [v] + vs;
    assert forall i :: 0 <= i < |vs| ==> ws[i + 1] == vs[i];
    forall i | v.keeper != Unknown && LastCallable(g, ws, i)
      ensures c'.keeper == Gpt(ws[i].memObj) && c'.keeperOffset == ws[i].offset
    {
      forall j | 0 <= j < |vs| && (i == 0 || j > i - 1)
        ensures !Callable(g, vs[j])
      {
        assert ws[j + 1] == vs[j];
      }
      assert i > 0 ==> LastCallable(g, vs, i - 1);
    }
    if forall i :: 0 <= i < |ws| ==> !Callable(g, ws[i]) {
      forall j | 0 <= j < |vs|
        ensures !Callable(g, vs[j])
      {
        assert ws[j + 1] == vs[j];
      }
      assert !Callable(g, ws[0]);
    }
  }

  lemma KeeperNone(g: Graph, c: Cursor, c': Cursor)
    requires c'.keeper == c.keeper && c'.keeperOffset == c.keeperOffset
    ensures KeeperLast(g, [], c, c')
  {
  }

  /** What a traversal does to the keeper, whether it succeeds or not. */
  lemma TraverseKeeper(g: Graph, c: Cursor)
    requires GraphOk(g) && CursorOk(c, g) && g[c.memObj].GptObj?
    ensures var c' := Traverse(g, c).c;
      if c.traverseCount + 1 < MAX_SEG_DEPTH && c.keeper != Unknown && Callable(g, c) then
        c'.keeper == Gpt(c.memObj) && c'.keeperOffset == c.offset
      else c'.keeper == c.keeper && c'.keeperOffset == c.keeperOffset
  {
    hide High, Low, Pow2, GraphOk;
  }

  /**
   A walk traverses only GPTs that are not below the stop level, and when it succeeds it is at one that is,
   or inside a page. Whether it succeeds or not, the keeper is that of the last GPT traversed that has one
   which can be called.
   */
  lemma {:induction false} WalkPasses(g: Graph, c: Cursor, stopL2v: nat)
    requires GraphOk(g) && CursorOk(c, g)
    ensures var r, vs := Walk(g, c, stopL2v), Visits(g, c, stopL2v);
      && (forall i :: 0 <= i < |vs| ==>
          vs[i].memObj in g && g[vs[i].memObj].GptObj? && stopL2v <= g[vs[i].memObj].l2v)
      && KeeperLast(g, vs, c, r.c)
      && (r.ok ==> r.c.memObj in g && if g[r.c.memObj].GptObj? then g[r.c.memObj].l2v < stopL2v
                                      else g[r.c.memObj].PageObj? && r.c.offset < 4096)
    decreases MAX_SEG_DEPTH - c.traverseCount
  {
    hide Traverse, KeeperLast, Callable;
    if g[c.memObj].GptObj? && g[c.memObj].l2v >= stopL2v {
      TraverseOk(g, c);
      TraverseKeeper(g, c);
      var t := Traverse(g, c);
      if t.ok {
        WalkPasses(g, t.c, stopL2v);
        KeeperStep(g, c, Visits(g, t.c, stopL2v), t.c, Walk(g, c, stopL2v).c);
      } else {
        KeeperNone(g, t.c, t.c);
        if c.traverseCount + 1 < MAX_SEG_DEPTH {
          KeeperStep(g, c, [], t.c, t.c);
          assert [c] + [] == [c];
        } else {
          KeeperNone(g, c, t.c);
        }
      }
    } else {
      KeeperNone(g, c, Walk(g, c, stopL2v).c);
    }
  }

  /** A GPT whose first slot holds a key to itself. */
  function Loop(): Graph {
    map[0 := GptObj(12, false, false, seq(N_SLOTS, _ => MemKey(0, 64, 0, NoPerms)))]
  }

  /** Walking round a cycle ends with the traverse limit. */
  lemma {:induction false} LoopFaults(c: Cursor)
    requires c.memObj == 0 && c.offset == 0 && c.background == NoGpt && !c.needWrite && c.traverseCount < MAX_SEG_DEPTH
    ensures GraphOk(Loop()) && CursorOk(c, Loop())
    ensures !Walk(Loop(), c, EROS_PAGE_LGSIZE).ok && Walk(Loop(), c, EROS_PAGE_LGSIZE).c.faultCode == TraverseLimit
    decreases MAX_SEG_DEPTH - c.traverseCount
  {
    LoopOk();
    ZeroBits(12);
    ZeroBits(64);
    TraverseOk(Loop(), c);
    var r := Traverse(Loop(), c);
    if c.traverseCount + 1 < MAX_SEG_DEPTH {
      assert r.ok && r.c.offset == 0 && r.c.memObj == 0;
      LoopFaults(r.c);
    }
  }

  lemma LoopOk()
    ensures GraphOk(Loop())
  {
  }

  lemma ZeroBits(l2v: nat)
    ensures High(0, l2v) == 0 && Low(0, l2v) == 0
  {
  }

  class Walker {
    const g: Graph
    var memObj: nat
    var offset: nat
    var needWrite: bool
    var restrictions: Perms
    var backgroundGPT: GptRef
    var keeperGPT: GptRef
    var keeperOffset: nat
    var traverseCount: nat
    var faultCode: FaultCode

    /** The fields, as a value. */
    function Now(): Cursor
      reads this
    {
      Cursor(memObj, offset, needWrite, restrictions, backgroundGPT, keeperGPT, keeperOffset, traverseCount, faultCode)
    }

    /** processKey. */
    method ProcessSegKey(k: SegKey, va: nat) returns (ok: bool)
      requires KeyOk(k, g)
      modifies this
      ensures Result(ok, Now()) == ProcessKey(g, old(Now()), k, va)
      ensures !ok ==> faultCode == if k.VoidKey? then InvalidAddr
                                   else if !k.MemKey? || g[k.oid].NotGpt? then MalformedSpace
                                   else if va / Pow2(k.l2g) != k.guard then InvalidAddr else AccessViolation
    {
      if k.VoidKey? {
        faultCode := InvalidAddr;
        return false;
      }
      if !k.MemKey? || g[k.oid].NotGpt? {
        faultCode := MalformedSpace;
        return false;
      }
      if High(va, k.l2g) != k.guard {
        faultCode := InvalidAddr;
        return false;
      }
      offset := Low(va, k.l2g);
      memObj := k.oid;
      restrictions := Or(restrictions, k.perms);
      if restrictions.readOnly && needWrite {
        faultCode := AccessViolation;
        return false;
      }
      return true;
    }

    /** segwalk_init. */
    method Init(k: SegKey, va: nat) returns (ok: bool)
      requires KeyOk(k, g)
      modifies this
      ensures Result(ok, Now()) == Start(g, old(Now()), k, va)
      ensures backgroundGPT == NoGpt && keeperGPT == NoGpt && (ok ==> restrictions == k.perms && memObj == k.oid)
    {
      restrictions := NoPerms;
      backgroundGPT := NoGpt;
      keeperGPT := NoGpt;
      ok := ProcessSegKey(k, va);
    }

    /** The part of the loop of WalkSeg that looks at the flags of a GPT. */
    method NoticeGpt(o: Obj) returns (maxSlot: nat)
      requires memObj in g && o == g[memObj] && o.GptObj?
      modifies this
      ensures Now() == Noticed(g, old(Now())) && maxSlot == MaxSlot(o)
    {
      var gpt := memObj;
      maxSlot := N_SLOTS - 1;
      if o.hasKeeper {
        maxSlot := KEEPER_SLOT - 1;
        if keeperGPT != Unknown && !restrictions.noCall {
          keeperGPT := Gpt(gpt);
          keeperOffset := offset;
        }
      }
      if o.hasBackground {
        backgroundGPT := Gpt(gpt);
        maxSlot := BACKGROUND_SLOT - 1;
      }
    }

    /** The part of the loop of WalkSeg for a key that may be a window. */
    method OpenWindow(o: Obj, k: SegKey) returns (ok: bool, k': SegKey)
      requires GraphOk(g) && BackgroundOk(backgroundGPT, g) && o.GptObj? && |o.slots| == N_SLOTS
      modifies this
      ensures Opening(ok, Now(), k') == Opened(g, old(Now()), o, k)
      ensures !ok ==> k.Window? && faultCode == if k.addr % Pow2(o.l2v) == 0 && needWrite && restrictions.readOnly
                                                then AccessViolation else MalformedSpace
    {
      hide Low, Or, Pow2;
      k' := k;
      if k.Window? {
        HighLow(k.addr, o.l2v);
      }
      if !k.Window? {
        return true, k';
      }
      if Low(k.addr, o.l2v) != 0 {
        faultCode := MalformedSpace;
        return false, k';
      }
      offset := offset + k.addr;
      restrictions := Or(restrictions, k.perms);
      if restrictions.readOnly && needWrite {
        faultCode := AccessViolation;
        return false, k';
      }
      if k.wslot < N_SLOTS {
        k' := o.slots[k.wslot];
      } else if k.wslot == 0xff {
        if backgroundGPT == NoGpt {
          faultCode := MalformedSpace;
          return false, k';
        }
        k' := g[backgroundGPT.oid].slots[BACKGROUND_SLOT];
      } else {
        faultCode := MalformedSpace;
        return false, k';
      }
      return true, k';
    }

    /** The part of the loop of WalkSeg from the traverse count on. */
    method TraverseGpt() returns (ok: bool)
      requires GraphOk(g) && CursorOk(Now(), g) && g[memObj].GptObj?
      modifies this
      ensures Result(ok, Now()) == Traverse(g, old(Now()))
      ensures old(traverseCount) + 1 >= MAX_SEG_DEPTH ==> !ok && faultCode == TraverseLimit
      ensures var o := old(g[memObj]);
        old(traverseCount) + 1 < MAX_SEG_DEPTH && !HasSlot(o, old(offset) / Pow2(o.l2v)) ==>
          !ok && faultCode == InvalidAddr
    {
      hide High, Low, ProcessKey, Pow2, Opened, Noticed, MaxSlot, HasSlot;
      ghost var c0 := Now();
      var o := g[memObj];
      HighLow(offset, o.l2v);
      MaxSlotIs(o, High(offset, o.l2v));
      traverseCount := traverseCount + 1;
      if traverseCount >= MAX_SEG_DEPTH {
        faultCode := TraverseLimit;
        return false;
      }
      NoticedOk(g, Now());
      var maxSlot := NoticeGpt(o);
      var ndx := High(offset, o.l2v);
      if ndx > maxSlot {
        faultCode := InvalidAddr;
        return false;
      }
      MaxSlotBound(o);
      offset := Low(offset, o.l2v);
      var k := o.slots[ndx];
      OpenedOk(g, Now(), o, k);
      ok, k := OpenWindow(o, k);
      if ok {
        ok := ProcessSegKey(k, offset);
      }
    }

    /** WalkSeg. */
    method WalkSeg(stopL2v: nat) returns (ok: bool)
      requires GraphOk(g) && CursorOk(Now(), g)
      modifies this
      ensures Result(ok, Now()) == Walk(g, old(Now()), stopL2v)
    {
      hide GraphOk, Traverse;
      while true
        invariant CursorOk(Now(), g) && Walk(g, Now(), stopL2v) == Walk(g, old(Now()), stopL2v)
        decreases MAX_SEG_DEPTH - traverseCount
      {
        if g[memObj].PageObj? {
          if offset >= EROS_PAGE_SIZE {
            faultCode := InvalidAddr;
            return false;
          }
          return true;
        }
        if g[memObj].l2v < stopL2v {
          return true;
        }
        TraverseOk(g, Now());
        var went := TraverseGpt();
        if !went {
          return false;
        }
      }
      return false;
    }
  }
}
