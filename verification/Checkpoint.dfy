/**
 The global state of a checkpoint, src/sys/kernel/kern_Ckpt.c, and the parts of its phases that run
 without yielding: the circular array of generation header LIDs and the checkpoint root made from it.
 */
module Checkpoint {
  import opened LogDisk

  const RING: nat := MAX_UNMIGRATED + 1  // size of unmigratedGenHdrLid

  datatype Phase = NotActive | Phase1 | Phase2 | Phase3 | Phase4 | Phase5

  datatype Globals = Globals(
    ckptState: Phase, working: nat, migrated: nat, retired: nat, nextRetired: nat,
    wkgUGHL: nat, nextWkgUGHL: nat, unmigratedGenHdrLid: seq<nat>,
    currentRootLID: nat, logCursor: nat, nextRangeToSync: nat, rangesSynced: nat)

  ghost predicate Counters(g: Globals, log: Log) {
    && 1 <= g.retired <= g.migrated < g.working <= g.retired + RING
    && |g.unmigratedGenHdrLid| == RING && g.wkgUGHL < RING && g.nextWkgUGHL < RING
    && IsRootLid(g.currentRootLID)
    && g.nextRangeToSync <= log.nLidRanges
    && (g.ckptState in {Phase4, Phase5} ==> g.nextWkgUGHL == Below(g.wkgUGHL))
    && (g.ckptState == Phase5 ==>
        g.retired <= g.nextRetired <= g.migrated && g.working <= g.nextRetired + MAX_UNMIGRATED)
  }

  /** The slot before slot i around the ring. */
  function Below(i: nat): nat {
    (i + MAX_UNMIGRATED) % RING
  }

  function Slot(start: nat, k: nat): nat {
    (start + k) % RING
  }

  /** From slot `start` on, the ring holds the header LIDs of generations `newest` down to `oldest`. */
  ghost predicate RingHolds(ring: seq<nat>, start: nat, newest: nat, oldest: nat, hdrOf: map<nat, nat>) {
    && |ring| == RING
    && forall h :: oldest <= h <= newest ==> h in hdrOf && ring[Slot(start, newest - h)] == hdrOf[h]
  }

  /**
   The oldest generation whose header LID is in the ring: the newest retired one, except that phase 3
   of a checkpoint writes over that when the ring is full.
   */
  function OldestInRing(g: Globals): nat {
    if g.ckptState in {Phase4, Phase5} && g.working == g.retired + RING then g.retired + 1 else g.retired
  }

  /** The header LIDs of the unretired generations and of the newest retired one are in the ring. */
  ghost predicate RingOk(g: Globals, hdrOf: map<nat, nat>) {
    && g.working > 0 && RingHolds(g.unmigratedGenHdrLid, g.wkgUGHL, g.working - 1, OldestInRing(g), hdrOf)
    && (g.ckptState in {Phase4, Phase5} ==>
        RingHolds(g.unmigratedGenHdrLid, g.nextWkgUGHL, g.working, OldestInRing(g), hdrOf))
  }

  /** Going once round the ring. */
  lemma BelowSlots(i: nat, k: nat)
    requires i < RING && k < RING
    ensures Slot(Below(i), 0) == Below(i) && (k > 0 ==> Slot(Below(i), k) == Slot(i, k - 1))
    ensures Slot(i, k) == Below(i) <==> k == MAX_UNMIGRATED
  {
    assert i == 0 ==> Below(i) == MAX_UNMIGRATED;
    assert i > 0 ==> Below(i) == i - 1;
  }

  /**
   Phase 3 puts the new header LID in the slot below. That slot is in use exactly when the ring is
   full: MaxUnmigratedGenerations unretired generations and the newest retired one.
   */
  lemma Phase3Overwrites(g: Globals, log: Log)
    requires Counters(g, log)
    ensures (exists k :: 0 <= k <= g.working - 1 - g.retired && Slot(g.wkgUGHL, k) == Below(g.wkgUGHL))
       <==> g.working == g.retired + RING
  {
    forall k | 0 <= k < RING
      ensures Slot(g.wkgUGHL, k) == Below(g.wkgUGHL) <==> k == MAX_UNMIGRATED
    {
      BelowSlots(g.wkgUGHL, k);
    }
    if g.working == g.retired + RING {
      assert Slot(g.wkgUGHL, MAX_UNMIGRATED) == Below(g.wkgUGHL);
    }
  }

  /**
   objH_EnsureWritable lets a checkpoint go on while at most MaxUnmigratedGenerations generations
   will be unretired after it, which is one too many: unless a migration intervenes, phase 3 of the
   next checkpoint overwrites the LID of the newest retired generation.
   */
  lemma GuardLeavesRingFull(g: Globals, log: Log)
    requires Counters(g, log) && g.ckptState == Phase5 && g.working - g.nextRetired == MAX_UNMIGRATED
    ensures var g' := Phase5Commit(g);
      exists k :: 0 <= k <= g'.working - 1 - g'.retired && Slot(g'.wkgUGHL, k) == Below(g'.wkgUGHL)
  {
    Phase3Overwrites(Phase5Commit(g), log);
  }

  /** The new header LID joins the ring, and every other stays for which there is room. */
  lemma RingExtended(ring: seq<nat>, start: nat, newest: nat, oldest: nat, hdrOf: map<nat, nat>, lid: nat)
    requires RingHolds(ring, start, newest, oldest, hdrOf) && start < RING && newest - oldest < MAX_UNMIGRATED
    ensures RingHolds(ring[Below(start) := lid], start, newest, oldest, hdrOf[newest + 1 := lid])
    ensures oldest <= newest + 1 ==>
      RingHolds(ring[Below(start) := lid], Below(start), newest + 1, oldest, hdrOf[newest + 1 := lid])
  {
    var ring', hdrOf' := ring[Below(start) := lid], hdrOf[newest + 1 := lid];
    forall h | oldest <= h <= newest
      ensures ring'[Slot(start, newest - h)] == hdrOf[h] && ring'[Slot(Below(start), newest + 1 - h)] == hdrOf[h]
    {
      BelowSlots(start, newest - h);
      BelowSlots(start, newest + 1 - h);
    }
    BelowSlots(start, 0);
  }

  // ---------- What each phase does to the globals ----------

  function Phase3Commit(g: Globals, log: Log): Globals
    requires Counters(g, log)
  {
    g.(ckptState := Phase4, nextWkgUGHL := Below(g.wkgUGHL),
       unmigratedGenHdrLid := g.unmigratedGenHdrLid[Below(g.wkgUGHL) := g.logCursor],
       logCursor := IncrementLID(g.logCursor, log))
  }

  /** The root names the working generation, the unmigrated ones before it, and the newest migrated. */
  ghost predicate RootListed(root: CkptRoot, g: Globals)
    requires |g.unmigratedGenHdrLid| == RING && g.migrated <= g.working <= g.migrated + MAX_UNMIGRATED
  {
    && ValidateCkptRoot(RootPage(root)) && root.mostRecentGenerationNumber == g.working
    && root.numUnmigratedGenerations == g.working - g.migrated && |root.generations| == RING
    && (forall k :: 0 <= k <= g.working - g.migrated ==>
        root.generations[k] == g.unmigratedGenHdrLid[Slot(g.nextWkgUGHL, k)])
    && (forall k :: g.working - g.migrated < k < MAX_UNMIGRATED ==> root.generations[k] == UNUSED_LID)
  }

  /** The other of the two root locations. */
  function OtherRoot(lid: nat): nat {
    if lid == CKPT_ROOT_0 then CKPT_ROOT_1 else CKPT_ROOT_0
  }

  function Phase4Commit(g: Globals): Globals {
    g.(ckptState := Phase5, nextRetired := g.migrated, currentRootLID := OtherRoot(g.currentRootLID),
       nextRangeToSync := 0, rangesSynced := 0)
  }

  function Phase5Commit(g: Globals): Globals {
    g.(ckptState := NotActive, wkgUGHL := g.nextWkgUGHL, retired := g.nextRetired, working := g.working + 1)
  }

  class Checkpointer {
    const log: Log
    var ckptState: Phase
    var workingGenerationNumber: nat
    var migratedGeneration: nat
    var retiredGeneration: nat
    var nextRetiredGeneration: nat
    var wkgUGHL: nat
    var nextWkgUGHL: nat
    var unmigratedGenHdrLid: seq<nat>
    var currentRootLID: nat
    var logCursor: nat
    var nextRangeToSync: nat
    var rangesSynced: nat

    ghost function G(): Globals
      reads this
    {
      Globals(ckptState, workingGenerationNumber, migratedGeneration, retiredGeneration, nextRetiredGeneration,
              wkgUGHL, nextWkgUGHL, unmigratedGenHdrLid, currentRootLID, logCursor, nextRangeToSync, rangesSynced)
    }

    method NextLogLoc() returns (lid: nat)
      modifies this`logCursor
      ensures lid == old(logCursor) && logCursor == IncrementLID(lid, log)
    {
      lid := logCursor;
      logCursor := IncrementLID(logCursor, log);
    }

    static function WrapCircularIndex(idx: nat, max: nat): nat {
      if idx >= max then idx - max else idx
    }

    /** GetOldestNonRetiredGenLid: the LID after the header of generation retGen. */
    method GetOldestNonRetiredGenLid(retGen: nat, ghost hdrOf: map<nat, nat>) returns (lid: nat)
      requires Counters(G(), log) && RingOk(G(), hdrOf) && OldestInRing(G()) <= retGen < workingGenerationNumber
      ensures retGen in hdrOf && lid == IncrementLID(hdrOf[retGen], log)
    {
      var numUnmigrGens := workingGenerationNumber - 1 - retGen;
      var c := WrapCircularIndex(wkgUGHL + numUnmigrGens, RING);
      assert c == Slot(wkgUGHL, numUnmigrGens);
      lid := IncrementLID(unmigratedGenHdrLid[c], log);
    }

    /** The end of DoPhase3Work, after its last yield: allocates the frame for the generation header. */
    method DoPhase3Commit() returns (thisGenHdrLid: nat)
      requires Counters(G(), log) && ckptState == Phase3
      modifies this
      ensures G() == Phase3Commit(old(G()), log) && thisGenHdrLid == old(logCursor)
    {
      thisGenHdrLid := NextLogLoc();
      nextWkgUGHL := wkgUGHL;
      if nextWkgUGHL == 0 {
        nextWkgUGHL := MAX_UNMIGRATED + 1;
      }
      nextWkgUGHL := nextWkgUGHL - 1;
      unmigratedGenHdrLid := unmigratedGenHdrLid[nextWkgUGHL := thisGenHdrLid];
      ckptState := Phase4;
    }

    /**
     The loops of DoPhase4Work: fill the root's array, in a page that held other data. The first
     overruns the array exactly when more than MaxUnmigratedGenerations generations are unmigrated.
     */
    static method FillGenerations(ring: seq<nat>, start: nat, num: nat, page: seq<nat>)
      returns (overrun: bool, generations: seq<nat>)
      requires |ring| == RING && start < RING && |page| == RING
      ensures overrun <==> num > MAX_UNMIGRATED
      ensures !overrun ==> |generations| == RING
      ensures !overrun ==> forall k :: 0 <= k <= num ==> generations[k] == ring[Slot(start, k)]
      ensures !overrun ==> forall k :: num < k < MAX_UNMIGRATED ==> generations[k] == UNUSED_LID
    {
      generations := page;
      var lidCursor := start;
      var i := 0;
      while i < num + 1
        invariant 0 <= i <= num + 1 && i <= RING == |generations|
        invariant lidCursor == Slot(start, i)
        invariant forall k :: 0 <= k < i ==> generations[k] == ring[Slot(start, k)]
      {
        if i == RING {
          return true, generations;
        }
        generations := generations[i := ring[lidCursor]];
        lidCursor := WrapCircularIndex(lidCursor + 1, MAX_UNMIGRATED + 1);
        i := i + 1;
      }
      while i < MAX_UNMIGRATED
        invariant num + 1 <= i && |generations| == RING
        invariant forall k :: 0 <= k <= num ==> generations[k] == ring[Slot(start, k)]
        invariant forall k :: num < k < i && k < MAX_UNMIGRATED ==> generations[k] == UNUSED_LID
      {
        generations := generations[i := UNUSED_LID];
        i := i + 1;
      }
      overrun := false;
    }

    /** The end of DoPhase4Work: builds the checkpoint root and picks its location. */
    method DoPhase4Commit(page: seq<nat>) returns (overrun: bool, root: CkptRoot)
      requires Counters(G(), log) && ckptState == Phase4 && |page| == RING
      modifies this
      ensures overrun <==> old(workingGenerationNumber) > old(migratedGeneration) + MAX_UNMIGRATED
      ensures !overrun ==> G() == Phase4Commit(old(G())) && RootListed(root, old(G()))
    {
      var gen := workingGenerationNumber;
      var num := gen - migratedGeneration;
      root := CkptRoot(1, gen, num, page, gen, 0xf7);
      nextRetiredGeneration := migratedGeneration;
      var generations;
      overrun, generations := FillGenerations(unmigratedGenHdrLid, nextWkgUGHL, num, page);
      if overrun {
        return;
      }
      root := root.(generations := generations);
      currentRootLID := if currentRootLID == CKPT_ROOT_0 then CKPT_ROOT_1 else CKPT_ROOT_0;
      nextRangeToSync, rangesSynced := 0, 0;
      ckptState := Phase5;
    }

    /** The end of DoPhase5Work, with PostCheckpointProcessing: the checkpoint is stabilized. */
    method DoPhase5Commit(ghost hdrOf: map<nat, nat>) returns (oldestNonRetiredGenLid: nat)
      requires Counters(G(), log) && RingOk(G(), hdrOf) && ckptState == Phase5
      modifies this
      ensures G() == Phase5Commit(old(G())) && Counters(G(), log) && RingOk(G(), hdrOf)
      ensures retiredGeneration in hdrOf && oldestNonRetiredGenLid == IncrementLID(hdrOf[retiredGeneration], log)
    {
      wkgUGHL := nextWkgUGHL;
      retiredGeneration := nextRetiredGeneration;
      workingGenerationNumber := workingGenerationNumber + 1;
      ckptState := NotActive;
      oldestNonRetiredGenLid := GetOldestNonRetiredGenLid(retiredGeneration, hdrOf);
    }
  }
}
