/**
 A run that fills the ring of generation header LIDs: twenty checkpoints without a migration between
 them. In the next one phase 3 writes over the LID of the newest retired generation, and phase 4 can
 go on only after a migration.
 */
module FullRing {
  import opened RbShape
  import opened GenChains
  import opened LogDirectory
  import opened LogDisk
  import opened Checkpoint
  import opened CkptRun

  ghost predicate Reached(s: State, log: Log) {
    exists states, events :: Run(states, events, log) && states[|events|] == s
  }

  lemma ReachedInv(s: State, log: Log)
    requires Reached(s, log)
    ensures Inv(s, log)
  {
    hide Inv, Step, Init;
    var states, events :| Run(states, events, log) && states[|events|] == s;
    RunInv(states, events, log, |events|);
  }

  lemma Next(s: State, e: Event, s': State, log: Log)
    requires Reached(s, log) && Step(s, e, s', log)
    ensures Reached(s', log)
  {
    hide Step, Init;
    var states, events :| Run(states, events, log) && states[|events|] == s;
    var states', events' := states + [s'], events + [e];
    forall i | 0 <= i < |events'|
      ensures Step(states'[i], events'[i], states'[i + 1], log)
    {
    }
    assert Run(states', events', log) && states'[|events'|] == s';
  }

  const OD := Descriptor(0, 0, 0, 0)

  /** A log of one range with room for the run. */
  ghost predicate Roomy(log: Log) {
    LogOk(log) && log.nLidRanges == 1 && log.logWrapPoint > MAIN_LOG_START + 40 * FRAME && log.numLogDirEntries > 0
  }

  ghost predicate DiskThere(disk: Disk) {
    forall lid: nat :: lid < MAIN_LOG_START + 40 * FRAME ==> lid in disk
  }

  /** Between checkpoints, when n have been made and none migrated. */
  ghost predicate Idle(s: State, n: nat, log: Log) {
    && Reached(s, log) && s.g.ckptState == NotActive && s.g.working == 2 + n && s.g.migrated == s.g.retired == 1
    && s.g.logCursor == MAIN_LOG_START + n * FRAME && DiskThere(s.disk) && s.now == NoGen
    && (forall o :: o in s.dir ==> o == 0 && s.dir[o].generation + 1 == s.g.working)
    && (forall h, lid :: h in s.saved && lid in s.saved[h].frames ==> lid < s.g.logCursor)
  }

  /** In phase 3 of the next checkpoint, with a page of entries that all fit in the header. */
  ghost predicate Listed3(s: State, n: nat, log: Log) {
    && Reached(s, log) && s.g.ckptState == Phase3 && s.g.working == 2 + n && s.g.migrated == s.g.retired == 1
    && s.g.logCursor == MAIN_LOG_START + n * FRAME && DiskThere(s.disk)
    && s.toSave == [] && |s.now.parts| == 1 && s.now.frames == map[]
    && (forall o :: o in s.dir ==> o == 0 && s.dir[o].generation == s.g.working)
    && (forall h, lid :: h in s.saved && lid in s.saved[h].frames ==> lid < s.g.logCursor)
  }

  /** In phase 4 or 5 of the next checkpoint, before any synchronizeCache. */
  ghost predicate Unsynced(s: State, n: nat, log: Log) {
    && Reached(s, log) && Syncing(s.g.ckptState) && s.g.working == 2 + n && s.g.migrated == s.g.retired == 1
    && s.g.logCursor == MAIN_LOG_START + (n + 1) * FRAME && DiskThere(s.disk) && s.g.nextRangeToSync == 0
    && (s.g.ckptState == Phase5 ==> s.g.nextRetired == 1)
    && (forall o :: o in s.dir ==> o == 0 && s.dir[o].generation == s.g.working)
    && (forall lid :: lid in s.now.frames ==> lid < s.g.logCursor)
    && (forall h, lid :: h in s.saved && lid in s.saved[h].frames ==> lid < s.g.logCursor)
  }

  function Frames(n: nat): (r: set<nat>)
    ensures forall lid: nat :: lid in r <==> lid < n
  {
    if n == 0 then {} else Frames(n - 1) + {n - 1}
  }

  lemma Begin(log: Log) returns (s: State)
    requires Roomy(log)
    ensures Idle(s, 0, log)
  {
    var root := CkptRoot(1, 0, 0, [], 0, 0xf7);
    var ring: seq<nat> := seq(RING, _ => MAIN_LOG_START - FRAME);
    var there := Frames(MAIN_LOG_START + 40 * FRAME);
    var disk: Disk := map lid | lid in there :: Cell(RootPage(root), [], 0);
    s := State(Globals(NotActive, 2, 1, 1, 1, 0, 0, ring, CKPT_ROOT_1, MAIN_LOG_START, 0, 0),
               disk, map[], {}, [], NoGen, map[], map[1 := ring[0]]);
    assert Init(s, log);
    var states, events: seq<Event> := [s], [];
    assert Run(states, events, log) && states[|events|] == s;
  }

  /** One object is recorded, and the checkpoint goes on to the end of phase 2. */
  lemma ToPhase3(s: State, n: nat, log: Log) returns (s': State)
    requires Idle(s, n, log) && Roomy(log)
    ensures Listed3(s', n, log)
  {
    hide Run, Inv, Reached, DiskThere;
    var s1 := AfterRecord(s, 0, OD);
    ReachedInv(s, log);
    RoomForOne(s.dir, s.g.working, log.numLogDirEntries);
    Next(s, Record(0, OD), s1, log);
    var s2 := s1.(g := s1.g.(ckptState := Phase1, nextRetired := 0));
    Next(s1, Declare, s2, log);
    var s3 := s2.(g := s2.g.(ckptState := Phase2));
    Next(s2, Phase1Done, s3, log);
    var list := [DirEnt(0, OD)];
    OneListed(s3.dir, s3.g.working, list);
    s' := AfterPhase2Done(s3, list, 1);
    Next(s3, Phase2Done(list, 1), s', log);
  }

  lemma RoomForOne(d: ODir, w: nat, size: nat)
    requires (forall o :: o in d ==> o == 0 && d[o].generation + 1 == w) && size > 0
    ensures Room(d, 0, w, size)
  {
    if 0 !in d {
      var none: set<int> := {};
      assert forall o: int :: o in d.Keys ==> o == 0;
      assert d.Keys == none;
    }
    assert |d| == |d.Keys|;
  }

  lemma OneListed(d: ODir, w: nat, list: seq<DirEnt>)
    requires d.Keys == {0} && d[0] == Entry(OD, w) && list == [DirEnt(0, OD)]
    ensures Covered([], list, Members(d, w))
  {
    var m := Members(d, w);
    assert m.Keys == {0} && m[0] == OD;
    assert list[0].oid == 0;
    assert Names(list, 0);
    assert forall o :: o in m ==> o in m.Keys && o == 0;
    assert Within(list, m);
    assert Within([], m);
  }

  lemma ToPhase4(s: State, n: nat, log: Log) returns (s': State)
    requires Listed3(s, n, log) && Roomy(log) && n < 40
    ensures Unsynced(s', n, log) && s'.g.ckptState == Phase4
  {
    hide Run, Reached, Inv;
    ReachedInv(s, log);
    AtPhase3(s, log);
    s' := AfterPhase3Done(s, log);
    Next(s, Phase3Done, s', log);
  }

  lemma AtPhase3(s: State, log: Log)
    requires Inv(s, log) && s.g.ckptState == Phase3
    ensures Counters(s.g, log) && s.g.nextRangeToSync == 0
  {
  }

  /** DoSync for the one range. */
  lemma Sync(s: State, n: nat, log: Log) returns (s': State)
    requires Unsynced(s, n, log) && Roomy(log)
    ensures Reached(s', log) && SyncComplete(s', log)
    ensures s'.g == s.g.(nextRangeToSync := 1, rangesSynced := s'.g.rangesSynced) && s'.disk.Keys == s.disk.Keys
    ensures s'.dir == s.dir && s'.now == s.now && s'.saved == s.saved
  {
    hide Run, Inv, Reached;
    var s1 := AfterIssueSync(s, log);
    Next(s, IssueSync, s1, log);
    ReachedInv(s1, log);
    DiskIsOk(s1, log);
    s' := AfterEndSync(s1, 0, log);
    Next(s1, EndSync(0), s', log);
  }

  lemma DiskIsOk(s: State, log: Log)
    requires Inv(s, log)
    ensures DiskOk(s.disk) && |s.g.unmigratedGenHdrLid| == RING && s.g.nextWkgUGHL < RING
  {
  }

  lemma ToPhase5(s: State, n: nat, log: Log) returns (s': State)
    requires Unsynced(s, n, log) && s.g.ckptState == Phase4 && Roomy(log) && n < 20
    ensures Unsynced(s', n, log) && s'.g.ckptState == Phase5
  {
    hide Run, Inv, Reached;
    var s1 := Sync(s, n, log);
    ReachedInv(s1, log);
    DiskIsOk(s1, log);
    var lids := seq(RING, k requires 0 <= k < RING =>
      if k <= n + 1 then s1.g.unmigratedGenHdrLid[Slot(s1.g.nextWkgUGHL, k)] else UNUSED_LID);
    var root := CkptRoot(1, s1.g.working, n + 1, lids, s1.g.working, 0xf7);
    RootThere(s1, log);
    s' := AfterPhase4Done(s1, root);
    Next(s1, Phase4Done(root), s', log);
  }

  lemma RootThere(s: State, log: Log)
    requires Inv(s, log) && s.g.ckptState == Phase4
    ensures OtherRoot(s.g.currentRootLID) in s.disk
  {
    assert RootStands(s.g.currentRootLID, s.g.working, s.g.retired, s.disk, s.hdrOf);
  }

  lemma ToIdle(s: State, n: nat, log: Log) returns (s': State)
    requires Unsynced(s, n, log) && s.g.ckptState == Phase5 && Roomy(log)
    ensures Idle(s', n + 1, log)
  {
    hide Run, Inv, Reached;
    var s1 := Sync(s, n, log);
    s' := AfterPhase5Done(s1);
    Next(s1, Phase5Done, s', log);
  }

  /** n checkpoints without a migration. */
  lemma {:induction false} Checkpoints(n: nat, log: Log) returns (s: State)
    requires Roomy(log) && n <= 20
    ensures Idle(s, n, log)
  {
    hide Idle, Unsynced, Listed3;
    if n == 0 {
      s := Begin(log);
    } else {
      s := Checkpoints(n - 1, log);
      s := ToPhase3(s, n - 1, log);
      s := ToPhase4(s, n - 1, log);
      s := ToPhase5(s, n - 1, log);
      s := ToIdle(s, n - 1, log);
    }
  }

  /**
   The run: the ring is full, and in the next checkpoint the LID of the newest retired generation is
   gone from it. Phase 4 would then overrun the array of the root, unless a migration comes first; after
   that it goes on with the right LIDs.
   */
  lemma RingFills(log: Log) returns (s: State, s': State)
    requires Roomy(log)
    ensures Reached(s, log) && s.g.ckptState == Phase4 && OldestInRing(s.g) == s.g.retired + 1
    ensures s.g.working > s.g.migrated + MAX_UNMIGRATED && SyncComplete(s, log)
    ensures Reached(s', log) && s'.g.ckptState == Phase5 && s'.g.working == s.g.working && s'.g.retired == s.g.retired
  {
    hide Run, Inv, Reached;
    s := Checkpoints(20, log);
    s := ToPhase3(s, 20, log);
    s := ToPhase4(s, 20, log);
    s := Sync(s, 20, log);
    var s1 := s.(g := s.g.(migrated := 2));
    Next(s, Migrate(2), s1, log);
    ReachedInv(s1, log);
    DiskIsOk(s1, log);
    RootThere(s1, log);
    var lids := seq(RING, k requires 0 <= k < RING => s1.g.unmigratedGenHdrLid[Slot(s1.g.nextWkgUGHL, k)]);
    var root := CkptRoot(1, s1.g.working, 20, lids, s1.g.working, 0xf7);
    s' := AfterPhase4Done(s1, root);
    Next(s1, Phase4Done(root), s', log);
  }
}
