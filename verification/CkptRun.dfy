/**
 Runs of the checkpoint protocol: src/sys/kernel/kern_Ckpt.c and kern_Restart.c as a machine whose
 steps are what happens between yields, with a crash possible between any two. Kept in every state
 is what each generation wrote, so that the safety of a crash can be stated.
 */
module CkptRun {
  import opened RbShape
  import opened GenChains
  import opened LogDirectory
  import opened LogDisk
  import opened Checkpoint

  type ODir = map<int, Entry>

  /**
   What one generation wrote: the LID of its header, its directory entries cut into the parts that
   went to the header and to each directory frame, all its frames, and the log directory at the time.
   */
  datatype Gen = Gen(hdr: nat, firstDir: nat, parts: seq<seq<DirEnt>>, frames: map<nat, Frame>,
                     entries: map<int, Descriptor>, dirAt: ODir)

  datatype State = State(
    g: Globals, disk: Disk, dir: ODir,
    outstanding: set<nat>,     // ranges with a synchronizeCache request under way
    toSave: seq<DirEnt>,       // entries the scan of the working generation has yet to return
    now: Gen,                  // the working generation, as far as it is written
    saved: map<nat, Gen>,      // earlier generations
    hdrOf: map<nat, nat>)      // LIDs of generation headers

  datatype Event =
    | WriteObject(data: nat)
    | Record(oid: int, od: Descriptor)
    | Declare
    | Phase1Done
    | Phase2Done(list: seq<DirEnt>, k: nat)
    | WriteDir(n: nat)
    | Phase3Done
    | IssueSync
    | EndSync(r: nat)
    | Phase4Done(root: CkptRoot)
    | Phase5Done
    | Migrate(m: nat)
    | ClearUpTo(h: nat)
    | Crash(img: map<nat, Frame>)

  // ---------- Directories and lists of entries ----------

  /** The entries of generation h. */
  ghost function Members(d: ODir, h: nat): map<int, Descriptor> {
    map o | o in d && d[o].generation == h :: d[o].od
  }

  /** The list names entries of m only. */
  ghost predicate Within(list: seq<DirEnt>, m: map<int, Descriptor>) {
    forall i :: 0 <= i < |list| ==> list[i].oid in m && m[list[i].oid] == list[i].od
  }

  predicate Names(list: seq<DirEnt>, o: int) {
    exists i :: 0 <= i < |list| && list[i].oid == o
  }

  /** The lists and one more name all the entries of m, and nothing else. */
  ghost predicate Covered(parts: seq<seq<DirEnt>>, rest: seq<DirEnt>, m: map<int, Descriptor>) {
    && (forall i :: 0 <= i < |parts| ==> Within(parts[i], m))
    && Within(rest, m)
    && (forall o :: o in m ==> Names(rest, o) || exists i :: 0 <= i < |parts| && Names(parts[i], o))
  }

  /** Directory d is what the saved generations above lo, up to hi, make up, as far as those go. */
  ghost predicate MadeOf(d: ODir, saved: map<nat, Gen>, lo: nat, hi: nat) {
    && (forall h, o :: lo < h <= hi && h in saved && o in saved[h].entries ==>
        o in d && d[o].generation >= h && (d[o].generation == h ==> d[o].od == saved[h].entries[o]))
    && (forall o :: o in d && lo < d[o].generation <= hi ==>
        d[o].generation in saved && o in saved[d[o].generation].entries)
  }

  ghost predicate NoNewer(d: ODir, h: nat) {
    forall o :: o in d ==> d[o].generation <= h
  }

  // ---------- Generations on disk ----------

  ghost predicate ObjectsWritten(entries: map<int, Descriptor>, frames: map<nat, Frame>) {
    forall o :: o in entries ==> entries[o].logLoc == 0 || entries[o].logLoc in frames
  }

  ghost predicate DirFrameAt(gen: Gen, i: nat, log: Log)
    requires 1 <= i < |gen.parts|
  {
    var lid := NthLid(gen.firstDir, i - 1, log);
    lid in gen.frames && gen.frames[lid] == ObDirPage(gen.parts[i])
  }

  ghost predicate DirWritten(gen: Gen, log: Log) {
    |gen.parts| > 0 && forall i :: 1 <= i < |gen.parts| ==> DirFrameAt(gen, i, log)
  }

  /** The header and directory frames of generation h list its entries. */
  ghost predicate GenOk(gen: Gen, h: nat, log: Log) {
    && DirWritten(gen, log) && Covered(gen.parts, [], gen.entries) && ObjectsWritten(gen.entries, gen.frames)
    && gen.hdr in gen.frames
    && gen.frames[gen.hdr] == HeaderPage(GenHdr(1, h, gen.parts[0], gen.firstDir, |gen.parts| - 1))
  }

  ghost predicate GenDurable(gen: Gen, disk: Disk) {
    forall lid :: lid in gen.frames ==> !IsRootLid(lid) && Durable(disk, lid, gen.frames[lid])
  }

  ghost predicate SavedOk(saved: map<nat, Gen>, lo: nat, hi: nat, hdrOf: map<nat, nat>, disk: Disk, log: Log) {
    forall h :: lo < h <= hi ==>
      (h in saved && h in hdrOf && saved[h].hdr == hdrOf[h] && GenOk(saved[h], h, log) && GenDurable(saved[h], disk))
  }

  /** The frames of the working generation have been written, if perhaps not to the medium. */
  ghost predicate NowWritten(frames: map<nat, Frame>, disk: Disk) {
    forall lid :: lid in frames ==> lid in disk && !IsRootLid(lid) && Latest(disk[lid]) == frames[lid]
  }

  // ---------- Roots ----------

  /**
   A valid root of generation gen, when ret is the newest migrated generation. The roots of a
   newly formatted disk say generation 0, and the first checkpoint writes generation 2.
   */
  ghost predicate RootNames(f: Frame, gen: nat, ret: nat, hdrOf: map<nat, nat>) {
    && ValidateCkptRoot(f) && ret <= gen
    && f.root.mostRecentGenerationNumber == (if gen == 1 then 0 else gen)
    && f.root.numUnmigratedGenerations == gen - ret <= MAX_UNMIGRATED && (gen > 1 ==> ret < gen)
    && (gen > 1 ==> |f.root.generations| == RING)
    && (gen > 1 ==> forall h :: ret <= h <= gen ==> h in hdrOf && f.root.generations[gen - h] == hdrOf[h])
  }

  /** If f is a valid root it is older than that of generation gen. */
  predicate OlderRoot(f: Frame, gen: nat) {
    ValidateCkptRoot(f) ==>
      f.root.mostRecentGenerationNumber < gen && (gen == 1 ==> f.root.numUnmigratedGenerations == 0)
  }

  /** While no root is being written, the current one is on the medium and the other is older. */
  ghost predicate RootStands(a: nat, working: nat, retired: nat, disk: Disk, hdrOf: map<nat, nat>)
    requires working > 0
  {
    && a in disk && OtherRoot(a) in disk
    && disk[a].pending == [] && RootNames(disk[a].stable, working - 1, retired, hdrOf)
    && disk[OtherRoot(a)].pending == [] && OlderRoot(disk[OtherRoot(a)].stable, working - 1)
  }

  /** In phase 5 the root of the working generation is written to a; the one before it stays. */
  ghost predicate RootComing(a: nat, working: nat, retired: nat, nextRetired: nat, disk: Disk, hdrOf: map<nat, nat>)
    requires working > 0
  {
    && a in disk && OtherRoot(a) in disk
    && disk[OtherRoot(a)].pending == [] && RootNames(disk[OtherRoot(a)].stable, working - 1, retired, hdrOf)
    && (disk[a].pending == [] || OlderRoot(disk[a].stable, working - 1))
    && RootNames(Latest(disk[a]), working, nextRetired, hdrOf) && |disk[a].pending| <= 1
  }

  ghost predicate RootsOk(g: Globals, disk: Disk, hdrOf: map<nat, nat>)
    requires g.working > 0
  {
    if g.ckptState == Phase5 then RootComing(g.currentRootLID, g.working, g.retired, g.nextRetired, disk, hdrOf)
    else RootStands(g.currentRootLID, g.working, g.retired, disk, hdrOf)
  }

  // ---------- Reading the directory back ----------

  /** AddObjDescriptor for each entry of a list. */
  function AddEnts(d: ODir, ents: seq<DirEnt>, h: nat): ODir {
    if ents == [] then d
    else AddEnts(d, ents[..|ents| - 1], h)[ents[|ents| - 1].oid := Entry(ents[|ents| - 1].od, h)]
  }

  /** The entries of the n directory frames from `first` on. */
  ghost function AddFrames(d: ODir, img: map<nat, Frame>, first: nat, n: nat, h: nat, log: Log): ODir {
    if n == 0 then d
    else
      var lid := NthLid(first, n - 1, log);
      var d' := AddFrames(d, img, first, n - 1, h, log);
      if lid in img && img[lid].ObDirPage? then AddEnts(d', img[lid].ents, h) else d'
  }

  /** IOReq_EndGenHdrRead takes the frame for the header of generation h, and does not halt. */
  predicate IsHeader(img: map<nat, Frame>, lid: nat, h: nat) {
    lid in img && img[lid].HeaderPage? && img[lid].hdr.versionNumber == 1 && img[lid].hdr.generationNumber == h
  }

  /** The directory after the generations from the oldest unmigrated down to index i of the root are read. */
  ghost function ReadGenerations(img: map<nat, Frame>, root: CkptRoot, i: nat, log: Log): ODir
    requires root.numUnmigratedGenerations <= |root.generations|
    requires i <= root.numUnmigratedGenerations <= root.mostRecentGenerationNumber
    decreases root.numUnmigratedGenerations - i
  {
    if i == root.numUnmigratedGenerations then map[]
    else
      var d, lid, h := ReadGenerations(img, root, i + 1, log), root.generations[i], root.mostRecentGenerationNumber - i;
      if !IsHeader(img, lid, h) then d
      else AddFrames(AddEnts(d, img[lid].hdr.ents, h), img, img[lid].hdr.firstDirFrame, img[lid].hdr.nDirFrames, h, log)
  }

  /** The root location a restart uses. */
  function Chosen(img: map<nat, Frame>): nat
    requires CKPT_ROOT_0 in img && CKPT_ROOT_1 in img
  {
    var root0, root1 := img[CKPT_ROOT_0], img[CKPT_ROOT_1];
    if !ValidateCkptRoot(root0) then CKPT_ROOT_1
    else if !ValidateCkptRoot(root1) then CKPT_ROOT_0
    else if root0.root.mostRecentGenerationNumber > root1.root.mostRecentGenerationNumber then CKPT_ROOT_0
    else CKPT_ROOT_1
  }

  /** A restart from this root does not halt at its first checks. */
  predicate CanRestart(f: Frame) {
    && ValidateCkptRoot(f) && 0 < f.root.numUnmigratedGenerations <= MAX_UNMIGRATED
    && f.root.numUnmigratedGenerations < f.root.mostRecentGenerationNumber && |f.root.generations| == RING
  }

  /** The globals FinishRestart leaves. */
  function Restarted(root: CkptRoot, lid: nat, log: Log): Globals
    requires |root.generations| > 0 && root.numUnmigratedGenerations <= root.mostRecentGenerationNumber
  {
    var migrated := root.mostRecentGenerationNumber - root.numUnmigratedGenerations;
    Globals(NotActive, root.mostRecentGenerationNumber + 1, migrated, migrated, migrated,
            0, 0, root.generations, lid, IncrementLID(root.generations[0], log), 0, 0)
  }

  // ---------- Steps ----------

  const NoGen := Gen(0, 0, [], map[], map[], map[])

  /** A frame of the log can be written again when its generation is retired. */
  ghost predicate Reusable(s: State, lid: nat) {
    && lid in s.disk && lid >= MAIN_LOG_START && lid !in s.now.frames
    && (forall h :: s.g.retired < h && h in s.saved ==> lid !in s.saved[h].frames)
  }

  /** NextLogLoc, and a write to the frame it returns. */
  function Logged(s: State, f: Frame, log: Log): State
    requires s.g.logCursor in s.disk
  {
    var lid := s.g.logCursor;
    s.(g := s.g.(logCursor := IncrementLID(lid, log)), disk := Written(s.disk, lid, f),
       now := s.now.(frames := s.now.frames[lid := f]))
  }

  predicate Cleaning(p: Phase) {
    p == NotActive || p == Phase1 || p == Phase2
  }

  predicate Syncing(p: Phase) {
    p == Phase4 || p == Phase5
  }

  /** DoSync has nothing more to wait for. */
  predicate SyncComplete(s: State, log: Log) {
    s.g.nextRangeToSync == log.nLidRanges && s.g.rangesSynced >= s.g.nextRangeToSync
  }

  ghost predicate CanWrite(s: State) {
    Cleaning(s.g.ckptState) && Reusable(s, s.g.logCursor)
  }

  /** An object page is queued to be cleaned. */
  function AfterWriteObject(s: State, data: nat, log: Log): State
    requires s.g.logCursor in s.disk
  {
    Logged(s, ObjectPage(data), log)
  }

  /**
   ld_recordLocation for the working generation: of a zero page, or of one in a frame already queued,
   if it does not halt for want of room.
   */
  ghost predicate CanRecord(s: State, o: int, od: Descriptor, log: Log) {
    && Cleaning(s.g.ckptState) && (od.logLoc == 0 || od.logLoc in s.now.frames)
    && MIN < o < MAX && Room(s.dir, o, s.g.working, log.numLogDirEntries)
  }

  function AfterRecord(s: State, o: int, od: Descriptor): State {
    s.(dir := s.dir[o := Entry(od, s.g.working)])
  }

  /** The end of phase 2, if ld_resetScan does not halt for want of an entry in the working generation. */
  ghost predicate CanPhase2Done(s: State, list: seq<DirEnt>, k: nat) {
    && s.g.ckptState == Phase2 && k <= |list|
    && Covered([], list, Members(s.dir, s.g.working)) && list != []
  }

  /** The first k entries go in the header. */
  ghost function AfterPhase2Done(s: State, list: seq<DirEnt>, k: nat): State
    requires k <= |list|
  {
    s.(g := s.g.(ckptState := Phase3, nextRangeToSync := 0, rangesSynced := 0), toSave := list[k..],
       now := s.now.(parts := [list[..k]], firstDir := 0, entries := Members(s.dir, s.g.working), dirAt := s.dir))
  }

  ghost predicate CanWriteDir(s: State, n: nat) {
    s.g.ckptState == Phase3 && 0 < n <= |s.toSave| && Reusable(s, s.g.logCursor)
  }

  /** WriteAPageOfObDirEnts: the next n entries go in a directory frame. */
  function AfterWriteDir(s: State, n: nat, log: Log): State
    requires s.g.logCursor in s.disk && n <= |s.toSave|
  {
    var s' := Logged(s, ObDirPage(s.toSave[..n]), log);
    s'.(toSave := s.toSave[n..],
        now := s'.now.(parts := s.now.parts + [s.toSave[..n]],
                       firstDir := if |s.now.parts| <= 1 then s.g.logCursor else s.now.firstDir))
  }

  /**
   The end of phase 3. The new header LID may overwrite that of the newest retired generation: see
   Phase3Overwrites.
   */
  ghost predicate CanPhase3Done(s: State) {
    && s.g.ckptState == Phase3 && s.toSave == [] && Reusable(s, s.g.logCursor)
  }

  function Header(s: State): Frame
    requires |s.now.parts| > 0
  {
    HeaderPage(GenHdr(1, s.g.working, s.now.parts[0], s.now.firstDir, |s.now.parts| - 1))
  }

  ghost function AfterPhase3Done(s: State, log: Log): State
    requires s.g.logCursor in s.disk && |s.now.parts| > 0 && Counters(s.g, log)
  {
    var s', lid := Logged(s, Header(s), log), s.g.logCursor;
    s'.(g := Phase3Commit(s.g, log), now := s'.now.(hdr := lid), hdrOf := s.hdrOf[s.g.working := lid])
  }

  predicate CanIssueSync(s: State, log: Log) {
    Syncing(s.g.ckptState) && s.g.nextRangeToSync < log.nLidRanges
  }

  function AfterIssueSync(s: State, log: Log): State {
    var r := s.g.nextRangeToSync;
    s.(g := s.g.(nextRangeToSync := r + 1), outstanding := s.outstanding + {r}, disk := SyncIssued(s.disk, r, log))
  }

  predicate CanEndSync(s: State, r: nat) {
    Syncing(s.g.ckptState) && r in s.outstanding
  }

  /** IOReq_EndSync. */
  ghost function AfterEndSync(s: State, r: nat, log: Log): State
    requires DiskOk(s.disk)
  {
    s.(g := s.g.(rangesSynced := s.g.rangesSynced + 1), outstanding := s.outstanding - {r},
      disk := SyncDone(s.disk, r, log))
  }

  ghost predicate CanPhase4Done(s: State, root: CkptRoot, log: Log)
    requires |s.g.unmigratedGenHdrLid| == RING
  {
    && s.g.ckptState == Phase4 && SyncComplete(s, log)
    && s.g.migrated <= s.g.working <= s.g.migrated + MAX_UNMIGRATED && RootListed(root, s.g)
  }

  function AfterPhase4Done(s: State, root: CkptRoot): State
    requires OtherRoot(s.g.currentRootLID) in s.disk
  {
    s.(g := Phase4Commit(s.g), disk := Written(s.disk, OtherRoot(s.g.currentRootLID), RootPage(root)),
       saved := s.saved[s.g.working := s.now])
  }

  predicate CanPhase5Done(s: State, log: Log) {
    s.g.ckptState == Phase5 && SyncComplete(s, log)
  }

  function AfterPhase5Done(s: State): State {
    s.(g := Phase5Commit(s.g), now := NoGen)
  }

  /** A crash, after which a root is chosen from which the restart does not halt. */
  ghost predicate CanCrash(s: State, img: map<nat, Frame>) {
    && CrashImage(s.disk, img) && CKPT_ROOT_0 in img && CKPT_ROOT_1 in img
    && CanRestart(img[Chosen(img)])
  }

  ghost function AfterCrash(s: State, img: map<nat, Frame>, log: Log): State
    requires CanCrash(s, img)
  {
    var lid := Chosen(img);
    var root := img[lid].root;
    var gen := root.mostRecentGenerationNumber;
    State(Restarted(root, lid, log), FromImage(img), ReadGenerations(img, root, 0, log), {}, [], NoGen,
          map h | h in s.saved && h <= gen :: s.saved[h], map h | h in s.hdrOf && h <= gen :: s.hdrOf[h])
  }

  // ---------- The invariant ----------

  /** The newest generation whose frames are all on the medium. */
  function Hi(g: Globals): nat
    requires g.working > 0
  {
    if g.ckptState == Phase5 then g.working else g.working - 1
  }

  ghost predicate DirOk(s: State)
    requires s.g.working > 0
  {
    && MadeOf(s.dir, s.saved, s.g.retired, Hi(s.g)) && NoNewer(s.dir, s.g.working)
    && ObjectsWritten(Members(s.dir, s.g.working), s.now.frames)
  }

  /** The directory recorded with the newest saved generation is made of the saved ones. */
  ghost predicate SnapshotOk(saved: map<nat, Gen>, lo: nat, hi: nat) {
    hi > lo ==> hi in saved && MadeOf(saved[hi].dirAt, saved, lo, hi) && NoNewer(saved[hi].dirAt, hi)
  }

  /** The working generation between the commits of phases 2 and 4. */
  ghost predicate SavingOk(s: State, log: Log)
    requires s.g.working > 0
  {
    && s.now.entries == Members(s.dir, s.g.working) == Members(s.now.dirAt, s.g.working)
    && MadeOf(s.now.dirAt, s.saved, s.g.retired, s.g.working - 1) && NoNewer(s.now.dirAt, s.g.working)
    && (s.g.ckptState == Phase3 ==>
        && Covered(s.now.parts, s.toSave, s.now.entries) && DirWritten(s.now, log)
        && (|s.now.parts| > 1 ==> s.g.logCursor == NthLid(s.now.firstDir, |s.now.parts| - 1, log)))
    && (s.g.ckptState == Phase4 ==>
        GenOk(s.now, s.g.working, log) && s.g.working in s.hdrOf && s.now.hdr == s.hdrOf[s.g.working])
  }

  /** A range is as it was, covered by a request, or settled. */
  ghost predicate RangesOk(g: Globals, outstanding: set<nat>, disk: Disk, log: Log) {
    && (forall r :: r in outstanding ==> r < g.nextRangeToSync)
    && g.rangesSynced + |outstanding| == g.nextRangeToSync
    && (forall lid :: lid in disk && log.range(lid) < g.nextRangeToSync ==>
        if log.range(lid) in outstanding then disk[lid].covered == |disk[lid].pending| else disk[lid].pending == [])
  }

  ghost predicate SyncOk(s: State, log: Log) {
    && (Syncing(s.g.ckptState) ==> RangesOk(s.g, s.outstanding, s.disk, log))
    && (!Syncing(s.g.ckptState) ==> s.outstanding == {})
    && (s.g.ckptState == Phase3 ==> s.g.nextRangeToSync == s.g.rangesSynced == 0)
  }

  // ---------- Room for the directory ----------

  /** The entries fit in the log directory. */
  ghost predicate Holds(d: ODir, size: nat) {
    |d| <= size && forall o :: o in d ==> MIN < o < MAX
  }

  /** The generation table has room for generation h above those of d. */
  ghost predicate InWindow(d: ODir, h: nat) {
    forall o :: o in d ==> h < d[o].generation + LD_MAX_GENERATIONS
  }

  /** The saved generations above lo, up to hi, can be laid over each other again in a directory of this size. */
  ghost predicate Fits(saved: map<nat, Gen>, lo: nat, hi: nat, size: nat) {
    forall h :: lo < h <= hi ==> Holds(Fold(saved, lo, h), size) && InWindow(Fold(saved, lo, h - 1), h)
  }

  ghost predicate FitsOk(s: State, log: Log)
    requires s.g.working > 0
  {
    && Holds(s.dir, log.numLogDirEntries) && Fits(s.saved, s.g.retired, Hi(s.g), log.numLogDirEntries)
    && (Members(s.dir, s.g.working) != map[] ==> InWindow(Fold(s.saved, s.g.retired, s.g.working - 1), s.g.working))
    && (s.g.ckptState in {Phase3, Phase4} ==> Holds(s.now.dirAt, log.numLogDirEntries) && s.now.entries != map[])
  }

  /**
   The log cursor has passed the header of the last generation and the frames that the working generation
   has written, which follow it around the log; once its header is written, that is the last of them.
   */
  ghost predicate CursorAt(s: State, log: Log)
    requires s.g.working > 0
  {
    && s.g.working - 1 in s.hdrOf
    && (var first := IncrementLID(s.hdrOf[s.g.working - 1], log);
        && s.g.logCursor == NthLid(first, |s.now.frames|, log)
        && forall i :: 0 <= i < |s.now.frames| ==> NthLid(first, i, log) in s.now.frames)
    && (Syncing(s.g.ckptState) ==>
        s.g.working in s.hdrOf && s.g.logCursor == IncrementLID(s.hdrOf[s.g.working], log))
  }

  ghost predicate Inv(s: State, log: Log) {
    && LogOk(log) && DiskOk(s.disk) && Counters(s.g, log)
    && RingOk(s.g, s.hdrOf) && RootsOk(s.g, s.disk, s.hdrOf)
    && SavedOk(s.saved, s.g.retired, Hi(s.g), s.hdrOf, s.disk, log)
    && SnapshotOk(s.saved, s.g.retired, Hi(s.g)) && SnapshotOk(s.saved, s.g.retired, s.g.working - 1)
    && NowWritten(s.now.frames, s.disk) && DirOk(s)
    && (s.g.ckptState in {Phase3, Phase4} ==> SavingOk(s, log))
    && SyncOk(s, log) && FitsOk(s, log) && CursorAt(s, log)
  }

  /** The start of the world: a newly formatted disk, and a big bang preloaded in memory. */
  ghost predicate Init(s: State, log: Log) {
    && LogOk(log) && |s.g.unmigratedGenHdrLid| == RING && s.g.unmigratedGenHdrLid[0] == MAIN_LOG_START - FRAME
    && s.g == Globals(NotActive, 2, 1, 1, 1, 0, 0, s.g.unmigratedGenHdrLid, CKPT_ROOT_1, MAIN_LOG_START, 0, 0)
    && (forall lid :: lid in s.disk ==> s.disk[lid].pending == [] && s.disk[lid].covered == 0)
    && CKPT_ROOT_0 in s.disk && CKPT_ROOT_1 in s.disk
    && FormattedRoot(s.disk[CKPT_ROOT_0].stable) && FormattedRoot(s.disk[CKPT_ROOT_1].stable)
    && s.dir == map[] && s.outstanding == {} && s.toSave == [] && s.now == NoGen && s.saved == map[]
    && s.hdrOf == map[1 := s.g.unmigratedGenHdrLid[0]]
  }

  /** A root InitCkptRoot makes. */
  predicate FormattedRoot(f: Frame) {
    ValidateCkptRoot(f) && f.root.mostRecentGenerationNumber == 0 && f.root.numUnmigratedGenerations == 0
  }

  lemma InitInv(s: State, log: Log)
    requires Init(s, log)
    ensures Inv(s, log)
  {
    assert Members(s.dir, s.g.working) == map[];
  }

  /** The fold of earlier generations does not depend on later ones. */
  lemma {:induction false} FoldSame(saved: map<nat, Gen>, saved': map<nat, Gen>, lo: nat, hi: nat)
    requires forall h :: h <= hi ==> (h in saved <==> h in saved') && (h in saved ==> saved'[h] == saved[h])
    ensures Fold(saved', lo, hi) == Fold(saved, lo, hi)
    decreases hi
  {
    if lo < hi {
      FoldSame(saved, saved', lo, hi - 1);
    }
  }

  lemma FitsSame(saved: map<nat, Gen>, saved': map<nat, Gen>, lo: nat, hi: nat, size: nat)
    requires Fits(saved, lo, hi, size)
    requires forall h :: h <= hi ==> (h in saved <==> h in saved') && (h in saved ==> saved'[h] == saved[h])
    ensures Fits(saved', lo, hi, size)
  {
    hide Holds, InWindow, Fold;
    forall h | lo < h <= hi
      ensures Holds(Fold(saved', lo, h), size) && InWindow(Fold(saved', lo, h - 1), h)
    {
      FoldSame(saved, saved', lo, h);
      FoldSame(saved, saved', lo, h - 1);
    }
  }

  /** Leaving out the oldest generations. */
  lemma {:induction false} FoldHigher(saved: map<nat, Gen>, lo: nat, lo': nat, hi: nat)
    requires lo <= lo' <= hi && forall h :: lo < h <= hi ==> h in saved
    ensures Fold(saved, lo', hi) == NewerThan(Fold(saved, lo, hi), lo')
    decreases hi
  {
    var d := NewerThan(Fold(saved, lo, hi), lo');
    if lo' < hi {
      FoldHigher(saved, lo, lo', hi - 1);
      assert d == Overlay(Fold(saved, lo', hi - 1), saved[hi].entries, hi);
    } else {
      FoldMadeOf(saved, lo, hi);
      assert forall o :: o !in d;
    }
  }

  lemma HoldsFewer(d: ODir, h: nat, size: nat, w: nat)
    ensures Holds(d, size) ==> Holds(NewerThan(d, h), size)
    ensures InWindow(d, w) ==> InWindow(NewerThan(d, h), w)
  {
    var d' := NewerThan(d, h);
    assert d.Keys == d'.Keys + (d.Keys - d'.Keys);
    assert |d| == |d.Keys| && |d'| == |d'.Keys|;
  }

  lemma FitsShrunk(saved: map<nat, Gen>, lo: nat, lo': nat, hi: nat, size: nat)
    requires Fits(saved, lo, hi, size) && lo <= lo' && forall h :: lo < h <= hi ==> h in saved
    ensures Fits(saved, lo', hi, size)
  {
    hide Holds, InWindow, Fold, NewerThan;
    forall h | lo' < h <= hi
      ensures Holds(Fold(saved, lo', h), size) && InWindow(Fold(saved, lo', h - 1), h)
    {
      FoldHigher(saved, lo, lo', h);
      FoldHigher(saved, lo, lo', h - 1);
      HoldsFewer(Fold(saved, lo, h), lo', size, h);
      HoldsFewer(Fold(saved, lo, h - 1), lo', size, h);
    }
  }

  lemma CursorKept(s: State, s': State, log: Log)
    requires s.g.working > 0 && CursorAt(s, log)
    requires s'.g.logCursor == s.g.logCursor && s'.g.working == s.g.working && s'.hdrOf == s.hdrOf
    requires s'.now.frames == s.now.frames && (Syncing(s'.g.ckptState) ==> Syncing(s.g.ckptState))
    ensures CursorAt(s', log)
  {
    hide NthLid, IncrementLID;
  }

  /** A frame is written at the cursor; when it is the header, its LID is noted. */
  lemma CursorLogged(s: State, f: Frame, s': State, log: Log)
    requires s.g.working > 0 && CursorAt(s, log) && s.g.logCursor !in s.now.frames && !Syncing(s.g.ckptState)
    requires s'.g.logCursor == IncrementLID(s.g.logCursor, log) && s'.g.working == s.g.working
    requires s'.now.frames == s.now.frames[s.g.logCursor := f]
    requires s'.hdrOf == s.hdrOf || s'.hdrOf == s.hdrOf[s.g.working := s.g.logCursor]
    requires Syncing(s'.g.ckptState) ==> s'.hdrOf == s.hdrOf[s.g.working := s.g.logCursor]
    ensures CursorAt(s', log)
  {
    hide IncrementLID;
    var n := |s.now.frames|;
    assert |s'.now.frames| == n + 1;
    assert NthLid(IncrementLID(s.hdrOf[s.g.working - 1], log), n, log) == s.g.logCursor;
  }

  /** A step that leaves the directory and the saved generations alone. */
  lemma FitsKept(s: State, s': State, log: Log)
    requires s.g.working > 0 && FitsOk(s, log)
    requires s'.dir == s.dir && s'.saved == s.saved && s'.g.retired == s.g.retired && s'.g.working == s.g.working
    requires s'.g.ckptState == Phase5 <==> s.g.ckptState == Phase5
    requires s'.g.ckptState in {Phase3, Phase4} ==>
      s.g.ckptState in {Phase3, Phase4} && s'.now.dirAt == s.now.dirAt && s'.now.entries == s.now.entries
    ensures FitsOk(s', log)
  {
    hide Holds, Fits, InWindow, Fold, Members;
  }

  /** Where the saved generations are laid over each other the directory has them, and nothing older is in their way. */
  lemma FoldInWindow(s: State, log: Log)
    requires Inv(s, log) && s.g.ckptState != Phase5 && InWindow(s.dir, s.g.working)
    requires Members(s.dir, s.g.working) == map[]
    ensures InWindow(Fold(s.saved, s.g.retired, s.g.working - 1), s.g.working)
  {
    hide LogOk, GenOk, GenDurable, RingOk, RootsOk, SnapshotOk, NowWritten, SavingOk, SyncOk, FitsOk, CursorAt, MadeOf,
      Fold, DiskOk;
    assert forall o :: o in s.dir && s.dir[o].generation == s.g.working ==> o in Members(s.dir, s.g.working);
    MadeOfIsFold(s.dir, s.saved, s.g.retired, s.g.working - 1);
  }

  lemma FitsRecorded(s: State, o: int, od: Descriptor, log: Log)
    requires Inv(s, log) && CanRecord(s, o, od, log)
    ensures FitsOk(AfterRecord(s, o, od), log)
  {
    hide LogOk, GenOk, GenDurable, RingOk, RootsOk, SavedOk, SnapshotOk, NowWritten, SavingOk, SyncOk, MadeOf, Fold,
      DiskOk, DirOk, Fits, Counters, Holds, Members, CursorAt;
    assert InWindow(s.dir, s.g.working);
    if Members(s.dir, s.g.working) == map[] {
      FoldInWindow(s, log);
    }
    HoldsRecorded(s.dir, o, od, s.g.working, log.numLogDirEntries);
  }

  lemma HoldsRecorded(d: ODir, o: int, od: Descriptor, w: nat, size: nat)
    requires Holds(d, size) && MIN < o < MAX && Room(d, o, w, size)
    ensures Holds(d[o := Entry(od, w)], size)
  {
    var d' := d[o := Entry(od, w)];
    assert d'.Keys == d.Keys + {o} && |d'| == |d'.Keys| && |d| == |d.Keys|;
  }

  lemma FitsCleared(s: State, h: nat, log: Log)
    requires Inv(s, log) && h <= s.g.retired
    ensures FitsOk(s.(dir := NewerThan(s.dir, h)), log)
  {
    hide LogOk, GenOk, GenDurable, RingOk, RootsOk, SavedOk, SnapshotOk, NowWritten, SavingOk, SyncOk, Fold, DiskOk,
      Fits, Holds, InWindow, MadeOf, NoNewer, Members, NewerThan, CursorAt;
    HoldsFewer(s.dir, h, log.numLogDirEntries, s.g.working);
    Cleared(s.dir, s.saved, s.g.retired, Hi(s.g), h, s.g.working);
  }

  lemma FitsAfterPhase2(s: State, list: seq<DirEnt>, k: nat, log: Log)
    requires Inv(s, log) && CanPhase2Done(s, list, k)
    ensures FitsOk(AfterPhase2Done(s, list, k), log)
  {
    hide LogOk, GenOk, GenDurable, RingOk, RootsOk, SavedOk, SnapshotOk, NowWritten, SavingOk, SyncOk, Fold, DiskOk,
      Fits, Holds, InWindow, MadeOf, NoNewer, Members, Counters, CursorAt;
    assert list[0].oid in Members(s.dir, s.g.working);
  }

  lemma FitsAfterPhase4(s: State, root: CkptRoot, log: Log)
    requires Inv(s, log) && CanPhase4Done(s, root, log) && OtherRoot(s.g.currentRootLID) in s.disk
    ensures FitsOk(AfterPhase4Done(s, root), log)
  {
    hide LogOk, GenOk, GenDurable, RingOk, RootsOk, SnapshotOk, NowWritten, SyncOk, Fold, DiskOk, Holds, InWindow,
      MadeOf, NoNewer, Members, DirOk, CursorAt;
    FitsExtended(s.saved, s.g.retired, s.g.working, s.now, log.numLogDirEntries);
  }

  /** The working generation joins the saved ones. */
  lemma FitsExtended(saved: map<nat, Gen>, lo: nat, w: nat, gen: Gen, size: nat)
    requires lo < w && (forall h :: lo < h < w ==> h in saved) && Fits(saved, lo, w - 1, size)
    requires MadeOf(gen.dirAt, saved, lo, w - 1) && NoNewer(gen.dirAt, w) && gen.entries == Members(gen.dirAt, w)
    requires Holds(gen.dirAt, size) && InWindow(Fold(saved, lo, w - 1), w)
    ensures Fits(saved[w := gen], lo, w, size) && Fold(saved[w := gen], lo, w - 1) == Fold(saved, lo, w - 1)
  {
    hide Fold, Holds, InWindow, MadeOf, NoNewer, Members;
    var saved' := saved[w := gen];
    FitsSame(saved, saved', lo, w - 1, size);
    FoldSame(saved, saved', lo, w - 1);
    MadeOfExtended(gen.dirAt, saved, lo, w, gen);
    MadeOfIsFold(gen.dirAt, saved', lo, w);
    HoldsFewer(gen.dirAt, lo, size, w);
  }

  lemma CursorAfterPhase5(s: State, log: Log)
    requires Inv(s, log) && CanPhase5Done(s, log)
    ensures CursorAt(AfterPhase5Done(s), log)
  {
    hide LogOk, GenOk, RingOk, RootsOk, SavedOk, SnapshotOk, NowWritten, SyncOk, DiskOk, SavingOk, DirOk, FitsOk,
      IncrementLID;
  }

  /** After a restart the cursor is past the header of the recovered generation, and nothing has been written yet. */
  lemma CursorAfterCrash(s: State, img: map<nat, Frame>, log: Log)
    requires Inv(s, log) && CanCrash(s, img)
    ensures CursorAt(AfterCrash(s, img, log), log)
  {
    hide LogOk, DirOk, SavingOk, SyncOk, NowWritten, RootsOk, CrashImage, SavedOk, SnapshotOk, DiskOk, OlderRoot,
      ReadGenerations, FromImage, Counters, RingOk, FitsOk, CursorAt, IncrementLID, Fold;
    RecoveredRange(s, img, log);
    var f := img[Chosen(img)];
    var gen := f.root.mostRecentGenerationNumber;
    RecoveredHeader(s, f, gen, gen - f.root.numUnmigratedGenerations);
    var s' := AfterCrash(s, img, log);
    assert s'.hdrOf[s'.g.working - 1] == f.root.generations[0];
    CursorFirst(s', log);
  }

  lemma RecoveredHeader(s: State, f: Frame, gen: nat, lo: nat)
    requires lo < gen && RootNames(f, gen, lo, s.hdrOf) && gen > 1
    ensures f.RootPage? && |f.root.generations| > 0 && gen in s.hdrOf && f.root.generations[0] == s.hdrOf[gen]
  {
    assert f.root.generations[gen - gen] == s.hdrOf[gen];
  }

  lemma CursorFirst(s: State, log: Log)
    requires s.g.working > 0 && s.g.working - 1 in s.hdrOf && s.now.frames == map[] && !Syncing(s.g.ckptState)
    requires s.g.logCursor == IncrementLID(s.hdrOf[s.g.working - 1], log)
    ensures CursorAt(s, log)
  {
    hide IncrementLID;
  }

  /**
   What else a restart sets: the generation after the recovered one is the working one, those up to the newest
   that was migrated when the root was made are retired, and the next root goes to the other location.
   */
  lemma RestartState(s: State, img: map<nat, Frame>, log: Log)
    requires Inv(s, log) && CanCrash(s, img)
    ensures var s', gen := AfterCrash(s, img, log), RecoveredGen(s.g, img[Chosen(img)]);
      && s'.g.working == gen + 1 && s'.g.ckptState == NotActive
      && s'.g.migrated == s'.g.retired && (gen == s.g.working - 1 ==> s'.g.retired == s.g.retired)
      && (gen == s.g.working ==> s'.g.retired == s.g.nextRetired)
      && OtherRoot(s'.g.currentRootLID) in img && OlderRoot(img[OtherRoot(s'.g.currentRootLID)], gen)
      && gen in s.hdrOf && s'.g.logCursor == IncrementLID(s.hdrOf[gen], log)
  {
    hide LogOk, DirOk, SavingOk, SyncOk, NowWritten, RootsOk, CrashImage, SavedOk, SnapshotOk, DiskOk, OlderRoot,
      ReadGenerations, FromImage, Counters, RingOk, FitsOk, CursorAt, IncrementLID, Fold;
    RecoveredRange(s, img, log);
    RootSurvives(s, img, log);
    var f := img[Chosen(img)];
    var gen := f.root.mostRecentGenerationNumber;
    RecoveredHeader(s, f, gen, gen - f.root.numUnmigratedGenerations);
  }

  /** A crash of a stabilized state in which nothing has been written since leaves the cursor where it was. */
  lemma CrashKeepsCursor(s: State, img: map<nat, Frame>, log: Log)
    requires Inv(s, log) && CanCrash(s, img) && s.g.ckptState != Phase5 && s.now.frames == map[]
    ensures AfterCrash(s, img, log).g.logCursor == s.g.logCursor
  {
    hide LogOk, DirOk, SavingOk, SyncOk, NowWritten, RootsOk, CrashImage, SavedOk, SnapshotOk, DiskOk, OlderRoot,
      ReadGenerations, FromImage, Counters, RingOk, FitsOk, IncrementLID, Fold, Chosen, AfterCrash;
    RestartState(s, img, log);
  }

  lemma FitsAfterPhase5(s: State, log: Log)
    requires Inv(s, log) && CanPhase5Done(s, log)
    ensures FitsOk(AfterPhase5Done(s), log)
  {
    hide LogOk, GenOk, GenDurable, RingOk, RootsOk, SnapshotOk, NowWritten, SyncOk, Fold, DiskOk, Holds, Fits, InWindow,
      MadeOf, NoNewer, Members, SavingOk, CursorAt;
    FitsShrunk(s.saved, s.g.retired, s.g.nextRetired, s.g.working, log.numLogDirEntries);
    NoMembers(s.dir, s.g.working);
  }

  lemma FitsAfterCrash(s: State, img: map<nat, Frame>, log: Log)
    requires Inv(s, log) && CanCrash(s, img)
    ensures FitsOk(AfterCrash(s, img, log), log)
  {
    hide LogOk, GenOk, GenDurable, RingOk, RootsOk, SnapshotOk, NowWritten, SyncOk, Fold, DiskOk, Holds, Fits, InWindow,
      MadeOf, NoNewer, Members, SavingOk, DirOk, SavedOk, CrashImage, Fetchable, ReadGenerations, FromImage, Counters,
      RootNames, OlderRoot, Intact, ObjectsWritten, CursorAt;
    var s' := AfterCrash(s, img, log);
    RecoveredFits(s, img, log);
    RestartRoundTrip(s, img, log);
    DirAfterCrash(s, img, log);
    FitsSame(s.saved, s'.saved, s'.g.retired, s'.g.working - 1, log.numLogDirEntries);
    LastFits(s.saved, s'.g.retired, s'.g.working - 1, log.numLogDirEntries);
  }

  lemma LastFits(saved: map<nat, Gen>, lo: nat, hi: nat, size: nat)
    requires Fits(saved, lo, hi, size) && lo < hi
    ensures Holds(Fold(saved, lo, hi), size)
  {
  }

  /** The generations a restart reads fit in the log directory, in the order it reads them. */
  lemma RecoveredFits(s: State, img: map<nat, Frame>, log: Log)
    requires Inv(s, log) && CanCrash(s, img)
    ensures var f := img[Chosen(img)];
      var gen, lo := f.root.mostRecentGenerationNumber,
        f.root.mostRecentGenerationNumber - f.root.numUnmigratedGenerations;
      lo < gen && Fits(s.saved, lo, gen, log.numLogDirEntries)
  {
    hide LogOk, GenOk, GenDurable, RingOk, RootsOk, SnapshotOk, NowWritten, SyncOk, Fold, DiskOk, Holds, InWindow,
      MadeOf, NoNewer, Members, SavingOk, DirOk, CrashImage, RootNames, OlderRoot, CursorAt;
    RecoveredRange(s, img, log);
    var f := img[Chosen(img)];
    var gen, lo := f.root.mostRecentGenerationNumber,
      f.root.mostRecentGenerationNumber - f.root.numUnmigratedGenerations;
    FitsShrunk(s.saved, s.g.retired, lo, gen, log.numLogDirEntries);
  }

  // ---------- Writing a frame ----------

  lemma FreshWrite(s: State, f: Frame, log: Log)
    requires Inv(s, log) && s.g.ckptState != Phase5 && Reusable(s, s.g.logCursor)
    ensures var s' := Logged(s, f, log);
      && DiskOk(s'.disk) && Counters(s'.g, log) && RootsOk(s'.g, s'.disk, s.hdrOf)
      && SavedOk(s.saved, s.g.retired, Hi(s.g), s.hdrOf, s'.disk, log) && NowWritten(s'.now.frames, s'.disk)
      && ObjectsWritten(Members(s.dir, s.g.working), s'.now.frames)
  {
    hide SnapshotOk, SavingOk, SyncOk, FitsOk, CursorAt, RingOk, GenOk, LogOk, RootNames, OlderRoot, Members, MadeOf,
      NoNewer;
    var lid, s' := s.g.logCursor, Logged(s, f, log);
    forall h | s.g.retired < h <= Hi(s.g)
      ensures GenDurable(s.saved[h], s'.disk)
    {
      assert lid !in s.saved[h].frames;
    }
    assert s'.disk[lid].pending == s.disk[lid].pending + [f];
  }

  lemma StepWriteObject(s: State, data: nat, log: Log)
    requires Inv(s, log) && CanWrite(s)
    ensures Inv(AfterWriteObject(s, data, log), log)
  {
    hide RootStands, RootComing, LogOk, GenOk, GenDurable, RootNames, OlderRoot, RangesOk, Covered, DirWritten,
      RingHolds, MadeOf, NoNewer, Members, SavedOk, SnapshotOk, NowWritten, RootsOk, DiskOk, Counters, ObjectsWritten,
      FitsOk, CursorAt;
    CursorLogged(s, ObjectPage(data), AfterWriteObject(s, data, log), log);
    FitsKept(s, AfterWriteObject(s, data, log), log);
    FreshWrite(s, ObjectPage(data), log);
  }

  lemma StepRecord(s: State, o: int, od: Descriptor, log: Log)
    requires Inv(s, log) && CanRecord(s, o, od, log)
    ensures Inv(AfterRecord(s, o, od), log)
  {
    hide RootStands, RootComing, LogOk, GenOk, GenDurable, RootNames, OlderRoot, RangesOk, Covered, DirWritten,
      RingHolds, SavedOk, SnapshotOk, NowWritten, RootsOk, RingOk, Counters, SavingOk, DiskOk, FitsOk, CursorAt;
    CursorKept(s, AfterRecord(s, o, od), log);
    FitsRecorded(s, o, od, log);
    var d' := s.dir[o := Entry(od, s.g.working)];
    assert forall p :: p in d' && p != o ==> p in s.dir && d'[p] == s.dir[p];
    assert MadeOf(d', s.saved, s.g.retired, Hi(s.g));
    assert NoNewer(d', s.g.working);
    assert ObjectsWritten(Members(d', s.g.working), s.now.frames) by {
      forall p | p in Members(d', s.g.working)
        ensures d'[p].od.logLoc == 0 || d'[p].od.logLoc in s.now.frames
      {
        if p != o {
          assert p in Members(s.dir, s.g.working);
        }
      }
    }
  }

  lemma StepMigrate(s: State, m: nat, log: Log)
    requires Inv(s, log) && s.g.migrated <= m < s.g.working
    ensures Inv(s.(g := s.g.(migrated := m)), log)
  {
    hide RootStands, RootComing, LogOk, GenOk, GenDurable, Covered, DirWritten, RingHolds, MadeOf, NoNewer, Members,
      SavedOk, SnapshotOk, NowWritten, ObjectsWritten, DiskOk, FitsOk, CursorAt;
    CursorKept(s, s.(g := s.g.(migrated := m)), log);
    FitsKept(s, s.(g := s.g.(migrated := m)), log);
  }

  lemma StepDeclare(s: State, log: Log)
    requires Inv(s, log)
    ensures s.g.ckptState == NotActive ==> Inv(s.(g := s.g.(ckptState := Phase1, nextRetired := 0)), log)
    ensures s.g.ckptState == Phase1 ==> Inv(s.(g := s.g.(ckptState := Phase2)), log)
  {
    hide RootStands, RootComing, LogOk, GenOk, GenDurable, Covered, DirWritten, RingHolds, MadeOf, NoNewer, Members,
      SavedOk, SnapshotOk, NowWritten, ObjectsWritten, DiskOk, FitsOk, CursorAt;
    if s.g.ckptState == NotActive {
      CursorKept(s, s.(g := s.g.(ckptState := Phase1, nextRetired := 0)), log);
      FitsKept(s, s.(g := s.g.(ckptState := Phase1, nextRetired := 0)), log);
    } else if s.g.ckptState == Phase1 {
      CursorKept(s, s.(g := s.g.(ckptState := Phase2)), log);
      FitsKept(s, s.(g := s.g.(ckptState := Phase2)), log);
    }
  }

  lemma Cleared(d: ODir, saved: map<nat, Gen>, lo: nat, hi: nat, h: nat, w: nat)
    requires MadeOf(d, saved, lo, hi) && NoNewer(d, w) && h <= lo && h < w
    ensures MadeOf(NewerThan(d, h), saved, lo, hi) && NoNewer(NewerThan(d, h), w)
    ensures Members(NewerThan(d, h), w) == Members(d, w)
  {
  }

  lemma StepClear(s: State, h: nat, log: Log)
    requires Inv(s, log) && h <= s.g.retired
    ensures Inv(s.(dir := NewerThan(s.dir, h)), log)
  {
    hide RootStands, RootComing, LogOk, GenOk, GenDurable, RootNames, OlderRoot, RangesOk, Covered, DirWritten,
      RingHolds, SavedOk, SnapshotOk, NowWritten, RootsOk, RingOk, DiskOk, MadeOf, NoNewer, Members, NewerThan, FitsOk,
      CursorAt;
    CursorKept(s, s.(dir := NewerThan(s.dir, h)), log);
    FitsCleared(s, h, log);
    Cleared(s.dir, s.saved, s.g.retired, Hi(s.g), h, s.g.working);
  }

  lemma StepPhase2Done(s: State, list: seq<DirEnt>, k: nat, log: Log)
    requires Inv(s, log) && CanPhase2Done(s, list, k)
    ensures Inv(AfterPhase2Done(s, list, k), log)
  {
    hide RootStands, RootComing, LogOk, GenOk, GenDurable, RootNames, OlderRoot, RangesOk, RingHolds, SavedOk,
      SnapshotOk, NowWritten, DiskOk, FitsOk, CursorAt;
    CursorKept(s, AfterPhase2Done(s, list, k), log);
    FitsAfterPhase2(s, list, k, log);
    SplitCovered([], list, k, Members(s.dir, s.g.working));
    assert [] + [list[..k]] == [list[..k]];
  }

  /** Moving the first n entries of the rest to a part of their own. */
  lemma SplitCovered(parts: seq<seq<DirEnt>>, rest: seq<DirEnt>, n: nat, m: map<int, Descriptor>)
    requires Covered(parts, rest, m) && n <= |rest|
    ensures Covered(parts + [rest[..n]], rest[n..], m)
  {
    var parts' := parts + [rest[..n]];
    forall o | o in m
      ensures Names(rest[n..], o) || exists i :: 0 <= i < |parts'| && Names(parts'[i], o)
    {
      if Names(rest, o) {
        var j :| 0 <= j < |rest| && rest[j].oid == o;
        if j < n {
          assert parts'[|parts|][j].oid == o;
          assert Names(parts'[|parts|], o);
        } else {
          assert rest[n..][j - n].oid == o;
        }
      } else {
        var i :| 0 <= i < |parts| && Names(parts[i], o);
        assert parts'[i] == parts[i];
      }
    }
  }

  /** A directory frame written where the next one belongs. */
  lemma DirExtended(gen: Gen, ents: seq<DirEnt>, lid: nat, log: Log, gen': Gen)
    requires DirWritten(gen, log) && lid !in gen.frames
    requires |gen.parts| > 1 ==> lid == NthLid(gen.firstDir, |gen.parts| - 1, log)
    requires gen'.parts == gen.parts + [ents] && gen'.frames == gen.frames[lid := ObDirPage(ents)]
    requires gen'.firstDir == if |gen.parts| == 1 then lid else gen.firstDir
    ensures DirWritten(gen', log) && lid == NthLid(gen'.firstDir, |gen.parts| - 1, log)
  {
    forall i | 1 <= i < |gen'.parts|
      ensures DirFrameAt(gen', i, log)
    {
      if i < |gen.parts| {
        assert DirFrameAt(gen, i, log);
      }
    }
  }

  lemma StepWriteDir(s: State, n: nat, log: Log)
    requires Inv(s, log) && CanWriteDir(s, n)
    ensures Inv(AfterWriteDir(s, n, log), log)
  {
    hide RootStands, RootComing, LogOk, GenOk, GenDurable, RootNames, OlderRoot, RangesOk, RingHolds, SavedOk,
      SnapshotOk, NowWritten, DiskOk, RootsOk, Covered, MadeOf, NoNewer, Members, ObjectsWritten, FitsOk, CursorAt;
    assert |s.now.parts| > 0;
    CursorLogged(s, ObDirPage(s.toSave[..n]), AfterWriteDir(s, n, log), log);
    FitsKept(s, AfterWriteDir(s, n, log), log);
    FreshWrite(s, ObDirPage(s.toSave[..n]), log);
    SplitCovered(s.now.parts, s.toSave, n, s.now.entries);
    DirExtended(s.now, s.toSave[..n], s.g.logCursor, log, AfterWriteDir(s, n, log).now);
  }

  /** The header completes what is on disk of a generation. */
  lemma HeaderCompletes(gen: Gen, h: nat, lid: nat, log: Log, gen': Gen)
    requires DirWritten(gen, log) && Covered(gen.parts, [], gen.entries) && ObjectsWritten(gen.entries, gen.frames)
    requires lid !in gen.frames
    requires gen' == gen.(hdr := lid, frames := gen.frames[lid :=
      HeaderPage(GenHdr(1, h, gen.parts[0], gen.firstDir, |gen.parts| - 1))])
    ensures GenOk(gen', h, log)
  {
    forall i | 1 <= i < |gen'.parts|
      ensures DirFrameAt(gen', i, log)
    {
      assert DirFrameAt(gen, i, log);
    }
  }

  /** A header LID newly known does not matter to older generations. */
  lemma HdrAdded(a: nat, working: nat, retired: nat, disk: Disk, hdrOf: map<nat, nat>, saved: map<nat, Gen>, lid: nat,
                 log: Log)
    requires working > 0 && RootStands(a, working, retired, disk, hdrOf)
    requires SavedOk(saved, retired, working - 1, hdrOf, disk, log)
    ensures RootStands(a, working, retired, disk, hdrOf[working := lid])
    ensures SavedOk(saved, retired, working - 1, hdrOf[working := lid], disk, log)
  {
  }

  lemma RingAfterPhase3(g: Globals, hdrOf: map<nat, nat>, log: Log)
    requires Counters(g, log) && RingOk(g, hdrOf) && g.ckptState == Phase3
    ensures Counters(Phase3Commit(g, log), log)
    ensures RingOk(Phase3Commit(g, log), hdrOf[g.working := g.logCursor])
  {
    var oldest := OldestInRing(Phase3Commit(g, log));
    RingExtended(g.unmigratedGenHdrLid, g.wkgUGHL, g.working - 1, oldest, hdrOf, g.logCursor);
  }

  lemma FramesAfterPhase3(s: State, log: Log)
    requires Inv(s, log) && CanPhase3Done(s)
    ensures |s.now.parts| > 0
    ensures var s' := AfterPhase3Done(s, log);
      && DiskOk(s'.disk) && RootStands(s.g.currentRootLID, s.g.working, s.g.retired, s'.disk, s'.hdrOf)
      && SavedOk(s.saved, s.g.retired, s.g.working - 1, s'.hdrOf, s'.disk, log) && NowWritten(s'.now.frames, s'.disk)
      && ObjectsWritten(Members(s.dir, s.g.working), s'.now.frames)
  {
    hide RootStands, RootComing, LogOk, GenOk, GenDurable, RingOk, SavedOk, SnapshotOk, NowWritten, DiskOk, Covered,
      ObjectsWritten, Members, SyncOk, DirOk, FitsOk, CursorAt;
    var s' := AfterPhase3Done(s, log);
    FreshWrite(s, Header(s), log);
    HdrAdded(s.g.currentRootLID, s.g.working, s.g.retired, s'.disk, s.hdrOf, s.saved, s.g.logCursor, log);
  }

  lemma SavedAfterPhase3(s: State, log: Log)
    requires Inv(s, log) && CanPhase3Done(s) && |s.now.parts| > 0
    ensures SavingOk(AfterPhase3Done(s, log), log)
  {
    hide LogOk, GenOk, GenDurable, RootStands, RingOk, SavedOk, SnapshotOk, NowWritten, DiskOk, MadeOf, NoNewer,
      Covered, DirWritten, SyncOk, FitsOk, CursorAt;
    HeaderCompletes(s.now, s.g.working, s.g.logCursor, log, AfterPhase3Done(s, log).now);
  }

  lemma RestAfterPhase3(s: State, log: Log)
    requires Inv(s, log) && CanPhase3Done(s) && |s.now.parts| > 0
    requires var s' := AfterPhase3Done(s, log);
      && RootStands(s.g.currentRootLID, s.g.working, s.g.retired, s'.disk, s'.hdrOf)
      && ObjectsWritten(Members(s.dir, s.g.working), s'.now.frames)
    ensures var s' := AfterPhase3Done(s, log);
      && SyncOk(s', log) && s'.g.working > 0 && FitsOk(s', log) && CursorAt(s', log) && DirOk(s')
      && RootsOk(s'.g, s'.disk, s'.hdrOf)
      && s'.saved == s.saved && s'.g.retired == s.g.retired && Hi(s'.g) == Hi(s.g) && s'.g.ckptState == Phase4
      && s'.g == Phase3Commit(s.g, log) && s'.hdrOf == s.hdrOf[s.g.working := s.g.logCursor]
  {
    hide RootStands, RootComing, LogOk, GenOk, GenDurable, RingHolds, SavedOk, SnapshotOk, NowWritten, DiskOk,
      ObjectsWritten, Members, MadeOf, NoNewer, Covered, DirWritten, RingOk, SavingOk, Below, FitsOk, CursorAt;
    CursorLogged(s, Header(s), AfterPhase3Done(s, log), log);
    FitsKept(s, AfterPhase3Done(s, log), log);
  }

  lemma StepPhase3Done(s: State, log: Log)
    requires Inv(s, log) && CanPhase3Done(s)
    ensures |s.now.parts| > 0 && Inv(AfterPhase3Done(s, log), log)
  {
    hide RootStands, RootComing, LogOk, GenOk, GenDurable, RingHolds, SavedOk, SnapshotOk, NowWritten, DiskOk,
      ObjectsWritten, Members, MadeOf, NoNewer, Covered, DirWritten, RingOk, SavingOk, Below, Counters, Phase3Commit,
      AfterPhase3Done, FitsOk, CursorAt;
    FramesAfterPhase3(s, log);
    SavedAfterPhase3(s, log);
    RingAfterPhase3(s.g, s.hdrOf, log);
    RestAfterPhase3(s, log);
  }

  // ---------- Syncing ----------

  lemma LatestSettled(c: Cell)
    requires c.covered <= |c.pending|
    ensures Latest(Settled(c)) == Latest(c) && |Settled(c).pending| <= |c.pending|
    ensures c.pending == [] ==> Settled(c).pending == [] && Settled(c).stable == c.stable
    ensures c.covered == |c.pending| ==> Settled(c).pending == []
    ensures Settled(c).pending == c.pending ==> Settled(c).stable == c.stable
  {
  }

  /** What a request for a range leaves as it was. */
  ghost predicate Progressed(disk: Disk, disk': Disk) {
    && disk'.Keys == disk.Keys && DiskOk(disk')
    && forall lid :: lid in disk ==>
      (&& Latest(disk'[lid]) == Latest(disk[lid]) && |disk'[lid].pending| <= |disk[lid].pending|
       && (|disk'[lid].pending| == |disk[lid].pending| ==> disk'[lid].stable == disk[lid].stable))
  }

  lemma SyncIssuedProgress(disk: Disk, r: nat, log: Log)
    requires DiskOk(disk)
    ensures Progressed(disk, SyncIssued(disk, r, log))
  {
  }

  lemma SyncDoneProgress(disk: Disk, r: nat, log: Log)
    requires DiskOk(disk)
    ensures Progressed(disk, SyncDone(disk, r, log))
  {
    forall lid | lid in disk
      ensures Latest(Settled(disk[lid])) == Latest(disk[lid]) && |Settled(disk[lid]).pending| <= |disk[lid].pending|
      ensures |Settled(disk[lid]).pending| == |disk[lid].pending| ==> Settled(disk[lid]).stable == disk[lid].stable
    {
      LatestSettled(disk[lid]);
    }
  }

  lemma FramesProgressed(s: State, disk': Disk, log: Log)
    requires Inv(s, log) && Progressed(s.disk, disk')
    ensures NowWritten(s.now.frames, disk') && SavedOk(s.saved, s.g.retired, Hi(s.g), s.hdrOf, disk', log)
    ensures RootsOk(s.g, disk', s.hdrOf)
  {
    hide RootNames, OlderRoot, SnapshotOk, DirOk, SavingOk, SyncOk, RingOk, GenOk, CursorAt;
    forall h | s.g.retired < h <= Hi(s.g)
      ensures GenDurable(s.saved[h], disk')
    {
    }
  }

  lemma IssueRanges(s: State, log: Log)
    requires Inv(s, log) && CanIssueSync(s, log)
    ensures var s' := AfterIssueSync(s, log); RangesOk(s'.g, s'.outstanding, s'.disk, log)
  {
    hide RootsOk, GenOk, SavedOk, SnapshotOk, NowWritten, DirOk, SavingOk, RingOk, Counters, FitsOk, CursorAt;
    var r := s.g.nextRangeToSync;
    assert r !in s.outstanding;
    assert |s.outstanding + {r}| == |s.outstanding| + 1;
  }

  lemma StepIssueSync(s: State, log: Log)
    requires Inv(s, log) && CanIssueSync(s, log)
    ensures Inv(AfterIssueSync(s, log), log)
  {
    hide RootStands, RootComing, LogOk, GenOk, GenDurable, RingHolds, SavedOk, SnapshotOk, NowWritten, ObjectsWritten,
      Members, MadeOf, NoNewer, Covered, DirWritten, RangesOk, SyncIssued, DiskOk, FitsOk, CursorAt;
    CursorKept(s, AfterIssueSync(s, log), log);
    FitsKept(s, AfterIssueSync(s, log), log);
    SyncIssuedProgress(s.disk, s.g.nextRangeToSync, log);
    FramesProgressed(s, AfterIssueSync(s, log).disk, log);
    IssueRanges(s, log);
  }

  lemma EndRanges(s: State, r: nat, log: Log)
    requires Inv(s, log) && CanEndSync(s, r)
    ensures var s' := AfterEndSync(s, r, log); RangesOk(s'.g, s'.outstanding, s'.disk, log)
  {
    hide RootsOk, GenOk, SavedOk, SnapshotOk, NowWritten, DirOk, SavingOk, RingOk, Counters, FitsOk, CursorAt;
    assert |s.outstanding - {r}| == |s.outstanding| - 1;
    forall lid | lid in s.disk && log.range(lid) == r
      ensures Settled(s.disk[lid]).pending == []
    {
      LatestSettled(s.disk[lid]);
    }
  }

  lemma StepEndSync(s: State, r: nat, log: Log)
    requires Inv(s, log) && CanEndSync(s, r)
    ensures Inv(AfterEndSync(s, r, log), log)
  {
    hide RootStands, RootComing, LogOk, GenOk, GenDurable, RingHolds, SavedOk, SnapshotOk, NowWritten, ObjectsWritten,
      Members, MadeOf, NoNewer, Covered, DirWritten, RangesOk, SyncDone, DiskOk, FitsOk, CursorAt;
    CursorKept(s, AfterEndSync(s, r, log), log);
    FitsKept(s, AfterEndSync(s, r, log), log);
    SyncDoneProgress(s.disk, r, log);
    FramesProgressed(s, AfterEndSync(s, r, log).disk, log);
    EndRanges(s, r, log);
  }

  /** When DoSync has returned every write is on the medium. */
  lemma AllSettled(s: State, log: Log)
    requires Inv(s, log) && Syncing(s.g.ckptState) && SyncComplete(s, log)
    ensures s.outstanding == {} && forall lid :: lid in s.disk ==> s.disk[lid].pending == []
  {
    hide RootsOk, GenOk, SavedOk, SnapshotOk, NowWritten, DirOk, SavingOk, RingOk, Counters, FitsOk, CursorAt;
  }

  // ---------- Writing the root, and stabilizing ----------

  /** A generation joins those a directory is made of. */
  lemma MadeOfExtended(d: ODir, saved: map<nat, Gen>, lo: nat, w: nat, gen: Gen)
    requires w > 0 && MadeOf(d, saved, lo, w - 1) && NoNewer(d, w) && gen.entries == Members(d, w)
    ensures MadeOf(d, saved[w := gen], lo, w)
  {
    var saved' := saved[w := gen];
    forall h, o | lo < h <= w && h in saved' && o in saved'[h].entries
      ensures o in d && d[o].generation >= h && (d[o].generation == h ==> d[o].od == saved'[h].entries[o])
    {
    }
  }

  lemma MadeOfShrunk(d: ODir, saved: map<nat, Gen>, lo: nat, hi: nat, lo': nat)
    requires MadeOf(d, saved, lo, hi) && lo <= lo'
    ensures MadeOf(d, saved, lo', hi)
  {
  }

  lemma SnapshotKept(saved: map<nat, Gen>, lo: nat, hi: nat, w: nat, gen: Gen)
    requires SnapshotOk(saved, lo, hi) && hi < w
    ensures SnapshotOk(saved[w := gen], lo, hi)
  {
    if hi > lo {
      var d, saved' := saved[hi].dirAt, saved[w := gen];
      assert forall h :: h != w && h in saved' ==> h in saved && saved'[h] == saved[h];
      assert MadeOf(d, saved', lo, hi);
    }
  }

  lemma RootAfterPhase4(s: State, root: CkptRoot, log: Log)
    requires Inv(s, log) && CanPhase4Done(s, root, log)
    ensures OtherRoot(s.g.currentRootLID) in s.disk
    ensures RootsOk(Phase4Commit(s.g), AfterPhase4Done(s, root).disk, s.hdrOf)
  {
    hide SavedOk, SnapshotOk, NowWritten, DirOk, SavingOk, SyncOk, OlderRoot, SyncComplete, DiskOk, FitsOk, CursorAt;
    assert RootStands(s.g.currentRootLID, s.g.working, s.g.retired, s.disk, s.hdrOf);
    forall h | s.g.migrated <= h <= s.g.working
      ensures h in s.hdrOf && root.generations[s.g.working - h] == s.hdrOf[h]
    {
      assert root.generations[s.g.working - h] == s.g.unmigratedGenHdrLid[Slot(s.g.nextWkgUGHL, s.g.working - h)];
    }
    assert RootNames(RootPage(root), s.g.working, s.g.migrated, s.hdrOf);
  }

  lemma FramesAfterPhase4(s: State, root: CkptRoot, log: Log)
    requires Inv(s, log) && CanPhase4Done(s, root, log) && OtherRoot(s.g.currentRootLID) in s.disk
    ensures var s' := AfterPhase4Done(s, root);
      DiskOk(s'.disk) && NowWritten(s'.now.frames, s'.disk)
      && SavedOk(s'.saved, s.g.retired, s.g.working, s.hdrOf, s'.disk, log)
  {
    hide RootsOk, SnapshotOk, DirOk, RingOk, GenOk, RootListed, RangesOk, SyncComplete, CursorAt, FitsOk, MadeOf,
      NoNewer, Members, Covered, DirWritten, LogOk, Counters;
    AllSettled(s, log);
    var s' := AfterPhase4Done(s, root);
    forall h | s.g.retired < h <= s.g.working
      ensures GenDurable(s'.saved[h], s'.disk)
    {
    }
  }

  lemma StepPhase4Done(s: State, root: CkptRoot, log: Log)
    requires Inv(s, log) && CanPhase4Done(s, root, log)
    ensures OtherRoot(s.g.currentRootLID) in s.disk && Inv(AfterPhase4Done(s, root), log)
  {
    hide RootStands, RootComing, LogOk, GenOk, GenDurable, RingHolds, SavedOk, NowWritten, DiskOk, ObjectsWritten,
      Members, MadeOf, NoNewer, Covered, DirWritten, RootListed, Written, FitsOk, CursorAt;
    RootAfterPhase4(s, root, log);
    CursorKept(s, AfterPhase4Done(s, root), log);
    FitsAfterPhase4(s, root, log);
    FramesAfterPhase4(s, root, log);
    AllSettled(s, log);
    SnapshotKept(s.saved, s.g.retired, s.g.working - 1, s.g.working, s.now);
    MadeOfExtended(s.dir, s.saved, s.g.retired, s.g.working, s.now);
    MadeOfExtended(s.now.dirAt, s.saved, s.g.retired, s.g.working, s.now);
  }

  lemma RootAfterPhase5(s: State, log: Log)
    requires Inv(s, log) && CanPhase5Done(s, log)
    ensures RootsOk(Phase5Commit(s.g), s.disk, s.hdrOf)
  {
    hide SavedOk, SnapshotOk, NowWritten, DirOk, SyncOk, SyncComplete, DiskOk, RingOk, FitsOk, CursorAt;
    AllSettled(s, log);
  }

  lemma SavedShrunk(saved: map<nat, Gen>, lo: nat, hi: nat, hdrOf: map<nat, nat>, disk: Disk, log: Log, lo': nat)
    requires SavedOk(saved, lo, hi, hdrOf, disk, log) && SnapshotOk(saved, lo, hi) && lo <= lo'
    ensures SavedOk(saved, lo', hi, hdrOf, disk, log) && SnapshotOk(saved, lo', hi)
  {
    if hi > lo' {
      MadeOfShrunk(saved[hi].dirAt, saved, lo, hi, lo');
    }
  }

  lemma NoMembers(d: ODir, w: nat)
    requires NoNewer(d, w)
    ensures NoNewer(d, w + 1) && Members(d, w + 1) == map[]
  {
    var m := Members(d, w + 1);
    assert forall o :: o in m ==> false;
  }

  lemma StepPhase5Done(s: State, log: Log)
    requires Inv(s, log) && CanPhase5Done(s, log)
    ensures Inv(AfterPhase5Done(s), log)
  {
    hide RootStands, RootComing, LogOk, GenOk, GenDurable, SavedOk, DiskOk, SnapshotOk, Covered, DirWritten,
      SyncComplete, MadeOf, Members, NoNewer, FitsOk, CursorAt;
    CursorAfterPhase5(s, log);
    FitsAfterPhase5(s, log);
    RootAfterPhase5(s, log);
    AllSettled(s, log);
    SavedShrunk(s.saved, s.g.retired, s.g.working, s.hdrOf, s.disk, log, s.g.nextRetired);
    MadeOfShrunk(s.dir, s.saved, s.g.retired, s.g.working, s.g.nextRetired);
    NoMembers(s.dir, s.g.working);
  }

  // ---------- Crashes ----------

  /** The frames of the generations above lo, up to hi, are in the image as they were written. */
  ghost predicate Intact(saved: map<nat, Gen>, lo: nat, hi: nat, img: map<nat, Frame>) {
    forall h :: lo < h <= hi ==> h in saved && GenIntact(saved[h], img)
  }

  ghost predicate GenIntact(gen: Gen, img: map<nat, Frame>) {
    forall lid :: lid in gen.frames ==> lid in img && img[lid] == gen.frames[lid]
  }

  lemma SavedIntact(saved: map<nat, Gen>, lo: nat, hi: nat, hdrOf: map<nat, nat>, disk: Disk, log: Log,
                    img: map<nat, Frame>)
    requires SavedOk(saved, lo, hi, hdrOf, disk, log) && CrashImage(disk, img)
    ensures Intact(saved, lo, hi, img)
  {
  }

  /** The generation whose root f is, of the last stabilized and the one being stabilized. */
  function RecoveredGen(g: Globals, f: Frame): nat
    requires g.working > 0
  {
    if g.ckptState == Phase5 && f.RootPage? && f.root.mostRecentGenerationNumber == g.working then g.working
    else g.working - 1
  }

  ghost predicate RootOf(s: State, f: Frame, gen: nat)
    requires s.g.working > 0
  {
    || (gen == s.g.working - 1 && RootNames(f, gen, s.g.retired, s.hdrOf))
    || (gen == s.g.working && s.g.ckptState == Phase5 && RootNames(f, gen, s.g.nextRetired, s.hdrOf))
  }

  /** The root chosen after a crash. */
  lemma RootSurvives(s: State, img: map<nat, Frame>, log: Log)
    requires Inv(s, log) && CrashImage(s.disk, img)
    ensures CKPT_ROOT_0 in img && CKPT_ROOT_1 in img
    ensures ValidateCkptRoot(img[Chosen(img)]) && RootOf(s, img[Chosen(img)], RecoveredGen(s.g, img[Chosen(img)]))
    ensures var root := img[Chosen(img)].root;
      root.versionNumber == 1 && root.mostRecentGenerationNumber == root.checkGenNum && root.integrityByte == 0xf7
    ensures RecoveredGen(s.g, img[Chosen(img)]) > 1 ==>
      OtherRoot(Chosen(img)) in img && OlderRoot(img[OtherRoot(Chosen(img))], RecoveredGen(s.g, img[Chosen(img)]))
  {
    hide LogOk, GenOk, GenDurable, SnapshotOk, DirOk, SavingOk, SyncOk, RingOk, NowWritten, SavedOk, FitsOk, CursorAt;
    var a, b := s.g.currentRootLID, OtherRoot(s.g.currentRootLID);
    assert Survivor(s.disk[a], a, img[a]) && Survivor(s.disk[b], b, img[b]);
    if s.g.ckptState == Phase5 {
      assert img[b] == s.disk[b].stable;
      assert img[a] == Latest(s.disk[a]) || !ValidateCkptRoot(img[a]) || OlderRoot(img[a], s.g.working - 1);
    } else {
      assert img[a] == s.disk[a].stable && img[b] == s.disk[b].stable;
    }
  }

  /**
   Crash safety. Whatever writes survive a crash, at whatever point of a run, there is a valid root;
   the one chosen is that of the last stabilized checkpoint, or in phase 5 perhaps of the one being
   stabilized; and every generation it names is on the disk as it was written.
   */
  lemma CrashSafe(s: State, img: map<nat, Frame>, log: Log)
    requires Inv(s, log) && CrashImage(s.disk, img)
    ensures CKPT_ROOT_0 in img && CKPT_ROOT_1 in img
    ensures var f := img[Chosen(img)];
      var gen := RecoveredGen(s.g, f);
      && ValidateCkptRoot(f) && RootOf(s, f, gen) && f.root.numUnmigratedGenerations <= gen
      && Intact(s.saved, gen - f.root.numUnmigratedGenerations, gen, img)
  {
    hide LogOk, GenOk, GenDurable, SnapshotOk, DirOk, SavingOk, SyncOk, RingOk, NowWritten, SavedOk, RootsOk,
      CrashImage, FitsOk, CursorAt;
    SavedIntact(s.saved, s.g.retired, Hi(s.g), s.hdrOf, s.disk, log, img);
    RootSurvives(s, img, log);
  }

  // ---------- Restarting ----------

  /** The entries of m, of generation h, added to d. */
  ghost function Overlay(d: ODir, m: map<int, Descriptor>, h: nat): ODir {
    map o | o in d.Keys + m.Keys :: if o in m then Entry(m[o], h) else d[o]
  }

  /** The saved generations above lo, up to hi, laid over each other oldest first. */
  ghost function Fold(saved: map<nat, Gen>, lo: nat, hi: nat): ODir {
    if hi <= lo then map[]
    else Overlay(Fold(saved, lo, hi - 1), if hi in saved then saved[hi].entries else map[], hi)
  }

  /** Adding entries of m in any order, any number of times, adds just those. */
  lemma {:induction false} AddEntsPoint(d: ODir, ents: seq<DirEnt>, m: map<int, Descriptor>, h: nat, o: int)
    requires Within(ents, m)
    ensures o in AddEnts(d, ents, h) <==> o in d || Names(ents, o)
    ensures Names(ents, o) ==> o in m && AddEnts(d, ents, h)[o] == Entry(m[o], h)
    ensures o in d && !Names(ents, o) ==> AddEnts(d, ents, h)[o] == d[o]
    decreases |ents|
  {
    if ents != [] {
      var k := |ents| - 1;
      AddEntsPoint(d, ents[..k], m, h, o);
      if Names(ents[..k], o) {
        var i :| 0 <= i < k && ents[..k][i].oid == o;
        assert ents[i].oid == o;
      }
      if Names(ents, o) && ents[k].oid != o {
        var i :| 0 <= i < |ents| && ents[i].oid == o;
        assert ents[..k][i].oid == o;
      }
      assert ents[k].oid == o ==> Names(ents, o);
    }
  }

  /** The entries in the parts of a generation. */
  ghost predicate Listed(parts: seq<seq<DirEnt>>, n: nat, o: int)
    requires n <= |parts|
  {
    exists i :: 0 <= i < n && Names(parts[i], o)
  }

  lemma {:induction false} AddFramesPoint(d: ODir, gen: Gen, h: nat, img: map<nat, Frame>, n: nat, log: Log, o: int)
    requires DirWritten(gen, log) && GenIntact(gen, img) && Covered(gen.parts, [], gen.entries) && n < |gen.parts|
    ensures var d' := AddFrames(AddEnts(d, gen.parts[0], h), img, gen.firstDir, n, h, log);
      && (o in d' <==> o in d || Listed(gen.parts, n + 1, o))
      && (Listed(gen.parts, n + 1, o) ==> o in gen.entries && d'[o] == Entry(gen.entries[o], h))
      && (o in d && !Listed(gen.parts, n + 1, o) ==> d'[o] == d[o])
    decreases n
  {
    if n == 0 {
      AddEntsPoint(d, gen.parts[0], gen.entries, h, o);
      assert Listed(gen.parts, 1, o) <==> Names(gen.parts[0], o);
    } else {
      AddFramesPoint(d, gen, h, img, n - 1, log, o);
      assert DirFrameAt(gen, n, log);
      var d1 := AddFrames(AddEnts(d, gen.parts[0], h), img, gen.firstDir, n - 1, h, log);
      AddEntsPoint(d1, gen.parts[n], gen.entries, h, o);
      assert Listed(gen.parts, n + 1, o) <==> Listed(gen.parts, n, o) || Names(gen.parts[n], o);
    }
  }

  /** Reading a generation back adds its entries. */
  lemma GenRead(d: ODir, gen: Gen, h: nat, img: map<nat, Frame>, log: Log)
    requires GenOk(gen, h, log) && GenIntact(gen, img)
    ensures AddFrames(AddEnts(d, gen.parts[0], h), img, gen.firstDir, |gen.parts| - 1, h, log) ==
      Overlay(d, gen.entries, h)
  {
    var n := |gen.parts| - 1;
    var d' := AddFrames(AddEnts(d, gen.parts[0], h), img, gen.firstDir, n, h, log);
    forall o
      ensures o in d' <==> o in Overlay(d, gen.entries, h)
      ensures o in d' ==> d'[o] == Overlay(d, gen.entries, h)[o]
    {
      AddFramesPoint(d, gen, h, img, n, log, o);
      assert !Names([], o);
    }
  }

  lemma HeaderThere(gen: Gen, h: nat, img: map<nat, Frame>, log: Log)
    requires GenOk(gen, h, log) && GenIntact(gen, img)
    ensures IsHeader(img, gen.hdr, h) && |gen.parts| > 0
    ensures img[gen.hdr].hdr == GenHdr(1, h, gen.parts[0], gen.firstDir, |gen.parts| - 1)
  {
  }

  lemma {:induction false} ReadIsFold(saved: map<nat, Gen>, hdrOf: map<nat, nat>, lo: nat, gen: nat,
                                      img: map<nat, Frame>,
                                      root: CkptRoot, i: nat, log: Log)
    requires gen > 1 && RootNames(RootPage(root), gen, lo, hdrOf) && Intact(saved, lo, gen, img)
    requires forall h :: lo < h <= gen ==> GenOk(saved[h], h, log) && h in hdrOf && saved[h].hdr == hdrOf[h]
    requires i <= gen - lo
    ensures ReadGenerations(img, root, i, log) == Fold(saved, lo, gen - i)
    decreases gen - lo - i
  {
    hide GenOk, GenIntact, Covered, DirWritten, ObjectsWritten, Overlay, AddFrames, AddEnts, ValidateCkptRoot, CursorAt;
    if i < gen - lo {
      var h := gen - i;
      ReadIsFold(saved, hdrOf, lo, gen, img, root, i + 1, log);
      assert root.generations[gen - h] == hdrOf[h];
      HeaderThere(saved[h], h, img, log);
      GenRead(Fold(saved, lo, h - 1), saved[h], h, img, log);
    }
  }

  /** The fold is made of the generations, and holds nothing else. */
  lemma {:induction false} FoldMadeOf(saved: map<nat, Gen>, lo: nat, hi: nat)
    requires lo <= hi && forall h :: lo < h <= hi ==> h in saved
    ensures MadeOf(Fold(saved, lo, hi), saved, lo, hi) && NoNewer(Fold(saved, lo, hi), hi)
    ensures forall o :: o in Fold(saved, lo, hi) ==> lo < Fold(saved, lo, hi)[o].generation
    decreases hi - lo
  {
    if lo < hi {
      FoldMadeOf(saved, lo, hi - 1);
      var d, d' := Fold(saved, lo, hi - 1), Fold(saved, lo, hi);
      assert d' == Overlay(d, saved[hi].entries, hi);
      forall h, o | lo < h <= hi && h in saved && o in saved[h].entries
        ensures o in d' && d'[o].generation >= h && (d'[o].generation == h ==> d'[o].od == saved[h].entries[o])
      {
        assert h < hi ==> o in d && d[o].generation >= h;
      }
    }
  }

  /** A directory made of the generations up to hi is their fold, older entries aside. */
  lemma MadeOfIsFold(d: ODir, saved: map<nat, Gen>, lo: nat, hi: nat)
    requires lo <= hi && (forall h :: lo < h <= hi ==> h in saved)
    requires MadeOf(d, saved, lo, hi) && NoNewer(d, hi)
    ensures NewerThan(d, lo) == Fold(saved, lo, hi)
  {
    FoldMadeOf(saved, lo, hi);
    var f, n := Fold(saved, lo, hi), NewerThan(d, lo);
    forall o
      ensures o in n <==> o in f
      ensures o in n ==> n[o] == f[o]
    {
      if o in n {
        assert o in saved[d[o].generation].entries;
        assert o in f && f[o].generation >= d[o].generation;
      }
      if o in f {
        assert o in saved[f[o].generation].entries;
        assert o in d && d[o].generation >= f[o].generation;
      }
    }
  }

  /** Every object of the directory can be fetched: its frame holds what its generation wrote there. */
  ghost predicate Fetchable(d: ODir, saved: map<nat, Gen>, img: map<nat, Frame>) {
    forall o :: o in d && d[o].od.logLoc != 0 ==>
      (&& d[o].generation in saved && d[o].od.logLoc in saved[d[o].generation].frames
       && d[o].od.logLoc in img && img[d[o].od.logLoc] == saved[d[o].generation].frames[d[o].od.logLoc])
  }

  lemma FoldFetchable(saved: map<nat, Gen>, lo: nat, hi: nat, img: map<nat, Frame>)
    requires lo <= hi && Intact(saved, lo, hi, img)
    requires forall h :: lo < h <= hi ==> ObjectsWritten(saved[h].entries, saved[h].frames)
    ensures Fetchable(Fold(saved, lo, hi), saved, img)
  {
    FoldMadeOf(saved, lo, hi);
    var f := Fold(saved, lo, hi);
    forall o | o in f && f[o].od.logLoc != 0
      ensures f[o].generation in saved && f[o].od.logLoc in saved[f[o].generation].frames
      ensures f[o].od.logLoc in img && img[f[o].od.logLoc] == saved[f[o].generation].frames[f[o].od.logLoc]
    {
      var h := f[o].generation;
      assert o in saved[h].entries && f[o].od == saved[h].entries[o];
      assert GenIntact(saved[h], img);
    }
  }

  lemma RecoveredRange(s: State, img: map<nat, Frame>, log: Log)
    requires Inv(s, log) && CanCrash(s, img)
    ensures var f := img[Chosen(img)];
      var gen, lo := f.root.mostRecentGenerationNumber,
        f.root.mostRecentGenerationNumber - f.root.numUnmigratedGenerations;
      && gen == RecoveredGen(s.g, f) && 1 <= s.g.retired <= lo < gen <= Hi(s.g) && RootNames(f, gen, lo, s.hdrOf)
      && (gen == Hi(s.g) || gen == s.g.working - 1)
      && OtherRoot(Chosen(img)) in img && OlderRoot(img[OtherRoot(Chosen(img))], gen)
  {
    hide LogOk, DirOk, SavingOk, SyncOk, RingOk, NowWritten, RootsOk, CrashImage, SavedOk, SnapshotOk, DiskOk,
      OlderRoot, FitsOk, CursorAt;
    RootSurvives(s, img, log);
  }

  /** What the invariant says of the generations a restart reads. */
  lemma RecoveredFacts(s: State, img: map<nat, Frame>, log: Log)
    requires Inv(s, log) && CanCrash(s, img)
    ensures var f := img[Chosen(img)];
      var gen, lo := f.root.mostRecentGenerationNumber,
        f.root.mostRecentGenerationNumber - f.root.numUnmigratedGenerations;
      && gen == RecoveredGen(s.g, f) && 1 <= s.g.retired <= lo < gen <= Hi(s.g) && RootNames(f, gen, lo, s.hdrOf)
      && Intact(s.saved, lo, gen, img) && SavedOk(s.saved, lo, gen, s.hdrOf, s.disk, log)
      && (forall h :: lo < h <= gen ==>
          (h in s.saved && GenOk(s.saved[h], h, log) && ObjectsWritten(s.saved[h].entries, s.saved[h].frames)
           && h in s.hdrOf && s.saved[h].hdr == s.hdrOf[h]))
      && MadeOf(s.saved[gen].dirAt, s.saved, lo, gen) && NoNewer(s.saved[gen].dirAt, gen)
  {
    hide LogOk, GenDurable, DirOk, SavingOk, SyncOk, RingOk, NowWritten, RootsOk, CrashImage, Intact, Covered,
      DirWritten, NoNewer, OlderRoot, DiskOk, RootNames, Counters, MadeOf, CursorAt;
    RecoveredRange(s, img, log);
    CrashSafe(s, img, log);
    var f := img[Chosen(img)];
    var gen, lo := f.root.mostRecentGenerationNumber,
      f.root.mostRecentGenerationNumber - f.root.numUnmigratedGenerations;
    MadeOfShrunk(s.saved[gen].dirAt, s.saved, s.g.retired, gen, lo);
  }

  /**
   The restart round trip. After a crash at any point of a run, the directory entries read back,
   oldest generation first, rebuild the log directory of the moment the recovered generation was
   committed, as far as its unmigrated generations go; and every object it lists is on the disk as written.
   */
  lemma RestartRoundTrip(s: State, img: map<nat, Frame>, log: Log)
    requires Inv(s, log) && CanCrash(s, img)
    ensures var root := img[Chosen(img)].root;
      var gen, lo := root.mostRecentGenerationNumber, root.mostRecentGenerationNumber - root.numUnmigratedGenerations;
      && gen == RecoveredGen(s.g, img[Chosen(img)]) && gen in s.saved
      && ReadGenerations(img, root, 0, log) == NewerThan(s.saved[gen].dirAt, lo) == Fold(s.saved, lo, gen)
      && Fetchable(ReadGenerations(img, root, 0, log), s.saved, img)
  {
    hide LogOk, GenOk, GenIntact, Counters, DirOk, SavingOk, SyncOk, RingOk, NowWritten, RootsOk, CrashImage, SavedOk,
      SnapshotOk, Intact, MadeOf, NoNewer, ObjectsWritten, FitsOk, CursorAt;
    var root := img[Chosen(img)].root;
    var gen, lo := root.mostRecentGenerationNumber, root.mostRecentGenerationNumber - root.numUnmigratedGenerations;
    RecoveredFacts(s, img, log);
    assert img[Chosen(img)] == RootPage(root);
    ReadIsFold(s.saved, s.hdrOf, lo, gen, img, root, 0, log);
    MadeOfIsFold(s.saved[gen].dirAt, s.saved, lo, gen);
    FoldFetchable(s.saved, lo, gen, img);
  }

  /** FinishRestart copies the root's array to the start of the ring. */
  lemma RestartedGlobals(root: CkptRoot, gen: nat, lo: nat, hdrOf: map<nat, nat>, lid: nat, log: Log,
                         hdrOf': map<nat, nat>)
    requires RootNames(RootPage(root), gen, lo, hdrOf) && 1 <= lo < gen && IsRootLid(lid)
    requires forall h :: h in hdrOf && h <= gen ==> h in hdrOf' && hdrOf'[h] == hdrOf[h]
    ensures Counters(Restarted(root, lid, log), log) && RingOk(Restarted(root, lid, log), hdrOf')
  {
    forall h | lo <= h <= gen
      ensures h in hdrOf' && root.generations[Slot(0, gen - h)] == hdrOf'[h]
    {
      assert Slot(0, gen - h) == gen - h && h in hdrOf;
    }
  }

  lemma GlobalsAfterCrash(s: State, img: map<nat, Frame>, log: Log)
    requires Inv(s, log) && CanCrash(s, img)
    ensures var s' := AfterCrash(s, img, log); Counters(s'.g, log) && RingOk(s'.g, s'.hdrOf)
  {
    hide LogOk, DirOk, SavingOk, SyncOk, NowWritten, RootsOk, CrashImage, SavedOk, SnapshotOk, DiskOk, OlderRoot,
      RootNames, ReadGenerations, FromImage, Counters, RingOk, Restarted, FitsOk, CursorAt;
    RecoveredRange(s, img, log);
    var root := img[Chosen(img)].root;
    assert img[Chosen(img)] == RootPage(root);
    var gen := root.mostRecentGenerationNumber;
    RestartedGlobals(root, gen, gen - root.numUnmigratedGenerations, s.hdrOf, Chosen(img), log,
                     AfterCrash(s, img, log).hdrOf);
  }

  lemma FramesAfterCrash(s: State, img: map<nat, Frame>, log: Log)
    requires Inv(s, log) && CanCrash(s, img)
    ensures var s' := AfterCrash(s, img, log); SavedOk(s'.saved, s'.g.retired, s'.g.working - 1, s'.hdrOf, s'.disk, log)
  {
    hide LogOk, DirOk, SavingOk, SyncOk, RingOk, NowWritten, RootsOk, CrashImage, SnapshotOk, DiskOk, OlderRoot, GenOk,
      Counters, ReadGenerations, FitsOk, CursorAt, RootNames, MadeOf, NoNewer;
    RecoveredFacts(s, img, log);
    var s' := AfterCrash(s, img, log);
    forall h | s'.g.retired < h < s'.g.working
      ensures GenDurable(s'.saved[h], s'.disk)
    {
      assert GenIntact(s.saved[h], img) && GenDurable(s.saved[h], s.disk);
    }
  }

  lemma RootAfterCrash(s: State, img: map<nat, Frame>, log: Log)
    requires Inv(s, log) && CanCrash(s, img)
    ensures var s' := AfterCrash(s, img, log);
      RootStands(s'.g.currentRootLID, s'.g.working, s'.g.retired, s'.disk, s'.hdrOf)
  {
    hide LogOk, DirOk, SavingOk, SyncOk, RingOk, NowWritten, RootsOk, CrashImage, SnapshotOk, DiskOk, OlderRoot, GenOk,
      Counters, ReadGenerations, FitsOk, CursorAt, SavedOk;
    RecoveredRange(s, img, log);
  }

  lemma DirAfterCrash(s: State, img: map<nat, Frame>, log: Log)
    requires Inv(s, log) && CanCrash(s, img)
    ensures var s' := AfterCrash(s, img, log);
      && MadeOf(s'.dir, s'.saved, s'.g.retired, s'.g.working - 1) && NoNewer(s'.dir, s'.g.working)
      && Members(s'.dir, s'.g.working) == map[]
      && SnapshotOk(s'.saved, s'.g.retired, s'.g.working - 1)
  {
    hide LogOk, DirOk, SavingOk, SyncOk, RingOk, NowWritten, RootsOk, CrashImage, DiskOk, OlderRoot, GenOk, Counters,
      SavedOk, RootNames, Intact, ObjectsWritten, FromImage, Fetchable, ReadGenerations, SnapshotOk, MadeOf, FitsOk,
      CursorAt;
    RecoveredFacts(s, img, log);
    RestartRoundTrip(s, img, log);
    var s' := AfterCrash(s, img, log);
    var lo, gen := s'.g.retired, s'.g.working - 1;
    FoldMadeOf(s.saved, lo, gen);
    MadeOfTrimmed(s'.dir, s.saved, lo, gen, s'.saved);
    MadeOfTrimmed(s.saved[gen].dirAt, s.saved, lo, gen, s'.saved);
    SnapshotIs(s'.saved, lo, gen);
    NoMembers(s'.dir, gen);
  }

  lemma SnapshotIs(saved: map<nat, Gen>, lo: nat, hi: nat)
    requires hi in saved && MadeOf(saved[hi].dirAt, saved, lo, hi) && NoNewer(saved[hi].dirAt, hi)
    ensures SnapshotOk(saved, lo, hi)
  {
  }

  lemma MadeOfTrimmed(d: ODir, saved: map<nat, Gen>, lo: nat, hi: nat, saved': map<nat, Gen>)
    requires MadeOf(d, saved, lo, hi)
    requires forall h :: h <= hi ==> (h in saved <==> h in saved') && (h in saved ==> saved'[h] == saved[h])
    ensures MadeOf(d, saved', lo, hi)
  {
  }

  lemma StepCrash(s: State, img: map<nat, Frame>, log: Log)
    requires Inv(s, log) && CanCrash(s, img)
    ensures Inv(AfterCrash(s, img, log), log)
  {
    hide LogOk, SavingOk, RingOk, RootStands, RootComing, SavedOk, SnapshotOk, MadeOf, NoNewer, Members, Counters,
      ReadGenerations, CanCrash, RangesOk, FitsOk, CursorAt;
    CursorAfterCrash(s, img, log);
    FitsAfterCrash(s, img, log);
    GlobalsAfterCrash(s, img, log);
    FramesAfterCrash(s, img, log);
    RootAfterCrash(s, img, log);
    DirAfterCrash(s, img, log);
    assert NowWritten(map[], AfterCrash(s, img, log).disk) && DiskOk(AfterCrash(s, img, log).disk);
  }

  // ---------- Runs ----------

  ghost predicate Step(s: State, e: Event, s': State, log: Log) {
    match e
    case WriteObject(data) => CanWrite(s) && s' == AfterWriteObject(s, data, log)
    case Record(o, od) => CanRecord(s, o, od, log) && s' == AfterRecord(s, o, od)
    case Declare => s.g.ckptState == NotActive && s' == s.(g := s.g.(ckptState := Phase1, nextRetired := 0))
    case Phase1Done => s.g.ckptState == Phase1 && s' == s.(g := s.g.(ckptState := Phase2))
    case Phase2Done(list, k) => CanPhase2Done(s, list, k) && s' == AfterPhase2Done(s, list, k)
    case WriteDir(n) => CanWriteDir(s, n) && s' == AfterWriteDir(s, n, log)
    case Phase3Done => CanPhase3Done(s) && |s.now.parts| > 0 && Counters(s.g, log) && s' == AfterPhase3Done(s, log)
    case IssueSync => CanIssueSync(s, log) && s' == AfterIssueSync(s, log)
    case EndSync(r) => CanEndSync(s, r) && DiskOk(s.disk) && s' == AfterEndSync(s, r, log)
    case Phase4Done(root) =>
      && |s.g.unmigratedGenHdrLid| == RING && CanPhase4Done(s, root, log)
      && OtherRoot(s.g.currentRootLID) in s.disk && s' == AfterPhase4Done(s, root)
    case Phase5Done => CanPhase5Done(s, log) && s' == AfterPhase5Done(s)
    case Migrate(m) => s.g.migrated <= m < s.g.working && s' == s.(g := s.g.(migrated := m))
    case ClearUpTo(h) => h <= s.g.retired && s' == s.(dir := NewerThan(s.dir, h))
    case Crash(img) => CanCrash(s, img) && s' == AfterCrash(s, img, log)
  }

  /** Every step keeps the invariant. */
  lemma StepInv(s: State, e: Event, s': State, log: Log)
    requires Inv(s, log) && Step(s, e, s', log)
    ensures Inv(s', log)
  {
    hide Inv, CanWrite, CanRecord, CanPhase2Done, CanWriteDir, CanPhase3Done, CanIssueSync, CanEndSync, CanPhase4Done,
      CanPhase5Done, CanCrash, AfterWriteObject, AfterRecord, AfterPhase2Done, AfterWriteDir, AfterPhase3Done,
      AfterIssueSync, AfterEndSync, AfterPhase4Done, AfterPhase5Done, AfterCrash, Counters, DiskOk, NewerThan;
    match e
    case WriteObject(data) => StepWriteObject(s, data, log);
    case Record(o, od) => StepRecord(s, o, od, log);
    case Declare => StepDeclare(s, log);
    case Phase1Done => StepDeclare(s, log);
    case Phase2Done(list, k) => StepPhase2Done(s, list, k, log);
    case WriteDir(n) => StepWriteDir(s, n, log);
    case Phase3Done => StepPhase3Done(s, log);
    case IssueSync => StepIssueSync(s, log);
    case EndSync(r) => StepEndSync(s, r, log);
    case Phase4Done(root) => StepPhase4Done(s, root, log);
    case Phase5Done => StepPhase5Done(s, log);
    case Migrate(m) => StepMigrate(s, m, log);
    case ClearUpTo(h) => StepClear(s, h, log);
    case Crash(img) => StepCrash(s, img, log);
  }

  ghost predicate Run(states: seq<State>, events: seq<Event>, log: Log) {
    && |states| == |events| + 1 && Init(states[0], log)
    && forall i :: 0 <= i < |events| ==> Step(states[i], events[i], states[i + 1], log)
  }

  lemma {:induction false} RunInv(states: seq<State>, events: seq<Event>, log: Log, i: nat)
    requires Run(states, events, log) && i < |states|
    ensures Inv(states[i], log)
  {
    hide Inv, Init, Step;
    if i == 0 {
      InitInv(states[0], log);
    } else {
      RunInv(states, events, log, i - 1);
      StepInv(states[i - 1], events[i - 1], states[i], log);
    }
  }

  /**
   A crash at any point of any run, however many crashes and restarts it already had, leaves a valid
   root; and if any checkpoint was ever stabilized the restart rebuilds the directory of that
   checkpoint, or of the one being stabilized, with every object it lists on the disk as written.
   */
  lemma AnyCrashRecovers(states: seq<State>, events: seq<Event>, log: Log, img: map<nat, Frame>)
    requires Run(states, events, log) && CrashImage(states[|events|].disk, img)
    ensures CKPT_ROOT_0 in img && CKPT_ROOT_1 in img && ValidateCkptRoot(img[Chosen(img)])
    ensures var s, root := states[|events|], img[Chosen(img)].root;
      var gen, lo := root.mostRecentGenerationNumber, root.mostRecentGenerationNumber - root.numUnmigratedGenerations;
      s.g.working > 2 ==>
        && CanRestart(img[Chosen(img)]) && gen in s.saved
        && (gen == s.g.working - 1 || (s.g.ckptState == Phase5 && gen == s.g.working))
        && ReadGenerations(img, root, 0, log) == NewerThan(s.saved[gen].dirAt, lo)
        && Fetchable(ReadGenerations(img, root, 0, log), s.saved, img)
  {
    hide Step, Init, LogOk, SavingOk, RingOk, RootsOk, SavedOk, SnapshotOk, DiskOk, MadeOf, NoNewer, Members,
      ReadGenerations, DirOk, NowWritten, CrashImage, Fetchable, Fold, FitsOk, CursorAt;
    var s := states[|events|];
    RunInv(states, events, log, |events|);
    RootSurvives(s, img, log);
    if s.g.working > 2 {
      assert CanCrash(s, img);
      RestartRoundTrip(s, img, log);
    }
  }
}
