/**
 The checkpoint log on disk: log IDs, what a frame can hold, and which frames survive a crash.
 A write is pending until a synchronizeCache request that was issued after it completes.
 */
module LogDisk {
  import opened LogDirectory

  const FRAME: nat := 256  // EROS_OBJECTS_PER_FRAME
  const CKPT_ROOT_0: nat := 0
  const CKPT_ROOT_1: nat := FRAME
  const MAIN_LOG_START: nat := 2 * FRAME
  const UNUSED_LID: nat := 0
  const MAX_UNMIGRATED: nat := 20  // MaxUnmigratedGenerations

  /** DiskObjectDescriptor. */
  datatype DirEnt = DirEnt(oid: int, od: Descriptor)

  /** DiskGenerationHdr, with the directory entries stored after it. */
  datatype GenHdr = GenHdr(versionNumber: nat, generationNumber: nat, ents: seq<DirEnt>, firstDirFrame: nat,
                           nDirFrames: nat)

  datatype CkptRoot = CkptRoot(
    versionNumber: nat, mostRecentGenerationNumber: nat, numUnmigratedGenerations: nat,
    generations: seq<nat>, checkGenNum: nat, integrityByte: nat)

  datatype Frame =
    | ObjectPage(data: nat)
    | ObDirPage(ents: seq<DirEnt>)
    | HeaderPage(hdr: GenHdr)
    | RootPage(root: CkptRoot)

  /** ValidateCkptRoot. */
  predicate ValidateCkptRoot(f: Frame) {
    && f.RootPage? && f.root.versionNumber == 1
    && f.root.mostRecentGenerationNumber == f.root.checkGenNum
    && f.root.integrityByte == 0xf7
  }

  predicate IsRootLid(lid: nat) {
    lid == CKPT_ROOT_0 || lid == CKPT_ROOT_1
  }

  /**
   The mounted log: frames from MAIN_LOG_START up to logWrapPoint. lidRanges has nLidRanges
   ranges; range(lid) is the index of the one that holds lid. The log directory in memory has room for
   numLogDirEntries entries.
   */
  datatype Log = Log(logWrapPoint: nat, nLidRanges: nat, range: nat -> nat, numLogDirEntries: nat)

  ghost predicate LogOk(log: Log) {
    && log.logWrapPoint > MAIN_LOG_START
    && forall lid :: log.range(lid) < log.nLidRanges
  }

  /** IncrementLID. */
  function IncrementLID(lid: nat, log: Log): nat {
    if lid + FRAME >= log.logWrapPoint then MAIN_LOG_START else lid + FRAME
  }

  /** The frame i after `first` along the circular log. */
  function NthLid(first: nat, i: nat, log: Log): nat {
    if i == 0 then first else IncrementLID(NthLid(first, i - 1, log), log)
  }

  /** The number of frames of the main log. */
  function LogFrames(log: Log): (n: nat)
    requires log.logWrapPoint > MAIN_LOG_START
    ensures n > 0 && MAIN_LOG_START + (n - 1) * FRAME < log.logWrapPoint <= MAIN_LOG_START + n * FRAME
  {
    (log.logWrapPoint - MAIN_LOG_START + FRAME - 1) / FRAME
  }

  function Wrapped(i: nat, n: nat): (r: nat)
    requires n > 0
    ensures r < n
  {
    if i < n then i else Wrapped(i - n, n)
  }

  lemma {:induction false} WrappedNext(i: nat, n: nat)
    requires n > 0
    ensures Wrapped(i + 1, n) == if Wrapped(i, n) + 1 == n then 0 else Wrapped(i, n) + 1
  {
    if i >= n {
      WrappedNext(i - n, n);
    }
  }

  /** The cursor goes round the frames of the log, in order. */
  lemma {:induction false} CursorPlace(i: nat, k: nat, log: Log)
    requires log.logWrapPoint > MAIN_LOG_START && i < LogFrames(log)
    ensures NthLid(MAIN_LOG_START + i * FRAME, k, log) == MAIN_LOG_START + Wrapped(i + k, LogFrames(log)) * FRAME
  {
    var n := LogFrames(log);
    if k == 0 {
      WrappedSmall(i, n);
    } else {
      CursorPlace(i, k - 1, log);
      WrappedNext(i + k - 1, n);
    }
  }

  lemma WrappedSmall(i: nat, n: nat)
    requires i < n
    ensures Wrapped(i, n) == i
  {
  }

  /** No frame of the log is given out twice in one lap of the cursor, and the next one is the first again. */
  lemma {:induction false} LapDistinct(i: nat, j: nat, k: nat, log: Log)
    requires log.logWrapPoint > MAIN_LOG_START && i < LogFrames(log) && j < k <= j + LogFrames(log)
    ensures var first := MAIN_LOG_START + i * FRAME;
      NthLid(first, j, log) == NthLid(first, k, log) <==> k == j + LogFrames(log)
  {
    hide NthLid, LogFrames, Wrapped;
    CursorPlace(i, j, log);
    CursorPlace(i, k, log);
    WrappedLap(i + j, k - j, LogFrames(log));
  }

  lemma {:induction false} WrappedLap(i: nat, d: nat, n: nat)
    requires 0 < d <= n
    ensures Wrapped(i + d, n) == (if Wrapped(i, n) + d >= n then Wrapped(i, n) + d - n else Wrapped(i, n) + d)
    decreases d
  {
    hide Wrapped;
    WrappedNext(i + d - 1, n);
    if d > 1 {
      WrappedLap(i, d - 1, n);
    }
  }

  /**
   One frame of the disk: its content on the medium, the writes made since, and how many of
   those the synchronizeCache request under way covers.
   */
  datatype Cell = Cell(stable: Frame, pending: seq<Frame>, covered: nat)

  type Disk = map<nat, Cell>

  ghost predicate DiskOk(disk: Disk) {
    forall lid :: lid in disk ==> disk[lid].covered <= |disk[lid].pending|
  }

  /** writeRangeLoc. */
  function Written(disk: Disk, lid: nat, f: Frame): Disk
    requires lid in disk
  {
    disk[lid := disk[lid].(pending := disk[lid].pending + [f])]
  }

  /** synchronizeCache of a range is issued: it covers the writes made so far. */
  function SyncIssued(disk: Disk, r: nat, log: Log): (d: Disk)
    ensures d.Keys == disk.Keys
  {
    map lid | lid in disk :: if log.range(lid) == r then disk[lid].(covered := |disk[lid].pending|) else disk[lid]
  }

  function Settled(c: Cell): Cell
    requires c.covered <= |c.pending|
  {
    if c.covered == 0 then c else Cell(c.pending[c.covered - 1], c.pending[c.covered..], 0)
  }

  /** synchronizeCache completes: the writes it covers are on the medium. */
  function SyncDone(disk: Disk, r: nat, log: Log): (d: Disk)
    requires DiskOk(disk)
    ensures d.Keys == disk.Keys && DiskOk(d)
  {
    map lid | lid in disk :: if log.range(lid) == r then Settled(disk[lid]) else disk[lid]
  }

  /** The last content written to a frame. */
  function Latest(c: Cell): Frame {
    if c.pending == [] then c.stable else c.pending[|c.pending| - 1]
  }

  predicate Durable(disk: Disk, lid: nat, f: Frame) {
    lid in disk && disk[lid].pending == [] && disk[lid].stable == f
  }

  /**
   What a crash can leave in a frame: what is on the medium, any write still pending, or, when
   there is one, a torn mixture. A torn root is not a valid root.
   */
  ghost predicate Survivor(c: Cell, lid: nat, f: Frame) {
    || f == c.stable
    || f in c.pending
    || (c.pending != [] && (IsRootLid(lid) ==> !ValidateCkptRoot(f)))
  }

  /** An image of the disk after a crash. */
  ghost predicate CrashImage(disk: Disk, img: map<nat, Frame>) {
    img.Keys == disk.Keys && forall lid :: lid in disk ==> Survivor(disk[lid], lid, img[lid])
  }

  /** The disk a restart finds. */
  function FromImage(img: map<nat, Frame>): (d: Disk)
    ensures d.Keys == img.Keys && DiskOk(d)
    ensures forall lid :: lid in img ==> Durable(d, lid, img[lid])
  {
    map lid | lid in img :: Cell(img[lid], [], 0)
  }
}
