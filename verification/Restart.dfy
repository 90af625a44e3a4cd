/**
 Reading the object directory back, src/sys/kernel/kern_Restart.c: generation headers oldest first,
 and the directory frames of each generation in whatever order their reads complete.
 */
module Restart {
  import opened RbShape
  import opened LogDirectory
  import opened LogDisk
  import opened Checkpoint
  import opened CkptRun

  /** Between d and d with m laid over it at generation h. */
  ghost predicate Partly(d: ODir, m: map<int, Descriptor>, h: nat, r: ODir) {
    && (forall o :: o in d ==> o in r)
    && (forall o :: o in r ==> (o in d && r[o] == d[o]) || (o in m && r[o] == Entry(m[o], h)))
  }

  /** The entries of a list have been laid over. */
  ghost predicate Laid(ents: seq<DirEnt>, m: map<int, Descriptor>, h: nat, r: ODir) {
    forall j :: 0 <= j < |ents| ==> ents[j].oid in m && ents[j].oid in r && r[ents[j].oid] == Entry(m[ents[j].oid], h)
  }

  /** The directory has room for m over d. */
  ghost predicate HasRoom(d: ODir, m: map<int, Descriptor>, h: nat, size: nat) {
    h > 0 && Holds(Overlay(d, m, h), size) && InWindow(d, h)
  }

  lemma RoomForEntry(d: ODir, m: map<int, Descriptor>, h: nat, r: ODir, o: int, size: nat)
    requires HasRoom(d, m, h, size) && Partly(d, m, h, r) && o in m
    ensures h > 0 && Room(r, o, h, size) && MIN < o < MAX
  {
    assert o in Overlay(d, m, h);
    if o !in r {
      OneMore(d, m, h, r, o);
    }
  }

  lemma OneMore(d: ODir, m: map<int, Descriptor>, h: nat, r: ODir, o: int)
    requires Partly(d, m, h, r) && o in m && o !in r
    ensures |r| < |Overlay(d, m, h)|
  {
    hide Overlay;
    OverlayKeys(d, m, h);
    var all := Overlay(d, m, h);
    forall x | x in r.Keys
      ensures x in d.Keys + m.Keys && x != o
    {
    }
    SubsetSize(r.Keys + {o}, d.Keys + m.Keys);
    assert |r.Keys + {o}| == |r.Keys| + 1;
    assert |all.Keys| == |all| && |r.Keys| == |r|;
  }

  lemma OverlayKeys(d: ODir, m: map<int, Descriptor>, h: nat)
    ensures Overlay(d, m, h).Keys == d.Keys + m.Keys
  {
  }

  lemma SubsetSize(a: set<int>, b: set<int>)
    requires a <= b
    ensures |a| <= |b|
  {
    assert b == a + (b - a);
  }

  /** AddObjDescriptor for each entry of a frame. */
  method AddFrame(dir: Directory, ents: seq<DirEnt>, h: nat, ghost d: ODir,
                  ghost m: map<int, Descriptor>) returns (halted: bool)
    requires dir.Valid() && RedBlack(dir.shape) && dir.highest <= h && HasRoom(d, m, h, dir.size)
    requires Within(ents, m) && Partly(d, m, h, dir.Contents())
    modifies dir, dir.tree, dir.chains
    ensures !halted && dir.Valid() && RedBlack(dir.shape) && dir.highest <= h
    ensures Partly(d, m, h, dir.Contents()) && Laid(ents, m, h, dir.Contents())
    ensures forall ents' :: old(Laid(ents', m, h, dir.Contents())) ==> Laid(ents', m, h, dir.Contents())
  {
    hide Directory.Valid, Directory.Contents, Directory.RecordHalts, HasRoom, RedBlack, Room, Partly, Laid, Within;
    halted := false;
    LaidNone(m, h, dir.Contents());
    for i := 0 to |ents|
      invariant !halted && dir.Valid() && RedBlack(dir.shape) && dir.highest <= h
      invariant Partly(d, m, h, dir.Contents()) && Laid(ents[..i], m, h, dir.Contents())
      invariant forall ents' :: old(Laid(ents', m, h, dir.Contents())) ==> Laid(ents', m, h, dir.Contents())
    {
      ghost var r := dir.Contents();
      WithinAt(ents, m, i);
      RoomForEntry(d, m, h, r, ents[i].oid, dir.size);
      dir.HaltsWithoutRoom(ents[i].oid, h);
      BlackRoot(dir.shape);
      RecordLaid(d, m, h, r, ents, i);
      halted := dir.RecordLocation(ents[i].oid, ents[i].od, h);
    }
    assert ents[..|ents|] == ents;
  }

  lemma WithinAt(ents: seq<DirEnt>, m: map<int, Descriptor>, i: nat)
    requires Within(ents, m) && i < |ents|
    ensures ents[i].oid in m && m[ents[i].oid] == ents[i].od
  {
  }

  lemma LaidNone(m: map<int, Descriptor>, h: nat, r: ODir)
    ensures Laid([], m, h, r)
  {
  }

  /** One more entry is laid over. */
  lemma RecordLaid(d: ODir, m: map<int, Descriptor>, h: nat, r: ODir, ents: seq<DirEnt>, i: nat)
    requires Partly(d, m, h, r) && i < |ents| && ents[i].oid in m && m[ents[i].oid] == ents[i].od
    requires Laid(ents[..i], m, h, r)
    ensures var r' := r[ents[i].oid := Entry(ents[i].od, h)];
      && Partly(d, m, h, r') && Laid(ents[..i + 1], m, h, r')
      && forall ents' :: Laid(ents', m, h, r) ==> Laid(ents', m, h, r')
  {
    assert ents[..i + 1] == ents[..i] + [ents[i]];
  }

  /** The LIDs of the n directory frames of a generation. */
  method FrameLids(first: nat, n: nat, log: Log) returns (lids: seq<nat>)
    ensures |lids| == n && forall i :: 0 <= i < n ==> lids[i] == NthLid(first, i, log)
  {
    lids := [];
    var curDirLID := first;
    while |lids| < n
      invariant |lids| <= n && curDirLID == NthLid(first, |lids|, log)
      invariant forall i :: 0 <= i < |lids| ==> lids[i] == NthLid(first, i, log)
    {
      lids := lids + [curDirLID];
      curDirLID := IncrementLID(curDirLID, log);
    }
  }

  function UpTo(n: nat): (r: set<nat>)
    ensures forall i :: i in r <==> 1 <= i <= n
  {
    if n == 0 then {} else UpTo(n - 1) + {n}
  }

  lemma AllLaid(d: ODir, gen: Gen, h: nat, r: ODir)
    requires Covered(gen.parts, [], gen.entries) && Partly(d, gen.entries, h, r)
    requires forall i :: 0 <= i < |gen.parts| ==> Laid(gen.parts[i], gen.entries, h, r)
    ensures r == Overlay(d, gen.entries, h)
  {
    forall o | o in gen.entries
      ensures o in r && r[o] == Entry(gen.entries[o], h)
    {
      assert !Names([], o);
      var i :| 0 <= i < |gen.parts| && Names(gen.parts[i], o);
      var j :| 0 <= j < |gen.parts[i]| && gen.parts[i][j].oid == o;
      assert Laid(gen.parts[i], gen.entries, h, r);
    }
    forall o
      ensures o in r <==> o in Overlay(d, gen.entries, h)
      ensures o in r ==> r[o] == Overlay(d, gen.entries, h)[o]
    {
    }
  }

  /** The header and directory frames of one generation; reads complete in any order. */
  method ReadGeneration(dir: Directory, img: map<nat, Frame>, hdr: GenHdr, h: nat, log: Log, ghost gen: Gen)
    returns (halted: bool)
    requires GenOk(gen, h, log) && GenIntact(gen, img)
    requires hdr == GenHdr(1, h, gen.parts[0], gen.firstDir, |gen.parts| - 1)
    requires dir.Valid() && RedBlack(dir.shape) && dir.highest <= h && HasRoom(dir.Contents(), gen.entries, h, dir.size)
    modifies dir, dir.tree, dir.chains
    ensures !halted && dir.Valid() && RedBlack(dir.shape) && dir.highest <= h
    ensures dir.Contents() == Overlay(old(dir.Contents()), gen.entries, h)
  {
    hide Directory.Valid, Directory.Contents, RedBlack, HasRoom, Laid, Partly, Overlay, Within, GenIntact, DirFrameAt;
    ghost var d, m := dir.Contents(), gen.entries;
    PartlyStart(d, m, h);
    halted := AddFrame(dir, hdr.ents, h, d, m);
    var lids := FrameLids(hdr.firstDirFrame, hdr.nDirFrames, log);
    var reading := UpTo(hdr.nDirFrames);
    while reading != {}
      invariant forall i :: i in reading ==> 1 <= i < |gen.parts|
      invariant dir.Valid() && RedBlack(dir.shape) && dir.highest <= h && !halted
      invariant Partly(d, m, h, dir.Contents())
      invariant forall i :: 0 <= i < |gen.parts| && i !in reading ==> Laid(gen.parts[i], m, h, dir.Contents())
      decreases |reading|
    {
      var i :| i in reading;
      FrameThere(gen, i, img, log);
      halted := AddFrame(dir, img[lids[i - 1]].ents, h, d, m);
      reading := reading - {i};
    }
    AllLaid(d, gen, h, dir.Contents());
  }

  lemma PartlyStart(d: ODir, m: map<int, Descriptor>, h: nat)
    ensures Partly(d, m, h, d)
  {
  }

  lemma FrameThere(gen: Gen, i: nat, img: map<nat, Frame>, log: Log)
    requires DirWritten(gen, log) && GenIntact(gen, img) && 1 <= i < |gen.parts|
    ensures NthLid(gen.firstDir, i - 1, log) in img && img[NthLid(gen.firstDir, i - 1, log)] == ObDirPage(gen.parts[i])
  {
    assert DirFrameAt(gen, i, log);
  }

  /**
   ReadGenHdr until the restart generation is reached, from a root whose generations are on the disk and
   fit in the log directory: nothing halts, and the result is the same whatever the order of I/O completion.
   */
  method ReadDirectory(dir: Directory, img: map<nat, Frame>, root: CkptRoot, log: Log,
                       ghost saved: map<nat, Gen>, ghost hdrOf: map<nat, nat>, ghost lo: nat) returns (halted: bool)
    requires root.mostRecentGenerationNumber > 1
    requires RootNames(RootPage(root), root.mostRecentGenerationNumber, lo, hdrOf)
    requires Intact(saved, lo, root.mostRecentGenerationNumber, img)
    requires forall h :: lo < h <= root.mostRecentGenerationNumber ==>
      GenOk(saved[h], h, log) && h in hdrOf && saved[h].hdr == hdrOf[h]
    requires Fits(saved, lo, root.mostRecentGenerationNumber, dir.size)
    requires dir.Valid() && RedBlack(dir.shape) && dir.Contents() == map[] && dir.highest <= lo
    modifies dir, dir.tree, dir.chains
    ensures !halted && dir.Valid() && RedBlack(dir.shape)
    ensures dir.Contents() == Fold(saved, lo, root.mostRecentGenerationNumber) == ReadGenerations(img, root, 0, log)
  {
    hide Directory.Valid, Directory.Contents, GenOk, GenIntact, Covered, DirWritten, ObjectsWritten, Overlay, AddFrames,
      AddEnts, ValidateCkptRoot, ReadGenerations, RedBlack, HasRoom, Fits;
    halted := false;
    var working := root.mostRecentGenerationNumber;
    var genIndex := root.numUnmigratedGenerations;
    while genIndex > 0
      invariant 0 <= genIndex <= working - lo && !halted
      invariant dir.Valid() && RedBlack(dir.shape) && dir.highest <= working - genIndex
      invariant dir.Contents() == Fold(saved, lo, working - genIndex)
    {
      genIndex := genIndex - 1;
      var lid, h := root.generations[genIndex], working - genIndex;
      assert root.generations[working - h] == hdrOf[h];
      HeaderThere(saved[h], h, img, log);
      if !IsHeader(img, lid, h) {
        return true;
      }
      RoomAt(saved, lo, h, working, dir.size);
      halted := ReadGeneration(dir, img, img[lid].hdr, h, log, saved[h]);
    }
    ReadIsFold(saved, hdrOf, lo, working, img, root, 0, log);
  }

  lemma RoomAt(saved: map<nat, Gen>, lo: nat, h: nat, hi: nat, size: nat)
    requires Fits(saved, lo, hi, size) && lo < h <= hi && h in saved
    ensures HasRoom(Fold(saved, lo, h - 1), saved[h].entries, h, size)
    ensures Overlay(Fold(saved, lo, h - 1), saved[h].entries, h) == Fold(saved, lo, h)
  {
    hide Overlay, Holds, InWindow;
    assert Fold(saved, lo, h) == Overlay(Fold(saved, lo, h - 1), saved[h].entries, h);
    assert Holds(Fold(saved, lo, h), size) && InWindow(Fold(saved, lo, h - 1), h);
  }

  /**
   After a crash at any point of a run the restart reads the directory back into a new log directory as
   large, and does not halt: the entries are those of the moment the recovered generation was
   committed, as far as its unmigrated generations go.
   */
  method Recover(img: map<nat, Frame>, log: Log, ghost s: State) returns (halted: bool, dir: Directory)
    requires Inv(s, log) && CanCrash(s, img)
    ensures !halted && fresh(dir) && dir.Valid() && RedBlack(dir.shape)
    ensures var root := img[Chosen(img)].root;
      var gen, lo := root.mostRecentGenerationNumber, root.mostRecentGenerationNumber - root.numUnmigratedGenerations;
      && gen == RecoveredGen(s.g, img[Chosen(img)]) && gen in s.saved
      && dir.Contents() == NewerThan(s.saved[gen].dirAt, lo)
  {
    hide Directory.Valid, Directory.Contents, GenOk, GenIntact, Counters, RootNames, DirOk, SavingOk, SyncOk, RingOk,
      NowWritten, RootsOk, CrashImage, SavedOk, SnapshotOk, Intact, MadeOf, NoNewer, ObjectsWritten, FitsOk, Fits,
      RedBlack, Fold, Fetchable, ReadGenerations, LogOk, DiskOk, OlderRoot;
    var root := img[Chosen(img)].root;
    ghost var gen, lo := root.mostRecentGenerationNumber,
      root.mostRecentGenerationNumber - root.numUnmigratedGenerations;
    RecoveredFacts(s, img, log);
    RecoveredFits(s, img, log);
    RestartRoundTrip(s, img, log);
    assert img[Chosen(img)] == RootPage(root);
    dir := new Directory(log.numLogDirEntries);
    halted := ReadDirectory(dir, img, root, log, s.saved, s.hdrOf, lo);
  }
}
