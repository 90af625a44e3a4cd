/**
 One persistent data page in the object cache during checkpoints: src/sys/kernel/kern_ObjectCache.c
 and CheckpointPage of kern_Ckpt.c. At demarcation a page that is dirty or being cleaned becomes
 Kernel Read Only; before it changes again, its content is copied, or goes on to the log as it is.
 */
module PageSnapshot {

  type Content = seq<nat>  // the 64-bit words of a page

  ghost predicate IsZero(c: Content) {
    forall i :: 0 <= i < |c| ==> c[i] == 0
  }

  /**
   The ioreq of a page being cleaned: where to, the content when the request was made, and whether
   the page has changed since, so that anything may reach the log.
   */
  datatype Io = NoIo | Cleaning(lid: nat, start: Content, changed: bool)

  datatype PageFrame = PageFrame(content: Content, kro: bool, dirty: bool, io: Io)

  datatype Option<T> = None | Some(value: T)

  /** The log directory entry of the page for the working generation. */
  datatype DirEntry = NoEntry | ZeroEntry | LoggedAt(lid: nat)

  datatype Phase = NotActive | Declared | Demarcated

  /** A page is dirtied before it is changed, and a zero page is never written to the log. */
  ghost predicate FrameOk(f: PageFrame) {
    && (f.io.Cleaning? && !f.dirty ==> !f.io.changed && f.io.start == f.content && !IsZero(f.content))
    && (f.io == NoIo && f.kro ==> f.dirty)
  }

  /** What the log will hold for the entry, once the requests under way complete. */
  ghost predicate Saves(entry: DirEntry, log: map<nat, Content>, snap: Content) {
    match entry
    case NoEntry => false
    case ZeroEntry => IsZero(snap)
    case LoggedAt(lid) => lid in log && log[lid] == snap
  }

  /** The frame keeps the snapshot: it will be cleaned, or is being cleaned with its entry made. */
  ghost predicate Keeps(f: PageFrame, entry: DirEntry, snap: Content) {
    f.kro && f.content == snap && (!f.dirty ==> f.io.Cleaning? && entry == LoggedAt(f.io.lid))
  }

  /** The rows of the table of page states during a checkpoint. */
  datatype Row = Row(kro: bool, dirty: bool, working: bool, cleaning: bool)

  function RowOf(f: PageFrame, working: bool): Row {
    Row(f.kro, f.dirty, working, f.io.Cleaning?)
  }

  predicate IsRow(r: Row) {
    || r == Row(true, true, false, false)
    || r == Row(true, true, true, false)
    || r == Row(true, true, false, true)
    || r == Row(true, true, true, true)
    || r == Row(true, false, false, true)
    || r == Row(true, false, true, true)
    || r == Row(false, false, false, false)
    || r == Row(false, true, false, false)
  }

  /** Returns how many of the first words of the page are zero. */
  method PageTestZero(page: Content) returns (i: nat)
    ensures i <= |page| && (forall k :: 0 <= k < i ==> page[k] == 0) && (i < |page| ==> page[i] != 0)
    ensures i == |page| <==> IsZero(page)
  {
    i := 0;
    while i < |page|
      invariant i <= |page| && forall k :: 0 <= k < i ==> page[k] == 0
    {
      if page[i] != 0 {
        break;
      }
      i := i + 1;
    }
  }

  class PersistentPage {
    var cur: PageFrame            // the current version
    var wkg: Option<PageFrame>    // a working copy, if there is one
    var entry: DirEntry
    var log: map<nat, Content>    // frames of the log whose writes have completed
    var phase: Phase
    var numKRODirtyPages: int
    ghost var snap: Option<Content>  // the content at demarcation, if the page is to be saved then

    /** A page just fetched. */
    constructor (c: Content)
      ensures Valid() && phase == NotActive && cur == PageFrame(c, false, false, NoIo)
      ensures wkg == None && entry == NoEntry && log == map[] && snap == None
    {
      cur := PageFrame(c, false, false, NoIo);
      wkg := None;
      entry := NoEntry;
      log := map[];
      phase := NotActive;
      numKRODirtyPages := 0;
      snap := None;
    }

    ghost function Count(): int
      reads this
    {
      (if cur.kro && cur.dirty then 1 else 0) + (if wkg.Some? && wkg.value.kro && wkg.value.dirty then 1 else 0)
    }

    ghost predicate Valid()
      reads this
    {
      && FrameOk(cur) && (wkg.Some? ==> FrameOk(wkg.value)) && numKRODirtyPages == Count()
      && (phase != Demarcated ==> !cur.kro && wkg == None && snap == None)
      && (phase == Demarcated ==>
          && (!cur.kro ==> cur.io == NoIo)
          && (wkg.Some? ==> wkg.value.kro && !cur.kro && cur.dirty)
          && (cur.kro || wkg.Some? ==> snap.Some?)
          && (snap.Some? ==> Kept(snap.value)))
    }

    /** The snapshot is kept by the frame that is still read only, or saved. */
    ghost predicate Kept(s: Content)
      reads this
    {
      if cur.kro then Keeps(cur, entry, s)
      else if wkg.Some? then Keeps(wkg.value, entry, s)
      else Saves(entry, log, s)
    }

    /** A frame of the log not in use for this page. */
    ghost predicate Fresh(lid: nat)
      reads this
    {
      && lid !in log && entry != LoggedAt(lid)
      && (cur.io.Cleaning? ==> cur.io.lid != lid) && (wkg.Some? && wkg.value.io.Cleaning? ==> wkg.value.io.lid != lid)
    }

    /** During a checkpoint every page is in a row of the table. */
    lemma EveryStateIsARow()
      requires Valid() && phase == Demarcated
      ensures IsRow(RowOf(cur, false)) && (wkg.Some? ==> IsRow(RowOf(wkg.value, true)))
      ensures cur.kro && !cur.dirty ==> entry != NoEntry
      ensures wkg.Some? && !wkg.value.dirty ==> entry != NoEntry
    {
    }

    /**
     Once no page is read only and dirty, as at the end of phase 2, the page has its entry; and once
     no cleaning is under way, as at the end of phase 4, the entry has the content at demarcation.
     */
    lemma SnapshotTaken()
      requires Valid() && phase == Demarcated && numKRODirtyPages == 0 && snap.Some?
      ensures entry != NoEntry
      ensures cur.io == NoIo && (wkg.Some? ==> wkg.value.io == NoIo) ==>
        Saves(entry, log, snap.value) && !cur.kro && wkg == None
    {
    }

    /** DeclareDemarcationEvent: from now on only read-only pages are cleaned. */
    method DeclareDemarcationEvent()
      requires Valid() && phase == NotActive
      modifies this`phase
      ensures Valid() && phase == Declared
    {
      phase := Declared;
    }

    /** CheckpointPage, at the moment of demarcation. */
    method CheckpointPage()
      requires Valid() && phase == Declared
      modifies this
      ensures Valid() && phase == Demarcated && cur.content == old(cur.content) && log == old(log)
      ensures snap == if old(cur.dirty || cur.io.Cleaning?) then Some(cur.content) else None
      ensures cur == old(cur).(kro := snap.Some?) && wkg == None
      ensures entry == if old(!cur.dirty && cur.io.Cleaning?) then LoggedAt(cur.io.lid) else old(entry)
    {
      phase := Demarcated;
      if cur.dirty || cur.io.Cleaning? {
        cur := cur.(kro := true);
        snap := Some(cur.content);
        if cur.dirty {
          numKRODirtyPages := numKRODirtyPages + 1;
        } else {
          entry := LoggedAt(cur.io.lid);
        }
      }
    }

    /**
     pageH_MitigateKRO, to make the current version writeable. It moves to a new frame if the old one
     has I/O or is pinned; then the old frame becomes the working copy.
     */
    method MitigateKRO(pinned: bool) returns (moved: bool)
      requires Valid() && cur.kro
      modifies this
      ensures Valid() && snap == old(snap) && phase == old(phase) && log == old(log)
      ensures moved <==> old(cur.io.Cleaning? || (pinned && !IsZero(cur.content)))
      ensures moved ==>
        cur == PageFrame(old(cur.content), false, true, NoIo) && wkg == Some(old(cur)) && entry == old(entry)
      ensures !moved ==> if old(IsZero(cur.content)) then
                           cur == old(cur).(kro := false, dirty := false) && wkg == None && entry == ZeroEntry
                         else
                           cur == old(cur).(kro := false) && entry == old(entry)
                           && wkg == Some(PageFrame(old(cur.content), true, true, NoIo))
    {
      var page := cur.content;
      var i := PageTestZero(page);
      if i == |page| && cur.io == NoIo {
        cur := cur.(dirty := false);
        numKRODirtyPages := numKRODirtyPages - 1;
        entry := ZeroEntry;
        cur := cur.(kro := false);
        return false;
      }
      var copy := seq(i, _ => 0) + page[i..];
      assert copy == page;
      if cur.io.Cleaning? || pinned {
        wkg := Some(cur);
        cur := PageFrame(copy, false, true, NoIo);
        return true;
      } else {
        wkg := Some(PageFrame(copy, true, true, NoIo));
        cur := cur.(kro := false);
        return false;
      }
    }

    /** objH_EnsureWritable. If the current version moved, the caller yields and starts over. */
    method EnsureWritable(pinned: bool) returns (moved: bool)
      requires Valid()
      modifies this
      ensures Valid() && cur.dirty && !cur.kro && cur.content == old(cur.content) && snap == old(snap)
      ensures phase == old(phase) && log == old(log)
      ensures !old(cur.kro) ==> !moved && cur == old(cur).(dirty := true) && wkg == old(wkg) && entry == old(entry)
      ensures old(cur.kro) && wkg == None ==> entry == ZeroEntry && IsZero(cur.content)
      ensures moved <==> old(cur.kro && (cur.io.Cleaning? || (pinned && !IsZero(cur.content))))
      ensures moved ==> wkg == Some(old(cur)) && entry == old(entry)
      ensures moved ==> cur == PageFrame(old(cur.content), false, true, NoIo)
      ensures wkg.Some? && old(cur.kro) ==> wkg.value.kro && wkg.value.content == cur.content && entry == old(entry)
    {
      moved := false;
      if cur.dirty && !cur.kro {
        return;
      }
      if phase != NotActive && cur.kro {
        moved := MitigateKRO(pinned);
        if moved {
          return;
        }
      }
      cur := cur.(dirty := true);
    }

    /** A store by a user, once the page is writeable. */
    method Store(c: Content)
      requires Valid() && cur.dirty && !cur.kro
      modifies this`cur
      ensures Valid() && cur.content == c && cur.dirty && !cur.kro
      ensures if old(cur.io.Cleaning?) then cur.io == Cleaning(old(cur.io.lid), old(cur.io.start), true)
              else cur.io == NoIo
    {
      cur := cur.(content := c, io := if cur.io.Cleaning? then cur.io.(changed := true) else cur.io);
    }

    /** The cleaning of one frame by pageH_Clean, up to the request; zero when it is clean at once. */
    static method StartClean(f: PageFrame, lid: nat) returns (zero: bool, f': PageFrame)
      requires f.dirty && f.io == NoIo
      ensures zero <==> IsZero(f.content)
      ensures f' == f.(dirty := false, io := if zero then NoIo else Cleaning(lid, f.content, false))
    {
      var i := PageTestZero(f.content);
      zero := i == |f.content|;
      f' := f.(dirty := false);
      if !zero {
        f' := f'.(io := Cleaning(lid, f.content, false));
      }
    }

    /** pageH_Clean of the current version; lid is the next log location. Blocks on I/O under way. */
    method CleanCurrent(lid: nat) returns (blocked: bool)
      requires Valid() && cur.dirty && Fresh(lid) && (phase != NotActive ==> cur.kro)
      modifies this
      ensures Valid() && (blocked <==> old(cur.io.Cleaning?)) && snap == old(snap) && phase == old(phase)
      ensures blocked ==> cur == old(cur) && entry == old(entry)
      ensures cur.content == old(cur.content) && wkg == old(wkg) && log == old(log)
      ensures !blocked ==> !cur.dirty && (if IsZero(cur.content) then entry == ZeroEntry && cur.io == NoIo && !cur.kro
                                         else cur.io == Cleaning(lid, cur.content, false) && cur.kro == old(cur.kro))
      ensures !blocked && !IsZero(cur.content) ==> entry == if cur.kro then LoggedAt(lid) else old(entry)
    {
      if cur.io.Cleaning? {
        return true;
      }
      if cur.kro {
        numKRODirtyPages := numKRODirtyPages - 1;
      }
      var zero;
      zero, cur := StartClean(cur, lid);
      if zero {
        entry := ZeroEntry;
        cur := cur.(kro := false);
      } else if cur.kro {
        entry := LoggedAt(lid);
      }
      return false;
    }

    /** pageH_Clean of the working copy. */
    method CleanWorkingCopy(lid: nat) returns (blocked: bool)
      requires Valid() && wkg.Some? && wkg.value.dirty && Fresh(lid)
      modifies this
      ensures Valid() && (blocked <==> old(wkg.value.io.Cleaning?)) && cur == old(cur) && log == old(log)
      ensures snap == old(snap) && phase == old(phase)
      ensures blocked ==> wkg == old(wkg) && entry == old(entry)
      ensures !blocked ==> if old(IsZero(wkg.value.content)) then wkg == None && entry == ZeroEntry
                           else
                             wkg == Some(PageFrame(old(wkg.value.content), true, false,
                                                   Cleaning(lid, old(wkg.value.content), false)))
                             && entry == LoggedAt(lid)
    {
      var f := wkg.value;
      if f.io.Cleaning? {
        return true;
      }
      numKRODirtyPages := numKRODirtyPages - 1;
      var zero, f' := StartClean(f, lid);
      if zero {
        entry := ZeroEntry;
        wkg := None;
      } else {
        entry := LoggedAt(lid);
        wkg := Some(f');
      }
      return false;
    }

    /**
     IOReq_EndPageClean for the current version, when `written` has reached the log. It halts exactly
     in the third row of the table: the page is read only and was dirtied after the request.
     */
    method EndCleanCurrent(written: Content) returns (halted: bool)
      requires Valid() && cur.io.Cleaning? && (!cur.io.changed ==> written == cur.io.start)
      modifies this
      ensures halted <==> RowOf(old(cur), false) == Row(true, true, false, true)
      ensures !halted ==> Valid() && cur == old(cur).(kro := false, io := NoIo) && wkg == old(wkg) && snap == old(snap)
      ensures !halted ==> phase == old(phase) && log == old(log)[old(cur.io.lid) := written]
      ensures !halted ==> entry == if old(!cur.dirty && !cur.kro) then LoggedAt(old(cur.io.lid)) else old(entry)
      ensures !halted && !cur.dirty ==> Saves(entry, log, cur.content)
    {
      if cur.dirty && cur.kro {
        return true;
      }
      log := log[cur.io.lid := written];
      if !cur.dirty && !cur.kro {
        entry := LoggedAt(cur.io.lid);
      }
      cur := cur.(io := NoIo, kro := false);
      return false;
    }

    /** IOReq_EndPageClean for the working copy, which is then freed; it halts in the fourth row. */
    method EndCleanWorkingCopy(written: Content) returns (halted: bool)
      requires Valid() && wkg.Some? && wkg.value.io.Cleaning?
      requires (!wkg.value.io.changed ==> written == wkg.value.io.start)
      modifies this
      ensures halted <==> RowOf(old(wkg.value), true) == Row(true, true, true, true)
      ensures !halted ==> Valid() && wkg == None && cur == old(cur) && snap == old(snap) && entry == old(entry)
      ensures !halted ==> phase == old(phase) && log == old(log)[old(wkg.value.io.lid) := written]
    {
      if wkg.value.dirty {
        return true;
      }
      log := log[wkg.value.io.lid := written];
      wkg := None;
      return false;
    }

    /** The checkpoint is stabilized: what was the next generation becomes the working one. */
    method EndCheckpoint()
      requires Valid() && phase == Demarcated && numKRODirtyPages == 0
      requires cur.io == NoIo && (wkg.Some? ==> wkg.value.io == NoIo)
      modifies this
      ensures old(snap.Some? ==> Saves(entry, log, snap.value))
      ensures Valid() && phase == NotActive && cur == old(cur) && entry == NoEntry && log == old(log)
    {
      phase := NotActive;
      snap := None;
      entry := NoEntry;
    }
  }

  /** A page that is not zero, dirtied, queued to be cleaned, dirtied again, and caught by a demarcation. */
  method CaughtWhileCleaned(c: Content, lid: nat) returns (p: PersistentPage)
    requires !IsZero(c)
    ensures fresh(p) && p.Valid() && p.phase == Demarcated && p.cur == PageFrame(c, true, true, Cleaning(lid, c, false))
    ensures p.wkg == None && p.snap == Some(c) && p.entry == NoEntry
  {
    p := new PersistentPage(c);
    var moved := p.EnsureWritable(false);
    var blocked := p.CleanCurrent(lid);
    moved := p.EnsureWritable(false);
    p.DeclareDemarcationEvent();
    p.CheckpointPage();
  }

  /**
   The third row of the table is reached, for any content but zeros. Its I/O completion halts: see
   EndCleanCurrent.
   */
  method ReachThirdRow(c: Content, lid: nat) returns (p: PersistentPage)
    requires !IsZero(c)
    ensures fresh(p) && p.Valid() && RowOf(p.cur, false) == Row(true, true, false, true) && p.wkg == None
    ensures p.cur.content == c && p.cur.io == Cleaning(lid, c, false) && p.snap == Some(c) && p.entry == NoEntry
  {
    p := CaughtWhileCleaned(c, lid);
  }

  /** Writing to the page again makes the fourth row of it. Its I/O completion halts: see EndCleanWorkingCopy. */
  method ReachFourthRow(c: Content, lid: nat) returns (p: PersistentPage)
    requires !IsZero(c)
    ensures fresh(p) && p.Valid() && p.wkg.Some? && RowOf(p.wkg.value, true) == Row(true, true, true, true)
    ensures p.wkg.value.content == c && p.wkg.value.io == Cleaning(lid, c, false)
    ensures p.cur == PageFrame(c, false, true, NoIo) && p.snap == Some(c) && p.entry == NoEntry
  {
    p := CaughtWhileCleaned(c, lid);
    var moved := p.EnsureWritable(false);
  }
}
