/**
 Rescission over whole runs: after objH_Rescind, whatever the kernel does with keys, no key that there
 was to the object, no copy of it, and no copy of a copy ever conveys access to the object again.
 */
module Rescission {
  import opened KeyRings
  import opened Capabilities

  /** The operations on keys. */
  datatype Op =
    | VoidSlot(k: nat)
    | Copy(dst: nat, src: nat)
    | MoveKey(dst: nat, src: nat)
    | UnpreparedCopy(dst: nat, src: nat)
    | PrepareKey(k: nat)
    | UnprepareKey(k: nat)
    | UnprepareRing(h: Link)
    | NewKey(k: nat, oid: nat, t: KeyType)
    | NewResumeKey(k: nat, oid: nat)
    | ZapResume(oid: nat)
    | RescindObject(oid: nat)

  /** The keys and objects, with the epochs of objects and those in which keys were made. */
  datatype State = State(keys: Keys, made: map<nat, nat>, objs: Objects, epochs: map<nat, Epochs>)

  ghost predicate Good(s: State) {
    CountsOk(s.keys, s.objs, s.epochs, s.made) && TargetsOk(s.keys, s.objs)
  }

  /** The conditions that an operation has for its callers. */
  predicate Enabled(op: Op, keys: Keys, objs: Objects) {
    match op
    case VoidSlot(k) => k in keys
    case Copy(dst, src) => dst in keys && src in keys
    case MoveKey(dst, src) => dst in keys && src in keys && !keys[dst].Prepared?
    case UnpreparedCopy(dst, src) => dst in keys && src in keys && !keys[dst].Prepared?
    case PrepareKey(k) => k in keys && keys[k].Unprepared? && keys[k].oid in objs
    case UnprepareKey(k) => k in keys && keys[k].Prepared?
    case UnprepareRing(h) => !h.Slot? && h.oid in objs
    case NewKey(k, o, t) =>
      && k in keys && !keys[k].Prepared? && o in objs && t != Resume && TypeOk(objs[o], t)
      && (IsProcessType(t) ==> objs[o].isProcess)
    case NewResumeKey(k, o) => k in keys && o in objs && objs[o].isNode && objs[o].isProcess
    case ZapResume(o) => o in objs && objs[o].isProcess
    case RescindObject(o) => o in objs
  }

  /** What an operation does. */
  ghost predicate OpStep(op: Op, s: State, s': State)
    requires Enabled(op, s.keys, s.objs) && Good(s)
  {
    match op
    case VoidSlot(k) => s' == s.(keys := s.keys[k := Void])
    case Copy(dst, src) => s' == s.(keys := s.keys[dst := s.keys[src]], made := s.made[dst := s.made[src]])
    case MoveKey(dst, src) =>
      s' == s.(keys := s.keys[dst := s.keys[src]][src := Void], made := s.made[dst := s.made[src]])
    case UnpreparedCopy(dst, src) =>
      var key := s.keys[src];
      if key.Prepared? then
        s' == State(s.keys[dst := Carried(key, s.objs)], s.made[dst := s.made[src]],
                    s.objs[key.oid := Noted(s.objs[key.oid], key.t)], s.epochs)
      else s' == s.(keys := s.keys[dst := key], made := s.made[dst := s.made[src]])
    case PrepareKey(k) =>
      var key := s.keys[k];
      if Live(key, s.objs) then
        s' == s.(keys := s.keys[k := Prepared(key.t, key.oid)],
                 objs := s.objs[key.oid := ReadyFor(s.objs[key.oid], key.t)])
      else s' == s.(keys := s.keys[k := Void])
    case UnprepareKey(k) =>
      var key := s.keys[k];
      s' == s.(keys := s.keys[k := Carried(key, s.objs)], objs := s.objs[key.oid := Noted(s.objs[key.oid], key.t)])
    case UnprepareRing(h) =>
      && s' == s.(keys := s'.keys, objs := s'.objs) && RingUnprepared(s.keys, s.objs, h, s'.keys, s'.objs)
    case NewKey(k, o, t) =>
      s' == s.(keys := s.keys[k := Prepared(t, o)], made := s.made[k := EpochOf(s.epochs[o], t)])
    case NewResumeKey(k, o) =>
      s' == s.(keys := s.keys[k := Prepared(Resume, o)], made := s.made[k := s.epochs[o].call])
    case ZapResume(o) =>
      && ResumeVoided(s.keys, o, s'.keys)
      && s' == State(s'.keys, s.made, s.objs[o := CallsBumped(s.objs[o])],
                     s.epochs[o := Epochs(s.epochs[o].alloc, s.epochs[o].call + 1)])
    case RescindObject(o) =>
      && AllVoided(s.keys, o, s'.keys)
      && s' == State(s'.keys, s.made, s.objs[o := Rescinded(s.objs[o])],
                     s.epochs[o := Killed(s.epochs[o], s.objs[o].isNode)])
  }

  /** A prepared key, unprepared. */
  function Carried(key: Key, objs: Objects): Key
    requires key.Prepared? && key.oid in objs
  {
    Unprepared(key.t, key.oid, Count(objs[key.oid], key.t))
  }

  /** The keys of a ring are unprepared, and their objects know of them. */
  ghost predicate RingUnprepared(keys: Keys, objs: Objects, h: Link, keys': Keys, objs': Objects)
    requires TargetsOk(keys, objs)
  {
    && keys'.Keys == keys.Keys && FlagsSet(objs, objs') && objs'.Keys == objs.Keys
    && (forall k :: k in keys ==> keys'[k] == if On(keys, Slot(k), h) then Carried(keys[k], objs) else keys[k])
    && (forall k :: k in keys && On(keys, Slot(k), h) ==> Used(objs'[keys[k].oid], keys[k].t))
  }

  /** An operation whose conditions do not hold is not done. */
  ghost predicate Step(op: Op, s: State, s': State) {
    Good(s) && if Enabled(op, s.keys, s.objs) then OpStep(op, s, s') else s' == s
  }

  // ---------- Every operation keeps the counts in order ----------

  lemma KeyAndEpoch(s: State, k: nat)
    requires Good(s) && k in s.keys
    ensures k in s.made && KeyOk(s.keys[k], s.made[k], s.objs, s.epochs) && s.made[k := s.made[k]] == s.made
    ensures s.keys[k].Prepared? ==>
      s.keys[k].oid in s.objs && TypeOk(s.objs[s.keys[k].oid], s.keys[k].t) && s.keys[k].oid in s.epochs
  {
  }

  /** An object comes to have a process, or knows that a count is in use. */
  lemma ObjectNoted(s: State, o: nat, ob: Object)
    requires Good(s) && o in s.objs
    requires ob == s.objs[o].(isProcess := ob.isProcess, allocCntUsed := ob.allocCntUsed, callCntUsed := ob.callCntUsed)
    requires (s.objs[o].isProcess ==> ob.isProcess) && forall t :: Used(s.objs[o], t) ==> Used(ob, t)
    ensures Good(s.(objs := s.objs[o := ob]))
  {
    assert Used(s.objs[o], Resume) ==> Used(ob, Resume);
    assert Used(s.objs[o], Page) ==> Used(ob, Page);
    assert s.epochs[o := s.epochs[o]] == s.epochs;
    forall k | k in s.keys && IsObjectKey(s.keys[k]) && s.keys[k].oid == o
      ensures KeyOk(s.keys[k], s.made[k], s.objs[o := ob], s.epochs)
    {
      assert KeyOk(s.keys[k], s.made[k], s.objs, s.epochs);
    }
    CountsMoved(s.keys, s.objs, s.epochs, s.made, o, ob, s.epochs[o]);
  }

  /** A key that is not prepared is stored. */
  lemma LooseStored(s: State, k: nat, v: Key, m: nat)
    requires Good(s) && k in s.keys && !v.Prepared? && KeyOk(v, m, s.objs, s.epochs)
    ensures Good(s.(keys := s.keys[k := v], made := s.made[k := m]))
  {
    hide CountsOk, TargetsOk;
    StoredLoose(s.keys, s.objs, s.epochs, s.made, k, v, m);
  }

  lemma PreparedStored(s: State, k: nat, v: Key, m: nat)
    requires Good(s) && k in s.keys && v.Prepared? && KeyOk(v, m, s.objs, s.epochs)
    requires v.oid in s.objs && TypeOk(s.objs[v.oid], v.t) && (IsProcessType(v.t) ==> s.objs[v.oid].isProcess)
    ensures Good(s.(keys := s.keys[k := v], made := s.made[k := m]))
  {
    hide CountsOk, TargetsOk;
    StoredPrepared(s.keys, s.objs, s.epochs, s.made, k, v, m);
  }

  lemma CopyKeeps(s: State, dst: nat, src: nat)
    requires Good(s) && dst in s.keys && src in s.keys
    ensures src in s.made && Good(s.(keys := s.keys[dst := s.keys[src]], made := s.made[dst := s.made[src]]))
  {
    KeyAndEpoch(s, src);
  }

  lemma UnpreparedCopyKeeps(s: State, dst: nat, src: nat)
    requires Good(s) && dst in s.keys && src in s.keys && s.keys[src].Prepared?
    ensures src in s.made && s.keys[src].oid in s.objs
    ensures var key := s.keys[src];
      Good(State(s.keys[dst := Carried(key, s.objs)], s.made[dst := s.made[src]],
                 s.objs[key.oid := Noted(s.objs[key.oid], key.t)], s.epochs))
  {
    hide CountsOk, TargetsOk;
    KeyAndEpoch(s, src);
    var key := s.keys[src];
    ObjectNoted(s, key.oid, Noted(s.objs[key.oid], key.t));
    LooseStored(s.(objs := s.objs[key.oid := Noted(s.objs[key.oid], key.t)]), dst, Carried(key, s.objs), s.made[src]);
  }

  lemma PrepareKeeps(s: State, k: nat)
    requires Good(s) && k in s.keys && s.keys[k].Unprepared? && Live(s.keys[k], s.objs)
    ensures var key := s.keys[k];
      Good(s.(keys := s.keys[k := Prepared(key.t, key.oid)],
              objs := s.objs[key.oid := ReadyFor(s.objs[key.oid], key.t)]))
  {
    hide CountsOk, TargetsOk;
    KeyAndEpoch(s, k);
    var key := s.keys[k];
    ObjectNoted(s, key.oid, ReadyFor(s.objs[key.oid], key.t));
    var s1 := s.(objs := s.objs[key.oid := ReadyFor(s.objs[key.oid], key.t)]);
    PreparedStored(s1, k, Prepared(key.t, key.oid), s.made[k]);
  }

  lemma RingKeeps(s: State, h: Link, keys': Keys, objs': Objects)
    requires Good(s) && RingUnprepared(s.keys, s.objs, h, keys', objs')
    ensures Good(s.(keys := keys', objs := objs'))
  {
    FlagKept(s.objs, objs');
    forall k | k in keys'
      ensures KeyOk(keys'[k], s.made[k], objs', s.epochs)
    {
      assert KeyOk(s.keys[k], s.made[k], s.objs, s.epochs);
      if IsObjectKey(s.keys[k]) && s.keys[k].oid in s.objs {
        var o := s.keys[k].oid;
        assert Count(objs'[o], s.keys[k].t) == Count(s.objs[o], s.keys[k].t);
        assert TypeOk(objs'[o], s.keys[k].t) <==> TypeOk(s.objs[o], s.keys[k].t);
      }
    }
  }

  lemma NewKeyKeeps(s: State, k: nat, o: nat, t: KeyType)
    requires Good(s) && k in s.keys && o in s.objs && TypeOk(s.objs[o], t)
    requires IsProcessType(t) ==> s.objs[o].isProcess
    ensures o in s.epochs
    ensures Good(s.(keys := s.keys[k := Prepared(t, o)], made := s.made[k := EpochOf(s.epochs[o], t)]))
  {
    PreparedStored(s, k, Prepared(t, o), EpochOf(s.epochs[o], t));
  }

  lemma VoidsKeep(s: State, keys': Keys)
    requires Good(s) && keys'.Keys == s.keys.Keys
    requires forall k :: k in s.keys ==> keys'[k] == s.keys[k] || keys'[k] == Void
    ensures Good(s.(keys := keys'))
  {
    ZappedCounts(s.keys, s.objs, s.epochs, s.made, keys');
  }

  /** The call count is bumped and Resume keys are killed. */
  lemma CallsKeep(s: State, o: nat)
    requires Good(s) && o in s.objs && NonePrepared(s.keys, o, true)
    ensures o in s.epochs
    ensures Good(s.(objs := s.objs[o := CallsBumped(s.objs[o])],
                    epochs := s.epochs[o := Epochs(s.epochs[o].alloc, s.epochs[o].call + 1)]))
  {
    var e := Epochs(s.epochs[o].alloc, s.epochs[o].call + 1);
    Bumped(s.keys, s.objs, s.epochs, s.made, o, CallsBumped(s.objs[o]), e);
  }

  lemma AllocKeeps(s: State, o: nat)
    requires Good(s) && o in s.objs && NonePrepared(s.keys, o, false)
    ensures o in s.epochs
    ensures Good(s.(objs := s.objs[o := AllocBumped(s.objs[o])],
                    epochs := s.epochs[o := Epochs(s.epochs[o].alloc + 1, s.epochs[o].call)]))
  {
    var e := Epochs(s.epochs[o].alloc + 1, s.epochs[o].call);
    Bumped(s.keys, s.objs, s.epochs, s.made, o, AllocBumped(s.objs[o]), e);
  }

  function AllocBumped(o: Object): Object {
    o.(allocCount := o.allocCount + (if o.allocCntUsed then 1 else 0), allocCntUsed := false)
  }

  lemma RescindKeeps(s: State, o: nat, keys': Keys)
    requires Good(s) && o in s.objs && AllVoided(s.keys, o, keys')
    ensures o in s.epochs
    ensures Good(State(keys', s.made, s.objs[o := Rescinded(s.objs[o])],
                       s.epochs[o := Killed(s.epochs[o], s.objs[o].isNode)]))
  {
    hide CountsOk, TargetsOk;
    VoidsKeep(s, keys');
    NoneLeft(s.keys, o, keys');
    var s1 := s.(keys := keys');
    if s.objs[o].isNode {
      CallsKeep(s1, o);
      var s2 := s1.(objs := s1.objs[o := CallsBumped(s1.objs[o])],
                    epochs := s1.epochs[o := Epochs(s1.epochs[o].alloc, s1.epochs[o].call + 1)]);
      AllocKeeps(s2, o);
      assert s2.objs[o := AllocBumped(s2.objs[o])] == s.objs[o := Rescinded(s.objs[o])];
      assert s2.epochs[o := Epochs(s2.epochs[o].alloc + 1, s2.epochs[o].call)]
        == s.epochs[o := Killed(s.epochs[o], s.objs[o].isNode)];
    } else {
      AllocKeeps(s1, o);
    }
  }

  /** Every operation keeps the counts in order. */
  lemma OpKeepsGood(op: Op, s: State, s': State)
    requires Good(s) && Enabled(op, s.keys, s.objs) && OpStep(op, s, s')
    ensures Good(s')
  {
    hide CountsOk, TargetsOk, RingUnprepared, KeyOk, Live;
    match op
    case VoidSlot(k) => VoidsKeep(s, s'.keys);
    case Copy(dst, src) => CopyKeeps(s, dst, src);
    case MoveKey(dst, src) =>
      CopyKeeps(s, dst, src);
      VoidsKeep(s.(keys := s.keys[dst := s.keys[src]], made := s.made[dst := s.made[src]]), s'.keys);
    case UnpreparedCopy(dst, src) =>
      if s.keys[src].Prepared? {
        UnpreparedCopyKeeps(s, dst, src);
      } else {
        CopyKeeps(s, dst, src);
      }
    case PrepareKey(k) =>
      if Live(s.keys[k], s.objs) {
        PrepareKeeps(s, k);
      } else {
        VoidsKeep(s, s'.keys);
      }
    case UnprepareKey(k) =>
      UnpreparedCopyKeeps(s, k, k);
      KeyAndEpoch(s, k);
    case UnprepareRing(h) => RingKeeps(s, h, s'.keys, s'.objs);
    case NewKey(k, o, t) => NewKeyKeeps(s, k, o, t);
    case NewResumeKey(k, o) => NewKeyKeeps(s, k, o, Resume);
    case ZapResume(o) =>
      VoidsKeep(s, s'.keys);
      CallsKeep(s.(keys := s'.keys), o);
    case RescindObject(o) => RescindKeeps(s, o, s'.keys);
  }

  // ---------- Kinship ----------

  /** The slots whose keys come from keys in the slots of kin, after an operation. */
  function Kin(op: Op, kin: set<nat>): set<nat> {
    match op
    case Copy(dst, src) => if src in kin then kin + {dst} else kin - {dst}
    case MoveKey(dst, src) => (if src in kin then kin + {dst} else kin - {dst}) + {src}
    case UnpreparedCopy(dst, src) => if src in kin then kin + {dst} else kin - {dst}
    case NewKey(k, _, _) => kin - {k}
    case NewResumeKey(k, _) => kin - {k}
    case _ => kin
  }

  /** Which keys to an object are meant: all, or its Resume keys. */
  datatype Kind = AnyKey | ResumeKey

  predicate KeyTo(key: Key, oid: nat, kind: Kind) {
    IsObjectKey(key) && key.oid == oid && (kind == ResumeKey ==> key.t == Resume)
  }

  /** Keys to the object in these slots were made before keys of their types to it were last killed. */
  ghost predicate Spent(s: State, kin: set<nat>, oid: nat, kind: Kind) {
    && oid in s.objs && oid in s.epochs
    && forall k :: k in kin ==>
      k in s.keys && k in s.made && SpentKey(s.keys[k], s.made[k], s.objs[oid], s.epochs[oid], oid, kind)
  }

  predicate SpentKey(key: Key, made: nat, o: Object, e: Epochs, oid: nat, kind: Kind) {
    KeyTo(key, oid, kind) ==> made < EpochOf(e, key.t) || (key.t == Resume && !o.isNode)
  }

  /** No key in these slots conveys access to the object. */
  ghost predicate NoAccess(s: State, kin: set<nat>, oid: nat, kind: Kind) {
    forall k :: k in kin ==> k in s.keys && (KeyTo(s.keys[k], oid, kind) ==> !Live(s.keys[k], s.objs))
  }

  lemma SpentDead(s: State, kin: set<nat>, oid: nat, kind: Kind)
    requires Good(s) && Spent(s, kin, oid, kind)
    ensures NoAccess(s, kin, oid, kind)
  {
    forall k | k in kin && KeyTo(s.keys[k], oid, kind)
      ensures !Live(s.keys[k], s.objs)
    {
      KeyAndEpoch(s, k);
    }
  }

  /** Every key in kin' is in the place of a key in kin, or is a copy of one. */
  ghost predicate Handed(s: State, kin: set<nat>, s': State, kin': set<nat>) {
    forall k :: k in kin' ==>
      (&& k in s'.keys && k in s'.made
       && (IsObjectKey(s'.keys[k]) ==>
           exists j :: j in kin && j in s.keys && j in s.made && CopyOf(s'.keys[k], s'.made[k], s.keys[j], s.made[j])))
  }

  predicate CopyOf(key': Key, made': nat, key: Key, made: nat) {
    made' == made && IsObjectKey(key') && IsObjectKey(key) && key'.oid == key.oid && key'.t == key.t
  }

  lemma StillSpent(s: State, kin: set<nat>, s': State, kin': set<nat>, oid: nat, kind: Kind)
    requires Spent(s, kin, oid, kind) && Handed(s, kin, s', kin')
    requires oid in s'.objs && s'.objs[oid].isNode == s.objs[oid].isNode
    requires oid in s'.epochs
    requires s'.epochs[oid].alloc >= s.epochs[oid].alloc && s'.epochs[oid].call >= s.epochs[oid].call
    ensures Spent(s', kin', oid, kind)
  {
  }

  lemma OpHands(op: Op, s: State, s': State, kin: set<nat>)
    requires Good(s) && Enabled(op, s.keys, s.objs) && OpStep(op, s, s') && kin <= s.keys.Keys
    ensures Handed(s, kin, s', Kin(op, kin))
  {
    hide KeyOk, TargetsOk, Live, FlagsSet;
  }

  lemma OpEpochs(op: Op, s: State, s': State, oid: nat)
    requires Good(s) && Enabled(op, s.keys, s.objs) && OpStep(op, s, s') && oid in s.objs
    ensures oid in s.epochs && oid in s'.objs && s'.objs[oid].isNode == s.objs[oid].isNode && oid in s'.epochs
    ensures s'.epochs[oid].alloc >= s.epochs[oid].alloc && s'.epochs[oid].call >= s.epochs[oid].call
  {
    hide KeyOk, Live;
  }

  lemma OpKeepsSpent(op: Op, s: State, s': State, kin: set<nat>, oid: nat, kind: Kind)
    requires Good(s) && Enabled(op, s.keys, s.objs) && OpStep(op, s, s') && Spent(s, kin, oid, kind)
    ensures Spent(s', Kin(op, kin), oid, kind)
  {
    hide OpStep, Good, Handed;
    OpHands(op, s, s', kin);
    OpEpochs(op, s, s', oid);
    StillSpent(s, kin, s', Kin(op, kin), oid, kind);
  }

  /** A rescission leaves no key to the object unspent, and proc_ZapResumeKeys no Resume key. */
  lemma KillSpends(op: Op, s: State, s': State, kind: Kind)
    requires Good(s) && Enabled(op, s.keys, s.objs) && OpStep(op, s, s')
    requires if kind == AnyKey then op.RescindObject? else op.ZapResume?
    ensures Spent(s', s'.keys.Keys, op.oid, kind)
  {
    forall k | k in s'.keys
      ensures k in s'.made && SpentKey(s'.keys[k], s'.made[k], s'.objs[op.oid], s'.epochs[op.oid], op.oid, kind)
    {
      KeyAndEpoch(s, k);
    }
  }

  // ---------- Runs ----------

  /** The states that a sequence of operations goes through. */
  ghost predicate Trace(states: seq<State>, ops: seq<Op>) {
    |states| == |ops| + 1 && forall i :: 0 <= i < |ops| ==> Step(ops[i], states[i], states[i + 1])
  }

  /** After n operations, the slots whose keys come, perhaps through copies, from those there were at first. */
  ghost function KinAfter(states: seq<State>, ops: seq<Op>, n: nat): set<nat>
    requires n <= |ops| && |states| == |ops| + 1
  {
    if n == 0 then states[0].keys.Keys
    else
      var kin := KinAfter(states, ops, n - 1);
      if Enabled(ops[n - 1], states[n - 1].keys, states[n - 1].objs) then Kin(ops[n - 1], kin) else kin
  }

  lemma {:induction false} TraceSpent(states: seq<State>, ops: seq<Op>, oid: nat, kind: Kind, n: nat)
    requires Trace(states, ops) && n <= |ops| && Good(states[0]) && Spent(states[0], states[0].keys.Keys, oid, kind)
    ensures Good(states[n]) && Spent(states[n], KinAfter(states, ops, n), oid, kind)
  {
    hide Good, Spent, OpStep;
    if n > 0 {
      TraceSpent(states, ops, oid, kind, n - 1);
      assert Step(ops[n - 1], states[n - 1], states[n]);
      if Enabled(ops[n - 1], states[n - 1].keys, states[n - 1].objs) {
        OpKeepsGood(ops[n - 1], states[n - 1], states[n]);
        OpKeepsSpent(ops[n - 1], states[n - 1], states[n], KinAfter(states, ops, n - 1), oid, kind);
      }
    }
  }

  /**
   Rescission is total and permanent. After it, and after any operations that follow, no key that there
   was to the object, no copy of it, and no copy of a copy conveys access to the object. After
   proc_ZapResumeKeys the same is true of Resume keys.
   */
  lemma KilledForGood(kill: Op, kind: Kind, before: State, states: seq<State>, ops: seq<Op>, n: nat)
    requires if kind == AnyKey then kill.RescindObject? else kill.ZapResume?
    requires Enabled(kill, before.keys, before.objs) && Trace(states, ops) && n <= |ops|
    requires Step(kill, before, states[0])
    ensures NoAccess(states[n], KinAfter(states, ops, n), kill.oid, kind)
  {
    hide Good, Spent, NoAccess, OpStep, KinAfter;
    OpKeepsGood(kill, before, states[0]);
    KillSpends(kill, before, states[0], kind);
    TraceSpent(states, ops, kill.oid, kind, n);
    SpentDead(states[n], KinAfter(states, ops, n), kill.oid, kind);
  }

  /** The operation makes a key of this kind to the object. */
  predicate Makes(op: Op, oid: nat, kind: Kind) {
    (op.NewKey? && op.oid == oid && kind == AnyKey) || (op.NewResumeKey? && op.oid == oid)
  }

  lemma OpSpendsAll(op: Op, s: State, s': State, oid: nat, kind: Kind)
    requires Good(s) && Enabled(op, s.keys, s.objs) && OpStep(op, s, s') && !Makes(op, oid, kind)
    requires Spent(s, s.keys.Keys, oid, kind)
    ensures Spent(s', s'.keys.Keys, oid, kind)
  {
    hide OpStep, Good, Handed, Spent;
    OpKeepsSpent(op, s, s', s.keys.Keys, oid, kind);
    OpKeys(op, s, s', oid, kind);
    SpentMore(s', Kin(op, s.keys.Keys), oid, kind);
  }

  /** A slot whose key is new has no key of this kind to the object. */
  lemma OpKeys(op: Op, s: State, s': State, oid: nat, kind: Kind)
    requires Good(s) && Enabled(op, s.keys, s.objs) && OpStep(op, s, s') && !Makes(op, oid, kind)
    ensures s'.made.Keys == s'.keys.Keys
    ensures forall k :: k in s'.keys && k !in Kin(op, s.keys.Keys) ==> !KeyTo(s'.keys[k], oid, kind)
  {
    hide KeyOk, Live, FlagsSet, TargetsOk;
  }

  lemma SpentMore(s: State, kin: set<nat>, oid: nat, kind: Kind)
    requires Spent(s, kin, oid, kind) && s.made.Keys == s.keys.Keys
    requires forall k :: k in s.keys && k !in kin ==> !KeyTo(s.keys[k], oid, kind)
    ensures Spent(s, s.keys.Keys, oid, kind)
  {
  }

  lemma {:induction false} TraceSpentAll(states: seq<State>, ops: seq<Op>, oid: nat, kind: Kind, n: nat)
    requires Trace(states, ops) && n <= |ops| && Good(states[0]) && Spent(states[0], states[0].keys.Keys, oid, kind)
    requires forall i :: 0 <= i < n ==> !Makes(ops[i], oid, kind)
    ensures Good(states[n]) && Spent(states[n], states[n].keys.Keys, oid, kind)
  {
    hide Good, Spent, OpStep;
    if n > 0 {
      TraceSpentAll(states, ops, oid, kind, n - 1);
      assert Step(ops[n - 1], states[n - 1], states[n]);
      if Enabled(ops[n - 1], states[n - 1].keys, states[n - 1].objs) {
        OpKeepsGood(ops[n - 1], states[n - 1], states[n]);
        OpSpendsAll(ops[n - 1], states[n - 1], states[n], oid, kind);
      }
    }
  }

  /**
   After a rescission no key anywhere conveys access to the object until the kernel makes a new one, whatever
   else is done; after proc_ZapResumeKeys, no Resume key.
   */
  lemma NoneUntilMade(kill: Op, kind: Kind, before: State, states: seq<State>, ops: seq<Op>, n: nat)
    requires if kind == AnyKey then kill.RescindObject? else kill.ZapResume?
    requires Enabled(kill, before.keys, before.objs) && Trace(states, ops) && n <= |ops|
    requires Step(kill, before, states[0]) && forall i :: 0 <= i < n ==> !Makes(ops[i], kill.oid, kind)
    ensures forall k :: k in states[n].keys && KeyTo(states[n].keys[k], kill.oid, kind) ==>
      !Live(states[n].keys[k], states[n].objs)
  {
    hide Good, Spent, OpStep, Makes;
    OpKeepsGood(kill, before, states[0]);
    KillSpends(kill, before, states[0], kind);
    TraceSpentAll(states, ops, kill.oid, kind, n);
    SpentDead(states[n], states[n].keys.Keys, kill.oid, kind);
  }

  // ---------- The operations of the kernel ----------

  ghost function Now(s: KeySpace): State
    reads s
  {
    State(s.keys, s.made, s.objs, s.epochs)
  }

  lemma NowGood(s: KeySpace)
    requires s.Valid()
    ensures Good(Now(s))
  {
  }

  lemma HeadThere(s: KeySpace, h: Link)
    requires s.Valid() && !h.Slot? && h.oid in s.objs
    ensures h in s.ring && forall k :: k in s.keys ==> (Slot(k) in s.ring[h] <==> On(s.keys, Slot(k), h))
  {
    hide Ring.IsRing;
    assert RingOk(h, s.ring[h], s.keys, s.next, s.prev);
  }

  predicate MakesOrKills(op: Op) {
    op.NewKey? || op.NewResumeKey? || op.ZapResume? || op.RescindObject?
  }

  method PerformOnKeys(s: KeySpace, op: Op)
    requires !MakesOrKills(op) && s.Valid() && Enabled(op, s.keys, s.objs)
    modifies s
    ensures s.Valid() && old(Good(Now(s))) && OpStep(op, old(Now(s)), Now(s))
  {
    hide RingsOk, CountsOk, HeadsThere, TargetsOk, RingOk, KeyOk, Live, FlagsSet;
    NowGood(s);
    ghost var s0 := Now(s);
    match op {
      case VoidSlot(k) =>
        KeyAndEpoch(s0, k);
        VoidOk(s.made[k], s.objs, s.epochs);
        s.StoreLoose(k, Void, s.made[k]);
      case Copy(dst, src) =>
        KeyAndEpoch(s0, src);
        s.Set(dst, src);
      case MoveKey(dst, src) =>
        KeyAndEpoch(s0, src);
        s.Move(dst, src);
      case UnpreparedCopy(dst, src) =>
        KeyAndEpoch(s0, src);
        s.MakeUnpreparedCopy(dst, src);
      case PrepareKey(k) =>
        var voided := s.Prepare(k);
      case UnprepareKey(k) =>
        s.Unprepare(k);
      case UnprepareRing(h) =>
        HeadThere(s, h);
        s.UnprepareAll(h);
    }
  }

  method PerformOnObject(s: KeySpace, op: Op)
    requires MakesOrKills(op) && s.Valid() && Enabled(op, s.keys, s.objs)
    modifies s
    ensures s.Valid() && old(Good(Now(s))) && OpStep(op, old(Now(s)), Now(s))
  {
    hide RingsOk, CountsOk, HeadsThere, TargetsOk, RingOk, RingsCut, NoneLive, AllVoided, ResumeVoided;
    NowGood(s);
    match op {
      case NewKey(k, o, t) => s.SetToObj(k, o, t);
      case NewResumeKey(k, o) => s.BuildResumeKey(o, k);
      case ZapResume(o) => s.ZapResumeKeys(o);
      case RescindObject(o) => s.Rescind(o);
    }
  }

  /** One operation, by the kernel's own code, if its conditions hold. */
  method Perform(s: KeySpace, op: Op) returns (done: bool)
    requires s.Valid()
    modifies s
    ensures s.Valid() && done == old(Enabled(op, s.keys, s.objs)) && Step(op, old(Now(s)), Now(s))
  {
    hide RingsOk, CountsOk, HeadsThere, TargetsOk, OpStep, Enabled;
    NowGood(s);
    done := Enabled(op, s.keys, s.objs);
    if done {
      if MakesOrKills(op) {
        PerformOnObject(s, op);
      } else {
        PerformOnKeys(s, op);
      }
    }
  }

  /** An object is rescinded or its Resume keys are killed, and then any operations follow. */
  method KillAndGoOn(s: KeySpace, kill: Op, ghost kind: Kind, ops: seq<Op>) returns (ghost states: seq<State>)
    requires if kind == AnyKey then kill.RescindObject? else kill.ZapResume?
    requires s.Valid() && Enabled(kill, s.keys, s.objs)
    modifies s
    ensures s.Valid() && Trace(states, ops) && Step(kill, old(Now(s)), states[0])
    ensures states[|ops|] == Now(s) && NoAccess(Now(s), KinAfter(states, ops, |ops|), kill.oid, kind)
  {
    hide RingsOk, CountsOk, HeadsThere, TargetsOk, OpStep, NoAccess, Good, Enabled;
    NowGood(s);
    ghost var before := Now(s);
    var done := Perform(s, kill);
    states := [Now(s)];
    for i := 0 to |ops|
      invariant s.Valid() && Trace(states, ops[..i]) && states[i] == Now(s)
      invariant Step(kill, before, states[0])
    {
      done := Perform(s, ops[i]);
      TraceNext(states, ops, i, Now(s));
      states := states + [Now(s)];
    }
    assert ops[..|ops|] == ops;
    KilledForGood(kill, kind, before, states, ops, |ops|);
  }

  lemma TraceNext(states: seq<State>, ops: seq<Op>, i: nat, s: State)
    requires i < |ops| && Trace(states, ops[..i]) && Step(ops[i], states[i], s)
    ensures Trace(states + [s], ops[..i + 1])
  {
    hide Step;
    var t := states + [s];
    forall j | 0 <= j < i + 1
      ensures Step(ops[..i + 1][j], t[j], t[j + 1])
    {
      assert j < i ==> Step(ops[..i][j], states[j], states[j + 1]);
    }
  }
}
