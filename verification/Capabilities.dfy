/**
 Prepared and unprepared keys, and rescission: src/sys/kernel/kern_Key.c, kern_KeyRing.c, and parts of
 kern_ObjectHeader.c and kern_Process.c. All objects are in core. The epochs, which the kernel
 does not have, count the rescissions of an object and the times its Resume keys were killed.
 */
module Capabilities {
  import opened Ring
  import opened KeyRings

  datatype Object = Object(allocCount: nat, callCount: nat, allocCntUsed: bool, callCntUsed: bool,
                           isNode: bool, isProcess: bool)

  type Objects = map<nat, Object>

  /** The count in the object that a key of type t must have. */
  function Count(o: Object, t: KeyType): nat {
    if t == Resume then o.callCount else o.allocCount
  }

  predicate Used(o: Object, t: KeyType) {
    if t == Resume then o.callCntUsed else o.allocCntUsed
  }

  /** CheckObjectType: pages for Page keys, nodes for the others. */
  predicate TypeOk(o: Object, t: KeyType) {
    o.isNode <==> t != Page
  }

  /** The object knows that its count for keys of type t is in an unprepared key. */
  function Noted(o: Object, t: KeyType): Object {
    if t == Resume then o.(callCntUsed := true) else o.(allocCntUsed := true)
  }

  /** The object has a process if keys of type t need one. */
  function ReadyFor(o: Object, t: KeyType): Object {
    if IsProcessType(t) then o.(isProcess := true) else o
  }

  predicate IsObjectKey(k: Key) {
    k.Prepared? || k.Unprepared?
  }

  /** The key conveys access to its object: it is prepared, or key_DoPrepare would not void it. */
  predicate Live(k: Key, objs: Objects) {
    && IsObjectKey(k) && k.oid in objs
    && (k.Unprepared? ==> TypeOk(objs[k.oid], k.t) && k.count == Count(objs[k.oid], k.t))
  }

  /** How often keys of type t to the object have been killed. */
  datatype Epochs = Epochs(alloc: nat, call: nat)

  function EpochOf(e: Epochs, t: KeyType): nat {
    if t == Resume then e.call else e.alloc
  }

  /**
   A key made in the given epoch. If it is live, keys of its type have not been killed since; if it
   is unprepared, its count is not beyond the object's, and if it is equal the object knows of it.
   */
  predicate KeyOk(key: Key, made: nat, objs: Objects, epochs: map<nat, Epochs>) {
    IsObjectKey(key) && key.oid in objs && key.oid in epochs ==>
      (&& made <= EpochOf(epochs[key.oid], key.t)
       && (Live(key, objs) ==> made == EpochOf(epochs[key.oid], key.t))
       && (key.Unprepared? ==> key.count <= Count(objs[key.oid], key.t))
       && (key.Unprepared? && key.count == Count(objs[key.oid], key.t) ==> Used(objs[key.oid], key.t)))
  }

  ghost predicate CountsOk(keys: Keys, objs: Objects, epochs: map<nat, Epochs>, made: map<nat, nat>) {
    && objs.Keys <= epochs.Keys && made.Keys == keys.Keys
    && forall k :: k in keys ==> KeyOk(keys[k], made[k], objs, epochs)
  }

  /** Prepared keys are to objects in core, with a process if they need one, of the right type. */
  ghost predicate TargetsOk(keys: Keys, objs: Objects) {
    forall k :: k in keys && keys[k].Prepared? ==>
      (&& keys[k].oid in objs && TypeOk(objs[keys[k].oid], keys[k].t)
       && (IsProcessType(keys[k].t) ==> objs[keys[k].oid].isProcess))
  }

  /** The object has the type and the count that an unprepared key asks for. */
  predicate Fresh(key: Key, o: Object)
    requires key.Unprepared?
  {
    && o.isNode == (key.t != Page)
    && key.count == if key.t == Resume then o.callCount else o.allocCount
  }

  /**
   A prepared key is on the ring of the process if it is a Resume, Start or Process key, which is then to a
   node prepared as a process; otherwise on the ring of the object: a page for a Page key, else a node. It is
   on no other ring.
   */
  ghost predicate InPlace(keys: Keys, objs: Objects, ring: map<Link, seq<Link>>, k: nat) {
    && k in keys && keys[k].Prepared? && keys[k].oid in objs
    && (objs[keys[k].oid].isNode <==> keys[k].t != Page)
    && (keys[k].t in {Resume, Start, Process} ==> objs[keys[k].oid].isProcess)
    && var h := if keys[k].t in {Resume, Start, Process} then ProcRing(keys[k].oid) else ObjRing(keys[k].oid);
      h in ring && forall g :: g in ring ==> (Slot(k) in ring[g] <==> g == h)
  }

  ghost predicate HeadsThere(ring: map<Link, seq<Link>>, objs: Objects) {
    forall o :: o in objs ==> ObjRing(o) in ring && ProcRing(o) in ring
  }

  /** Every slot of ring r is void, and nothing else has changed. */
  ghost predicate Voided(keys: Keys, r: seq<Link>, keys': Keys) {
    && keys'.Keys == keys.Keys
    && forall k :: k in keys ==> keys'[k] == if Slot(k) in r then Void else keys[k]
  }

  /** The prepared Resume keys to the object are void, and nothing else has changed. */
  ghost predicate ResumeVoided(keys: Keys, oid: nat, keys': Keys) {
    keys'.Keys == keys.Keys && forall k :: k in keys ==>
      keys'[k] == if keys[k] == Prepared(Resume, oid) then Void else keys[k]
  }

  /** The prepared keys to the object are void, and nothing else has changed. */
  ghost predicate AllVoided(keys: Keys, oid: nat, keys': Keys) {
    keys'.Keys == keys.Keys && forall k :: k in keys ==>
      keys'[k] == if keys[k].Prepared? && keys[k].oid == oid then Void else keys[k]
  }

  /** No Resume key to the object, or no other key to it, is live. */
  ghost predicate NoneLive(keys: Keys, objs: Objects, oid: nat, resume: bool) {
    forall k :: k in keys && IsObjectKey(keys[k]) && keys[k].oid == oid && (keys[k].t == Resume <==> resume) ==>
      !Live(keys[k], objs)
  }

  /** No Resume key to the object, or no other key to it, is prepared. */
  ghost predicate NonePrepared(keys: Keys, oid: nat, resume: bool) {
    forall k :: k in keys && keys[k].Prepared? && keys[k].oid == oid ==> (keys[k].t == Resume <==> !resume)
  }

  /** The Resume keys have gone from the end of the ring of the process; the other rings are as they were. */
  ghost predicate RingsCut(ring: map<Link, seq<Link>>, keys: Keys, oid: nat, ring': map<Link, seq<Link>>) {
    && ring'.Keys == ring.Keys && (forall h :: h in ring && h != ProcRing(oid) ==> ring'[h] == ring[h])
    && (ProcRing(oid) in ring ==> ring'[ProcRing(oid)] <= ring[ProcRing(oid)])
    && (ProcRing(oid) in ring ==>
        forall x :: x in ring'[ProcRing(oid)] <==> x in ring[ProcRing(oid)] && !IsResume(keys, x))
  }

  /** The place in its ring of a prepared key. */
  lemma PlaceOf(ring: map<Link, seq<Link>>, keys: Keys, next: Links, prev: Links, k: nat) returns (h: Link, i: nat)
    requires RingsOk(ring, keys, next, prev) && k in keys && keys[k].Prepared?
    ensures h == HeadOf(keys[k].t, keys[k].oid) && h in ring && i < |ring[h]| && ring[h][i] == Slot(k)
    ensures RingOk(h, ring[h], keys, next, prev)
  {
    hide IsRing, ResumeLast;
    h := HeadOf(keys[k].t, keys[k].oid);
    assert On(keys, Slot(k), h);
    assert Slot(k) in ring[h];
    i :| 0 <= i < |ring[h]| && ring[h][i] == Slot(k);
  }

  /** link_Unlink of a prepared key, whose slot then holds v. */
  lemma UnlinkRings(ring: map<Link, seq<Link>>, keys: Keys, next: Links, prev: Links, h: Link, i: nat, k: nat, v: Key)
    requires RingsOk(ring, keys, next, prev) && h in ring && i < |ring[h]| && ring[h][i] == Slot(k) && !v.Prepared?
    requires k in keys
    ensures Slot(k) in next && Slot(k) in prev && next[Slot(k)] in prev && prev[Slot(k)] in next
    ensures RingsOk(ring[h := Removed(ring[h], i)], keys[k := v],
                    next[prev[Slot(k)] := next[Slot(k)]], prev[next[Slot(k)] := prev[Slot(k)]])
  {
    hide IsRing, ResumeLast, Removed;
    assert RingOk(h, ring[h], keys, next, prev);
    Neighbours(h, ring[h], keys, next, prev, i);
    assert On(keys, Slot(k), h);
    var next', prev' := next[prev[Slot(k)] := next[Slot(k)]], prev[next[Slot(k)] := prev[Slot(k)]];
    Unchained(h, ring[h], keys, next, prev, i, v, next', prev');
    RingsChanged(ring, keys, next, prev, h, keys[k := v], Removed(ring[h], i), next', prev');
  }

  /** Changing a key that is not prepared to another such. */
  lemma LooseRings(ring: map<Link, seq<Link>>, keys: Keys, next: Links, prev: Links, k: nat, v: Key)
    requires RingsOk(ring, keys, next, prev) && k in keys && !keys[k].Prepared? && !v.Prepared?
    ensures RingsOk(ring, keys[k := v], next, prev)
  {
    hide IsRing;
    var keys' := keys[k := v];
    forall h | h in ring
      ensures RingOk(h, ring[h], keys', next, prev)
    {
      assert RingOk(h, ring[h], keys, next, prev);
      forall x | x in ring[h]
        ensures On(keys', x, h) && (IsResume(keys', x) <==> IsResume(keys, x))
      {
        assert On(keys, x, h);
      }
      OtherResume(ring[h], keys, keys');
    }
  }

  /** Linking a slot, whose key was not prepared, before index i of the ring of h. */
  lemma LinkRings(ring: map<Link, seq<Link>>, keys: Keys, next: Links, prev: Links, h: Link, i: nat, k: nat, v: Key)
    requires RingsOk(ring, keys, next, prev) && h in ring && i <= |ring[h]| && k in keys && !keys[k].Prepared?
    requires v.Prepared? && HeadOf(v.t, v.oid) == h
    requires v.t == Resume ==> forall j :: i <= j < |ring[h]| ==> IsResume(keys, ring[h][j])
    requires v.t != Resume ==> forall j :: 0 <= j < i ==> !IsResume(keys, ring[h][j])
    ensures Before(h, ring[h], i) in next && next[Before(h, ring[h], i)] in prev
    ensures var p := Before(h, ring[h], i);
      RingsOk(ring[h := PutAt(ring[h], i, Slot(k))], keys[k := v], LinkedNext(next, p, Slot(k)),
              LinkedPrev(next, prev, p, Slot(k)))
  {
    hide IsRing, ResumeLast, PutAt;
    assert RingOk(h, ring[h], keys, next, prev);
    var p := Before(h, ring[h], i);
    Chained(h, ring[h], keys, next, prev, k, v, i);
    NextOfBefore(h, ring[h], keys, next, prev, i);
    RingsChanged(ring, keys, next, prev, h, keys[k := v], PutAt(ring[h], i, Slot(k)),
                 LinkedNext(next, p, Slot(k)), LinkedPrev(next, prev, p, Slot(k)));
  }

  lemma NextOfBefore(h: Link, r: seq<Link>, keys: Keys, next: Links, prev: Links, i: nat)
    requires RingOk(h, r, keys, next, prev) && i <= |r|
    ensures Before(h, r, i) in next && next[Before(h, r, i)] == if i < |r| then r[i] else h
    ensures next[Before(h, r, i)] in prev && h in next && h in prev && prev[h] == Before(h, r, |r|)
    ensures i < |r| ==> r[i] in prev && prev[r[i]] == Before(h, r, i)
  {
    var c := [h] + r;
    assert forall a :: 0 <= a < |r| ==> c[a + 1] == r[a];
    assert c[i] == Before(h, r, i) && c[0] == h;
    assert next[c[i]] == if i + 1 < |c| then c[i + 1] else c[0];
    assert i < |r| ==> prev[c[i + 1]] == c[i];
  }

  /** An object's counts and flags change, and its epochs, so that its keys remain in order. */
  lemma CountsMoved(keys: Keys, objs: Objects, epochs: map<nat, Epochs>, made: map<nat, nat>, o: nat, ob: Object,
                    e: Epochs)
    requires CountsOk(keys, objs, epochs, made) && o in objs
    requires forall k :: k in keys && IsObjectKey(keys[k]) && keys[k].oid == o ==>
      KeyOk(keys[k], made[k], objs[o := ob], epochs[o := e])
    ensures CountsOk(keys, objs[o := ob], epochs[o := e], made)
  {
    forall k | k in keys
      ensures KeyOk(keys[k], made[k], objs[o := ob], epochs[o := e])
    {
      assert KeyOk(keys[k], made[k], objs, epochs);
    }
  }

  function SelfLinks(slots: set<nat>, oids: set<nat>): (links: Links)
    ensures forall x :: x in links ==> links[x] == x
    ensures forall x: Link :: x in links <==> (if x.Slot? then x.k in slots else x.oid in oids)
  {
    (map k | k in slots :: Slot(k) := Slot(k)) + (map o | o in oids :: ObjRing(o) := ObjRing(o))
    + (map o | o in oids :: ProcRing(o) := ProcRing(o))
  }

  function EmptyRings(oids: set<nat>): (ring: map<Link, seq<Link>>)
    ensures forall h :: h in ring ==> ring[h] == []
    ensures forall h: Link :: h in ring <==> !h.Slot? && h.oid in oids
  {
    (map o | o in oids :: ObjRing(o) := []) + (map o | o in oids :: ProcRing(o) := [])
  }

  lemma EmptyRingsOk(slots: set<nat>, oids: set<nat>)
    ensures RingsOk(EmptyRings(oids), map k | k in slots :: Void, SelfLinks(slots, oids), SelfLinks(slots, oids))
  {
    hide SelfLinks, EmptyRings;
    var keys: Keys, links := map k | k in slots :: Void, SelfLinks(slots, oids);
    forall h | h in EmptyRings(oids)
      ensures RingOk(h, [], keys, links, links)
    {
      assert [h] + [] == [h];
    }
  }

  class KeySpace {
    var keys: Keys
    var next: Links
    var prev: Links
    var objs: Objects
    ghost var ring: map<Link, seq<Link>>
    ghost var epochs: map<nat, Epochs>
    ghost var made: map<nat, nat>  // the epoch in which each key was made, or the key it is a copy of

    ghost predicate Valid()
      reads this
    {
      && RingsOk(ring, keys, next, prev) && CountsOk(keys, objs, epochs, made)
      && TargetsOk(keys, objs) && HeadsThere(ring, objs)
    }

    /** Void slots, and objects to which there is no key. */
    constructor (slots: set<nat>, objects: Objects)
      ensures Valid() && keys.Keys == slots && objs == objects
    {
      hide RingsOk, SelfLinks, EmptyRings;
      keys := map k | k in slots :: Void;
      objs := objects;
      var links := SelfLinks(slots, objects.Keys);
      next, prev := links, links;
      ring := EmptyRings(objects.Keys);
      EmptyRingsOk(slots, objects.Keys);
      epochs := map o | o in objects :: Epochs(0, 0);
      made := map k | k in slots :: 0;
    }

    /** A key made before keys of its type to the object were last killed conveys nothing, now and for ever. */
    lemma DeadStaysDead(k: nat)
      requires Valid() && k in keys && IsObjectKey(keys[k]) && keys[k].oid in objs
      ensures k in made && keys[k].oid in epochs
      ensures made[k] < EpochOf(epochs[keys[k].oid], keys[k].t) ==> !Live(keys[k], objs)
    {
      assert KeyOk(keys[k], made[k], objs, epochs);
    }

    lemma PreparedPlace(k: nat)
      requires Valid() && k in keys && keys[k].Prepared?
      ensures InPlace(keys, objs, ring, k)
    {
      var h := HeadOf(keys[k].t, keys[k].oid);
      forall g | g in ring
        ensures Slot(k) in ring[g] <==> g == h
      {
        assert RingOk(g, ring[g], keys, next, prev);
        assert On(keys, Slot(k), g) <==> g == h;
      }
    }

    /** Unchains slot k, if its key is chained, and stores a key there that is not prepared. */
    method StoreLoose(k: nat, v: Key, ghost m: nat)
      requires Valid() && k in keys && !v.Prepared? && KeyOk(v, m, objs, epochs)
      modifies this`keys, this`next, this`prev, this`ring, this`made
      ensures Valid() && keys == old(keys)[k := v] && made == old(made)[k := m]
      ensures ring.Keys == old(ring).Keys
      ensures forall h :: h in ring && !On(old(keys), Slot(k), h) ==> ring[h] == old(ring)[h]
      ensures forall h, i :: h in ring && 0 <= i < |old(ring)[h]| && old(ring)[h][i] == Slot(k) ==>
        ring[h] == Removed(old(ring)[h], i)
    {
      hide RingsOk, CountsOk, HeadsThere, KeyOk, Removed, RingOk;
      StoredLoose(keys, objs, epochs, made, k, v, m);
      if keys[k].Prepared? {
        ghost var h, i := PlaceOf(ring, keys, next, prev, k);
        UnlinkRings(ring, keys, next, prev, h, i, k, v);
        OnePlace(ring, keys, next, prev, k, h, i);
        ghost var r := Removed(ring[h], i);
        next, prev := next[prev[Slot(k)] := next[Slot(k)]], prev[next[Slot(k)] := prev[Slot(k)]];
        HeadsKept(ring, objs, h, r);
        ring := ring[h := r];
      } else {
        LooseRings(ring, keys, next, prev, k, v);
        NoPlace(ring, keys, next, prev, k);
      }
      keys := keys[k := v];
      made := made[k := m];
    }

    /** Links slot k, not chained, after link p, which is before index i of the ring of h, for a prepared key. */
    method StoreLinked(k: nat, v: Key, p: Link, ghost m: nat, ghost i: nat)
      requires Valid() && k in keys && !keys[k].Prepared? && v.Prepared? && KeyOk(v, m, objs, epochs)
      requires v.oid in objs && TypeOk(objs[v.oid], v.t) && (IsProcessType(v.t) ==> objs[v.oid].isProcess)
      requires HeadOf(v.t, v.oid) in ring && i <= |ring[HeadOf(v.t, v.oid)]|
      requires p == Before(HeadOf(v.t, v.oid), ring[HeadOf(v.t, v.oid)], i)
      requires v.t == Resume ==> forall j :: i <= j < |ring[HeadOf(v.t, v.oid)]| ==>
        IsResume(keys, ring[HeadOf(v.t, v.oid)][j])
      requires v.t != Resume ==> forall j :: 0 <= j < i ==> !IsResume(keys, ring[HeadOf(v.t, v.oid)][j])
      modifies this`keys, this`next, this`prev, this`ring, this`made
      ensures Valid() && keys == old(keys)[k := v] && made == old(made)[k := m]
      ensures ring == old(ring)[HeadOf(v.t, v.oid) := PutAt(old(ring)[HeadOf(v.t, v.oid)], i, Slot(k))]
    {
      hide RingsOk, CountsOk, HeadsThere, KeyOk, Removed, RingOk, LinkedNext, LinkedPrev, PutAt;
      ghost var h := HeadOf(v.t, v.oid);
      LinkRings(ring, keys, next, prev, h, i, k, v);
      StoredPrepared(keys, objs, epochs, made, k, v, m);
      HeadsKept(ring, objs, h, PutAt(ring[h], i, Slot(k)));
      ring := ring[h := PutAt(ring[h], i, Slot(k))];
      next, prev := LinkedNext(next, p, Slot(k)), LinkedPrev(next, prev, p, Slot(k));
      keys := keys[k := v];
      made := made[k := m];
    }

    /** link_insertAfter(ring, key), for a key that is not a Resume key. */
    method InsertAfterHead(k: nat, v: Key, ghost m: nat)
      requires Valid() && k in keys && !keys[k].Prepared? && v.Prepared? && v.t != Resume && KeyOk(v, m, objs, epochs)
      requires v.oid in objs && TypeOk(objs[v.oid], v.t) && (IsProcessType(v.t) ==> objs[v.oid].isProcess)
      modifies this`keys, this`next, this`prev, this`ring, this`made
      ensures Valid() && keys == old(keys)[k := v] && made == old(made)[k := m]
    {
      hide RingsOk, CountsOk, KeyOk, RingOk, PutAt;
      StoreLinked(k, v, HeadOf(v.t, v.oid), m, 0);
    }

    /** link_insertBefore(ring, key), for a Resume key. */
    method InsertBeforeHead(k: nat, oid: nat, ghost m: nat)
      requires Valid() && k in keys && !keys[k].Prepared? && KeyOk(Prepared(Resume, oid), m, objs, epochs)
      requires oid in objs && objs[oid].isNode && objs[oid].isProcess
      modifies this`keys, this`next, this`prev, this`ring, this`made
      ensures Valid() && keys == old(keys)[k := Prepared(Resume, oid)] && made == old(made)[k := m]
    {
      hide CountsOk, KeyOk, RingOk, PutAt;
      ghost var h := ProcRing(oid);
      LastOf(ring, keys, next, prev, h);
      StoreLinked(k, Prepared(Resume, oid), prev[ProcRing(oid)], m, |ring[h]|);
    }

    /** PrepareKeyToProcess. */
    method PrepareKeyToProcess(k: nat, v: Key, ghost m: nat)
      requires Valid() && k in keys && !keys[k].Prepared? && v.Prepared? && IsProcessType(v.t)
      requires KeyOk(v, m, objs, epochs)
      requires v.oid in objs && objs[v.oid].isNode && objs[v.oid].isProcess
      modifies this`keys, this`next, this`prev, this`ring, this`made
      ensures Valid() && keys == old(keys)[k := v] && made == old(made)[k := m]
    {
      if v.t == Resume {
        InsertBeforeHead(k, v.oid, m);
      } else {
        InsertAfterHead(k, v, m);
      }
    }

    /** node_GetProcess: the node is prepared as a process. */
    method GetProcess(oid: nat)
      requires Valid() && oid in objs && objs[oid].isNode
      modifies this`objs
      ensures Valid() && objs == old(objs)[oid := old(objs)[oid].(isProcess := true)]
    {
      hide RingsOk;
      CountsMoved(keys, objs, epochs, made, oid, objs[oid].(isProcess := true), epochs[oid]);
      objs := objs[oid := objs[oid].(isProcess := true)];
      assert epochs == epochs[oid := epochs[oid]];
    }

    /** key_DoPrepare, of an unprepared object key. It voids exactly the keys that are not live. */
    method Prepare(k: nat) returns (voided: bool)
      requires Valid() && k in keys && keys[k].Unprepared? && keys[k].oid in objs
      modifies this`keys, this`next, this`prev, this`ring, this`made, this`objs
      ensures Valid() && (voided <==> !old(Live(keys[k], objs)))
      ensures voided <==> !old(Fresh(keys[k], objs[keys[k].oid]))
      ensures !voided ==> InPlace(keys, objs, ring, k)
      ensures keys == old(keys)[k := if voided then Void else Prepared(old(keys[k].t), old(keys[k].oid))]
      ensures made == old(made)
      ensures voided ==> objs == old(objs)
      ensures !voided ==> objs == old(objs[keys[k].oid := ReadyFor(objs[keys[k].oid], keys[k].t)])
      ensures !voided && old(keys[k].t) !in {Resume, Start, Process} ==> objs == old(objs)
    {
      hide RingsOk, HeadsThere;
      var key := keys[k];
      ghost var m := made[k];
      assert KeyOk(key, m, objs, epochs);
      if !TypeOk(objs[key.oid], key.t) || Count(objs[key.oid], key.t) != key.count {
        StoreLoose(k, Void, m);
        assert made == old(made);
        return true;
      }
      var v := Prepared(key.t, key.oid);
      if IsProcessType(key.t) {
        GetProcess(key.oid);
        PrepareKeyToProcess(k, v, m);
      } else {
        InsertAfterHead(k, v, m);
      }
      PreparedPlace(k);
      assert made == old(made);
      return false;
    }

    /** key_NH_Unprepare, of a prepared object key: the object learns that its count is in use. */
    method Unprepare(k: nat)
      requires Valid() && k in keys && keys[k].Prepared?
      modifies this`keys, this`next, this`prev, this`ring, this`made, this`objs
      ensures Valid() && made == old(made)
      ensures var key := old(keys[k]);
        && key.oid in old(objs) && objs == old(objs)[key.oid := Noted(old(objs)[key.oid], key.t)]
        && keys == old(keys)[k := Unprepared(key.t, key.oid, Count(old(objs)[key.oid], key.t))] && Live(keys[k], objs)
      ensures var o, o' := old(objs[keys[k].oid]), objs[keys[k].oid];
        if keys[k].t == Resume then keys[k].count == o.callCount && o' == o.(callCntUsed := true)
        else keys[k].count == o.allocCount && o' == o.(allocCntUsed := true)
      ensures ring.Keys == old(ring).Keys
      ensures forall h :: h in ring && !On(old(keys), Slot(k), h) ==> ring[h] == old(ring)[h]
      ensures forall h, i :: h in ring && 0 <= i < |old(ring)[h]| && old(ring)[h][i] == Slot(k) ==>
        ring[h] == Removed(old(ring)[h], i)
    {
      hide RingsOk, HeadsThere;
      var key := keys[k];
      assert KeyOk(key, made[k], objs, epochs) && Live(key, objs);
      var cnt := Count(objs[key.oid], key.t);
      Note(key.oid, key.t);
      StoreLoose(k, Unprepared(key.t, key.oid, cnt), made[k]);
      assert made == old(made);
    }

    /** objH_SetFlags of OFLG_CallCntUsed or OFLG_AllocCntUsed. */
    method Note(oid: nat, t: KeyType)
      requires Valid() && oid in objs
      modifies this`objs
      ensures Valid() && objs == old(objs)[oid := Noted(old(objs)[oid], t)]
    {
      hide RingsOk;
      CountsMoved(keys, objs, epochs, made, oid, Noted(objs[oid], t), epochs[oid]);
      objs := objs[oid := Noted(objs[oid], t)];
      assert epochs == epochs[oid := epochs[oid]];
    }

    /** key_NH_Set: a copy of a prepared key is linked just before the original. */
    method Set(dst: nat, src: nat)
      requires Valid() && dst in keys && src in keys
      modifies this`keys, this`next, this`prev, this`ring, this`made
      ensures Valid() && keys == old(keys)[dst := old(keys)[src]] && made == old(made)[dst := old(made)[src]]
    {
      hide CountsOk, RingsOk, HeadsThere, RingOk, PutAt, Removed, IsResume;
      KeyAt(keys, objs, epochs, made, src);
      if dst == src {
        return;
      }
      ghost var m := made[src];
      StoreLoose(dst, if keys[src].Prepared? then Void else keys[src], m);
      if keys[src].Prepared? {
        KeyAt(keys, objs, epochs, made, src);
        ghost var h, i := PlaceOf(ring, keys, next, prev, src);
        NextOfBefore(h, ring[h], keys, next, prev, i);
        CopyPlace(h, ring[h], keys, next, prev, i, src);
        StoreLinked(dst, keys[src], prev[Slot(src)], m, i);
      }
    }

    /** key_NH_Move: the key goes to another slot, and takes its place on the ring along. */
    method Move(dst: nat, src: nat)
      requires Valid() && dst in keys && src in keys && !keys[dst].Prepared?
      modifies this`keys, this`next, this`prev, this`ring, this`made
      ensures Valid() && keys == old(keys)[dst := old(keys)[src]][src := Void]
      ensures made == old(made)[dst := old(made)[src]]
      ensures ring.Keys == old(ring).Keys
      ensures forall h, i :: h in ring && 0 <= i < |old(ring)[h]| && old(ring)[h][i] == Slot(src) ==>
        ring[h] == old(ring)[h][i := Slot(dst)]
      ensures forall h :: h in ring && !On(old(keys), Slot(src), h) ==> ring[h] == old(ring)[h]
    {
      hide CountsOk, RingsOk, HeadsThere, TargetsOk, RingOk, KeyOk;
      KeyAt(keys, objs, epochs, made, src);
      MovedCounts(keys, objs, epochs, made, dst, src);
      if keys[src].Prepared? {
        ghost var h, i := PlaceOf(ring, keys, next, prev, src);
        MoveRings(ring, keys, next, prev, h, i, dst);
        OnePlace(ring, keys, next, prev, src, h, i);
        HeadsKept(ring, objs, h, ring[h][i := Slot(dst)]);
        ring := ring[h := ring[h][i := Slot(dst)]];
        next, prev := next[Slot(dst) := next[Slot(src)]][prev[Slot(src)] := Slot(dst)],
                      prev[Slot(dst) := prev[Slot(src)]][next[Slot(src)] := Slot(dst)];
      } else {
        LooseRings(ring, keys, next, prev, dst, keys[src]);
        LooseRings(ring, keys[dst := keys[src]], next, prev, src, Void);
        NoPlace(ring, keys, next, prev, src);
      }
      made := made[dst := made[src]];
      keys := keys[dst := keys[src]][src := Void];
    }

    /** key_MakeUnpreparedCopy. */
    method MakeUnpreparedCopy(dst: nat, src: nat)
      requires Valid() && dst in keys && src in keys && !keys[dst].Prepared?
      modifies this`keys, this`next, this`prev, this`ring, this`made, this`objs
      ensures Valid() && made == old(made)[dst := old(made)[src]]
      ensures var key := old(keys[src]);
        if key.Prepared? then
          && key.oid in old(objs) && objs == old(objs)[key.oid := Noted(old(objs)[key.oid], key.t)]
          && keys == old(keys)[dst := Unprepared(key.t, key.oid, Count(old(objs)[key.oid], key.t))]
          && Live(keys[dst], objs)
        else objs == old(objs) && keys == old(keys)[dst := key]
      ensures old(keys[src].Prepared?) ==>
        var o, o' := old(objs[keys[src].oid]), objs[keys[dst].oid];
        if keys[dst].t == Resume then keys[dst].count == o.callCount && o' == o.(callCntUsed := true)
        else keys[dst].count == o.allocCount && o' == o.(allocCntUsed := true)
    {
      hide RingsOk, HeadsThere;
      var key := keys[src];
      assert KeyOk(key, made[src], objs, epochs);
      if key.Prepared? {
        var cnt := Count(objs[key.oid], key.t);
        Note(key.oid, key.t);
        StoreLoose(dst, Unprepared(key.t, key.oid, cnt), made[src]);
      } else {
        StoreLoose(dst, key, made[src]);
      }
    }

    /** key_SetToObj and key_SetToProcess: a new key in a slot that is not chained; not a Resume key. */
    method SetToObj(k: nat, oid: nat, t: KeyType)
      requires Valid() && k in keys && !keys[k].Prepared? && oid in objs && t != Resume && TypeOk(objs[oid], t)
      requires IsProcessType(t) ==> objs[oid].isProcess
      modifies this`keys, this`next, this`prev, this`ring, this`made
      ensures Valid() && keys == old(keys)[k := Prepared(t, oid)]
      ensures oid in epochs && made == old(made)[k := EpochOf(epochs[oid], t)]
    {
      InsertAfterHead(k, Prepared(t, oid), EpochOf(epochs[oid], t));
    }

    /** proc_BuildResumeKey. */
    method BuildResumeKey(oid: nat, k: nat)
      requires Valid() && k in keys && oid in objs && objs[oid].isNode && objs[oid].isProcess
      modifies this`keys, this`next, this`prev, this`ring, this`made
      ensures Valid() && keys == old(keys)[k := Prepared(Resume, oid)]
      ensures oid in epochs && made == old(made)[k := epochs[oid].call]
    {
      hide RingsOk, CountsOk, HeadsThere, TargetsOk;
      EpochThere(objs, epochs, keys, made, oid);
      ghost var m := epochs[oid].call;
      StoreLoose(k, Void, m);
      InsertBeforeHead(k, oid, m);
    }

    /** keyR_RescindAll: voids every key on a ring. */
    method RescindAll(h: Link)
      requires Valid() && h in ring
      modifies this`keys, this`next, this`prev, this`ring, this`made
      ensures Valid() && ring == old(ring)[h := []] && Voided(old(keys), old(ring)[h], keys) && made == old(made)
    {
      hide RingsOk, CountsOk, HeadsThere, TargetsOk, RingOk, Voided, Removed;
      ghost var r, keys0 := ring[h], keys;
      ghost var n := 0;
      FirstOf(ring, keys, next, prev, h);
      VoidedNone(keys);
      assert r[0..] == r && r[..0] == [];
      while next[h] != h
        invariant Valid() && n <= |r| && ring == old(ring)[h := r[n..]] && made == old(made)
        invariant Voided(keys0, r[..n], keys)
        invariant h in next && next[h] == if n < |r| then r[n] else h
        invariant n < |r| ==> r[n] != h && r[n].Slot? && r[n].k in keys && On(keys, r[n], h)
        decreases |r| - n
      {
        var k := next[h].k;
        ghost var before, keys1 := ring, keys;
        KeyAt(keys, objs, epochs, made, k);
        StoreLoose(k, Void, made[k]);
        Shrunk(before, ring, h, r, n, keys1);
        VoidedNext(keys0, r, n, keys1, keys);
        n := n + 1;
        FirstOf(ring, keys, next, prev, h);
      }
      assert r[..n] == r && r[n..] == [];
    }

    /** keyR_UnprepareAll: unprepares every key on a ring, which leaves the live keys as they are. */
    method UnprepareAll(h: Link)
      requires Valid() && h in ring
      modifies this`keys, this`next, this`prev, this`ring, this`made, this`objs
      ensures Valid() && ring == old(ring)[h := []] && made == old(made)
      ensures AllUnprepared(old(keys), old(objs), old(ring)[h], keys, objs)
    {
      hide RingsOk, CountsOk, HeadsThere, TargetsOk, RingOk, AllUnprepared, Removed;
      ghost var r, keys0, objs0 := ring[h], keys, objs;
      ghost var n := 0;
      FirstOf(ring, keys, next, prev, h);
      UnpreparedNone(keys, objs);
      assert r[0..] == r && r[..0] == [];
      while next[h] != h
        invariant Valid() && n <= |r| && ring == old(ring)[h := r[n..]] && made == old(made)
        invariant AllUnprepared(keys0, objs0, r[..n], keys, objs)
        invariant h in next && next[h] == if n < |r| then r[n] else h
        invariant n < |r| ==> r[n] != h && r[n].Slot? && r[n].k in keys && On(keys, r[n], h)
        decreases |r| - n
      {
        var k := next[h].k;
        ghost var before, keys1, objs1 := ring, keys, objs;
        Unprepare(k);
        Shrunk(before, ring, h, r, n, keys1);
        UnpreparedNext(keys0, objs0, r, n, keys1, objs1, keys, objs);
        n := n + 1;
        FirstOf(ring, keys, next, prev, h);
      }
      assert r[..n] == r && r[n..] == [];
    }

    /**
     keyR_ZapResumeKeys: voids the Resume keys of a process from the far end of its ring. The link
     of the last key left is patched only when the loop is done.
     */
    method ZapResumeRing(oid: nat)
      requires Valid() && ProcRing(oid) in ring
      modifies this`keys, this`next, this`prev, this`ring
      ensures Valid() && NonePrepared(keys, oid, true) && ResumeVoided(old(keys), oid, keys)
      ensures RingsCut(old(ring), old(keys), oid, ring)
    {
      hide RingsOk, CountsOk, HeadsThere, TargetsOk, RingOk, Voided, IsResume, Before;
      ghost var h, r := ProcRing(oid), ring[ProcRing(oid)];
      ghost var n: nat := |r|;
      var prev': Links, keys': Keys := prev, keys;
      ZapStart(ring, keys, next, prev, h);
      while prev'[ProcRing(oid)] != ProcRing(oid) && IsResume(keys', prev'[ProcRing(oid)])
        invariant keys == old(keys) && next == old(next) && prev == old(prev) && ring == old(ring)
        invariant n <= |r| && Zapping(h, r, keys, prev, n, keys', prev')
        invariant h in prev' && prev'[h] == Before(h, r, n)
        decreases n
      {
        ZapStep(ring, keys, next, prev, h, n, keys', prev');
        var pKey := prev'[ProcRing(oid)];
        prev' := prev'[ProcRing(oid) := prev'[pKey]];
        keys' := keys'[pKey.k := Void];
        n := n - 1;
      }
      var pKey := prev'[ProcRing(oid)];
      ZapEnd(ring, keys, next, prev, h, n, keys', prev');
      ZappedCounts(keys, objs, epochs, made, keys');
      HeadsKept(ring, objs, h, r[..n]);
      ring := ring[h := r[..n]];
      next, prev, keys := next[pKey := ProcRing(oid)], prev', keys';
    }

    /** node_BumpCallCount: unprepared Resume keys go stale. */
    method BumpCallCount(oid: nat)
      requires Valid() && oid in objs
      modifies this`objs
      ensures Valid() && objs == old(objs)[oid := CallsBumped(old(objs)[oid])]
      ensures objs[oid].callCount == old(objs[oid].callCount) + (if old(objs[oid].callCntUsed) then 1 else 0)
      ensures forall k :: k in keys && keys[k].Unprepared? && keys[k].t == Resume && keys[k].oid == oid ==>
        !Live(keys[k], objs)
    {
      hide RingsOk;
      var o := objs[oid];
      if o.callCntUsed {
        o := o.(callCount := o.callCount + 1, callCntUsed := false);
      }
      BumpedCalls(keys, objs, epochs, made, oid);
      objs := objs[oid := o];
    }

    /** Once the call count is bumped and no Resume key to the object is prepared, none is live. */
    ghost method CallsKilled(oid: nat)
      requires Valid() && oid in objs && NonePrepared(keys, oid, true) && !objs[oid].callCntUsed
      modifies this`epochs
      ensures Valid() && oid in old(epochs) && NoneLive(keys, objs, oid, true)
      ensures epochs == old(epochs)[oid := Epochs(old(epochs)[oid].alloc, old(epochs)[oid].call + 1)]
    {
      hide RingsOk;
      var e := Epochs(epochs[oid].alloc, epochs[oid].call + 1);
      Bumped(keys, objs, epochs, made, oid, objs[oid], e);
      assert objs[oid := objs[oid]] == objs;
      epochs := epochs[oid := e];
    }

    /** proc_ZapResumeKeys: kills every Resume key to a process, prepared or not, and no other key. */
    method ZapResumeKeys(oid: nat)
      requires Valid() && oid in objs && objs[oid].isProcess
      modifies this`keys, this`next, this`prev, this`ring, this`objs, this`epochs
      ensures Valid() && oid in objs && oid in old(epochs)
      ensures epochs == old(epochs)[oid := Epochs(old(epochs)[oid].alloc, old(epochs)[oid].call + 1)]
      ensures NoneLive(keys, objs, oid, true) && ResumeVoided(old(keys), oid, keys)
      ensures RingsCut(old(ring), old(keys), oid, ring)
      ensures objs == old(objs)[oid := CallsBumped(old(objs)[oid])]
    {
      hide RingsOk, CountsOk, TargetsOk, RingOk, NonePrepared, NoneLive, ResumeVoided, RingsCut;
      ZapResumeRing(oid);
      BumpCallCount(oid);
      CallsKilled(oid);
    }

    /** The end of objH_Rescind, once no other key to the object is prepared. */
    method BumpAllocCount(oid: nat)
      requires Valid() && oid in objs && NonePrepared(keys, oid, false)
      modifies this`objs, this`epochs
      ensures Valid() && oid in objs && oid in old(epochs)
      ensures epochs == old(epochs)[oid := Epochs(old(epochs)[oid].alloc + 1, old(epochs)[oid].call)]
      ensures objs == old(objs)[oid := old(objs)[oid].(allocCount := objs[oid].allocCount, allocCntUsed := false)]
      ensures objs[oid].allocCount == old(objs[oid].allocCount) + if old(objs[oid].allocCntUsed) then 1 else 0
      ensures NoneLive(keys, objs, oid, false)
    {
      hide RingsOk;
      ghost var e := epochs[oid];
      ghost var e' := Epochs(e.alloc + 1, e.call);
      var o := objs[oid];
      if o.allocCntUsed {
        o := o.(allocCount := o.allocCount + 1, allocCntUsed := false);
      }
      Bumped(keys, objs, epochs, made, oid, o, e');
      objs := objs[oid := o];
      epochs := epochs[oid := e'];
    }

    /**
     objH_Rescind: afterwards no key to the object, prepared or unprepared, wherever it is, conveys
     access to it; and keys to other objects are as they were.
     */
    method Rescind(oid: nat)
      requires Valid() && oid in objs
      modifies this`keys, this`next, this`prev, this`ring, this`made, this`objs, this`epochs
      ensures Valid() && made == old(made) && AllVoided(old(keys), oid, keys) && oid in objs
      ensures NoneLive(keys, objs, oid, false) && NoneLive(keys, objs, oid, true)
      ensures oid in old(epochs) && epochs == old(epochs)[oid := Killed(old(epochs)[oid], old(objs)[oid].isNode)]
      ensures objs == old(objs)[oid := Rescinded(old(objs)[oid])]
      ensures var o, o' := old(objs[oid]), objs[oid];
        && o'.allocCount == o.allocCount + (if o.allocCntUsed then 1 else 0) && !o'.allocCntUsed
        && o'.callCount == o.callCount + (if o.isNode && o.callCntUsed then 1 else 0)
        && o'.isNode == o.isNode && o'.isProcess == o.isProcess && (o.isNode ==> !o'.callCntUsed)
    {
      hide RingsOk, CountsOk, RingOk, NoneLive, NonePrepared, AllVoided, HeadsThere, TargetsOk, Live, Voided, On;
      HeadsIn(ring, objs, oid);
      ghost var keys0, objs0, r0 := keys, objs, ring[ObjRing(oid)];
      TypesThere(keys, objs);
      OnRings(ring, keys, next, prev, oid);
      RescindAll(ObjRing(oid));
      VoidedOn(keys0, r0, keys, ObjRing(oid));
      ghost var keys1 := keys;
      if objs[oid].isNode {
        BumpCallCount(oid);
        if objs[oid].isProcess {
          HeadsIn(ring, objs, oid);
          ghost var r1 := ring[ProcRing(oid)];
          OnRings(ring, keys, next, prev, oid);
          RescindAll(ProcRing(oid));
          VoidedOn(keys1, r1, keys, ProcRing(oid));
        }
      }
      BothVoided(keys0, objs0, oid, keys1, keys);
      NoneLeft(keys0, oid, keys);
      if objs0[oid].isNode {
        CallsKilled(oid);
      }
      ghost var objs1 := objs;
      BumpAllocCount(oid);
      StillDead(keys, objs1, objs, oid);
    }
  }

  lemma HeadsIn(ring: map<Link, seq<Link>>, objs: Objects, oid: nat)
    requires HeadsThere(ring, objs) && oid in objs
    ensures ObjRing(oid) in ring && ProcRing(oid) in ring
  {
  }

  /** The object after node_BumpCallCount. */
  function CallsBumped(o: Object): Object {
    o.(callCount := o.callCount + (if o.callCntUsed then 1 else 0), callCntUsed := false)
  }

  /** The object after objH_Rescind. */
  function Rescinded(o: Object): Object {
    (if o.isNode then CallsBumped(o) else o)
      .(allocCount := o.allocCount + (if o.allocCntUsed then 1 else 0), allocCntUsed := false)
  }

  function Killed(e: Epochs, isNode: bool): Epochs {
    Epochs(e.alloc + 1, if isNode then e.call + 1 else e.call)
  }

  lemma BumpedCalls(keys: Keys, objs: Objects, epochs: map<nat, Epochs>, made: map<nat, nat>, oid: nat)
    requires CountsOk(keys, objs, epochs, made) && oid in objs
    ensures CountsOk(keys, objs[oid := CallsBumped(objs[oid])], epochs, made)
    ensures forall k :: k in keys && keys[k].Unprepared? && keys[k].t == Resume && keys[k].oid == oid ==>
      !Live(keys[k], objs[oid := CallsBumped(objs[oid])])
  {
    var o := CallsBumped(objs[oid]);
    assert epochs[oid := epochs[oid]] == epochs;
    forall k | k in keys && IsObjectKey(keys[k]) && keys[k].oid == oid
      ensures KeyOk(keys[k], made[k], objs[oid := o], epochs)
      ensures keys[k].Unprepared? && keys[k].t == Resume ==> !Live(keys[k], objs[oid := o])
    {
      assert KeyOk(keys[k], made[k], objs, epochs);
    }
    CountsMoved(keys, objs, epochs, made, oid, o, epochs[oid]);
  }

  /** Prepared keys on the ring of a process are to nodes. */
  lemma TypesThere(keys: Keys, objs: Objects)
    requires TargetsOk(keys, objs)
    ensures forall k :: k in keys && keys[k].Prepared? && IsProcessType(keys[k].t) ==>
      keys[k].oid in objs && objs[keys[k].oid].isNode && objs[keys[k].oid].isProcess
  {
  }

  /** Voiding the ring of the object, and that of its process if it has one, voids all prepared keys to it. */
  lemma BothVoided(keys: Keys, objs: Objects, oid: nat, keys1: Keys, keys2: Keys)
    requires oid in objs && keys1.Keys == keys.Keys && keys2.Keys == keys.Keys
    requires forall k :: k in keys && keys[k].Prepared? && IsProcessType(keys[k].t) ==>
      keys[k].oid in objs && objs[keys[k].oid].isNode && objs[keys[k].oid].isProcess
    requires forall k :: k in keys ==> keys1[k] == if On(keys, Slot(k), ObjRing(oid)) then Void else keys[k]
    requires if objs[oid].isNode && objs[oid].isProcess then
               forall k :: k in keys ==> keys2[k] == if On(keys1, Slot(k), ProcRing(oid)) then Void else keys1[k]
             else keys2 == keys1
    ensures AllVoided(keys, oid, keys2)
  {
  }

  lemma NoneLeft(keys: Keys, oid: nat, keys': Keys)
    requires AllVoided(keys, oid, keys')
    ensures NonePrepared(keys', oid, true) && NonePrepared(keys', oid, false)
  {
  }

  /** A Resume key stays dead when the allocation count moves; one to a page never is live. */
  lemma StillDead(keys: Keys, objs: Objects, objs': Objects, oid: nat)
    requires oid in objs && oid in objs' && objs'[oid].isNode == objs[oid].isNode
    requires objs'[oid].callCount == objs[oid].callCount
    requires NonePrepared(keys, oid, true) && (objs[oid].isNode ==> NoneLive(keys, objs, oid, true))
    ensures NoneLive(keys, objs', oid, true)
  {
  }

  /** Counts and epochs of an object whose keys of the kinds killed are all unprepared. */
  lemma Bumped(keys: Keys, objs: Objects, epochs: map<nat, Epochs>, made: map<nat, nat>, oid: nat, o: Object, e: Epochs)
    requires CountsOk(keys, objs, epochs, made) && oid in objs && oid in epochs && o.isNode == objs[oid].isNode
    requires if e.call == epochs[oid].call then
               o.callCount == objs[oid].callCount && o.callCntUsed == objs[oid].callCntUsed
             else
               && e.call == epochs[oid].call + 1
               && o.callCount == objs[oid].callCount + (if objs[oid].callCntUsed then 1 else 0)
               && NonePrepared(keys, oid, true)
    requires if e.alloc == epochs[oid].alloc then
               o.allocCount == objs[oid].allocCount && o.allocCntUsed == objs[oid].allocCntUsed
             else
               && e.alloc == epochs[oid].alloc + 1
               && o.allocCount == objs[oid].allocCount + (if objs[oid].allocCntUsed then 1 else 0)
               && NonePrepared(keys, oid, false)
    ensures CountsOk(keys, objs[oid := o], epochs[oid := e], made)
    ensures e.call != epochs[oid].call ==> NoneLive(keys, objs[oid := o], oid, true)
    ensures e.alloc != epochs[oid].alloc ==> NoneLive(keys, objs[oid := o], oid, false)
  {
    forall k | k in keys && IsObjectKey(keys[k]) && keys[k].oid == oid
      ensures KeyOk(keys[k], made[k], objs[oid := o], epochs[oid := e])
      ensures EpochOf(e, keys[k].t) != EpochOf(epochs[oid], keys[k].t) ==> !Live(keys[k], objs[oid := o])
    {
      assert KeyOk(keys[k], made[k], objs, epochs);
    }
    CountsMoved(keys, objs, epochs, made, oid, o, e);
  }

  /** Where the prepared keys to an object are. */
  lemma OnRings(ring: map<Link, seq<Link>>, keys: Keys, next: Links, prev: Links, oid: nat)
    requires RingsOk(ring, keys, next, prev)
    ensures forall h, k :: h in ring && k in keys ==> (Slot(k) in ring[h] <==> On(keys, Slot(k), h))
  {
    forall h, k | h in ring && k in keys
      ensures Slot(k) in ring[h] <==> On(keys, Slot(k), h)
    {
      assert RingOk(h, ring[h], keys, next, prev);
    }
  }

  lemma VoidedOn(keys: Keys, r: seq<Link>, keys': Keys, h: Link)
    requires Voided(keys, r, keys') && forall k :: k in keys ==> (Slot(k) in r <==> On(keys, Slot(k), h))
    ensures keys'.Keys == keys.Keys && forall k :: k in keys ==>
      keys'[k] == if On(keys, Slot(k), h) then Void else keys[k]
  {
  }

  /** The ring of head h, with the slots from index n on already voided. */
  ghost predicate Zapping(h: Link, r: seq<Link>, keys: Keys, prev: Links, n: nat, keys': Keys, prev': Links)
    requires n <= |r|
  {
    && prev' == prev[h := Before(h, r, n)] && Voided(keys, r[n..], keys')
    && forall i :: n <= i < |r| ==> IsResume(keys, r[i])
  }

  lemma ZapStart(ring: map<Link, seq<Link>>, keys: Keys, next: Links, prev: Links, h: Link)
    requires RingsOk(ring, keys, next, prev) && h in ring
    ensures Zapping(h, ring[h], keys, prev, |ring[h]|, keys, prev) && h in prev
    ensures prev[h] == Before(h, ring[h], |ring[h]|)
  {
    hide IsRing, ResumeLast;
    LastOf(ring, keys, next, prev, h);
  }

  /** One key of the loop of keyR_ZapResumeKeys. */
  lemma ZapStep(ring: map<Link, seq<Link>>, keys: Keys, next: Links, prev: Links, h: Link, n: nat, keys': Keys,
                prev': Links)
    requires RingsOk(ring, keys, next, prev) && h in ring && n <= |ring[h]|
    requires Zapping(h, ring[h], keys, prev, n, keys', prev')
    requires h in prev' && prev'[h] == Before(h, ring[h], n) != h && IsResume(keys', prev'[h])
    ensures n > 0
    ensures var x := prev'[h];
      && x.Slot? && x.k in keys' && x in prev'
      && Zapping(h, ring[h], keys, prev, n - 1, keys'[x.k := Void], prev'[h := prev'[x]])
      && prev'[h := prev'[x]][h] == Before(h, ring[h], n - 1)
  {
    hide IsRing, ResumeLast;
    var r := ring[h];
    assert n > 0 && prev'[h] == r[n - 1];
    NextOfBefore(h, r, keys, next, prev, n - 1);
    assert On(keys, r[n - 1], h);
    assert r[n - 1..] == [r[n - 1]] + r[n..];
    assert r[n - 1] !in r[n..] by {
      SlotsApart(h, r, keys, next, prev);
    }
    assert prev'[r[n - 1]] == prev[r[n - 1]];
  }

  lemma SlotsApart(h: Link, r: seq<Link>, keys: Keys, next: Links, prev: Links)
    requires RingOk(h, r, keys, next, prev)
    ensures forall i, j :: 0 <= i < j < |r| ==> r[i] != r[j]
    ensures forall i :: 0 <= i < |r| ==> r[i] != h
  {
    var c := [h] + r;
    assert forall i :: 0 <= i < |r| ==> c[i + 1] == r[i];
    assert c[0] == h;
  }

  /** The patch at the end of keyR_ZapResumeKeys makes a ring of the keys that are left. */
  lemma ZapEnd(ring: map<Link, seq<Link>>, keys: Keys, next: Links, prev: Links, h: Link, n: nat, keys': Keys,
               prev': Links)
    requires RingsOk(ring, keys, next, prev) && h in ring && n <= |ring[h]|
    requires Zapping(h, ring[h], keys, prev, n, keys', prev')
    requires Before(h, ring[h], n) == h || !IsResume(keys', Before(h, ring[h], n))
    ensures RingsOk(ring[h := ring[h][..n]], keys', next[Before(h, ring[h], n) := h], prev')
    ensures forall i :: 0 <= i < n ==> !IsResume(keys, ring[h][i])
    ensures keys'.Keys == keys.Keys && forall k :: k in keys ==>
      keys'[k] == if keys[k].Prepared? && keys[k].t == Resume && HeadOf(Resume, keys[k].oid) == h then Void else keys[k]
    ensures forall x :: x in ring[h][..n] <==> x in ring[h] && !IsResume(keys, x)
  {
    hide IsRing, ResumeLast, LinksOn, ChangedOn;
    var r := ring[h];
    assert RingOk(h, r, keys, next, prev);
    SlotsApart(h, r, keys, next, prev);
    PrefixNotResume(h, r, keys, next, prev, n, keys', prev');
    ZapFacts(h, r, keys, n);
    NextOfBefore(h, r, keys, next, prev, n);
    CutRing(h, r, keys, next, prev, n, keys', next[Before(h, r, n) := h], prev');
    CutChanged(h, r, keys, next, prev, n, keys', next[Before(h, r, n) := h], prev');
    RingsChanged(ring, keys, next, prev, h, keys', r[..n], next[Before(h, r, n) := h], prev');
  }

  lemma CutChanged(h: Link, r: seq<Link>, keys: Keys, next: Links, prev: Links, n: nat, keys': Keys, next': Links,
                   prev': Links)
    requires n <= |r| && Voided(keys, r[n..], keys') && forall x :: x in r ==> On(keys, x, h)
    requires next' == next[Before(h, r, n) := h] && prev' == prev[h := Before(h, r, n)]
    ensures ChangedOn(keys, keys', h) && LinksOn(h, r, keys, keys', next, next')
    ensures LinksOn(h, r, keys, keys', prev, prev')
  {
    assert r == r[..n] + r[n..];
  }

  /** What the loop has left are not Resume keys. */
  lemma PrefixNotResume(h: Link, r: seq<Link>, keys: Keys, next: Links, prev: Links, n: nat, keys': Keys, prev': Links)
    requires RingOk(h, r, keys, next, prev) && n <= |r| && Zapping(h, r, keys, prev, n, keys', prev')
    requires forall i, j :: 0 <= i < j < |r| ==> r[i] != r[j]
    requires Before(h, r, n) == h || !IsResume(keys', Before(h, r, n))
    requires forall i :: 0 <= i < |r| ==> r[i] != h
    ensures forall i :: 0 <= i < n ==> !IsResume(keys, r[i])
  {
    hide IsRing;
    if n > 0 {
      var x := r[n - 1];
      assert x in r && On(keys, x, h);
      assert x !in r[n..];
      assert !IsResume(keys, x);
    }
  }

  lemma ZapFacts(h: Link, r: seq<Link>, keys: Keys, n: nat)
    requires n <= |r| && (forall i, j :: 0 <= i < j < |r| ==> r[i] != r[j])
    requires forall i :: 0 <= i < |r| ==> (IsResume(keys, r[i]) <==> n <= i)
    requires forall k :: k in keys && On(keys, Slot(k), h) ==> Slot(k) in r
    requires forall x :: x in r ==> On(keys, x, h)
    ensures forall x :: x in r[..n] <==> x in r && !IsResume(keys, x)
    ensures forall k :: k in keys ==> (Slot(k) in r[n..] <==> IsResume(keys, Slot(k)) && On(keys, Slot(k), h))
  {
    hide IsResume, On;
    assert r == r[..n] + r[n..];
    forall x
      ensures x in r[..n] <==> x in r && !IsResume(keys, x)
      ensures x in r[n..] <==> x in r && IsResume(keys, x)
    {
      if x in r {
        var i :| 0 <= i < |r| && r[i] == x;
        assert i < n ==> r[..n][i] == x;
        assert i >= n ==> r[n..][i - n] == x;
      }
    }
  }

  /** The first n slots of a ring, linked to the head. */
  lemma CutRing(h: Link, r: seq<Link>, keys: Keys, next: Links, prev: Links, n: nat, keys': Keys, next': Links,
                prev': Links)
    requires RingOk(h, r, keys, next, prev) && n <= |r| && Before(h, r, n) in next
    requires next' == next[Before(h, r, n) := h] && prev' == prev[h := Before(h, r, n)]
    requires Voided(keys, r[n..], keys')
    requires forall x :: x in r[..n] <==> x in r && !IsResume(keys, x)
    requires forall k :: k in keys ==> (Slot(k) in r[n..] <==> IsResume(keys, Slot(k)) && On(keys, Slot(k), h))
    ensures RingOk(h, r[..n], keys', next', prev')
  {
    CutLinks(h, r, next, prev, n, next', prev');
    hide IsRing;
    var s := r[..n];
    forall x | x in s
      ensures On(keys', x, h) && !IsResume(keys', x)
    {
      assert On(keys, x, h);
    }
    assert forall i :: 0 <= i < |s| ==> s[i] in s;
    assert ResumeLast(s, keys');
  }

  lemma CutLinks(h: Link, r: seq<Link>, next: Links, prev: Links, n: nat, next': Links, prev': Links)
    requires IsRing([h] + r, next, prev) && n <= |r| && Before(h, r, n) in next
    requires next' == next[Before(h, r, n) := h] && prev' == prev[h := Before(h, r, n)]
    ensures IsRing([h] + r[..n], next', prev')
  {
    var c, d := [h] + r, [h] + r[..n];
    assert forall i :: 0 <= i < |d| ==> d[i] == c[i];
    assert Before(h, r, n) == c[n] && |d| == n + 1;
  }

  lemma ZappedCounts(keys: Keys, objs: Objects, epochs: map<nat, Epochs>, made: map<nat, nat>, keys': Keys)
    requires CountsOk(keys, objs, epochs, made) && TargetsOk(keys, objs) && keys'.Keys == keys.Keys
    requires forall k :: k in keys ==> keys'[k] == keys[k] || keys'[k] == Void
    ensures CountsOk(keys', objs, epochs, made) && TargetsOk(keys', objs)
  {
    forall k | k in keys'
      ensures KeyOk(keys'[k], made[k], objs, epochs)
    {
      assert KeyOk(keys[k], made[k], objs, epochs);
    }
  }

  lemma KeyAt(keys: Keys, objs: Objects, epochs: map<nat, Epochs>, made: map<nat, nat>, k: nat)
    requires CountsOk(keys, objs, epochs, made) && k in keys
    ensures k in made && KeyOk(keys[k], made[k], objs, epochs) && made[k := made[k]] == made
  {
  }

  lemma EpochThere(objs: Objects, epochs: map<nat, Epochs>, keys: Keys, made: map<nat, nat>, oid: nat)
    requires CountsOk(keys, objs, epochs, made) && oid in objs
    ensures oid in epochs
  {
  }

  /** A copy before a key is on its side of the ring. */
  lemma CopyPlace(h: Link, r: seq<Link>, keys: Keys, next: Links, prev: Links, i: nat, k: nat)
    requires RingOk(h, r, keys, next, prev) && i < |r| && r[i] == Slot(k) && k in keys && keys[k].Prepared?
    ensures keys[k].t == Resume ==> forall j :: i <= j < |r| ==> IsResume(keys, r[j])
    ensures keys[k].t != Resume ==> forall j :: 0 <= j < i ==> !IsResume(keys, r[j])
  {
    hide IsRing;
    assert IsResume(keys, r[i]) <==> keys[k].t == Resume;
  }

  /** What follows the head. */
  lemma FirstOf(ring: map<Link, seq<Link>>, keys: Keys, next: Links, prev: Links, h: Link)
    requires RingsOk(ring, keys, next, prev) && h in ring
    ensures h in next && next[h] == (if ring[h] == [] then h else ring[h][0])
    ensures ring[h] != [] ==> ring[h][0] != h && ring[h][0].Slot? && On(keys, ring[h][0], h)
  {
    hide IsRing, ResumeLast;
    NextOfBefore(h, ring[h], keys, next, prev, 0);
    assert ring[h] != [] ==> ring[h][0] in ring[h];
  }

  lemma Shrunk(before: map<Link, seq<Link>>, ring: map<Link, seq<Link>>, h: Link, r: seq<Link>, n: nat, keys: Keys)
    requires ring.Keys == before.Keys && h in before && n < |r| && before[h] == r[n..] && On(keys, r[n], h)
    requires forall g :: g in ring && !On(keys, r[n], g) ==> ring[g] == before[g]
    requires ring[h] == Removed(before[h], 0)
    ensures ring == before[h := r[n + 1..]]
  {
    assert Removed(r[n..], 0) == r[n + 1..];
  }

  lemma VoidedNone(keys: Keys)
    ensures Voided(keys, [], keys)
  {
  }

  lemma VoidedNext(keys0: Keys, r: seq<Link>, n: nat, keys: Keys, keys': Keys)
    requires n < |r| && Voided(keys0, r[..n], keys) && r[n].Slot? && r[n].k in keys && keys' == keys[r[n].k := Void]
    ensures Voided(keys0, r[..n + 1], keys')
  {
    assert r[..n + 1] == r[..n] + [r[n]];
  }

  /** Objects may come to know that their counts are in use, and have not changed otherwise. */
  ghost predicate FlagsSet(objs: Objects, objs': Objects) {
    && objs'.Keys == objs.Keys
    && (forall o :: o in objs ==>
        objs'[o] == objs[o].(allocCntUsed := objs'[o].allocCntUsed, callCntUsed := objs'[o].callCntUsed))
    && (forall o, t :: o in objs && Used(objs[o], t) ==> Used(objs'[o], t))
  }

  lemma FlagNoted(objs: Objects, oid: nat, t: KeyType)
    requires oid in objs
    ensures FlagsSet(objs, objs[oid := Noted(objs[oid], t)]) && Used(Noted(objs[oid], t), t)
  {
  }

  lemma FlagsTrans(a: Objects, b: Objects, c: Objects)
    requires FlagsSet(a, b) && FlagsSet(b, c)
    ensures FlagsSet(a, c)
  {
  }

  lemma FlagKept(objs: Objects, objs': Objects)
    requires FlagsSet(objs, objs')
    ensures objs'.Keys == objs.Keys && forall o, t :: o in objs && Used(objs[o], t) ==> Used(objs'[o], t)
    ensures forall o, t :: o in objs ==> Count(objs'[o], t) == Count(objs[o], t)
  {
  }

  /** The objects have the same counts, and know of the keys of ring r, now unprepared. */
  ghost predicate AllUnprepared(keys: Keys, objs: Objects, r: seq<Link>, keys': Keys, objs': Objects) {
    && keys'.Keys == keys.Keys && FlagsSet(objs, objs') && objs'.Keys == objs.Keys
    && (forall k :: k in keys && Slot(k) !in r ==> keys'[k] == keys[k])
    && (forall k :: k in keys && Slot(k) in r ==>
        keys[k].Prepared? && keys[k].oid in objs && Used(objs'[keys[k].oid], keys[k].t))
    && (forall k :: k in keys && Slot(k) in r ==>
        keys'[k] == Unprepared(keys[k].t, keys[k].oid, Count(objs[keys[k].oid], keys[k].t)))
    && (forall k :: k in keys ==> (Live(keys'[k], objs') <==> Live(keys[k], objs)))
  }

  lemma UnpreparedNone(keys: Keys, objs: Objects)
    ensures AllUnprepared(keys, objs, [], keys, objs)
  {
  }

  lemma UnpreparedNext(keys0: Keys, objs0: Objects, r: seq<Link>, n: nat, keys: Keys, objs: Objects, keys': Keys,
                       objs': Objects)
    requires n < |r| && AllUnprepared(keys0, objs0, r[..n], keys, objs) && r[n].Slot? && r[n].k in keys
    requires keys[r[n].k].Prepared?
    requires var key := keys[r[n].k];
      && key.oid in objs && objs' == objs[key.oid := Noted(objs[key.oid], key.t)]
      && keys' == keys[r[n].k := Unprepared(key.t, key.oid, Count(objs[key.oid], key.t))] && Live(keys'[r[n].k], objs')
    ensures AllUnprepared(keys0, objs0, r[..n + 1], keys', objs')
  {
    hide Live, Count, Used, Noted, FlagsSet;
    assert r[..n + 1] == r[..n] + [r[n]];
    var x := r[n].k;
    FlagNoted(objs, keys[x].oid, keys[x].t);
    FlagKept(objs0, objs);
    FlagKept(objs, objs');
    FlagsTrans(objs0, objs, objs');
    forall k | k in keys0
      ensures Live(keys'[k], objs') <==> Live(keys0[k], objs0)
    {
      LiveNoted(keys'[k], objs, keys[x].oid, keys[x].t);
      LiveNoted(keys[k], objs, keys[x].oid, keys[x].t);
      PreparedLive(keys[x], objs);
    }
  }

  lemma LiveNoted(key: Key, objs: Objects, oid: nat, t: KeyType)
    requires oid in objs
    ensures Live(key, objs[oid := Noted(objs[oid], t)]) <==> Live(key, objs)
  {
  }

  lemma PreparedLive(key: Key, objs: Objects)
    requires key.Prepared? && key.oid in objs
    ensures Live(key, objs)
  {
  }

  lemma StoredPrepared(keys: Keys, objs: Objects, epochs: map<nat, Epochs>, made: map<nat, nat>, k: nat, v: Key, m: nat)
    requires CountsOk(keys, objs, epochs, made) && TargetsOk(keys, objs) && k in keys && v.Prepared?
    requires KeyOk(v, m, objs, epochs)
    requires v.oid in objs && TypeOk(objs[v.oid], v.t) && (IsProcessType(v.t) ==> objs[v.oid].isProcess)
    ensures CountsOk(keys[k := v], objs, epochs, made[k := m]) && TargetsOk(keys[k := v], objs)
  {
    hide KeyOk;
  }

  lemma LastOf(ring: map<Link, seq<Link>>, keys: Keys, next: Links, prev: Links, h: Link)
    requires RingsOk(ring, keys, next, prev) && h in ring
    ensures h in prev && prev[h] == Before(h, ring[h], |ring[h]|)
  {
    hide IsRing, ResumeLast;
    NextOfBefore(h, ring[h], keys, next, prev, |ring[h]|);
  }

  lemma StoredLoose(keys: Keys, objs: Objects, epochs: map<nat, Epochs>, made: map<nat, nat>, k: nat, v: Key, m: nat)
    requires CountsOk(keys, objs, epochs, made) && TargetsOk(keys, objs) && k in keys && !v.Prepared?
    requires KeyOk(v, m, objs, epochs)
    ensures CountsOk(keys[k := v], objs, epochs, made[k := m]) && TargetsOk(keys[k := v], objs)
  {
    hide KeyOk;
  }

  lemma HeadsKept(ring: map<Link, seq<Link>>, objs: Objects, h: Link, r: seq<Link>)
    requires HeadsThere(ring, objs)
    ensures HeadsThere(ring[h := r], objs)
  {
  }

  /** A slot is in one place only. */
  lemma OnePlace(ring: map<Link, seq<Link>>, keys: Keys, next: Links, prev: Links, k: nat, h: Link, i: nat)
    requires RingsOk(ring, keys, next, prev) && h in ring && i < |ring[h]| && ring[h][i] == Slot(k) && k in keys
    ensures forall g :: g in ring && On(keys, Slot(k), g) ==> g == h
    ensures forall g, j :: g in ring && 0 <= j < |ring[g]| && ring[g][j] == Slot(k) ==> g == h && j == i
  {
    forall g, j | g in ring && 0 <= j < |ring[g]| && ring[g][j] == Slot(k)
      ensures g == h && j == i
    {
      assert RingOk(g, ring[g], keys, next, prev) && RingOk(h, ring[h], keys, next, prev);
      assert On(keys, ring[g][j], g) && On(keys, ring[h][i], h);
      var c := [h] + ring[h];
      assert c[i + 1] == ring[h][i] && c[j + 1] == ring[h][j];
    }
    assert On(keys, Slot(k), h);
  }

  lemma NoPlace(ring: map<Link, seq<Link>>, keys: Keys, next: Links, prev: Links, k: nat)
    requires RingsOk(ring, keys, next, prev) && k in keys && !keys[k].Prepared?
    ensures forall g, j :: g in ring && 0 <= j < |ring[g]| ==> ring[g][j] != Slot(k)
  {
    forall g, j | g in ring && 0 <= j < |ring[g]|
      ensures ring[g][j] != Slot(k)
    {
      assert RingOk(g, ring[g], keys, next, prev);
      assert ring[g][j] in ring[g];
    }
  }

  lemma MovedCounts(keys: Keys, objs: Objects, epochs: map<nat, Epochs>, made: map<nat, nat>, dst: nat, src: nat)
    requires CountsOk(keys, objs, epochs, made) && TargetsOk(keys, objs) && dst in keys && src in keys
    ensures src in made && CountsOk(keys[dst := keys[src]][src := Void], objs, epochs, made[dst := made[src]])
    ensures TargetsOk(keys[dst := keys[src]][src := Void], objs)
  {
    hide KeyOk;
    VoidOk(made[src], objs, epochs);
  }

  lemma VoidOk(made: nat, objs: Objects, epochs: map<nat, Epochs>)
    ensures KeyOk(Void, made, objs, epochs)
  {
  }

  /** The links of key_NH_Move. */
  lemma MoveRings(ring: map<Link, seq<Link>>, keys: Keys, next: Links, prev: Links, h: Link, i: nat, dst: nat)
    requires RingsOk(ring, keys, next, prev) && h in ring && i < |ring[h]| && ring[h][i].Slot? && ring[h][i].k in keys
    requires keys[ring[h][i].k].Prepared? && dst in keys && !keys[dst].Prepared?
    ensures var x := ring[h][i];
      && x in next && x in prev
      && RingsOk(ring[h := ring[h][i := Slot(dst)]], keys[dst := keys[x.k]][x.k := Void],
                 next[Slot(dst) := next[x]][prev[x] := Slot(dst)], prev[Slot(dst) := prev[x]][next[x] := Slot(dst)])
  {
    hide IsRing, ResumeLast;
    var r := ring[h];
    assert RingOk(h, r, keys, next, prev);
    Neighbours(h, r, keys, next, prev, i);
    assert On(keys, r[i], h);
    var keys' := keys[dst := keys[r[i].k]][r[i].k := Void];
    var next', prev' := next[Slot(dst) := next[r[i]]][prev[r[i]] := Slot(dst)],
      prev[Slot(dst) := prev[r[i]]][next[r[i]] := Slot(dst)];
    Moved(h, r, keys, next, prev, i, dst, keys', next', prev');
    RingsChanged(ring, keys, next, prev, h, keys', r[i := Slot(dst)], next', prev');
  }
}
