/**
 The key rings of src/sys/kernel/kern_KeyRing.c and kern_Key.c: every prepared key to an object is on
 the ring of the object, or of its process, and no other key is on a ring.
 */
module KeyRings {
  import opened Ring

  /** Key types. The first three are linked to the process when prepared. */
  datatype KeyType = Resume | Start | Process | Page | Node | Forwarder | GPT

  /** A key: void, of a type without an object, prepared, or unprepared with an OID and a count. */
  datatype Key = Void | Misc(data: nat) | Prepared(t: KeyType, oid: nat) | Unprepared(t: KeyType, oid: nat, count: nat)

  /** A link of a ring: the head in an object or process, or the slot that holds a key. */
  datatype Link = ObjRing(oid: nat) | ProcRing(oid: nat) | Slot(k: nat)

  type Links = map<Link, Link>
  type Keys = map<nat, Key>

  predicate IsProcessType(t: KeyType) {
    t == Resume || t == Start || t == Process
  }

  function HeadOf(t: KeyType, oid: nat): Link {
    if IsProcessType(t) then ProcRing(oid) else ObjRing(oid)
  }

  /** The key in slot x is prepared to the object or process of head h. */
  predicate On(keys: Keys, x: Link, h: Link) {
    x.Slot? && x.k in keys && keys[x.k].Prepared? && HeadOf(keys[x.k].t, keys[x.k].oid) == h
  }

  predicate IsResume(keys: Keys, x: Link) {
    x.Slot? && x.k in keys && keys[x.k].Prepared? && keys[x.k].t == Resume
  }

  /** Seen from the head, the Resume keys come last. */
  ghost predicate ResumeLast(r: seq<Link>, keys: Keys) {
    forall i, j :: 0 <= i < j < |r| && IsResume(keys, r[i]) ==> IsResume(keys, r[j])
  }

  /** The ring of head h: the slots after it, in order. */
  ghost predicate RingOk(h: Link, r: seq<Link>, keys: Keys, next: Links, prev: Links) {
    && IsRing([h] + r, next, prev) && ResumeLast(r, keys)
    && (forall x :: x in r ==> On(keys, x, h))
    && (forall k :: k in keys && On(keys, Slot(k), h) ==> Slot(k) in r)
  }

  ghost predicate RingsOk(ring: map<Link, seq<Link>>, keys: Keys, next: Links, prev: Links) {
    && (forall h :: h in ring ==> !h.Slot? && RingOk(h, ring[h], keys, next, prev))
    && (forall k :: k in keys ==> Slot(k) in next && Slot(k) in prev)
    && (forall k :: k in keys && keys[k].Prepared? ==> HeadOf(keys[k].t, keys[k].oid) in ring)
  }

  /** The slots that change between keys and keys' are on the ring of h, or come on it, or are on none. */
  ghost predicate ChangedOn(keys: Keys, keys': Keys, h: Link) {
    && keys'.Keys == keys.Keys
    && forall k :: k in keys && keys'[k] != keys[k] ==>
      (keys[k].Prepared? ==> On(keys, Slot(k), h)) && (keys'[k].Prepared? ==> On(keys', Slot(k), h))
  }

  predicate Touched(keys: Keys, keys': Keys, x: Link) {
    x.Slot? && x.k in keys && x.k in keys' && keys'[x.k] != keys[x.k]
  }

  /** Only links of the ring of h and of slots that change are written. */
  ghost predicate LinksOn(h: Link, r: seq<Link>, keys: Keys, keys': Keys, links: Links, links': Links) {
    forall x :: x in links ==> x in links' && (x != h && x !in r && !Touched(keys, keys', x) ==> links'[x] == links[x])
  }

  /** A change on one ring leaves the other rings as they are. */
  lemma RingsChanged(ring: map<Link, seq<Link>>, keys: Keys, next: Links, prev: Links, h: Link, keys': Keys,
                     r: seq<Link>, next': Links, prev': Links)
    requires RingsOk(ring, keys, next, prev) && h in ring && ChangedOn(keys, keys', h)
    requires RingOk(h, r, keys', next', prev')
    requires LinksOn(h, ring[h], keys, keys', next, next') && LinksOn(h, ring[h], keys, keys', prev, prev')
    ensures RingsOk(ring[h := r], keys', next', prev')
  {
    hide RingOk;
    forall g | g in ring && g != h
      ensures RingOk(g, ring[g], keys', next', prev')
    {
      OtherRing(ring, keys, next, prev, h, g, keys', next', prev');
    }
  }

  lemma OtherRing(ring: map<Link, seq<Link>>, keys: Keys, next: Links, prev: Links, h: Link, g: Link, keys': Keys,
                  next': Links, prev': Links)
    requires RingsOk(ring, keys, next, prev) && h in ring && g in ring && g != h && ChangedOn(keys, keys', h)
    requires LinksOn(h, ring[h], keys, keys', next, next') && LinksOn(h, ring[h], keys, keys', prev, prev')
    ensures RingOk(g, ring[g], keys', next', prev')
  {
    hide IsRing;
    var r := ring[g];
    assert RingOk(g, r, keys, next, prev) && RingOk(h, ring[h], keys, next, prev);
    forall x | x in r
      ensures On(keys', x, g) && x !in ring[h] && !Touched(keys, keys', x)
      ensures (IsResume(keys', x) <==> IsResume(keys, x))
    {
      assert On(keys, x, g);
    }
    OtherResume(r, keys, keys');
    RingElsewhere([g] + r, next, prev, next', prev', h, ring[h], keys, keys');
  }

  lemma OtherResume(r: seq<Link>, keys: Keys, keys': Keys)
    requires ResumeLast(r, keys) && forall x :: x in r ==> (IsResume(keys', x) <==> IsResume(keys, x))
    ensures ResumeLast(r, keys')
  {
    assert forall i :: 0 <= i < |r| ==> r[i] in r;
  }

  lemma RingElsewhere(c: seq<Link>, next: Links, prev: Links, next': Links, prev': Links, h: Link, q: seq<Link>,
                      keys: Keys, keys': Keys)
    requires IsRing(c, next, prev) && forall y :: y in c ==> y != h && y !in q && !Touched(keys, keys', y)
    requires LinksOn(h, q, keys, keys', next, next') && LinksOn(h, q, keys, keys', prev, prev')
    ensures IsRing(c, next', prev')
  {
    forall y | y in c
      ensures y in next' && y in prev' && next'[y] == next[y] && prev'[y] == prev[y]
    {
      var i :| 0 <= i < |c| && c[i] == y;
    }
    RingFrame(c, next, prev, next', prev');
  }

  // ---------- Linking and unlinking ----------

  function LinkedNext(next: Links, p: Link, x: Link): Links
    requires p in next
  {
    next[p := x][x := next[p]]
  }

  function LinkedPrev(next: Links, prev: Links, p: Link, x: Link): Links
    requires p in next
  {
    prev[next[p] := x][x := p]
  }

  /** r with x put in so that it is at index i. */
  function PutAt(r: seq<Link>, i: nat, x: Link): (s: seq<Link>)
    requires i <= |r|
    ensures |s| == |r| + 1 && s[i] == x
    ensures forall y :: y in s <==> y in r || y == x
  {
    assert r == r[..i] + r[i..];
    r[..i] + [x] + r[i..]
  }

  /** The link before index i of the ring of h. */
  function Before(h: Link, r: seq<Link>, i: nat): Link
    requires i <= |r|
  {
    if i == 0 then h else r[i - 1]
  }

  lemma ChainedRing(h: Link, r: seq<Link>, next: Links, prev: Links, x: Link, i: nat)
    requires IsRing([h] + r, next, prev) && i <= |r| && x !in r && x != h
    ensures Before(h, r, i) in next
    ensures var p := Before(h, r, i);
      IsRing([h] + PutAt(r, i, x), LinkedNext(next, p, x), LinkedPrev(next, prev, p, x))
  {
    var c, s, p := [h] + r, PutAt(r, i, x), Before(h, r, i);
    assert c[i] == p && (i < |r| ==> r[i] == c[i + 1]);
    assert InsertedAfter(c, i, x) == [h] + s;
    assert x !in c;
    hide IsRing;
    RingInsert(c, i, x, next, prev, LinkedNext(next, p, x), LinkedPrev(next, prev, p, x));
  }

  lemma ChainedResume(r: seq<Link>, keys: Keys, k: nat, v: Key, i: nat)
    requires ResumeLast(r, keys) && i <= |r| && Slot(k) !in r && v.Prepared?
    requires v.t == Resume ==> forall j :: i <= j < |r| ==> IsResume(keys, r[j])
    requires v.t != Resume ==> forall j :: 0 <= j < i ==> !IsResume(keys, r[j])
    ensures ResumeLast(PutAt(r, i, Slot(k)), keys[k := v])
  {
    var s, keys' := PutAt(r, i, Slot(k)), keys[k := v];
    forall a | 0 <= a < |r|
      ensures IsResume(keys', r[a]) <==> IsResume(keys, r[a])
    {
      assert r[a] in r;
    }
    forall a, b | 0 <= a < b < |s| && IsResume(keys', s[a])
      ensures IsResume(keys', s[b])
    {
      var a', b' := if a < i then a else a - 1, if b < i then b else b - 1;
      assert a != i ==> s[a] == r[a'];
      assert b != i ==> s[b] == r[b'];
    }
  }

  /** Linking slot k after the link before index i, for a key prepared to h. */
  lemma Chained(h: Link, r: seq<Link>, keys: Keys, next: Links, prev: Links, k: nat, v: Key, i: nat)
    requires RingOk(h, r, keys, next, prev) && !h.Slot? && k in keys && !keys[k].Prepared? && i <= |r|
    requires v.Prepared? && HeadOf(v.t, v.oid) == h
    requires v.t == Resume ==> forall j :: i <= j < |r| ==> IsResume(keys, r[j])
    requires v.t != Resume ==> forall j :: 0 <= j < i ==> !IsResume(keys, r[j])
    ensures Before(h, r, i) in next
    ensures var p := Before(h, r, i);
      RingOk(h, PutAt(r, i, Slot(k)), keys[k := v], LinkedNext(next, p, Slot(k)), LinkedPrev(next, prev, p, Slot(k)))
  {
    hide IsRing, ResumeLast, LinkedNext, LinkedPrev, Before;
    assert Slot(k) !in r;
    ChainedRing(h, r, next, prev, Slot(k), i);
    ChainedResume(r, keys, k, v, i);
  }

  lemma UnchainedRing(h: Link, r: seq<Link>, next: Links, prev: Links, i: nat, next': Links, prev': Links)
    requires IsRing([h] + r, next, prev) && i < |r|
    requires r[i] in next && r[i] in prev && next[r[i]] in prev && prev[r[i]] in next
    requires next' == next[prev[r[i]] := next[r[i]]] && prev' == prev[next[r[i]] := prev[r[i]]]
    ensures IsRing([h] + Removed(r, i), next', prev')
    ensures forall x :: x in Removed(r, i) <==> x in r && x != r[i]
  {
    var c := [h] + r;
    assert c[i + 1] == r[i] && Removed(c, i + 1) == [h] + Removed(r, i);
    assert forall a :: 0 <= a < |r| ==> c[a + 1] == r[a];
    assert forall a, b :: 0 <= a < b < |r| ==> r[a] != r[b];
    hide IsRing;
    RingRemove(c, i + 1, next, prev, next', prev');
    RemovedMembers(r, i);
  }

  lemma UnchainedResume(r: seq<Link>, keys: Keys, i: nat, v: Key)
    requires ResumeLast(r, keys) && i < |r| && r[i].Slot? && forall x :: x in Removed(r, i) <==> x in r && x != r[i]
    ensures ResumeLast(Removed(r, i), keys[r[i].k := v])
  {
    var s, keys' := Removed(r, i), keys[r[i].k := v];
    forall a | 0 <= a < |s|
      ensures IsResume(keys', s[a]) <==> IsResume(keys, s[a])
    {
      assert s[a] in s;
    }
    forall a, b | 0 <= a < b < |s| && IsResume(keys', s[a])
      ensures IsResume(keys', s[b])
    {
      var a', b' := if a < i then a else a + 1, if b < i then b else b + 1;
      assert s[a] == r[a'] && s[b] == r[b'];
    }
  }

  /** Unlinking the slot at index i, whose key is no longer prepared. */
  lemma Unchained(h: Link, r: seq<Link>, keys: Keys, next: Links, prev: Links, i: nat, v: Key, next': Links,
                  prev': Links)
    requires RingOk(h, r, keys, next, prev) && i < |r| && r[i].Slot? && !v.Prepared?
    requires r[i] in next && r[i] in prev && next[r[i]] in prev && prev[r[i]] in next
    requires next' == next[prev[r[i]] := next[r[i]]] && prev' == prev[next[r[i]] := prev[r[i]]]
    ensures RingOk(h, Removed(r, i), keys[r[i].k := v], next', prev')
  {
    hide IsRing, ResumeLast, Removed;
    UnchainedRing(h, r, next, prev, i, next', prev');
    UnchainedResume(r, keys, i, v);
  }

  /** The links around the slot at index i of a ring. */
  lemma Neighbours(h: Link, r: seq<Link>, keys: Keys, next: Links, prev: Links, i: nat)
    requires RingOk(h, r, keys, next, prev) && i < |r|
    ensures r[i] in next && r[i] in prev && r[i].Slot? && next[r[i]] in prev && prev[r[i]] in next
    ensures next[r[i]] == (if i + 1 < |r| then r[i + 1] else h) && prev[r[i]] == Before(h, r, i)
    ensures h in next && h in prev && next[h] == (if r == [] then h else r[0])
    ensures prev[h] == if r == [] then h else r[|r| - 1]
  {
    var c := [h] + r;
    assert forall a :: 0 <= a < |r| ==> c[a + 1] == r[a];
    assert c[i + 1] == r[i];
    assert next[c[i + 1]] == if i + 2 < |c| then c[i + 2] else c[0];
    assert prev[c[i + 1]] == c[i];
    assert r[i] in r && On(keys, r[i], h);
  }

  /** A prepared key moves from the slot at index i of its ring to slot k, off the rings, which takes its place. */
  lemma Moved(h: Link, r: seq<Link>, keys: Keys, next: Links, prev: Links, i: nat, k: nat, keys': Keys, next': Links,
              prev': Links)
    requires RingOk(h, r, keys, next, prev) && !h.Slot? && i < |r| && r[i].Slot? && k in keys && !keys[k].Prepared?
    requires r[i].k in keys && keys[r[i].k].Prepared?
    requires r[i] in next && r[i] in prev && next[r[i]] in prev && prev[r[i]] in next
    requires keys' == keys[k := keys[r[i].k]][r[i].k := Void]
    requires next' == next[Slot(k) := next[r[i]]][prev[r[i]] := Slot(k)]
    requires prev' == prev[Slot(k) := prev[r[i]]][next[r[i]] := Slot(k)]
    ensures RingOk(h, r[i := Slot(k)], keys', next', prev')
  {
    hide IsRing, ResumeLast;
    var c, s := [h] + r, r[i := Slot(k)];
    assert Slot(k) !in r;
    assert c[i + 1] == r[i] && c[i + 1 := Slot(k)] == [h] + s;
    RingReplace(c, i + 1, Slot(k), next, prev, next', prev');
    RingApart(c, next, prev);
    assert r[i] in r && On(keys, r[i], h);
    forall a | 0 <= a < |r| && a != i
      ensures s[a] == r[a] && s[a] in r && s[a] != r[i]
    {
      assert c[a + 1] == r[a] && s[a] in s;
    }
    assert s[i] == Slot(k);
    forall x
      ensures x in s <==> x == Slot(k) || (x in r && x != r[i])
    {
      if x in s {
        var a :| 0 <= a < |s| && s[a] == x;
      }
      if x in r {
        var a :| 0 <= a < |r| && r[a] == x;
      }
    }
    MovedResume(r, keys, i, k, keys');
  }

  lemma RingApart(c: seq<Link>, next: Links, prev: Links)
    requires IsRing(c, next, prev)
    ensures forall i, j :: 0 <= i < j < |c| ==> c[i] != c[j]
  {
  }

  lemma MovedResume(r: seq<Link>, keys: Keys, i: nat, k: nat, keys': Keys)
    requires ResumeLast(r, keys) && i < |r| && r[i].Slot? && r[i].k in keys && keys[r[i].k].Prepared? && k != r[i].k
    requires keys' == keys[k := keys[r[i].k]][r[i].k := Void] && Slot(k) !in r
    requires forall a :: 0 <= a < |r| && a != i ==> r[a] != r[i]
    ensures ResumeLast(r[i := Slot(k)], keys')
  {
    var s := r[i := Slot(k)];
    forall a | 0 <= a < |r|
      ensures IsResume(keys', s[a]) <==> IsResume(keys, r[a])
    {
      assert r[a] in r;
    }
  }
}
