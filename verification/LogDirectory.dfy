/**
 The log directory of src/sys/kernel/kern_LogDirectory.c: a red-black tree of nodes keyed by OID,
 each node also on the chain of its generation, refining a map from OIDs to (descriptor, generation).
 */
module LogDirectory {
  import opened RbShape
  import opened RbTree
  import opened GenChains
  import Ring

  /** ObjectDescriptor without its oid, which is the key of the node. */
  datatype Descriptor = Descriptor(allocCount: nat, callCount: nat, logLoc: nat, objType: nat)

  datatype Entry = Entry(od: Descriptor, generation: nat)

  /** Where a node must be: a node of the tree on the chain of its generation, any other free. */
  function HomeOf(inTree: bool, generation: nat, highest: nat): Home {
    if inTree then (if generation <= highest then Chain(highest - generation) else Limbo)
    else if highest == 0 then Limbo else Free
  }

  /** Every node but those in `moving` is where it must be. */
  ghost predicate Placed(ids: set<nat>, generation: seq<nat>, highest: nat, home: seq<Home>, size: nat,
                         moving: set<nat>) {
    && |generation| == |home| == size + 1
    && (forall n :: n in ids ==>
        1 <= n <= size && generation[n] <= highest && highest - generation[n] < LD_MAX_GENERATIONS)
    && (forall n :: 1 <= n <= size && n !in moving ==> home[n] == HomeOf(n in ids, generation[n], highest))
  }

  /** `node` names the nodes of the tree by their OIDs. */
  ghost predicate Named(ids: set<nat>, oid: seq<int>, node: map<int, nat>) {
    && (forall o :: o in node ==> node[o] in ids && node[o] < |oid| && oid[node[o]] == o)
    && (forall n :: n in ids ==> n < |oid| && oid[n] in node && node[oid[n]] == n)
  }

  /** The map from OIDs that the nodes hold. */
  ghost function ContentsOf(node: map<int, nat>, od: seq<Descriptor>, generation: seq<nat>): map<int, Entry>
    requires forall o :: o in node ==> node[o] < |od| && node[o] < |generation|
  {
    map o | o in node :: Entry(od[node[o]], generation[node[o]])
  }

  /** The table of generations and the free nodes have room for an entry. */
  ghost predicate Room(d: map<int, Entry>, o: int, g: nat, size: nat) {
    && (forall p :: p in d ==> g < d[p].generation + LD_MAX_GENERATIONS)
    && (o in d || |d| < size)
  }

  /** Taking a node out of the tree frees it and forgets its name. */
  lemma Removed(ids: set<nat>, z: nat, oid: seq<int>, generation: seq<nat>, highest: nat, home: seq<Home>, size: nat,
                node: map<int, nat>, home': seq<Home>, node': map<int, nat>)
    requires Placed(ids, generation, highest, home, size, {}) && Named(ids, oid, node) && z in ids && z < |oid|
    requires |home'| == size + 1 && forall n :: 1 <= n <= size ==> home'[n] == if n == z then Free else home[n]
    requires node' == node - {oid[z]}
    requires highest > 0
    ensures Placed(ids - {z}, generation, highest, home', size, {}) && Named(ids - {z}, oid, node')
  {
  }

  lemma PlacedAt(ids: set<nat>, generation: seq<nat>, highest: nat, home: seq<Home>, size: nat, n: nat)
    requires Placed(ids, generation, highest, home, size, {}) && n in ids
    ensures |generation| == |home| == size + 1 && 1 <= n <= size
    ensures generation[n] <= highest && highest - generation[n] < LD_MAX_GENERATIONS
    ensures home[n] == Chain(highest - generation[n])
  {
  }

  /** The table shift keeps every node on the chain of its generation. */
  lemma Raised(ids: set<nat>, generation: seq<nat>, highest: nat, home: seq<Home>, size: nat, g: nat, home': seq<Home>)
    requires Placed(ids, generation, highest, home, size, {}) && 0 < highest < g && |home'| == size + 1
    requires forall n :: 1 <= n <= size && home[n].Chain? ==> home[n].g + (g - highest) < LD_MAX_GENERATIONS
    requires forall n :: 1 <= n <= size ==> home'[n] == MovedHome(home[n], g - highest)
    ensures Placed(ids, generation, g, home', size, {})
  {
  }

  /** A node falls off the table exactly when its generation is too far below g. */
  lemma FallsOff(ids: set<nat>, generation: seq<nat>, highest: nat, home: seq<Home>, size: nat, g: nat)
    requires Placed(ids, generation, highest, home, size, {}) && 0 < highest < g
    ensures (exists n :: 1 <= n <= size && home[n].Chain? && home[n].g + (g - highest) >= LD_MAX_GENERATIONS)
       <==> (exists n :: n in ids && generation[n] + LD_MAX_GENERATIONS <= g)
  {
    if n :| 1 <= n <= size && home[n].Chain? && home[n].g + (g - highest) >= LD_MAX_GENERATIONS {
      assert n in ids && generation[n] + LD_MAX_GENERATIONS <= g;
    }
    if n :| n in ids && generation[n] + LD_MAX_GENERATIONS <= g {
      assert home[n].Chain? && home[n].g + (g - highest) >= LD_MAX_GENERATIONS;
    }
  }

  /** Recording an entry in a node that bears its OID. */
  lemma ContentsRecorded(node: map<int, nat>, od: seq<Descriptor>, generation: seq<nat>, o: int, n: nat, d: Descriptor,
                         g: nat)
    requires forall p :: p in node ==> node[p] < |od| && node[p] < |generation|
    requires n < |od| && n < |generation| && forall p :: p in node && p != o ==> node[p] != n
    ensures ContentsOf(node[o := n], od[n := d], generation[n := g]) ==
      ContentsOf(node, od, generation)[o := Entry(d, g)]
  {
    var a := ContentsOf(node[o := n], od[n := d], generation[n := g]);
    var b := ContentsOf(node, od, generation)[o := Entry(d, g)];
    assert a.Keys == b.Keys;
    assert forall p :: p in a ==> a[p] == b[p];
  }

  lemma ContentsWithout(node: map<int, nat>, od: seq<Descriptor>, generation: seq<nat>, o: int)
    requires forall p :: p in node ==> node[p] < |od| && node[p] < |generation|
    ensures ContentsOf(node - {o}, od, generation) == ContentsOf(node, od, generation) - {o}
  {
  }

  lemma Added(ids: set<nat>, tn: nat, o: int, g: nat, oid: seq<int>, generation: seq<nat>, highest: nat,
              home: seq<Home>,
              size: nat, node: map<int, nat>, home': seq<Home>)
    requires Placed(ids, generation, highest, home, size, {}) && Named(ids, oid, node)
    requires 1 <= tn <= size && tn !in ids && o !in node && |oid| == size + 1
    requires g <= highest && highest - g < LD_MAX_GENERATIONS
    requires |home'| == size + 1 && forall n :: 1 <= n <= size ==>
      home'[n] == if n == tn then Chain(highest - g) else home[n]
    ensures Placed(ids + {tn}, generation[tn := g], highest, home', size, {})
    ensures Named(ids + {tn}, oid[tn := o], node[o := tn])
  {
  }

  /** Giving a node outside the tree the sought key readies it for its place. */
  lemma NewKey(k: Ctx, key: seq<int>, tn: nat, o: int, s: Pool, root: nat, t: Tree)
    requires At(k, Leaf, key, s, root) && Plug(k, Leaf) == t && tn < |key| && tn !in Ids(t)
    requires Lo(k, key) < o < Hi(k, key)
    ensures At(k, Leaf, key[tn := o], s, root) && Lo(k, key[tn := o]) < o < Hi(k, key[tn := o])
    ensures |s| == |key|
  {
    AtRelabel(k, Leaf, key, tn, o, s, root);
    PlugIds(k, Leaf);
    OrderedCtxRelabel(k, key, tn, o);
  }

  lemma Restood(ids: set<nat>, generation: seq<nat>, highest: nat, home: seq<Home>, size: nat, n: nat, g: nat)
    requires Placed(ids, generation, highest, home, size, {}) && n in ids
    requires g <= highest && highest - g < LD_MAX_GENERATIONS
    ensures n < |generation| && n < |home|
    ensures Placed(ids, generation[n := g], highest, home[n := Chain(highest - g)], size, {})
  {
  }

  // ---------- Counting ----------

  ghost function Elems(c: seq<nat>): set<nat> {
    set n | n in c
  }

  lemma {:induction false} DistinctCount(c: seq<nat>)
    requires forall i, j :: 0 <= i < j < |c| ==> c[i] != c[j]
    ensures |Elems(c)| == |c|
  {
    if c != [] {
      var d := c[..|c| - 1];
      DistinctCount(d);
      var s, x := Elems(d), c[|c| - 1];
      assert c == d + [x] && x !in s;
      assert Elems(c) == s + {x};
      assert |s + {x}| == |s| + 1;
    }
  }

  /** The nodes on some of the chains. */
  ghost function OnChains(chain: seq<seq<nat>>): set<nat> {
    set g, n | 0 <= g < |chain| && n in chain[g] :: n
  }

  lemma OnChainsStep(a: seq<seq<nat>>, c: seq<nat>)
    ensures OnChains(a + [c]) == OnChains(a) + Elems(c)
  {
    var b := a + [c];
    forall n
      ensures n in OnChains(b) <==> n in OnChains(a) || n in c
    {
      if n in c {
        assert n in b[|a|];
      }
      if g :| 0 <= g < |a| && n in a[g] {
        assert n in b[g];
      }
    }
  }

  lemma ChainsApart(chain: seq<seq<nat>>, home: seq<Home>, size: nat, next: map<nat, nat>, prev: map<nat, nat>, k: nat)
    requires ChainsOk(chain, home, size, next, prev) && k < LD_MAX_GENERATIONS
    ensures forall n :: n in OnChains(chain[..k]) ==> n !in chain[k]
  {
    assert Located(chain[k], k, home, size);
    forall n | n in OnChains(chain[..k])
      ensures n !in chain[k]
    {
      var g :| 0 <= g < k && n in chain[..k][g];
      assert Located(chain[g], g, home, size);
    }
  }

  lemma {:induction false} ChainsCount(chain: seq<seq<nat>>, home: seq<Home>, size: nat, next: map<nat, nat>,
                                       prev: map<nat, nat>, k: nat)
    requires ChainsOk(chain, home, size, next, prev) && k <= LD_MAX_GENERATIONS
    ensures |OnChains(chain[..k])| == Total(chain[..k])
  {
    if k == 0 {
      assert OnChains(chain[..0]) == {};
    } else {
      var a, c := chain[..k - 1], chain[k - 1];
      ChainsCount(chain, home, size, next, prev, k - 1);
      ChainsApart(chain, home, size, next, prev, k - 1);
      assert chain[..k] == a + [c] && chain[..k][..k - 1] == a;
      ChainCounted(a, c, next, prev);
    }
  }

  lemma ChainCounted(a: seq<seq<nat>>, c: seq<nat>, next: map<nat, nat>, prev: map<nat, nat>)
    requires Ring.IsRing(c, next, prev) && forall n :: n in OnChains(a) ==> n !in c
    ensures |OnChains(a + [c])| == |OnChains(a)| + |c|
  {
    DistinctCount(c);
    OnChainsStep(a, c);
    var s := Elems(c);
    assert OnChains(a) !! s;
    assert |OnChains(a) + s| == |OnChains(a)| + |s|;
  }

  /** Two sets that name each other's members are of one size. */
  lemma {:induction false} SameCount(a: set<int>, b: set<nat>, f: map<int, nat>, key: seq<int>)
    requires forall o :: o in a ==> o in f && f[o] in b && f[o] < |key| && key[f[o]] == o
    requires forall n :: n in b ==> n < |key| && key[n] in a && key[n] in f && f[key[n]] == n
    ensures |a| == |b|
  {
    if n :| n in b {
      SameCount(a - {key[n]}, b - {n}, f, key);
      assert |a - {key[n]}| == |a| - 1 && |b - {n}| == |b| - 1;
    } else {
      assert forall o :: o !in a;
      assert a == {} && b == {};
    }
  }

  /** The next link of a node on a ring is on it, and is the node itself only on a ring of one. */
  lemma NextOnRing(c: seq<nat>, n: nat, next: map<nat, nat>, prev: map<nat, nat>)
    requires Ring.IsRing(c, next, prev) && n in c
    ensures n in next && next[n] in c && (next[n] == n ==> c == [n])
  {
    var i :| 0 <= i < |c| && c[i] == n;
    assert next[c[i]] == if i + 1 < |c| then c[i + 1] else c[0];
  }

  /** Only nodes of table index g have gone from `before`, and every other name is as it was. */
  ghost predicate OnlyGone(before: map<int, nat>, after: map<int, nat>, generation: seq<nat>, highest: nat, g: nat)
  {
    && (forall o :: o in after ==> o in before && after[o] == before[o])
    && (forall o :: o in before && o !in after ==> before[o] < |generation| && highest - generation[before[o]] == g)
  }

  lemma OneGone(before: map<int, nat>, after: map<int, nat>, o: int, generation: seq<nat>, highest: nat, g: nat)
    requires o in before && before[o] < |generation| && highest - generation[before[o]] == g && after == before - {o}
    ensures OnlyGone(before, after, generation, highest, g) && |after| < |before|
  {
    assert after.Keys == before.Keys - {o};
  }

  /** All entries of table index g or more are gone, and no other. */
  ghost predicate ClearedFrom(before: map<int, nat>, after: map<int, nat>, generation: seq<nat>, highest: nat, g: nat)
  {
    && (forall o :: o in after ==> o in before && after[o] == before[o])
    && (forall o :: o in before ==> before[o] < |generation| && (o !in after <==> highest - generation[before[o]] >= g))
  }

  lemma ClearedOne(a: map<int, nat>, b: map<int, nat>, c: map<int, nat>, generation: seq<nat>, highest: nat, g: nat)
    requires OnlyGone(a, b, generation, highest, g) && ClearedFrom(b, c, generation, highest, g + 1)
    requires forall o :: o in b ==> b[o] < |generation| && highest - generation[b[o]] != g
    ensures ClearedFrom(a, c, generation, highest, g)
  {
  }

  /** The entries of m newer than generation g. */
  ghost function NewerThan(m: map<int, Entry>, g: nat): map<int, Entry> {
    map o | o in m && m[o].generation > g :: m[o]
  }

  lemma ContentsCleared(before: map<int, nat>, after: map<int, nat>, od: seq<Descriptor>, generation: seq<nat>,
                        highest: nat, g: nat)
    requires g <= highest && ClearedFrom(before, after, generation, highest, highest - g)
    requires forall o :: o in before ==> before[o] < |od|
    ensures forall o :: o in after ==> after[o] < |od| && after[o] < |generation|
    ensures ContentsOf(after, od, generation) == NewerThan(ContentsOf(before, od, generation), g)
  {
    var m := ContentsOf(before, od, generation);
    var a, b := ContentsOf(after, od, generation), NewerThan(m, g);
    forall o
      ensures o in a <==> o in b
    {
      if o in before {
        assert m[o].generation == generation[before[o]];
        assert o in after <==> highest - generation[before[o]] < highest - g;
      }
    }
    assert a.Keys == b.Keys;
    assert forall o :: o in a ==> a[o] == b[o];
  }

  lemma NamedCount(ids: set<nat>, oid: seq<int>, node: map<int, nat>)
    requires Named(ids, oid, node)
    ensures |node| == |ids|
  {
    SameCount(node.Keys, ids, node, oid);
  }

  lemma NewerNodes(ids: set<nat>, oid: seq<int>, node: map<int, nat>, od: seq<Descriptor>, generation: seq<nat>,
                   on: set<nat>, g: nat)
    requires Named(ids, oid, node) && |oid| == |od| == |generation|
    requires forall n :: n in on <==> n in ids && n < |generation| && generation[n] > g
    ensures |NewerThan(ContentsOf(node, od, generation), g)| == |on|
  {
    var newer := NewerThan(ContentsOf(node, od, generation), g);
    SameCount(newer.Keys, on, node, oid);
  }

  /** `met` and `ods` list the entries of generation g in m, each once. */
  ghost predicate Meets(met: seq<int>, ods: seq<Descriptor>, m: map<int, Entry>, g: nat) {
    && |met| == |ods| && (forall i, j :: 0 <= i < j < |met| ==> met[i] != met[j])
    && (forall o :: o in met <==> o in m && m[o].generation == g)
    && (forall i :: 0 <= i < |met| ==> met[i] in m && ods[i] == m[met[i]].od)
  }

  lemma OnlyGoneTrans(a: map<int, nat>, b: map<int, nat>, c: map<int, nat>, generation: seq<nat>, highest: nat, g: nat)
    requires OnlyGone(a, b, generation, highest, g) && OnlyGone(b, c, generation, highest, g)
    ensures OnlyGone(a, c, generation, highest, g)
  {
  }

  // ---------- Removing node after node ----------

  /** tree_remove_node took one node, and left the colour laws as RemoveObjectEntry says. */
  ghost predicate Drop(t: Tree, t': Tree) {
    exists z :: z in Ids(t) && Ids(t') == Ids(t) - {z} && (RedBlack(t') <==> !OneChild(t, z))
  }

  ghost predicate Pruning(ts: seq<Tree>) {
    |ts| > 0 && forall i :: 0 <= i < |ts| - 1 ==> Drop(ts[i], ts[i + 1])
  }

  /** t' is what some removals, one after the other, leave of t. */
  ghost predicate Pruned(t: Tree, t': Tree) {
    exists ts :: Pruning(ts) && ts[0] == t && ts[|ts| - 1] == t'
  }

  lemma PrunedSame(t: Tree)
    ensures Pruned(t, t)
  {
    assert Pruning([t]);
  }

  lemma PrunedOne(t: Tree, t': Tree, z: nat)
    requires z in Ids(t) && Ids(t') == Ids(t) - {z} && (RedBlack(t') <==> !OneChild(t, z))
    ensures Pruned(t, t')
  {
    var ts := [t, t'];
    assert Pruning(ts) && ts[0] == t && ts[|ts| - 1] == t';
  }

  lemma PrunedTrans(a: Tree, b: Tree, c: Tree)
    requires Pruned(a, b) && Pruned(b, c)
    ensures Pruned(a, c)
  {
    hide Drop;
    var ts :| Pruning(ts) && ts[0] == a && ts[|ts| - 1] == b;
    var us :| Pruning(us) && us[0] == b && us[|us| - 1] == c;
    var vs := ts + us[1..];
    forall i | 0 <= i < |vs| - 1
      ensures Drop(vs[i], vs[i + 1])
    {
      if i < |ts| - 1 {
        assert Drop(ts[i], ts[i + 1]);
      } else {
        assert Drop(us[i - |ts| + 1], us[i - |ts| + 2]);
      }
    }
    assert Pruning(vs) && vs[0] == a && vs[|vs| - 1] == c;
  }

  lemma {:induction false} PruningCount(ts: seq<Tree>, i: nat)
    requires Pruning(ts) && i < |ts|
    ensures |Ids(ts[i])| + i == |Ids(ts[0])|
  {
    if i > 0 {
      PruningCount(ts, i - 1);
      assert Drop(ts[i - 1], ts[i]);
    }
  }

  /** With as many nodes as before, nothing was removed. */
  lemma PrunedNothing(t: Tree, t': Tree)
    requires Pruned(t, t') && |Ids(t)| == |Ids(t')|
    ensures t == t'
  {
    var ts :| Pruning(ts) && ts[0] == t && ts[|ts| - 1] == t';
    PruningCount(ts, |ts| - 1);
  }

  /** With one node less, the colour laws hold unless that was a root with one child. */
  lemma PrunedByOne(t: Tree, t': Tree)
    requires Pruned(t, t') && |Ids(t)| == |Ids(t')| + 1
    ensures Drop(t, t')
  {
    var ts :| Pruning(ts) && ts[0] == t && ts[|ts| - 1] == t';
    PruningCount(ts, |ts| - 1);
  }

  lemma SeveralRedBlack(t: Tree)
    requires LawsOrLone(t) && |Ids(t)| != 1
    ensures RedBlack(t)
  {
    if t.Node? && t.l.Leaf? && t.r.Leaf? {
      OneNode(t);
    }
  }

  class Directory {
    const size: nat  // numLogDirEntries
    const tree: TreeHead
    const chains: GenerationTable
    var oid: seq<int>
    var od: seq<Descriptor>
    var generation: seq<nat>
    var highest: nat
    ghost var shape: Tree
    ghost var node: map<int, nat>  // the node of each OID in the directory

    ghost predicate Valid()
      reads this, tree, chains
    {
      && |tree.pool| == |oid| == |od| == |generation| == size + 1
      && At(Top, shape, oid, tree.pool, tree.root) && LawsOrLone(shape)
      && chains.Valid() && chains.size == size
      && Placed(Ids(shape), generation, highest, chains.home, size, {})
      && Total(chains.chain) + |chains.free| == (if highest == 0 then 0 else size)
      && Named(Ids(shape), oid, node)
      && (highest == 0 ==> shape == Leaf && chains.free == [])
    }

    /** The map the directory stands for. */
    ghost function Contents(): map<int, Entry>
      requires Valid()
      reads this, tree, chains
    {
      ContentsOf(node, od, generation)
    }

    constructor (numLogDirEntries: nat)
      ensures Valid() && size == numLogDirEntries && Contents() == map[] && highest == 0
      ensures fresh(tree) && fresh(chains) && RedBlack(shape) && NoScan(chains.table)
    {
      size := numLogDirEntries;
      tree := new TreeHead(numLogDirEntries);
      chains := new GenerationTable(numLogDirEntries);
      oid := seq(numLogDirEntries + 1, _ => 0);
      od := seq(numLogDirEntries + 1, _ => Descriptor(0, 0, 0, 0));
      generation := seq(numLogDirEntries + 1, _ => 0);
      highest := 0;
      shape := Leaf;
      node := map[];
    }

    /** find_node. */
    method FindNode(o: int) returns (n: nat)
      requires Valid() && MIN < o < MAX
      ensures if o in node then n == node[o] else n == NIL
    {
      ghost var y, k, sub;
      n, y, k, sub := tree.Descend(o, oid, shape);
    }

    /** ld_findObject. */
    method FindObject(o: int) returns (found: bool, d: Descriptor)
      requires Valid() && MIN < o < MAX
      ensures found <==> o in Contents()
      ensures found ==> d == Contents()[o].od
    {
      var n := FindNode(o);
      found, d := n != NIL, od[n];
    }

    /** Moves node z to the chain of another generation, giving it another descriptor. */
    method Restand(z: nat, o: int, d: Descriptor, g: nat)
      requires |oid| == |od| == |generation| == |chains.home| == size + 1 && chains.size == size && chains.Valid()
      requires 1 <= z <= size && generation[z] <= highest && chains.home[z] == Chain(highest - generation[z])
      requires g <= highest && highest - g < LD_MAX_GENERATIONS
      modifies this`oid, this`od, this`generation, chains
      ensures chains.Valid() && chains.free == old(chains.free)
      ensures oid == old(oid)[z := o] && od == old(od)[z := d] && generation == old(generation)[z := g]
      ensures chains.home == old(chains.home)[z := Chain(highest - g)]
      ensures Total(chains.chain) == old(Total(chains.chain))
      ensures old(NoScan(chains.table)) ==> NoScan(chains.table)
    {
      hide *;
      ghost var i := chains.UnchainNode(z, highest - generation[z]);
      oid, od, generation := oid[z := o], od[z := d], generation[z := g];
      chains.ChainNode(z, highest - g);
    }

    /**
     The chain part of tree_remove_node: while the tree is mended z stands in for its successor y,
     on the chain of y; then it returns to its own, and leaves that for the free list.
     */
    method Unlist(z: nat, y: nat)
      requires |oid| == |od| == |generation| == |chains.home| == size + 1 && chains.size == size && chains.Valid()
      requires 1 <= z <= size && generation[z] <= highest && chains.home[z] == Chain(highest - generation[z])
      requires 1 <= y <= size && generation[y] <= highest && chains.home[y] == Chain(highest - generation[y])
      requires highest - generation[z] < LD_MAX_GENERATIONS && highest - generation[y] < LD_MAX_GENERATIONS
      modifies this`oid, this`od, this`generation, chains
      ensures chains.Valid() && |chains.free| == old(|chains.free|) + 1
      ensures oid == old(oid) && od == old(od) && generation == old(generation)
      ensures chains.home == old(chains.home)[z := Free]
      ensures Total(chains.chain) == old(Total(chains.chain)) - 1
      ensures old(NoScan(chains.table)) ==> NoScan(chains.table)
    {
      hide ChainsOk, FreeOk, TableOk, Total, NoScan;
      if y != z {
        var zoid, zod, zgen := oid[z], od[z], generation[z];
        Restand(z, oid[y], od[y], generation[y]);
        Restand(z, zoid, zod, zgen);
      }
      ghost var i := chains.UnchainNode(z, highest - generation[z]);
      chains.FreeNode(z);
    }

    /** tree_remove_node. */
    method RemoveNode(z: nat)
      requires Valid() && z in Ids(shape)
      modifies this, tree, chains
      ensures Valid() && node == old(node) - {oid[z]}
      ensures oid == old(oid) && od == old(od) && generation == old(generation) && highest == old(highest)
      ensures Ids(shape) == old(Ids(shape)) - {z} && (RedBlack(shape) <==> !OneChild(old(shape), z))
      ensures old(NoScan(chains.table)) ==> NoScan(chains.table)
    {
      hide At, LawsOrLone, RedBlack, OneChild, Named, Placed, Total, ChainsOk, TableOk, FreeOk, NoScan;
      ghost var ids, home0, node0 := Ids(shape), chains.home, node;
      assert highest > 0;
      PlacedAt(ids, generation, highest, home0, size, z);
      var y;
      y, shape := tree.Remove(z, shape, oid);
      node := node - {oid[z]};
      PlacedAt(ids, generation, highest, home0, size, y);
      Removed(ids, z, oid, generation, highest, home0, size, node0, home0[z := Free], node);
      Unlist(z, y);
    }

    /**
     The opening of ld_recordLocation: a generation above the highest makes room in the table,
     after the very first one has put every node on the free list.
     */
    method Raise(g: nat) returns (halted: bool)
      requires Valid() && g > highest
      modifies this`highest, chains
      ensures halted <==> old(highest) > 0 && exists n :: n in Ids(shape) && generation[n] + LD_MAX_GENERATIONS <= g
      ensures !halted ==> Valid() && highest == g
      ensures old(NoScan(chains.table)) ==> NoScan(chains.table)
    {
      hide At, LawsOrLone, Named, TableOk, ChainsOk, FreeOk, NoScan, Total;
      ghost var ids, home0 := Ids(shape), chains.home;
      if highest == 0 {
        chains.FillFreeList();
        halted := false;
      } else {
        FallsOff(ids, generation, highest, home0, size, g);
        halted := chains.MakeRoom(g - highest);
        if halted {
          return;
        }
        Raised(ids, generation, highest, home0, size, g, chains.home);
      }
      highest := g;
    }

    /**
     The update of binary_insert: the node of an OID already there gets a new descriptor and moves to
     the chain of its new generation. Halts when that generation is too old for the table.
     */
    method UpdateNode(n: nat, d: Descriptor, g: nat) returns (halted: bool)
      requires Valid() && n in Ids(shape) && g <= highest
      modifies this`oid, this`od, this`generation, chains
      ensures halted <==> highest - g >= LD_MAX_GENERATIONS
      ensures !halted ==> Valid()
      ensures !halted ==> od == old(od)[n := d] && generation == old(generation)[n := g]
      ensures old(NoScan(chains.table)) ==> NoScan(chains.table)
      ensures !halted ==> oid == old(oid)
    {
      hide At, LawsOrLone, Named, Placed, ChainsOk, TableOk, FreeOk, Total;
      PlacedAt(Ids(shape), generation, highest, chains.home, size, n);
      if highest - g >= LD_MAX_GENERATIONS {
        return true;
      }
      assert oid[n := oid[n]] == oid;
      Restood(Ids(shape), generation, highest, chains.home, size, n, g);
      hide *;
      Restand(n, oid[n], d, g);
      return false;
    }

    /** The allocation half of binary_insert: a free node takes the descriptor and joins its chain. */
    method Enlist(o: int, d: Descriptor, g: nat) returns (halted: bool, tn: nat)
      requires |oid| == |od| == |generation| == |chains.home| == size + 1 && chains.size == size && chains.Valid()
      requires g <= highest
      modifies this`oid, this`od, this`generation, chains
      ensures halted <==> old(chains.free == []) || highest - g >= LD_MAX_GENERATIONS
      ensures !halted ==> chains.Valid() && |chains.free| == old(|chains.free|) - 1
      ensures !halted ==> 1 <= tn <= size && old(chains.home[tn]) == Free
      ensures !halted ==> chains.home == old(chains.home)[tn := Chain(highest - g)]
      ensures !halted ==> Total(chains.chain) == old(Total(chains.chain)) + 1
      ensures !halted ==> oid == old(oid)[tn := o] && od == old(od)[tn := d] && generation == old(generation)[tn := g]
      ensures old(NoScan(chains.table)) ==> NoScan(chains.table)
    {
      hide *;
      halted, tn := chains.AllocNode();
      if halted {
        return;
      }
      oid, od, generation := oid[tn := o], od[tn := d], generation[tn := g];
      if highest - g >= LD_MAX_GENERATIONS {
        return true, tn;
      }
      chains.ChainNode(tn, highest - g);
    }

    /** The rest of ld_recordLocation, for an OID that is not there: y is the node to hang it below. */
    method InsertNode(o: int, d: Descriptor, g: nat, y: nat, ghost k: Ctx) returns (halted: bool, tn: nat)
      requires Valid() && g <= highest && o !in node
      requires At(k, Leaf, oid, tree.pool, tree.root) && Plug(k, Leaf) == shape && y == k.Id()
      requires Lo(k, oid) < o < Hi(k, oid)
      modifies this`oid, this`od, this`generation, this`shape, this`node, tree, chains
      ensures halted <==> old(chains.free == []) || highest - g >= LD_MAX_GENERATIONS || old(shape).Hue() == Red
      ensures !halted ==> Valid() && RedBlack(shape)
      ensures !halted ==> tn !in old(Ids(shape)) && 0 <= tn <= size && node == old(node)[o := tn]
      ensures !halted ==> od == old(od)[tn := d] && generation == old(generation)[tn := g]
      ensures old(NoScan(chains.table)) ==> NoScan(chains.table)
    {
      hide Ordered, ChainsOk, TableOk, FreeOk, NoScan, Total, RedBlack;
      ghost var ids, home0, oid0, gen0 := Ids(shape), chains.home, oid, generation;
      halted, tn := Enlist(o, d, g);
      if halted {
        return;
      }
      assert tn !in ids;
      Added(ids, tn, o, g, oid0, gen0, highest, home0, size, node, chains.home);
      NewKey(k, oid0, tn, o, tree.pool, tree.root, shape);
      halted, shape := tree.Insert(tn, y, oid, k, shape);
      node := node[o := tn];
    }

    /** The nodes of the tree are those on the chains. */
    lemma AllOnChains()
      requires Valid()
      ensures Ids(shape) == OnChains(chains.chain)
    {
      var ids := Ids(shape);
      forall n
        ensures n in ids <==> n in OnChains(chains.chain)
      {
        if n in ids {
          PlacedAt(ids, generation, highest, chains.home, size, n);
          assert n in chains.chain[highest - generation[n]];
        }
        if g :| 0 <= g < LD_MAX_GENERATIONS && n in chains.chain[g] {
          assert Located(chains.chain[g], g, chains.home, size);
        }
      }
    }

    /** Every node is in use or free: entries and free nodes make up the capacity. */
    lemma EntriesAndFree()
      requires Valid()
      ensures |Contents()| == Total(chains.chain)
      ensures highest > 0 ==> |Contents()| + |chains.free| == size
    {
      ChainsCount(chains.chain, chains.home, size, chains.next, chains.prev, LD_MAX_GENERATIONS);
      assert chains.chain[..LD_MAX_GENERATIONS] == chains.chain;
      AllOnChains();
      NamedCount(Ids(shape), oid, node);
      assert Contents().Keys == node.Keys;
    }

    /** When ld_recordLocation stops the system. */
    ghost predicate RecordHalts(o: int, g: nat)
      reads this, tree, chains
      requires Valid()
    {
      // more generations than the table has room for
      || (0 < highest < g && exists n :: n in Ids(shape) && generation[n] + LD_MAX_GENERATIONS <= g)
      // a generation too old for the table
      || g + LD_MAX_GENERATIONS <= highest
      // no free node
      || (o !in Contents() && |Contents()| == (if highest == 0 && g == 0 then 0 else size))
      // a red root, left by removing the root of a two-node tree
      || (o !in Contents() && shape.Hue() == Red)
    }

    lemma GenerationsNamed(g: nat)
      requires Valid()
      ensures (exists n :: n in Ids(shape) && generation[n] + LD_MAX_GENERATIONS <= g)
         <==> exists p :: p in Contents() && Contents()[p].generation + LD_MAX_GENERATIONS <= g
      ensures forall p :: p in Contents() ==>
        Contents()[p].generation <= highest < Contents()[p].generation + LD_MAX_GENERATIONS
    {
      if n :| n in Ids(shape) && generation[n] + LD_MAX_GENERATIONS <= g {
        assert node[oid[n]] == n && Contents()[oid[n]].generation == generation[n];
      }
    }

    /**
     In the newest generation so far or a newer one, recording stops the system only for want of room, or at a
     red root.
     */
    lemma HaltsWithoutRoom(o: int, g: nat)
      requires Valid() && g >= highest && g > 0
      ensures RecordHalts(o, g) <==> !Room(Contents(), o, g, size) || (o !in Contents() && shape.Hue() == Red)
    {
      hide At, LawsOrLone, Named, Placed, Total;
      GenerationsNamed(g);
      EntriesAndFree();
    }

    method UpdateEntry(o: int, n: nat, d: Descriptor, g: nat) returns (halted: bool)
      requires Valid() && o in node && n == node[o] && g <= highest
      modifies this`oid, this`od, this`generation, chains
      ensures halted <==> highest - g >= LD_MAX_GENERATIONS
      ensures !halted ==> Valid()
      ensures !halted ==> ContentsOf(node, od, generation) == old(ContentsOf(node, od, generation))[o := Entry(d, g)]
      ensures old(NoScan(chains.table)) ==> NoScan(chains.table)
      ensures !halted ==> oid == old(oid)
    {
      assert node[o := n] == node;
      ContentsRecorded(node, od, generation, o, n, d, g);
      halted := UpdateNode(n, d, g);
    }

    method InsertEntry(o: int, d: Descriptor, g: nat, y: nat, ghost k: Ctx) returns (halted: bool)
      requires Valid() && g <= highest && o !in node
      requires At(k, Leaf, oid, tree.pool, tree.root) && Plug(k, Leaf) == shape && y == k.Id()
      requires Lo(k, oid) < o < Hi(k, oid)
      modifies this`oid, this`od, this`generation, this`shape, this`node, tree, chains
      ensures halted <==> old(chains.free == []) || highest - g >= LD_MAX_GENERATIONS || old(shape).Hue() == Red
      ensures !halted ==> Valid() && RedBlack(shape)
      ensures !halted ==> ContentsOf(node, od, generation) == old(ContentsOf(node, od, generation))[o := Entry(d, g)]
      ensures old(NoScan(chains.table)) ==> NoScan(chains.table)
    {
      ghost var node0, od0, gen0 := node, od, generation;
      var tn;
      halted, tn := InsertNode(o, d, g, y, k);
      if !halted {
        ContentsRecorded(node0, od0, gen0, o, tn, d, g);
      }
    }

    /** ld_recordLocation, from binary_insert on. */
    method RecordHere(o: int, d: Descriptor, g: nat) returns (halted: bool)
      requires Valid() && MIN < o < MAX && g <= highest
      modifies this`oid, this`od, this`generation, this`shape, this`node, tree, chains
      ensures halted <==>
        (g + LD_MAX_GENERATIONS <= highest
         || old(o !in node && (|node| == (if highest == 0 then 0 else size) || shape.Hue() == Red)))
      ensures !halted ==> Valid()
      ensures !halted ==> ContentsOf(node, od, generation) == old(ContentsOf(node, od, generation))[o := Entry(d, g)]
      ensures !halted && old(RedBlack(shape)) ==> RedBlack(shape)
      ensures old(NoScan(chains.table)) ==> NoScan(chains.table)
      ensures !halted && old(o in node) ==> shape == old(shape) && oid == old(oid) && tree.root == old(tree.root)
    {
      EntriesAndFree();
      assert Contents().Keys == node.Keys;
      var n, y;
      ghost var k, sub;
      n, y, k, sub := tree.Descend(o, oid, shape);
      if n != NIL {
        halted := UpdateEntry(o, n, d, g);
      } else {
        halted := InsertEntry(o, d, g, y, k);
      }
    }

    /** ld_recordLocation. */
    method RecordLocation(o: int, d: Descriptor, g: nat) returns (halted: bool)
      requires Valid() && MIN < o < MAX
      modifies this, tree, chains
      ensures halted <==> old(RecordHalts(o, g))
      ensures !halted ==> Valid() && Contents() == old(Contents())[o := Entry(d, g)]
      ensures !halted ==> highest == if g > old(highest) then g else old(highest)
      ensures !halted && old(RedBlack(shape)) ==> RedBlack(shape)
      ensures old(NoScan(chains.table)) ==> NoScan(chains.table)
      ensures !halted && old(o in Contents()) ==> shape == old(shape) && oid == old(oid) && tree.root == old(tree.root)
    {
      assert Contents().Keys == node.Keys;
      assert |Contents()| == |node|;
      if g > highest {
        halted := Raise(g);
        if halted {
          return;
        }
      }
      halted := RecordHere(o, d, g);
    }

    lemma NodeOf(o: int)
      requires Valid()
      ensures o in node ==> node[o] in Ids(shape) && 1 <= node[o] <= size && oid[node[o]] == o
      ensures o !in node ==> node - {o} == node
      ensures forall p :: p in node ==> node[p] < |od| && node[p] < |generation|
    {
    }

    /** There are two entries, and the node of this one is the root. */
    ghost predicate RootOfTwo(o: int)
      reads this, tree, chains
      requires Valid()
    {
      |Contents()| == 2 && tree.root < |oid| && oid[tree.root] == o
    }

    lemma ContentKeys()
      requires Valid()
      ensures Contents().Keys == node.Keys
    {
    }

    lemma RootOfTwoIs(o: int)
      requires Valid() && o in node
      ensures RootOfTwo(o) <==> OneChild(shape, node[o])
    {
      NodeCount();
      OneChildIsTwo(shape, oid, node[o]);
    }

    /**
     ld_removeObjectEntry. Removing the root of a two-node tree is the one removal after which the
     colour laws do not hold: its child stays red.
     */
    method RemoveObjectEntry(o: int)
      requires Valid() && MIN < o < MAX
      modifies this, tree, chains
      ensures Valid() && Contents() == old(Contents()) - {o} && highest == old(highest)
      ensures RedBlack(shape) <==>
        if o in old(node) then !OneChild(old(shape), old(node[o])) else old(RedBlack(shape))
      ensures RedBlack(shape) <==> if old(o in Contents()) then !old(RootOfTwo(o)) else old(RedBlack(shape))
    {
      hide LawsOrLone, At, Placed, Named, RedBlack, OneChild, Total, ContentsOf, RootOfTwo;
      ContentKeys();
      if o in node {
        RootOfTwoIs(o);
      }
      var n := FindNode(o);
      NodeOf(o);
      ghost var node0 := node;
      ContentsWithout(node0, od, generation, o);
      if n != NIL {
        RemoveNode(n);
      }
    }

    /** A node of the tree is on the chain of its generation; a node on a chain is of the tree. */
    lemma OnChain(n: nat, g: nat)
      requires Valid() && g < LD_MAX_GENERATIONS
      ensures n in chains.chain[g] <==> n in Ids(shape) && highest - generation[n] == g
    {
      hide At, LawsOrLone, Named, TableOk, FreeOk, Total;
      assert Located(chains.chain[g], g, chains.home, size);
      if n in Ids(shape) {
        PlacedAt(Ids(shape), generation, highest, chains.home, size, n);
      }
    }

    lemma NextOnChain(tn: nat, g: nat)
      requires Valid() && g < LD_MAX_GENERATIONS && tn in Ids(shape) && highest - generation[tn] == g
      ensures tn in chains.next && chains.next[tn] <= size && chains.next[tn] in Ids(shape)
      ensures highest - generation[chains.next[tn]] == g
      ensures oid[chains.next[tn]] in node && node[oid[chains.next[tn]]] == chains.next[tn]
      ensures chains.next[tn] == tn ==> chains.chain[g] == [tn]
      ensures tn != chains.next[tn] ==> tn in Ids(shape) - {chains.next[tn]}
    {
      OnChain(tn, g);
      ChainFacts(chains.table, chains.chain, chains.home, size, chains.next, chains.prev, g);
      NextOnRing(chains.chain[g], tn, chains.next, chains.prev);
      OnChain(chains.next[tn], g);
    }

    /** One round of the inner loop of ld_clearGeneration: removes the node after tn on its chain, if there is one. */
    method RemoveAfter(tn: nat, g: nat) returns (more: bool)
      requires Valid() && g < LD_MAX_GENERATIONS && tn in Ids(shape) && highest - generation[tn] == g
      modifies this, tree, chains
      ensures Valid() && tn in Ids(shape)
      ensures Pruned(old(shape), shape)
      ensures oid == old(oid) && od == old(od) && generation == old(generation) && highest == old(highest)
      ensures OnlyGone(old(node), node, generation, highest, g)
      ensures more ==> |node| < old(|node|)
      ensures !more ==> chains.chain[g] == [tn]
      ensures old(NoScan(chains.table)) ==> NoScan(chains.table)
    {
      NextOnChain(tn, g);
      PrunedSame(shape);
      var z := chains.next[tn];
      if z == tn {
        return false;
      }
      ghost var node0, shape0 := node, shape;
      hide *;
      RemoveNode(z);
      PrunedOne(shape0, shape, z);
      OneGone(node0, node, oid[z], generation, highest, g);
      return true;
    }

    /** The last removal of the inner loop of ld_clearGeneration. */
    method RemoveLast(tn: nat, g: nat)
      requires Valid() && g < LD_MAX_GENERATIONS && chains.chain[g] == [tn]
      modifies this, tree, chains
      ensures Valid() && chains.chain[g] == []
      ensures Pruned(old(shape), shape)
      ensures oid == old(oid) && od == old(od) && generation == old(generation) && highest == old(highest)
      ensures OnlyGone(old(node), node, generation, highest, g)
      ensures old(NoScan(chains.table)) ==> NoScan(chains.table)
    {
      hide At, LawsOrLone, RedBlack, OneChild, TableOk, FreeOk, Total, NoScan;
      OnChain(tn, g);
      ghost var ids0 := Ids(shape);
      assert forall n | n in ids0 && highest - generation[n] == g :: n == tn by {
        forall n | n in ids0 && highest - generation[n] == g
          ensures n == tn
        {
          OnChain(n, g);
        }
      }
      assert node[oid[tn]] == tn;
      ghost var shape0 := shape;
      RemoveNode(tn);
      PrunedOne(shape0, shape, tn);
      if chains.chain[g] != [] {
        OnChain(chains.chain[g][0], g);
      }
    }

    /** The rest of the inner loop of ld_clearGeneration, written as a tail call: empties the chain tn heads. */
    method ClearRest(tn: nat, g: nat)
      requires Valid() && g < LD_MAX_GENERATIONS && tn in Ids(shape) && highest - generation[tn] == g
      modifies this, tree, chains
      ensures Valid() && chains.chain[g] == []
      ensures Pruned(old(shape), shape)
      ensures oid == old(oid) && od == old(od) && generation == old(generation) && highest == old(highest)
      ensures OnlyGone(old(node), node, generation, highest, g)
      ensures old(NoScan(chains.table)) ==> NoScan(chains.table)
      decreases |node|
    {
      ghost var node0, shape0 := node, shape;
      hide *;
      var more := RemoveAfter(tn, g);
      ghost var mid, shape1 := node, shape;
      if more {
        ClearRest(tn, g);
      } else {
        RemoveLast(tn, g);
      }
      PrunedTrans(shape0, shape1, shape);
      OnlyGoneTrans(node0, mid, node, generation, highest, g);
    }

    lemma NoneOnEmpty(g: nat)
      requires Valid() && g < LD_MAX_GENERATIONS && chains.chain[g] == []
      ensures forall o :: o in node ==> node[o] < |generation| && highest - generation[node[o]] != g
    {
      forall o | o in node
        ensures node[o] < |generation| && highest - generation[node[o]] != g
      {
        OnChain(node[o], g);
      }
    }

    lemma AllInTable()
      requires Valid()
      ensures ClearedFrom(node, node, generation, highest, LD_MAX_GENERATIONS)
    {
    }

    /** One generation of ld_clearGeneration: halts when a scan of it is still in progress. */
    method ClearOne(g: nat) returns (halted: bool)
      requires Valid() && g < LD_MAX_GENERATIONS
      modifies this, tree, chains
      ensures old(NoScan(chains.table)) ==> NoScan(chains.table) && !halted
      ensures !halted ==> Valid() && chains.chain[g] == [] && Pruned(old(shape), shape)
      ensures !halted ==> oid == old(oid) && od == old(od) && generation == old(generation) && highest == old(highest)
      ensures !halted ==> OnlyGone(old(node), node, generation, highest, g)
    {
      ChainFacts(chains.table, chains.chain, chains.home, size, chains.next, chains.prev, g);
      PrunedSame(shape);
      var tn := chains.table[g].head;
      if tn == NULL {
        return false;
      }
      OnChain(tn, g);
      hide *;
      ClearRest(tn, g);
      halted := chains.table[g].cursor != NULL;
    }

    /** The outer loop of ld_clearGeneration, written as a tail call. */
    method ClearFrom(g: nat) returns (halted: bool)
      requires Valid() && g <= LD_MAX_GENERATIONS
      modifies this, tree, chains
      ensures old(NoScan(chains.table)) ==> NoScan(chains.table) && !halted
      ensures !halted ==> Valid() && Pruned(old(shape), shape)
      ensures !halted ==> oid == old(oid) && od == old(od) && generation == old(generation) && highest == old(highest)
      ensures !halted ==> ClearedFrom(old(node), node, generation, highest, g)
      decreases LD_MAX_GENERATIONS - g
    {
      if g == LD_MAX_GENERATIONS {
        AllInTable();
        PrunedSame(shape);
        return false;
      }
      ghost var node0, shape0 := node, shape;
      halted := ClearOne(g);
      if halted {
        return;
      }
      NoneOnEmpty(g);
      ghost var mid, shape1 := node, shape;
      hide *;
      halted := ClearFrom(g + 1);
      if !halted {
        PrunedTrans(shape0, shape1, shape);
        ClearedOne(node0, mid, node, generation, highest, g);
      }
    }

    lemma NodeCount()
      requires Valid()
      ensures |Ids(shape)| == |Contents()|
    {
      NamedCount(Ids(shape), oid, node);
      assert Contents().Keys == node.Keys;
    }

    /**
     ld_clearGeneration: removes every entry of generation g or older. It halts if g is not a generation
     of the table; otherwise only a scan in progress can make it halt.
     */
    method ClearGeneration(g: nat) returns (halted: bool)
      requires Valid()
      modifies this, tree, chains
      ensures g > highest || g + LD_MAX_GENERATIONS <= highest ==> halted
      ensures old(NoScan(chains.table)) && g <= old(highest) < g + LD_MAX_GENERATIONS ==> !halted
      ensures !halted ==> Valid() && highest == old(highest) && oid == old(oid)
      ensures !halted ==> Contents() == NewerThan(old(Contents()), g) && Pruned(old(shape), shape)
      ensures !halted && |Contents()| != 1 ==> RedBlack(shape)
      ensures !halted && Contents() == old(Contents()) ==> (RedBlack(shape) <==> old(RedBlack(shape)))
    {
      hide At, LawsOrLone, Placed, Total, RedBlack, Pruned, Ids, ChainsOk, TableOk, FreeOk, ClearedFrom;
      if g > highest || highest - g >= LD_MAX_GENERATIONS {
        return true;
      }
      ghost var node0, od0, gen0, shape0, d0 := node, od, generation, shape, Contents();
      assert forall o :: o in node0 ==> node0[o] < |od0|;
      NodeCount();
      halted := ClearFrom(highest - g);
      if !halted {
        ContentsCleared(node0, node, od0, gen0, highest, g);
        NodeCount();
        if |Contents()| != 1 {
          SeveralRedBlack(shape);
        }
        if Contents() == d0 {
          PrunedNothing(shape0, shape);
        }
      }
    }

    /** The nodes of the first i chains are the entries newer than generation g. */
    lemma NewerCount(g: nat, i: nat)
      requires Valid() && i <= LD_MAX_GENERATIONS
      requires forall n :: n in Ids(shape) ==> (generation[n] > g <==> highest - generation[n] < i)
      ensures |NewerThan(Contents(), g)| == Total(chains.chain[..i])
    {
      ChainsCount(chains.chain, chains.home, size, chains.next, chains.prev, i);
      var on := OnChains(chains.chain[..i]);
      assert forall n :: n in on <==> n in Ids(shape) && highest - generation[n] < i by {
        forall n: nat, h | 0 <= h < LD_MAX_GENERATIONS
          ensures n in chains.chain[h] <==> n in Ids(shape) && highest - generation[n] == h
        {
          OnChain(n, h);
        }
        forall n | n in Ids(shape) && highest - generation[n] < i
          ensures n in on
        {
          assert n in chains.chain[..i][highest - generation[n]];
        }
      }
      NewerNodes(Ids(shape), oid, node, od, generation, on, g);
    }

    /** ld_numAvailableEntries. */
    method NumAvailableEntries(g: nat) returns (count: int)
      requires Valid()
      ensures count == size - |NewerThan(Contents(), g)|
    {
      count := size;
      var i := 0;
      assert chains.chain[..0] == [];
      while i < LD_MAX_GENERATIONS && highest - i > g
        invariant 0 <= i <= LD_MAX_GENERATIONS && (i > 0 ==> highest - (i - 1) > g)
        invariant count == size - Total(chains.chain[..i])
      {
        assert chains.chain[..i + 1][..i] == chains.chain[..i];
        count := count - chains.table[i].count;
        i := i + 1;
      }
      NewerCount(g, i);
    }

    /** The names and descriptors of the nodes of a chain are the entries of its generation. */
    lemma ChainMet(g: nat, met: seq<int>, ods: seq<Descriptor>)
      requires Valid() && g <= highest < g + LD_MAX_GENERATIONS
      requires |met| == |ods| == |chains.chain[highest - g]|
      requires forall i :: 0 <= i < |met| ==>
        var n := chains.chain[highest - g][i];
        n < |oid| && n < |od| && met[i] == oid[n] && ods[i] == od[n]
      ensures Meets(met, ods, ContentsOf(node, od, generation), g)
    {
      var c := chains.chain[highest - g];
      forall i | 0 <= i < |c|
        ensures c[i] in c && c[i] in Ids(shape) && node[oid[c[i]]] == c[i] && generation[c[i]] == g
      {
        OnChain(c[i], highest - g);
      }
      ChainFacts(chains.table, chains.chain, chains.home, size, chains.next, chains.prev, highest - g);
      forall o | o in node && generation[node[o]] == g
        ensures o in met
      {
        OnChain(node[o], highest - g);
        var i :| 0 <= i < |c| && c[i] == node[o];
        assert met[i] == o;
      }
    }

    /**
     A scan of generation g: ld_resetScan, then ld_findNextObject until it has no more. It meets every
     entry of the generation once, and halts if g is not a generation of the table.
     */
    method Scan(g: nat) returns (halted: bool, met: seq<int>, ods: seq<Descriptor>)
      requires Valid()
      modifies chains`table
      ensures Valid()
      ensures halted <==> g > highest || g + LD_MAX_GENERATIONS <= highest
      ensures !halted ==> Meets(met, ods, ContentsOf(node, od, generation), g)
    {
      hide At, LawsOrLone, Placed, Named, Total;
      halted, met, ods := g > highest || highest - g >= LD_MAX_GENERATIONS, [], [];
      if halted {
        return;
      }
      met, ods := ScanChain(highest - g);
      ChainMet(g, met, ods);
    }

    method ScanChain(h: nat) returns (met: seq<int>, ods: seq<Descriptor>)
      requires chains.Valid() && |oid| == |od| == chains.size + 1 && h < LD_MAX_GENERATIONS
      modifies chains`table
      ensures chains.Valid() && |met| == |ods| == |chains.chain[h]|
      ensures forall i :: 0 <= i < |met| ==>
        var n := chains.chain[h][i];
        n < |oid| && n < |od| && met[i] == oid[n] && ods[i] == od[n]
    {
      assert forall i :: 0 <= i < |chains.chain[h]| ==> chains.chain[h][i] < |oid| by {
        ChainFacts(chains.table, chains.chain, chains.home, chains.size, chains.next, chains.prev, h);
      }
      hide *;
      var nodes := chains.Scan(h);
      met := seq(|nodes|, i requires 0 <= i < |nodes| && nodes[i] < |oid| reads this => oid[nodes[i]]);
      ods := seq(|nodes|, i requires 0 <= i < |nodes| && nodes[i] < |od| reads this => od[nodes[i]]);
    }
  }

  /** In a tree of two nodes the root has one child. */
  lemma TwoNodes(t: Tree, key: seq<int>)
    requires Ordered(t, key, MIN, MAX) && |Ids(t)| == 2
    ensures t.Node? && OneChild(t, t.n)
  {
    if t.Node? && t.l.Leaf? && t.r.Leaf? {
      OneNode(t);
    }
    if t.Node? && t.l.Node? && t.r.Node? {
      ThreeNodes(t, key);
    }
  }

  /** A node is a root with one child if and only if it is the root of a two-node tree. */
  lemma OneChildIsTwo(t: Tree, key: seq<int>, z: nat)
    requires LawsOrLone(t) && Ordered(t, key, MIN, MAX)
    ensures OneChild(t, z) <==> |Ids(t)| == 2 && t.Node? && t.n == z
  {
    if |Ids(t)| == 2 {
      TwoNodes(t, key);
    }
    if OneChild(t, z) {
      OneKid(t, key);
    }
  }

  lemma OneKid(t: Tree, key: seq<int>)
    requires RedBlack(t) && Ordered(t, key, MIN, MAX) && t.Node? && OneChild(t, t.n)
    ensures |Ids(t)| == 2
  {
    var kid := if t.l.Node? then t.l else t.r;
    RedLeaf(kid);
    assert Ids(t) == {t.n, kid.n};
    assert t.n != kid.n by {
      hide RedBlack, Balanced, NoRedRed;
      OrderedIds(t.l, key, MIN, key[t.n]);
      OrderedIds(t.r, key, key[t.n], MAX);
    }
  }

  /** A subtree with no black node is a red leaf node. */
  lemma RedLeaf(t: Tree)
    requires t.Node? && Balanced(t) && NoRedRed(t) && BlackHeight(t) == BlackHeight(Leaf)
    ensures t.l.Leaf? && t.r.Leaf? && Ids(t) == {t.n}
  {
    HeightOf(t.l);
    HeightOf(t.r);
  }

  lemma HeightOf(t: Tree)
    ensures t.Node? && t.c == Black ==> BlackHeight(t) > BlackHeight(Leaf)
    ensures BlackHeight(t) >= BlackHeight(Leaf)
  {
  }

  lemma OneNode(t: Tree)
    requires t.Node? && t.l.Leaf? && t.r.Leaf?
    ensures |Ids(t)| == 1
  {
    assert Ids(t) == {t.n};
  }

  lemma ThreeNodes(t: Tree, key: seq<int>)
    requires Ordered(t, key, MIN, MAX) && t.Node? && t.l.Node? && t.r.Node?
    ensures |Ids(t)| >= 3
  {
    OrderedIds(t.l, key, MIN, key[t.n]);
    OrderedIds(t.r, key, key[t.n], MAX);
    assert |{t.n, t.l.n, t.r.n}| == 3;
    SubsetCount({t.n, t.l.n, t.r.n}, Ids(t));
  }

  lemma SubsetCount(a: set<nat>, b: set<nat>)
    requires a <= b
    ensures |a| <= |b|
  {
    assert b == a + (b - a);
  }

  /** Two entries make a tree whose root has one child; its OID is the root's. */
  lemma TwoEntries(dir: Directory)
    requires dir.Valid() && |dir.Contents()| == 2
    ensures dir.tree.root <= dir.size && dir.oid[dir.tree.root] in dir.node
    ensures OneChild(dir.shape, dir.node[dir.oid[dir.tree.root]]) && MIN < dir.oid[dir.tree.root] < MAX
  {
    hide LawsOrLone, Placed, Total, OneChild;
    assert dir.Contents().Keys == dir.node.Keys;
    NamedCount(Ids(dir.shape), dir.oid, dir.node);
    TwoNodes(dir.shape, dir.oid);
  }

  /** A directory gets into the one state from which ld_recordLocation halts with room to spare. */
  method LeaveRedRoot(a: int, b: int, d: Descriptor) returns (dir: Directory, left: int)
    requires MIN < a < MAX && MIN < b < MAX && a != b
    ensures fresh(dir) && dir.Valid() && dir.size == 10 && left in {a, b} && dir.Contents() == map[left := Entry(d, 1)]
    ensures !RedBlack(dir.shape) && forall c, g :: c != left ==> dir.RecordHalts(c, g)
  {
    hide At, LawsOrLone, Named, Placed, Total, RedBlack, OneChild, ContentsOf, Ids, NoScan;
    dir := TwoRecorded(a, b, d);
    TwoEntries(dir);
    dir.ContentKeys();
    var root := dir.oid[dir.tree.root];
    dir.RootOfTwoIs(root);
    left := if root == a then b else a;
    dir.RemoveObjectEntry(root);
    assert map[a := Entry(d, 1), b := Entry(d, 1)] - {root} == map[left := Entry(d, 1)];
    LoneRed(dir);
  }

  method TwoRecorded(a: int, b: int, d: Descriptor) returns (dir: Directory)
    requires MIN < a < MAX && MIN < b < MAX && a != b
    ensures fresh(dir) && fresh(dir.tree) && fresh(dir.chains) && dir.Valid() && dir.size == 10 && dir.highest == 1
    ensures dir.Contents() == map[a := Entry(d, 1), b := Entry(d, 1)] && |dir.Contents()| == 2
    ensures RedBlack(dir.shape) && NoScan(dir.chains.table)
  {
    hide At, LawsOrLone, Named, Placed, Total, RedBlack, OneChild, ContentsOf, Ids, NoScan;
    dir := new Directory(10);
    dir.HaltsWithoutRoom(a, 1);
    BlackRoot(dir.shape);
    var halted := dir.RecordLocation(a, d, 1);
    dir.HaltsWithoutRoom(b, 1);
    BlackRoot(dir.shape);
    halted := dir.RecordLocation(b, d, 1);
    PairCount(a, b, Entry(d, 1), Entry(d, 1));
  }

  lemma PairCount(a: int, b: int, x: Entry, y: Entry)
    requires a != b
    ensures |map[a := x, b := y]| == 2 && |map[a := x]| == 1
  {
    var m, l := map[a := x, b := y], map[a := x];
    assert m.Keys == {a, b} && |m| == |m.Keys| && l.Keys == {a} && |l| == |l.Keys|;
  }

  lemma BlackRoot(t: Tree)
    requires RedBlack(t)
    ensures t.Hue() == Black
  {
  }

  /** Two entries, of which the root's is of the older generation. */
  method TwoAges(a: int, b: int, d: Descriptor) returns (dir: Directory, root: int, left: int)
    requires MIN < a < MAX && MIN < b < MAX && a != b
    ensures fresh(dir) && fresh(dir.tree) && fresh(dir.chains) && dir.Valid() && dir.size == 10 && dir.highest == 2
    ensures root != left && {root, left} == {a, b} && dir.tree.root < |dir.oid| && dir.oid[dir.tree.root] == root
    ensures dir.Contents() == map[root := Entry(d, 1), left := Entry(d, 2)] && NoScan(dir.chains.table)
  {
    hide At, LawsOrLone, Placed, Total, RedBlack, OneChild, ContentsOf, Ids, NoScan, Named;
    dir := TwoRecorded(a, b, d);
    TwoEntries(dir);
    dir.ContentKeys();
    root := dir.oid[dir.tree.root];
    left := if root == a then b else a;
    dir.HaltsWithoutRoom(left, 2);
    var halted := dir.RecordLocation(left, d, 2);
  }

  /** Clearing a generation can leave a red root as well: here the root's generation is the older of two. */
  method ClearToRedRoot(a: int, b: int, d: Descriptor) returns (dir: Directory, left: int)
    requires MIN < a < MAX && MIN < b < MAX && a != b
    ensures fresh(dir) && dir.Valid() && dir.size == 10 && left in {a, b} && dir.Contents() == map[left := Entry(d, 2)]
    ensures !RedBlack(dir.shape) && forall c, g :: c != left ==> dir.RecordHalts(c, g)
  {
    hide At, LawsOrLone, Placed, Total, RedBlack, OneChild, ContentsOf, Ids, NoScan, Pruned, Named;
    var root;
    dir, root, left := TwoAges(a, b, d);
    PairCount(root, left, Entry(d, 1), Entry(d, 2));
    PairCount(left, root, Entry(d, 2), Entry(d, 1));
    dir.NodeCount();
    ghost var shape0, m := dir.shape, dir.Contents();
    RootIs(dir);
    assert NewerThan(m, 1) == map[left := Entry(d, 2)];
    var halted := dir.ClearGeneration(1);
    dir.NodeCount();
    RootGone(shape0, dir, root);
    LoneRed(dir);
  }

  lemma RootIs(dir: Directory)
    requires dir.Valid() && |dir.Contents()| == 2
    ensures dir.shape.Node? && dir.tree.root == dir.shape.n && OneChild(dir.shape, dir.shape.n)
  {
    hide LawsOrLone, Placed, Total, OneChild;
    dir.NodeCount();
    TwoNodes(dir.shape, dir.oid);
  }

  /** The root of a two-node tree went. */
  lemma RootGone(t: Tree, dir: Directory, root: int)
    requires dir.Valid() && t.Node? && OneChild(t, t.n) && Pruned(t, dir.shape) && |Ids(t)| == 2
    requires |Ids(dir.shape)| == 1 && t.n < |dir.oid| && dir.oid[t.n] == root && root !in dir.Contents()
    ensures !RedBlack(dir.shape)
  {
    hide LawsOrLone, Placed, Total, Pruned, RedBlack, OneChild, At;
    PrunedByOne(t, dir.shape);
    dir.ContentKeys();
    assert t.n !in Ids(dir.shape);
    assert t.n in Ids(t);
  }

  lemma LoneRed(dir: Directory)
    requires dir.Valid() && !RedBlack(dir.shape)
    ensures dir.shape.Hue() == Red
  {
    var t := dir.shape;
    assert Balanced(t.l) && Balanced(t.r) && NoRedRed(t.l) && NoRedRed(t.r);
  }
}
