/**
 The generation chains and the free list of src/sys/kernel/kern_LogDirectory.c. Each node of
 the pool is on the ring of one generation, on the free list, or on neither while it moves.
 */
module GenChains {
  import opened Ring

  const LD_MAX_GENERATIONS := 15

  /** The null pointer: pool nodes are 1 to size. */
  const NULL: nat := 0

  /** One entry of generation_table. */
  datatype GT = GT(head: nat, cursor: nat, count: nat)

  /** Where a node is: on the chain of a table index, on the free list, or between places. */
  datatype Home = Chain(g: nat) | Free | Limbo

  ghost function Total(chain: seq<seq<nat>>): nat {
    if chain == [] then 0 else Total(chain[..|chain| - 1]) + |chain[|chain| - 1]|
  }

  lemma {:induction false} TotalUpdate(chain: seq<seq<nat>>, g: nat, c: seq<nat>)
    requires g < |chain|
    ensures Total(chain[g := c]) == Total(chain) - |chain[g]| + |c|
  {
    var k := |chain| - 1;
    if g < k {
      TotalUpdate(chain[..k], g, c);
      assert chain[g := c][..k] == chain[..k][g := c];
    } else {
      assert chain[g := c][..k] == chain[..k];
    }
  }

  lemma {:induction false} TotalEmpty(chain: seq<seq<nat>>)
    requires forall g :: 0 <= g < |chain| ==> chain[g] == []
    ensures Total(chain) == 0
  {
    if chain != [] {
      TotalEmpty(chain[..|chain| - 1]);
    }
  }

  lemma {:induction false} TotalShift(a: seq<seq<nat>>, b: seq<seq<nat>>)
    requires forall g :: 0 <= g < |b| ==> b[g] == []
    ensures Total(a + b) == Total(a)
    decreases |b|
  {
    if b == [] {
      assert a + b == a;
    } else {
      assert (a + b)[..|a + b| - 1] == a + b[..|b| - 1];
      TotalShift(a, b[..|b| - 1]);
    }
  }

  lemma {:induction false} TotalPrepend(a: seq<seq<nat>>, b: seq<seq<nat>>)
    requires forall g :: 0 <= g < |a| ==> a[g] == []
    ensures Total(a + b) == Total(b)
    decreases |b|
  {
    if b == [] {
      assert a + b == a;
      TotalEmpty(a);
    } else {
      assert (a + b)[..|a + b| - 1] == a + b[..|b| - 1];
      TotalPrepend(a, b[..|b| - 1]);
    }
  }

  function After(free: seq<nat>, i: nat): nat {
    if i + 1 < |free| then free[i + 1] else NULL
  }

  /** The free list: singly linked through `next`. */
  ghost predicate IsFreeList(free: seq<nat>, head: nat, next: map<nat, nat>) {
    && (forall i :: 0 <= i < |free| ==> free[i] in next)
    && (forall i :: 0 <= i < |free| ==> next[free[i]] == After(free, i))
    && (forall i, j :: 0 <= i < j < |free| ==> free[i] != free[j])
    && head == if free == [] then NULL else free[0]
  }

  function NoLinks(n: nat): (r: map<nat, nat>)
    ensures forall x: nat :: x in r <==> 1 <= x <= n
  {
    if n == 0 then map[] else NoLinks(n - 1)[n := NULL]
  }

  ghost predicate Located(c: seq<nat>, g: nat, home: seq<Home>, size: nat) {
    |home| == size + 1 && forall x :: x in c ==> 1 <= x <= size && home[x] == Chain(g)
  }

  /** The chains: ring g holds exactly the nodes whose home it is. */
  ghost predicate ChainsOk(chain: seq<seq<nat>>, home: seq<Home>, size: nat, next: map<nat, nat>, prev: map<nat, nat>) {
    && |chain| == LD_MAX_GENERATIONS && |home| == size + 1
    && (forall x :: 1 <= x <= size ==> x in next && x in prev)
    && (forall g :: 0 <= g < LD_MAX_GENERATIONS ==> IsRing(chain[g], next, prev))
    && (forall g :: 0 <= g < LD_MAX_GENERATIONS ==> Located(chain[g], g, home, size))
    && (forall x :: 1 <= x <= size && home[x].Chain? ==> home[x].g < LD_MAX_GENERATIONS && x in chain[home[x].g])
  }

  ghost predicate TableOk(table: seq<GT>, chain: seq<seq<nat>>) {
    && |table| == |chain| == LD_MAX_GENERATIONS
    && forall g :: 0 <= g < LD_MAX_GENERATIONS ==>
      table[g].count == |chain[g]| && table[g].head == if chain[g] == [] then NULL else chain[g][0]
  }

  ghost predicate FreeOk(free: seq<nat>, freeList: nat, home: seq<Home>, size: nat, next: map<nat, nat>) {
    && |home| == size + 1 && IsFreeList(free, freeList, next)
    && (forall x :: x in free ==> 1 <= x <= size && home[x] == Free)
    && (forall x :: 1 <= x <= size && home[x].Free? ==> x in free)
  }

  /** Moving node n onto or off chain g leaves the other rings alone. */
  lemma ChainsMoved(chain: seq<seq<nat>>, home: seq<Home>, size: nat, next: map<nat, nat>, prev: map<nat, nat>,
                    g: nat, n: nat, c: seq<nat>, h: Home, next': map<nat, nat>, prev': map<nat, nat>)
    requires ChainsOk(chain, home, size, next, prev) && g < LD_MAX_GENERATIONS && 1 <= n <= size
    requires (home[n] == Limbo && h == Chain(g)) || (home[n] == Chain(g) && h == Limbo)
    requires forall x :: x in c <==> (x in chain[g] && x != n) || (x == n && h == Chain(g))
    requires IsRing(c, next', prev')
    requires forall x :: 1 <= x <= size ==> x in next' && x in prev'
    requires forall x :: 1 <= x <= size && x != n && home[x] != Chain(g) ==> next'[x] == next[x] && prev'[x] == prev[x]
    ensures ChainsOk(chain[g := c], home[n := h], size, next', prev')
  {
    var chain' := chain[g := c];
    assert Located(chain[g], g, home, size);
    forall e | 0 <= e < LD_MAX_GENERATIONS
      ensures IsRing(chain'[e], next', prev') && Located(chain'[e], e, home[n := h], size)
    {
      if e != g {
        assert Located(chain[e], e, home, size);
        RingFrame(chain[e], next, prev, next', prev');
      }
    }
  }

  lemma FreeKept(free: seq<nat>, freeList: nat, home: seq<Home>, size: nat, next: map<nat, nat>,
                 n: nat, h: Home, next': map<nat, nat>)
    requires FreeOk(free, freeList, home, size, next) && 1 <= n <= size && home[n] != Free && h != Free
    requires forall x :: 1 <= x <= size && home[x] == Free ==> x in next' && next'[x] == next[x]
    ensures FreeOk(free, freeList, home[n := h], size, next')
  {
    assert forall i :: 0 <= i < |free| ==> free[i] in free;
  }

  /** What the invariants say of one chain. */
  lemma ChainFacts(table: seq<GT>, chain: seq<seq<nat>>, home: seq<Home>, size: nat,
                   next: map<nat, nat>, prev: map<nat, nat>, g: nat)
    requires ChainsOk(chain, home, size, next, prev) && TableOk(table, chain) && g < LD_MAX_GENERATIONS
    ensures |chain| == |table| == LD_MAX_GENERATIONS && |home| == size + 1
    ensures IsRing(chain[g], next, prev) && Located(chain[g], g, home, size) && NULL !in chain[g]
    ensures table[g].count == |chain[g]| && table[g].head == if chain[g] == [] then NULL else chain[g][0]
    ensures forall x :: 1 <= x <= size ==> x in next && x in prev && (home[x] == Chain(g) <==> x in chain[g])
    ensures forall i :: 0 <= i < |chain[g]| ==> chain[g][i] in chain[g]
  {
    assert Located(chain[g], g, home, size);
  }

  /** Chain c with node n put just after its head. */
  ghost function Chained(c: seq<nat>, n: nat): seq<nat> {
    if c == [] then [n] else InsertedAfter(c, 0, n)
  }

  lemma ChainedMembers(c: seq<nat>, n: nat)
    ensures |Chained(c, n)| == |c| + 1 && Chained(c, n)[0] == (if c == [] then n else c[0])
    ensures forall x :: x in Chained(c, n) <==> x in c || x == n
  {
  }

  /** The links chain_node writes make that ring. */
  lemma ChainedRing(c: seq<nat>, n: nat, next: map<nat, nat>, prev: map<nat, nat>, next': map<nat, nat>,
                    prev': map<nat, nat>)
    requires IsRing(c, next, prev) && n !in c
    requires c == [] ==> next' == next[n := n] && prev' == prev[n := n]
    requires c != [] ==> next' == next[c[0] := n][n := next[c[0]]]
    requires c != [] ==> prev' == prev[next[c[0]] := n][n := c[0]]
    ensures IsRing(Chained(c, n), next', prev')
    ensures forall x :: x in next ==> x in next' && (x !in c && x != n ==> next'[x] == next[x])
    ensures forall x :: x in prev ==> x in prev' && (x !in c && x != n ==> prev'[x] == prev[x])
  {
    if c != [] {
      assert next[c[0]] in c by { assert next[c[0]] == if |c| > 1 then c[1] else c[0]; }
      RingInsert(c, 0, n, next, prev, next', prev');
    }
  }

  lemma TableChained(table: seq<GT>, chain: seq<seq<nat>>, g: nat, n: nat, gte: GT)
    requires TableOk(table, chain) && g < LD_MAX_GENERATIONS
    requires gte == GT(if chain[g] == [] then n else chain[g][0], table[g].cursor, |chain[g]| + 1)
    ensures TableOk(table[g := gte], chain[g := Chained(chain[g], n)])
    ensures NoScan(table) ==> NoScan(table[g := gte])
    ensures Total(chain[g := Chained(chain[g], n)]) == Total(chain) + 1
  {
    ChainedMembers(chain[g], n);
    TotalUpdate(chain, g, Chained(chain[g], n));
  }

  /** Chain c with c[i] taken off: taking off the head makes the last node the head. */
  ghost function Unchained(c: seq<nat>, i: nat): seq<nat>
    requires i < |c|
  {
    if i == 0 then Removed(FromLast(c), if |c| == 1 then 0 else 1) else Removed(c, i)
  }

  lemma UnchainedMembers(c: seq<nat>, i: nat)
    requires i < |c| && forall i, j :: 0 <= i < j < |c| ==> c[i] != c[j]
    ensures |Unchained(c, i)| == |c| - 1
    ensures |c| > 1 ==> Unchained(c, i)[0] == if i == 0 then c[|c| - 1] else c[0]
    ensures forall x :: x in Unchained(c, i) <==> x in c && x != c[i]
  {
    var d := FromLast(c);
    if i == 0 {
      RemovedMembers(d, if |c| == 1 then 0 else 1);
    } else {
      RemovedMembers(c, i);
    }
  }

  lemma UnchainedRing(c: seq<nat>, i: nat, next: map<nat, nat>, prev: map<nat, nat>, next': map<nat, nat>,
                      prev': map<nat, nat>)
    requires IsRing(c, next, prev) && i < |c|
    requires prev[c[i]] in next && next' == next[prev[c[i]] := next[c[i]]][c[i] := c[i]]
    requires next[c[i]] in prev && prev' == prev[next[c[i]] := prev[c[i]]][c[i] := c[i]]
    ensures IsRing(Unchained(c, i), next', prev')
    ensures forall x :: x in next ==> x in next' && (x !in c ==> next'[x] == next[x])
    ensures forall x :: x in prev ==> x in prev' && (x !in c ==> prev'[x] == prev[x])
  {
    assert prev[c[i]] in c by { assert prev[c[i]] == if i > 0 then c[i - 1] else c[|c| - 1]; }
    assert next[c[i]] in c by { assert next[c[i]] == if i < |c| - 1 then c[i + 1] else c[0]; }
    if i == 0 {
      RingFromLast(c, next, prev);
      RingRemove(FromLast(c), if |c| == 1 then 0 else 1, next, prev, next', prev');
    } else {
      RingRemove(c, i, next, prev, next', prev');
    }
  }

  /** The head of the chain, after unchain_node has looked at it. */
  lemma TableUnchained(table: seq<GT>, chain: seq<seq<nat>>, g: nat, i: nat, gte: GT)
    requires TableOk(table, chain) && g < LD_MAX_GENERATIONS && i < |chain[g]|
    requires forall i, j :: 0 <= i < j < |chain[g]| ==> chain[g][i] != chain[g][j]
    requires gte.count == |chain[g]| - 1
    requires gte.head == if |chain[g]| == 1 then NULL else if i == 0 then chain[g][|chain[g]| - 1] else chain[g][0]
    ensures TableOk(table[g := gte], chain[g := Unchained(chain[g], i)])
    ensures Total(chain[g := Unchained(chain[g], i)]) == Total(chain) - 1
  {
    UnchainedMembers(chain[g], i);
    TotalUpdate(chain, g, Unchained(chain[g], i));
  }

  lemma NodeUnchained(chain: seq<seq<nat>>, free: seq<nat>, freeList: nat, home: seq<Home>, size: nat,
                      next: map<nat, nat>, prev: map<nat, nat>, g: nat, i: nat, next': map<nat, nat>,
                      prev': map<nat, nat>)
    requires ChainsOk(chain, home, size, next, prev) && FreeOk(free, freeList, home, size, next)
    requires g < LD_MAX_GENERATIONS && i < |chain[g]| && chain[g][i] <= size
    requires IsRing(Unchained(chain[g], i), next', prev')
    requires forall x :: x in next ==> x in next' && (x !in chain[g] ==> next'[x] == next[x])
    requires forall x :: x in prev ==> x in prev' && (x !in chain[g] ==> prev'[x] == prev[x])
    ensures ChainsOk(chain[g := Unchained(chain[g], i)], home[chain[g][i] := Limbo], size, next', prev')
    ensures FreeOk(free, freeList, home[chain[g][i] := Limbo], size, next')
  {
    var n := chain[g][i];
    assert Located(chain[g], g, home, size) && n in chain[g];
    UnchainedMembers(chain[g], i);
    ChainsMoved(chain, home, size, next, prev, g, n, Unchained(chain[g], i), Limbo, next', prev');
    FreeKept(free, freeList, home, size, next, n, Limbo, next');
  }

  lemma NodeChained(chain: seq<seq<nat>>, free: seq<nat>, freeList: nat, home: seq<Home>, size: nat,
                    next: map<nat, nat>, prev: map<nat, nat>, g: nat, n: nat, next': map<nat, nat>,
                    prev': map<nat, nat>)
    requires ChainsOk(chain, home, size, next, prev) && FreeOk(free, freeList, home, size, next)
    requires g < LD_MAX_GENERATIONS && 1 <= n <= size && home[n] == Limbo
    requires IsRing(Chained(chain[g], n), next', prev')
    requires forall x :: x in next ==> x in next' && (x !in chain[g] && x != n ==> next'[x] == next[x])
    requires forall x :: x in prev ==> x in prev' && (x !in chain[g] && x != n ==> prev'[x] == prev[x])
    ensures ChainsOk(chain[g := Chained(chain[g], n)], home[n := Chain(g)], size, next', prev')
    ensures FreeOk(free, freeList, home[n := Chain(g)], size, next')
  {
    assert Located(chain[g], g, home, size);
    ChainedMembers(chain[g], n);
    ChainsMoved(chain, home, size, next, prev, g, n, Chained(chain[g], n), Chain(g), next', prev');
    FreeKept(free, freeList, home, size, next, n, Chain(g), next');
  }

  /** The linking part of chain_node: n goes just after the head t, or alone on an empty chain. */
  method LinkAfterHead(t: nat, n: nat, next: map<nat, nat>, prev: map<nat, nat>, ghost c: seq<nat>)
    returns (next': map<nat, nat>, prev': map<nat, nat>)
    requires IsRing(c, next, prev) && n !in c && t == (if c == [] then NULL else c[0]) && NULL !in c
    ensures IsRing(Chained(c, n), next', prev')
    ensures forall x :: x in next ==> x in next' && (x !in c && x != n ==> next'[x] == next[x])
    ensures forall x :: x in prev ==> x in prev' && (x !in c && x != n ==> prev'[x] == prev[x])
  {
    assert c != [] ==> c[0] in c;
    next', prev' := next, prev;
    if t == NULL {
      next' := next'[n := n];
      prev' := prev'[n := n];
    } else {
      var after := next'[t];
      next' := next'[n := after];
      prev' := prev'[after := n];
      prev' := prev'[n := t];
      next' := next'[t := n];
      assert next' == next[t := n][n := after];
    }
    ChainedRing(c, n, next, prev, next', prev');
  }

  /** The unlinking part of unchain_node. */
  method LinkOut(n: nat, next: map<nat, nat>, prev: map<nat, nat>, ghost c: seq<nat>, ghost i: nat)
    returns (next': map<nat, nat>, prev': map<nat, nat>)
    requires IsRing(c, next, prev) && i < |c| && c[i] == n
    ensures IsRing(Unchained(c, i), next', prev')
    ensures forall x :: x in next ==> x in next' && (x !in c ==> next'[x] == next[x])
    ensures forall x :: x in prev ==> x in prev' && (x !in c ==> prev'[x] == prev[x])
  {
    assert next[n] == if i < |c| - 1 then c[i + 1] else c[0];
    assert prev[n] == if i > 0 then c[i - 1] else c[|c| - 1];
    next' := next[prev[n] := next[n]];
    prev' := prev[next'[n] := prev[n]];
    next', prev' := next'[n := n], prev'[n := n];
    UnchainedRing(c, i, next, prev, next', prev');
  }

  /** The table entry's part of unchain_node: its head, cursor and count. */
  function EntryUnchained(gte: GT, n: nat, nextOfN: nat, prevOfN: nat): GT {
    var head := if gte.head == n then (if prevOfN == n then NULL else prevOfN) else gte.head;
    var cursor := if gte.cursor == n then nextOfN else gte.cursor;
    GT(head, if cursor == head then NULL else cursor, if gte.count > 0 then gte.count - 1 else 0)
  }

  /** chain_node on the fields, once the table index is known. */
  method ChainFields(n: nat, g: nat, table: seq<GT>, next: map<nat, nat>, prev: map<nat, nat>,
                     ghost chain: seq<seq<nat>>, ghost free: seq<nat>, ghost freeList: nat, ghost home: seq<Home>,
                     ghost size: nat)
    returns (table': seq<GT>, next': map<nat, nat>, prev': map<nat, nat>)
    requires ChainsOk(chain, home, size, next, prev) && TableOk(table, chain)
    requires FreeOk(free, freeList, home, size, next)
    requires 1 <= n <= size && home[n] == Limbo && g < LD_MAX_GENERATIONS
    ensures ChainsOk(chain[g := Chained(chain[g], n)], home[n := Chain(g)], size, next', prev')
    ensures |table'| == LD_MAX_GENERATIONS
    ensures TableOk(table', chain[g := Chained(chain[g], n)]) && (NoScan(table) ==> NoScan(table'))
    ensures FreeOk(free, freeList, home[n := Chain(g)], size, next')
    ensures Total(chain[g := Chained(chain[g], n)]) == Total(chain) + 1
  {
    ChainFacts(table, chain, home, size, next, prev, g);
    var gte := table[g];
    next', prev' := LinkAfterHead(gte.head, n, next, prev, chain[g]);
    gte := GT(if gte.head == NULL then n else gte.head, gte.cursor, gte.count + 1);
    TableChained(table, chain, g, n, gte);
    NodeChained(chain, free, freeList, home, size, next, prev, g, n, next', prev');
    table' := table[g := gte];
  }

  /** unchain_node on the fields, once the table index is known. */
  method UnchainFields(n: nat, g: nat, table: seq<GT>, next: map<nat, nat>, prev: map<nat, nat>,
                       ghost chain: seq<seq<nat>>, ghost free: seq<nat>, ghost freeList: nat, ghost home: seq<Home>,
                       ghost size: nat)
    returns (table': seq<GT>, next': map<nat, nat>, prev': map<nat, nat>, ghost i: nat)
    requires ChainsOk(chain, home, size, next, prev) && TableOk(table, chain)
    requires FreeOk(free, freeList, home, size, next)
    requires 1 <= n <= size && home[n] == Chain(g)
    ensures g < LD_MAX_GENERATIONS && i < |chain[g]| && chain[g][i] == n
    ensures |chain| == |table| == LD_MAX_GENERATIONS && |home| == size + 1
    ensures ChainsOk(chain[g := Unchained(chain[g], i)], home[n := Limbo], size, next', prev')
    ensures |table'| == LD_MAX_GENERATIONS && TableOk(table', chain[g := Unchained(chain[g], i)])
    ensures NoScan(table) ==> NoScan(table')
    ensures FreeOk(free, freeList, home[n := Limbo], size, next')
    ensures Total(chain[g := Unchained(chain[g], i)]) == Total(chain) - 1
  {
    ChainFacts(table, chain, home, size, next, prev, g);
    i :| i < |chain[g]| && chain[g][i] == n;
    var gte := EntryUnchained(table[g], n, next[n], prev[n]);
    next', prev' := LinkOut(n, next, prev, chain[g], i);
    TableUnchained(table, chain, g, i, gte);
    NodeUnchained(chain, free, freeList, home, size, next, prev, g, i, next', prev');
    table' := table[g := gte];
  }

  // ---------- The free list ----------

  /** Putting a node from between places on the free list. */
  lemma NodeFreed(chain: seq<seq<nat>>, free: seq<nat>, freeList: nat, home: seq<Home>, size: nat,
                  next: map<nat, nat>, prev: map<nat, nat>, n: nat)
    requires ChainsOk(chain, home, size, next, prev) && FreeOk(free, freeList, home, size, next)
    requires 1 <= n <= size && home[n] == Limbo
    ensures ChainsOk(chain, home[n := Free], size, next[n := freeList], prev)
    ensures FreeOk([n] + free, n, home[n := Free], size, next[n := freeList])
  {
    forall g | 0 <= g < LD_MAX_GENERATIONS
      ensures IsRing(chain[g], next[n := freeList], prev) && Located(chain[g], g, home[n := Free], size)
    {
      assert Located(chain[g], g, home, size);
      RingFrame(chain[g], next, prev, next[n := freeList], prev);
    }
    FreePushed(free, freeList, home, size, next, n);
  }

  lemma FreePushed(free: seq<nat>, freeList: nat, home: seq<Home>, size: nat, next: map<nat, nat>, n: nat)
    requires FreeOk(free, freeList, home, size, next)
    requires 1 <= n <= size && home[n] == Limbo
    ensures FreeOk([n] + free, n, home[n := Free], size, next[n := freeList])
  {
    var free', next' := [n] + free, next[n := freeList];
    forall i | 0 <= i < |free|
      ensures free[i] in free && free[i] != n && free'[i + 1] == free[i] && After(free', i + 1) == After(free, i)
    {
      assert free[i] in free;
    }
    forall i, j | 0 <= i < j < |free'|
      ensures free'[i] != free'[j]
    {
      assert free'[j] == free[j - 1] && (i > 0 ==> free'[i] == free[i - 1]);
    }
    assert IsFreeList(free', n, next');
    assert forall x :: x in free' <==> x == n || x in free;
  }

  /** Taking the first node off the free list. */
  lemma NodeTaken(chain: seq<seq<nat>>, free: seq<nat>, freeList: nat, home: seq<Home>, size: nat,
                  next: map<nat, nat>, prev: map<nat, nat>)
    requires ChainsOk(chain, home, size, next, prev) && FreeOk(free, freeList, home, size, next)
    requires freeList != NULL
    ensures free != [] && freeList == free[0] && 1 <= freeList <= size && home[freeList] == Free && freeList in next
    ensures ChainsOk(chain, home[freeList := Limbo], size, next, prev)
    ensures FreeOk(free[1..], next[freeList], home[freeList := Limbo], size, next)
  {
    assert free[0] in free && free == [free[0]] + free[1..];
    var free' := free[1..];
    forall i | 0 <= i < |free'|
      ensures free'[i] in next && next[free'[i]] == After(free', i)
    {
      assert free'[i] == free[i + 1] && After(free', i) == After(free, i + 1);
    }
    assert next[free[0]] == After(free, 0);
    assert IsFreeList(free', next[freeList], next);
    assert forall x :: x in free <==> x == freeList || x in free';
    forall g | 0 <= g < LD_MAX_GENERATIONS
      ensures Located(chain[g], g, home[freeList := Limbo], size)
    {
      assert Located(chain[g], g, home, size);
    }
  }

  lemma FreeEmpty(free: seq<nat>, freeList: nat, home: seq<Home>, size: nat, next: map<nat, nat>)
    requires FreeOk(free, freeList, home, size, next)
    ensures freeList == NULL <==> free == []
  {
    assert free != [] ==> free[0] in free;
  }

  // ---------- Moving the table ----------

  /** Table or chains moved `ms` places up, with `blank` in the places left free. */
  ghost function Moved<T>(s: seq<T>, ms: nat, blank: T): (r: seq<T>)
    requires ms <= |s|
    ensures |r| == |s|
  {
    seq(ms, _ => blank) + s[..|s| - ms]
  }

  function MovedHome(h: Home, ms: nat): Home {
    if h.Chain? then Chain(h.g + ms) else h
  }

  ghost function MovedHomes(home: seq<Home>, ms: nat): (r: seq<Home>)
    ensures |r| == |home|
  {
    seq(|home|, x requires 0 <= x < |home| => MovedHome(home[x], ms))
  }

  lemma MovedTotal(chain: seq<seq<nat>>, ms: nat)
    requires ms <= |chain| && forall g :: |chain| - ms <= g < |chain| ==> chain[g] == []
    ensures Total(Moved(chain, ms, [])) == Total(chain)
  {
    var a, b := chain[..|chain| - ms], chain[|chain| - ms..];
    assert chain == a + b;
    TotalShift(a, b);
    TotalPrepend(seq(ms, _ => []), a);
  }

  lemma TableMoved(table: seq<GT>, chain: seq<seq<nat>>, ms: nat)
    requires TableOk(table, chain) && ms <= LD_MAX_GENERATIONS
    ensures TableOk(Moved(table, ms, GT(NULL, NULL, 0)), Moved(chain, ms, []))
  {
  }

  lemma ChainsShifted(chain: seq<seq<nat>>, free: seq<nat>, freeList: nat, home: seq<Home>, size: nat,
                      next: map<nat, nat>, prev: map<nat, nat>, ms: nat)
    requires ChainsOk(chain, home, size, next, prev) && FreeOk(free, freeList, home, size, next)
    requires ms <= LD_MAX_GENERATIONS
    requires forall g :: LD_MAX_GENERATIONS - ms <= g < LD_MAX_GENERATIONS ==> chain[g] == []
    ensures ChainsOk(Moved(chain, ms, []), MovedHomes(home, ms), size, next, prev)
    ensures FreeOk(free, freeList, MovedHomes(home, ms), size, next)
  {
    var chain', home' := Moved(chain, ms, []), MovedHomes(home, ms);
    forall g | 0 <= g < LD_MAX_GENERATIONS
      ensures IsRing(chain'[g], next, prev) && Located(chain'[g], g, home', size)
    {
      assert g >= ms ==> Located(chain[g - ms], g - ms, home, size);
    }
  }

  /** No scan of any generation is in progress. */
  ghost predicate NoScan(table: seq<GT>) {
    forall g :: 0 <= g < |table| ==> table[g].cursor == NULL
  }

  /** MovedHomes for a move of more places than the table has. */
  lemma MovedAlike(home: seq<Home>, chain: seq<seq<nat>>, size: nat, next: map<nat, nat>, prev: map<nat, nat>,
                   ms: nat, moveSize: nat)
    requires ChainsOk(chain, home, size, next, prev)
    requires ms == if moveSize > LD_MAX_GENERATIONS then LD_MAX_GENERATIONS else moveSize
    ensures (forall g :: LD_MAX_GENERATIONS - ms <= g < LD_MAX_GENERATIONS ==> chain[g] == [])
       <==> (forall x :: 1 <= x <= size && home[x].Chain? ==> home[x].g + moveSize < LD_MAX_GENERATIONS)
    ensures (forall x :: 1 <= x <= size && home[x].Chain? ==> home[x].g + moveSize < LD_MAX_GENERATIONS) ==>
      forall x :: 1 <= x <= size ==> MovedHome(home[x], ms) == MovedHome(home[x], moveSize)
  {
    forall g | LD_MAX_GENERATIONS - ms <= g < LD_MAX_GENERATIONS && chain[g] != []
      ensures exists x :: 1 <= x <= size && home[x].Chain? && home[x].g + moveSize >= LD_MAX_GENERATIONS
    {
      assert Located(chain[g], g, home, size) && chain[g][0] in chain[g];
    }
  }

  class GenerationTable {
    const size: nat
    var table: seq<GT>
    var next: map<nat, nat>
    var prev: map<nat, nat>
    var freeList: nat
    var entryCount: int
    ghost var chain: seq<seq<nat>>
    ghost var free: seq<nat>
    ghost var home: seq<Home>

    ghost predicate Valid()
      reads this
    {
      && |table| == |chain| == LD_MAX_GENERATIONS && |home| == size + 1
      && ChainsOk(chain, home, size, next, prev)
      && TableOk(table, chain)
      && FreeOk(free, freeList, home, size, next)
      && entryCount == size - |free|
    }

    /** The module's static data: no node is on the free list until the first record. */
    constructor (numLogDirEntries: nat)
      ensures Valid() && size == numLogDirEntries
      ensures free == [] && Total(chain) == 0 && forall x :: 1 <= x <= size ==> home[x] == Limbo
      ensures forall g :: 0 <= g < LD_MAX_GENERATIONS ==> chain[g] == [] && table[g].cursor == NULL
    {
      size := numLogDirEntries;
      table := seq(LD_MAX_GENERATIONS, _ => GT(NULL, NULL, 0));
      next := NoLinks(numLogDirEntries);
      prev := NoLinks(numLogDirEntries);
      freeList := NULL;
      entryCount := numLogDirEntries;
      chain := seq(LD_MAX_GENERATIONS, _ => []);
      free := [];
      home := seq(numLogDirEntries + 1, _ => Limbo);
      TotalEmpty(seq(LD_MAX_GENERATIONS, _ => []));
    }

    /** chain_node, once the table index is known. */
    method ChainNode(n: nat, g: nat)
      requires Valid() && 1 <= n <= size && home[n] == Limbo && g < LD_MAX_GENERATIONS
      modifies this`table, this`next, this`prev, this`chain, this`home
      ensures Valid() && home == old(home)[n := Chain(g)]
      ensures Total(chain) == old(Total(chain)) + 1
      ensures chain == old(chain)[g := Chained(old(chain[g]), n)]
      ensures old(NoScan(table)) ==> NoScan(table)
    {
      hide ChainsOk, FreeOk, TableOk, NoScan, Total, Chained;
      table, next, prev := ChainFields(n, g, table, next, prev, chain, free, freeList, home, size);
      chain := chain[g := Chained(chain[g], n)];
      home := home[n := Chain(g)];
    }

    /** unchain_node, once the table index is known; i is the place of n on its chain. */
    method UnchainNode(n: nat, g: nat) returns (ghost i: nat)
      requires Valid() && 1 <= n <= size && home[n] == Chain(g)
      modifies this`table, this`next, this`prev, this`chain, this`home
      ensures Valid() && home == old(home)[n := Limbo]
      ensures Total(chain) == old(Total(chain)) - 1
      ensures g < LD_MAX_GENERATIONS && i < |old(chain[g])| && old(chain[g])[i] == n
      ensures chain == old(chain)[g := Unchained(old(chain[g]), i)]
      ensures old(NoScan(table)) ==> NoScan(table)
    {
      hide ChainsOk, FreeOk, TableOk, Total, Unchained;
      table, next, prev, i := UnchainFields(n, g, table, next, prev, chain, free, freeList, home, size);
      chain := chain[g := Unchained(chain[g], i)];
      home := home[n := Limbo];
    }

    /** free_node. */
    method FreeNode(n: nat)
      requires Valid() && 1 <= n <= size && home[n] == Limbo
      modifies this`next, this`freeList, this`entryCount, this`free, this`home
      ensures Valid() && free == [n] + old(free) && home == old(home)[n := Free]
    {
      NodeFreed(chain, free, freeList, home, size, next, prev, n);
      hide ChainsOk, FreeOk, TableOk;
      next := next[n := freeList];
      freeList := n;
      entryCount := entryCount - 1;
      free := [n] + free;
      home := home[n := Free];
    }

    /** alloc_node: halts when the free list is empty. */
    method AllocNode() returns (halted: bool, tn: nat)
      requires Valid()
      modifies this`freeList, this`entryCount, this`free, this`home
      ensures halted <==> old(free) == []
      ensures halted ==> Valid() && free == old(free) && home == old(home)
      ensures !halted ==> Valid() && old(free) == [tn] + free && 1 <= tn <= size
      ensures !halted ==> old(home)[tn] == Free && home == old(home)[tn := Limbo]
    {
      FreeEmpty(free, freeList, home, size, next);
      if freeList == NULL {
        return true, NULL;
      }
      NodeTaken(chain, free, freeList, home, size, next, prev);
      hide ChainsOk, FreeOk, TableOk;
      halted, tn := false, freeList;
      freeList := next[tn];
      entryCount := entryCount + 1;
      home := home[tn := Limbo];
      assert free == [tn] + free[1..];
      free := free[1..];
    }

    /** The startup of ld_recordLocation: every node goes on the free list. */
    method FillFreeList()
      requires Valid() && free == [] && forall x :: 1 <= x <= size ==> home[x] == Limbo
      modifies this`next, this`freeList, this`entryCount, this`free, this`home
      ensures Valid() && |free| == size && forall x :: 1 <= x <= size ==> home[x] == Free
    {
      for i := 0 to size
        invariant Valid() && |free| == i
        invariant forall x :: 1 <= x <= size ==> home[x] == if x <= i then Free else Limbo
      {
        FreeNode(i + 1);
      }
    }

    /** Are the last ms generations of the table empty? */
    method LastEmpty(ms: nat) returns (empty: bool)
      requires Valid() && ms <= LD_MAX_GENERATIONS
      ensures empty <==> forall g :: LD_MAX_GENERATIONS - ms <= g < LD_MAX_GENERATIONS ==> chain[g] == []
    {
      var i := LD_MAX_GENERATIONS - 1;
      while i >= LD_MAX_GENERATIONS - ms
        invariant LD_MAX_GENERATIONS - ms - 1 <= i < LD_MAX_GENERATIONS
        invariant forall g :: i < g < LD_MAX_GENERATIONS ==> chain[g] == []
      {
        assert Located(chain[i], i, home, size) && (chain[i] != [] ==> chain[i][0] in chain[i]);
        if table[i].head != NULL {
          return false;
        }
        i := i - 1;
      }
      return true;
    }

    /** The table shift of ld_recordLocation: halts when a generation would fall off the table. */
    method MakeRoom(moveSize: nat) returns (halted: bool)
      requires Valid() && moveSize > 0
      modifies this`table, this`chain, this`home
      ensures Valid()
      ensures halted <==>
        exists x :: 1 <= x <= size && old(home)[x].Chain? && old(home)[x].g + moveSize >= LD_MAX_GENERATIONS
      ensures halted ==> chain == old(chain) && home == old(home)
      ensures !halted ==> Total(chain) == old(Total(chain))
      ensures !halted ==> forall x :: 1 <= x <= size ==> home[x] == MovedHome(old(home)[x], moveSize)
      ensures old(NoScan(table)) ==> NoScan(table)
    {
      var ms := if moveSize > LD_MAX_GENERATIONS then LD_MAX_GENERATIONS else moveSize;
      var empty := LastEmpty(ms);
      MovedAlike(home, chain, size, next, prev, ms, moveSize);
      if !empty {
        return true;
      }
      MovedTotal(chain, ms);
      TableMoved(table, chain, ms);
      ChainsShifted(chain, free, freeList, home, size, next, prev, ms);
      hide ChainsOk, FreeOk, TableOk;
      table := seq(ms, _ => GT(NULL, NULL, 0)) + table[..|table| - ms];
      chain := Moved(chain, ms, []);
      home := MovedHomes(home, ms);
      return false;
    }

    /** ld_resetScan, once the table index is known. */
    method ResetScan(g: nat)
      requires Valid() && g < LD_MAX_GENERATIONS
      modifies this`table
      ensures Valid() && table[g].cursor == if chain[g] == [] then NULL else chain[g][0]
      ensures forall h :: 0 <= h < LD_MAX_GENERATIONS && h != g ==> table[h] == old(table[h])
    {
      table := table[g := table[g].(cursor := table[g].head)];
    }

    /** ld_findNextObject, once the table index is known: k nodes of the chain have been returned. */
    method NextNode(g: nat, ghost k: nat) returns (n: nat)
      requires Valid() && g < LD_MAX_GENERATIONS && k <= |chain[g]|
      requires table[g].cursor == if k < |chain[g]| then chain[g][k] else NULL
      modifies this`table
      ensures Valid()
      ensures n == if k < |chain[g]| then chain[g][k] else NULL
      ensures table[g].cursor == if k + 1 < |chain[g]| then chain[g][k + 1] else NULL
      ensures forall h :: 0 <= h < LD_MAX_GENERATIONS && h != g ==> table[h] == old(table[h])
    {
      ChainFacts(table, chain, home, size, next, prev, g);
      ghost var c := chain[g];
      assert k < |c| ==> next[c[k]] == if k + 1 < |c| then c[k + 1] else c[0];
      n := table[g].cursor;
      if n != NULL {
        if next[n] == table[g].head {
          table := table[g := table[g].(cursor := NULL)];
        } else {
          table := table[g := table[g].(cursor := next[n])];
        }
      }
    }

    /** ld_resetScan, then ld_findNextObject until it has no more. */
    method Scan(g: nat) returns (nodes: seq<nat>)
      requires Valid() && g < LD_MAX_GENERATIONS
      modifies this`table
      ensures Valid() && nodes == chain[g]
    {
      nodes := [];
      ghost var c := chain[g];
      ChainFacts(table, chain, home, size, next, prev, g);
      assert forall i :: 0 <= i < |c| ==> c[i] != NULL;
      hide *;
      ResetScan(g);
      var n := NextNode(g, 0);
      while n != NULL
        invariant Valid() && |nodes| <= |c| && nodes == c[..|nodes|]
        invariant n == if |nodes| < |c| then c[|nodes|] else NULL
        invariant table[g].cursor == if |nodes| + 1 < |c| then c[|nodes| + 1] else NULL
        decreases |c| - |nodes|
      {
        nodes := nodes + [n];
        n := NextNode(g, |nodes|);
      }
    }
  }
}
