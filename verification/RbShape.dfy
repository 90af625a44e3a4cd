/**
 The shape of the log directory's red-black tree.

 A node pool is a sequence of records; slot 0 is the shared nil node. A `Tree` says
 which nodes hang together and how; a `Ctx` is the rest of a tree seen from one of its
 places (the path up to the root, with the siblings met on the way). The fixup loops of
 src/sys/kernel/kern_LogDirectory.c climb exactly such a context, so every loop
 invariant is a statement about one `Ctx` and one `Tree`.
 */
module RbShape {

  const NIL: nat := 0

  datatype Color = Red | Black

  datatype Dir = L | R

  function Opp(d: Dir): Dir {
    if d == L then R else L
  }

  /** The tree part of a TreeNode. */
  datatype Links = Links(left: nat, right: nat, parent: nat, color: Color) {
    function Kid(d: Dir): nat {
      if d == L then left else right
    }
    function SetKid(d: Dir, x: nat): Links {
      if d == L then this.(left := x) else this.(right := x)
    }
  }

  type Pool = seq<Links>

  datatype Tree = Leaf | Node(l: Tree, n: nat, c: Color, r: Tree) {
    function Id(): nat {
      if Leaf? then NIL else n
    }
    function Hue(): Color {
      if Leaf? then Black else c
    }
    function Kid(d: Dir): Tree
      requires Node?
    {
      if d == L then l else r
    }
  }

  /** A node whose child on side d is `near`. */
  function Mk(d: Dir, near: Tree, n: nat, c: Color, far: Tree): Tree {
    if d == L then Node(near, n, c, far) else Node(far, n, c, near)
  }

  /** `In(d, n, c, sib, up)`: the hole is the d-child of node n, whose other child is sib. */
  datatype Ctx = Top | In(d: Dir, n: nat, c: Color, sib: Tree, up: Ctx) {
    function Id(): nat {
      if Top? then NIL else n
    }
    function Hue(): Color {
      if Top? then Black else c
    }
  }

  ghost function Plug(k: Ctx, t: Tree): Tree {
    match k
    case Top => t
    case In(d, n, c, sib, up) => Plug(up, Mk(d, t, n, c, sib))
  }

  ghost function Depth(k: Ctx): nat {
    if k.Top? then 0 else 1 + Depth(k.up)
  }

  ghost function Ids(t: Tree): set<nat> {
    match t
    case Leaf => {}
    case Node(l, n, _, r) => Ids(l) + {n} + Ids(r)
  }

  ghost function CtxIds(k: Ctx): set<nat> {
    match k
    case Top => {}
    case In(_, n, _, sib, up) => {n} + Ids(sib) + CtxIds(up)
  }

  lemma {:induction false} PlugNode(k: Ctx, t: Tree)
    requires k.In? || t.Node?
    ensures Plug(k, t).Node?
    decreases k
  {
    if k.In? {
      PlugNode(k.up, Mk(k.d, t, k.n, k.c, k.sib));
    }
  }

  lemma {:induction false} PlugIds(k: Ctx, t: Tree)
    ensures Ids(Plug(k, t)) == Ids(t) + CtxIds(k)
    decreases k
  {
    match k
    case Top =>
    case In(d, n, c, sib, up) =>
      PlugIds(up, Mk(d, t, n, c, sib));
  }

  // ---------- Search order ----------

  /** Keys are OIDs, 64-bit numbers; MIN and MAX lie just outside. */
  const MIN: int := -1
  const MAX: int := 0x1_0000_0000_0000_0000

  /** A search tree whose keys all lie strictly between lo and hi. */
  ghost predicate Ordered(t: Tree, key: seq<int>, lo: int, hi: int) {
    match t
    case Leaf => true
    case Node(l, n, _, r) =>
      n < |key| && lo < key[n] < hi && Ordered(l, key, lo, key[n]) && Ordered(r, key, key[n], hi)
  }

  /** The bounds a context puts on the keys in its hole. */
  ghost function Lo(k: Ctx, key: seq<int>): int {
    match k
    case Top => MIN
    case In(d, n, _, _, up) => if d == R && n < |key| then key[n] else Lo(up, key)
  }

  ghost function Hi(k: Ctx, key: seq<int>): int {
    match k
    case Top => MAX
    case In(d, n, _, _, up) => if d == L && n < |key| then key[n] else Hi(up, key)
  }

  ghost predicate OrderedCtx(k: Ctx, key: seq<int>) {
    match k
    case Top => true
    case In(d, n, _, sib, up) =>
      && n < |key| && Lo(up, key) < key[n] < Hi(up, key)
      && (if d == L then Ordered(sib, key, key[n], Hi(up, key)) else Ordered(sib, key, Lo(up, key), key[n]))
      && OrderedCtx(up, key)
  }

  lemma {:induction false} PlugOrdered(k: Ctx, t: Tree, key: seq<int>)
    ensures Ordered(Plug(k, t), key, MIN, MAX) <==> OrderedCtx(k, key) && Ordered(t, key, Lo(k, key), Hi(k, key))
    decreases k
  {
    match k
    case Top =>
    case In(d, n, c, sib, up) =>
      PlugOrdered(up, Mk(d, t, n, c, sib), key);
  }

  lemma {:induction false} OrderedIds(t: Tree, key: seq<int>, lo: int, hi: int)
    requires Ordered(t, key, lo, hi)
    ensures forall i :: i in Ids(t) ==> i < |key| && lo < key[i] < hi
  {
    if t.Node? {
      OrderedIds(t.l, key, lo, key[t.n]);
      OrderedIds(t.r, key, key[t.n], hi);
    }
  }

  /** No node outside the hole has a key within the hole's bounds. */
  lemma {:induction false} OrderedCtxIds(k: Ctx, key: seq<int>)
    requires OrderedCtx(k, key)
    ensures Lo(k, key) < Hi(k, key) && (k.In? ==> k.n in CtxIds(k))
    ensures forall i :: i in CtxIds(k) ==> i < |key| && (key[i] <= Lo(k, key) || Hi(k, key) <= key[i])
  {
    match k
    case Top =>
    case In(d, n, _, sib, up) =>
      OrderedCtxIds(up, key);
      if d == L {
        OrderedIds(sib, key, key[n], Hi(up, key));
      } else {
        OrderedIds(sib, key, Lo(up, key), key[n]);
      }
  }

  lemma {:induction false} OrderedWiden(t: Tree, key: seq<int>, lo: int, hi: int, lo': int, hi': int)
    requires Ordered(t, key, lo, hi) && lo' <= lo && hi <= hi'
    ensures Ordered(t, key, lo', hi')
  {
    if t.Node? {
      OrderedWiden(t.l, key, lo, key[t.n], lo', key[t.n]);
      OrderedWiden(t.r, key, key[t.n], hi, key[t.n], hi');
    }
  }

  /** The key of a node outside a tree does not matter to it. */
  lemma {:induction false} OrderedRelabel(t: Tree, key: seq<int>, z: nat, v: int, lo: int, hi: int)
    requires Ordered(t, key, lo, hi) && z < |key| && z !in Ids(t)
    ensures Ordered(t, key[z := v], lo, hi)
  {
    if t.Node? {
      OrderedRelabel(t.l, key, z, v, lo, key[t.n]);
      OrderedRelabel(t.r, key, z, v, key[t.n], hi);
    }
  }

  lemma {:induction false} OrderedCtxRelabel(k: Ctx, key: seq<int>, z: nat, v: int)
    requires OrderedCtx(k, key) && z < |key| && z !in CtxIds(k)
    ensures OrderedCtx(k, key[z := v])
    ensures Lo(k, key[z := v]) == Lo(k, key) && Hi(k, key[z := v]) == Hi(k, key)
  {
    match k
    case Top =>
    case In(d, n, _, sib, up) =>
      OrderedCtxRelabel(up, key, z, v);
      if d == L {
        OrderedRelabel(sib, key, z, v, key[n], Hi(up, key));
      } else {
        OrderedRelabel(sib, key, z, v, Lo(up, key), key[n]);
      }
  }

  /** k was reached from base by going left only. */
  ghost predicate LeftSpine(k: Ctx, base: Ctx) {
    k == base || (k.In? && k.d == L && LeftSpine(k.up, base))
  }

  /** Below the right child of z, going left, z can take any larger key that fits the hole. */
  lemma {:induction false} SpineRelabel(k: Ctx, base: Ctx, key: seq<int>, v: int)
    requires base.In? && base.d == R && LeftSpine(k, base) && OrderedCtx(k, key) && OrderedCtx(base, key)
    requires Lo(k, key) < v < Hi(k, key)
    ensures Lo(k, key) == key[base.n]
    ensures OrderedCtx(k, key[base.n := v])
    ensures Lo(k, key[base.n := v]) == v && Hi(k, key[base.n := v]) == Hi(k, key)
    decreases k
  {
    var z, up := base.n, base.up;
    if k == base {
      OrderedCtxIds(up, key);
      OrderedCtxRelabel(up, key, z, v);
      OrderedIds(base.sib, key, Lo(up, key), key[z]);
      OrderedRelabel(base.sib, key, z, v, Lo(up, key), key[z]);
      OrderedWiden(base.sib, key[z := v], Lo(up, key), key[z], Lo(up, key), v);
    } else {
      OrderedCtxIds(k.up, key);
      SpineRelabel(k.up, base, key, v);
      OrderedIds(k.sib, key, key[k.n], Hi(k.up, key));
      OrderedRelabel(k.sib, key, z, v, key[k.n], Hi(k.up, key));
    }
  }

  // ---------- The pool represents a tree ----------

  ghost predicate Rep(t: Tree, p: nat, s: Pool) {
    match t
    case Leaf => true
    case Node(l, n, c, r) =>
      0 < n < |s| && s[n] == Links(l.Id(), r.Id(), p, c) && Rep(l, n, s) && Rep(r, n, s)
  }

  /** The context is in the pool, with node x in its hole. */
  ghost predicate RepCtx(k: Ctx, s: Pool, x: nat) {
    match k
    case Top => true
    case In(d, n, c, sib, up) =>
      && 0 < n < |s|
      && s[n] == Links(if d == L then x else sib.Id(), if d == L then sib.Id() else x, up.Id(), c)
      && Rep(sib, n, s)
      && RepCtx(up, s, n)
  }

  ghost function RootOf(k: Ctx, x: nat): nat {
    match k
    case Top => x
    case In(_, n, _, _, up) => RootOf(up, n)
  }

  lemma {:induction false} PlugRep(k: Ctx, t: Tree, s: Pool)
    ensures Rep(Plug(k, t), NIL, s) <==> RepCtx(k, s, t.Id()) && Rep(t, k.Id(), s)
    ensures Plug(k, t).Id() == RootOf(k, t.Id())
    decreases k
  {
    match k
    case Top =>
    case In(d, n, c, sib, up) =>
      PlugRep(up, Mk(d, t, n, c, sib), s);
  }

  /** A subtree is unaffected by writes to nodes whose keys lie outside its bounds. */
  lemma {:induction false} RepFrame(t: Tree, p: nat, s: Pool, s': Pool, key: seq<int>, lo: int, hi: int)
    requires Rep(t, p, s) && Ordered(t, key, lo, hi) && |s'| == |s| == |key|
    requires forall i :: 0 < i < |s| && lo < key[i] < hi ==> s'[i] == s[i]
    ensures Rep(t, p, s')
  {
    if t.Node? {
      RepFrame(t.l, t.n, s, s', key, lo, key[t.n]);
      RepFrame(t.r, t.n, s, s', key, key[t.n], hi);
    }
  }

  /** A context is unaffected by writes to nodes whose keys lie within the bounds of its hole. */
  lemma {:induction false} RepCtxFrame(k: Ctx, s: Pool, s': Pool, x: nat, key: seq<int>)
    requires RepCtx(k, s, x) && OrderedCtx(k, key) && |s'| == |s| == |key|
    requires forall i :: 0 < i < |s| && !(Lo(k, key) < key[i] < Hi(k, key)) ==> s'[i] == s[i]
    ensures RepCtx(k, s', x)
  {
    match k
    case Top =>
    case In(d, n, _, sib, up) =>
      if d == L {
        RepFrame(sib, n, s, s', key, key[n], Hi(up, key));
      } else {
        RepFrame(sib, n, s, s', key, Lo(up, key), key[n]);
      }
      RepCtxFrame(up, s, s', n, key);
  }

  /** Hanging another node in the hole changes one child field of the node above it. */
  lemma {:induction false} RepCtxHole(k: Ctx, s: Pool, s': Pool, x: nat, x': nat, key: seq<int>)
    requires RepCtx(k, s, x) && OrderedCtx(k, key) && |s'| == |s| == |key|
    requires k.In? ==> s'[k.n] == s[k.n].SetKid(k.d, x')
    requires forall i :: 0 < i < |s| && i != k.Id() && !(Lo(k, key) < key[i] < Hi(k, key)) ==> s'[i] == s[i]
    ensures RepCtx(k, s', x')
  {
    match k
    case Top =>
    case In(d, n, _, sib, up) =>
      if d == L {
        RepFrame(sib, n, s, s', key, key[n], Hi(up, key));
      } else {
        RepFrame(sib, n, s, s', key, Lo(up, key), key[n]);
      }
      RepCtxFrame(up, s, s', n, key);
  }

  /** Giving a subtree another parent changes one field of its root. */
  lemma {:induction false} RepMoved(t: Tree, p: nat, s: Pool, s': Pool, p': nat, key: seq<int>, lo: int, hi: int)
    requires Rep(t, p, s) && Ordered(t, key, lo, hi) && |s'| == |s| == |key|
    requires t.Node? ==> s'[t.n] == s[t.n].(parent := p')
    requires forall i :: 0 < i < |s| && i != t.Id() && lo < key[i] < hi ==> s'[i] == s[i]
    ensures Rep(t, p', s')
  {
    if t.Node? {
      RepFrame(t.l, t.n, s, s', key, lo, key[t.n]);
      RepFrame(t.r, t.n, s, s', key, key[t.n], hi);
    }
  }

  // ---------- Focusing on a node ----------

  /** Every node of a tree is the root of some subtree of it. */
  lemma {:induction false} Focus(k0: Ctx, t: Tree, z: nat) returns (k: Ctx, sub: Tree)
    requires z in Ids(t)
    ensures sub.Node? && sub.n == z
    ensures Plug(k, sub) == Plug(k0, t)
    decreases t
  {
    if t.n == z {
      k, sub := k0, t;
    } else if z in Ids(t.l) {
      k, sub := Focus(In(L, t.n, t.c, t.r, k0), t.l, z);
    } else {
      k, sub := Focus(In(R, t.n, t.c, t.l, k0), t.r, z);
    }
  }

  // ---------- The colour laws ----------

  ghost function BlackHeight(t: Tree): nat {
    match t
    case Leaf => 0
    case Node(l, _, c, _) => BlackHeight(l) + (if c == Black then 1 else 0)
  }

  ghost predicate Balanced(t: Tree) {
    match t
    case Leaf => true
    case Node(l, _, _, r) => BlackHeight(l) == BlackHeight(r) && Balanced(l) && Balanced(r)
  }

  ghost predicate NoRedRed(t: Tree) {
    match t
    case Leaf => true
    case Node(l, _, c, r) =>
      (c == Red ==> l.Hue() == Black && r.Hue() == Black) && NoRedRed(l) && NoRedRed(r)
  }

  /** The colour laws of a whole tree. */
  ghost predicate RedBlack(t: Tree) {
    Balanced(t) && NoRedRed(t) && t.Hue() == Black
  }

  /** A subtree of black height h in the hole leaves every black height equal. */
  ghost predicate BalancedCtx(k: Ctx, h: nat) {
    match k
    case Top => true
    case In(_, _, c, sib, up) =>
      Balanced(sib) && BlackHeight(sib) == h && BalancedCtx(up, h + (if c == Black then 1 else 0))
  }

  /** No red node outside the hole has a red child outside the hole, and the root is black. */
  ghost predicate NoRedRedCtx(k: Ctx) {
    match k
    case Top => true
    case In(_, _, c, sib, up) =>
      (c == Red ==> sib.Hue() == Black && up.Hue() == Black && up.In?) && NoRedRed(sib) && NoRedRedCtx(up)
  }

  lemma {:induction false} PlugBalanced(k: Ctx, t: Tree)
    ensures Balanced(Plug(k, t)) <==> Balanced(t) && BalancedCtx(k, BlackHeight(t))
    decreases k
  {
    match k
    case Top =>
    case In(d, n, c, sib, up) =>
      var m := Mk(d, t, n, c, sib);
      assert Balanced(m) <==> BlackHeight(t) == BlackHeight(sib) && Balanced(t) && Balanced(sib);
      assert BlackHeight(t) == BlackHeight(sib) ==> BlackHeight(m) == BlackHeight(t) + (if c == Black then 1 else 0);
      PlugBalanced(up, m);
  }

  /** With a non-empty context, the colour at the root is decided outside the hole. */
  lemma {:induction false} PlugNoRedRed(k: Ctx, t: Tree)
    ensures k.In? ==>
      (NoRedRed(Plug(k, t)) && Plug(k, t).Hue() == Black
       <==> NoRedRed(t) && NoRedRedCtx(k) && (t.Hue() == Black || k.Hue() == Black))
    decreases k
  {
    match k
    case Top =>
    case In(d, n, c, sib, up) =>
      var m := Mk(d, t, n, c, sib);
      assert NoRedRed(m) <==>
        (c == Red ==> t.Hue() == Black && sib.Hue() == Black) && NoRedRed(t) && NoRedRed(sib);
      assert m.Hue() == k.Hue() == c && Plug(k, t) == Plug(up, m);
      assert NoRedRedCtx(k) <==>
        (c == Red ==> sib.Hue() == Black && up.Hue() == Black && up.In?) && NoRedRed(sib) && NoRedRedCtx(up);
      assert up.Top? ==> Plug(up, m) == m && NoRedRedCtx(up);
      PlugNoRedRed(up, m);
  }
}
