/** The red-black tree operations of src/sys/kernel/kern_LogDirectory.c, on a node pool. */
module RbTree {
  import opened RbShape

  /** The pool holds exactly the search tree Plug(k, t), seen from the place of t. */
  ghost predicate At(k: Ctx, t: Tree, key: seq<int>, s: Pool, root: nat) {
    && 0 < |s| == |key| && s[NIL] == Links(NIL, NIL, s[NIL].parent, Black)
    && RepCtx(k, s, t.Id()) && Rep(t, k.Id(), s) && root == RootOf(k, t.Id())
    && OrderedCtx(k, key) && Ordered(t, key, Lo(k, key), Hi(k, key))
  }

  lemma AtPlug(k: Ctx, t: Tree, key: seq<int>, s: Pool, root: nat)
    ensures At(k, t, key, s, root) <==> At(Top, Plug(k, t), key, s, root)
  {
    PlugRep(k, t, s);
    PlugOrdered(k, t, key);
  }

  /** Seen from elsewhere, it is the same tree. */
  lemma AtElsewhere(k: Ctx, t: Tree, k': Ctx, t': Tree, key: seq<int>, s: Pool, root: nat)
    requires Plug(k, t) == Plug(k', t')
    ensures At(k, t, key, s, root) <==> At(k', t', key, s, root)
  {
    AtPlug(k, t, key, s, root);
    AtPlug(k', t', key, s, root);
  }

  function MkLinks(d: Dir, near: nat, far: nat, p: nat, c: Color): Links {
    if d == L then Links(near, far, p, c) else Links(far, near, p, c)
  }

  lemma MkRep(d: Dir, near: Tree, n: nat, c: Color, far: Tree, p: nat, s: Pool)
    ensures Rep(Mk(d, near, n, c, far), p, s) <==>
      0 < n < |s| && s[n] == MkLinks(d, near.Id(), far.Id(), p, c) && Rep(near, n, s) && Rep(far, n, s)
  {
  }

  lemma MkOrdered(d: Dir, near: Tree, n: nat, c: Color, far: Tree, key: seq<int>, lo: int, hi: int)
    ensures Ordered(Mk(d, near, n, c, far), key, lo, hi) <==>
      && n < |key| && lo < key[n] < hi
      && Ordered(if d == L then near else far, key, lo, key[n])
      && Ordered(if d == L then far else near, key, key[n], hi)
  {
  }

  /** The rotated subtree, under a new root x, is in the pool after a rotation's writes. */
  lemma RotatedTree(d: Dir, x: nat, xc: Color, y: nat, yc: Color, a: Tree, b: Tree, e: Tree, p: nat,
                    key: seq<int>, lo: int, hi: int, s: Pool, s': Pool)
    requires Rep(Mk(d, Mk(d, a, x, xc, b), y, yc, e), p, s)
    requires Ordered(Mk(d, Mk(d, a, x, xc, b), y, yc, e), key, lo, hi)
    requires |s'| == |s| == |key| && x < |s| && y < |s| && b.Id() < |s|
    requires s'[y] == MkLinks(d, b.Id(), e.Id(), x, yc)
    requires s'[x] == MkLinks(d, a.Id(), y, p, xc)
    requires b.Node? ==> s'[b.n] == s[b.n].(parent := y)
    requires forall i :: 0 <= i < |s| && i != x && i != y && i != b.Id() && lo < key[i] < hi ==> s'[i] == s[i]
    requires s'[NIL] == s[NIL]
    ensures Rep(Mk(d, a, x, xc, Mk(d, b, y, yc, e)), p, s')
    ensures Ordered(Mk(d, a, x, xc, Mk(d, b, y, yc, e)), key, lo, hi)
  {
    MkRep(d, a, x, xc, b, y, s);
    MkRep(d, Mk(d, a, x, xc, b), y, yc, e, p, s);
    MkRep(d, b, y, yc, e, x, s');
    MkRep(d, a, x, xc, Mk(d, b, y, yc, e), p, s');
    MkOrdered(d, Mk(d, a, x, xc, b), y, yc, e, key, lo, hi);
    if d == L {
      MkOrdered(d, a, x, xc, b, key, lo, key[y]);
      RepFrame(a, x, s, s', key, lo, key[x]);
      RepMoved(b, x, s, s', y, key, key[x], key[y]);
      RepFrame(e, y, s, s', key, key[y], hi);
    } else {
      MkOrdered(d, a, x, xc, b, key, key[y], hi);
      RepFrame(e, y, s, s', key, lo, key[y]);
      RepMoved(b, x, s, s', y, key, key[y], key[x]);
      RepFrame(a, x, s, s', key, key[x], hi);
    }
  }

  /** The four nodes a rotation writes, besides the root, are different nodes. */
  lemma RotateNodes(k: Ctx, d: Dir, x: nat, xc: Color, y: nat, yc: Color, a: Tree, b: Tree, e: Tree,
                    key: seq<int>, s: Pool, root: nat)
    requires At(k, Mk(d, Mk(d, a, x, xc, b), y, yc, e), key, s, root)
    ensures 0 < x < |s| && s[x] == MkLinks(d, a.Id(), b.Id(), y, xc)
    ensures 0 < y < |s| && s[y] == MkLinks(d, x, e.Id(), k.Id(), yc)
    ensures x != y && Lo(k, key) < key[x] < Hi(k, key) && Lo(k, key) < key[y] < Hi(k, key)
    ensures b.Node? ==> 0 < b.n < |s| && b.n != x && b.n != y && Lo(k, key) < key[b.n] < Hi(k, key)
    ensures k.In? ==> 0 < k.n < |s| && (key[k.n] == Lo(k, key) || key[k.n] == Hi(k, key))
    ensures k.In? ==> s[k.n].Kid(k.d) == y && s[k.n].Kid(Opp(k.d)) != y
  {
    var lo, hi := Lo(k, key), Hi(k, key);
    MkRep(d, a, x, xc, b, y, s);
    MkRep(d, Mk(d, a, x, xc, b), y, yc, e, k.Id(), s);
    MkOrdered(d, Mk(d, a, x, xc, b), y, yc, e, key, lo, hi);
    MkOrdered(d, a, x, xc, b, key, lo, key[y]);
    MkOrdered(d, a, x, xc, b, key, key[y], hi);
  }

  /** The links of the pool after rotating y towards d, where x is the other child of y. */
  ghost predicate RotateWrites(y: nat, d: Dir, s: Pool, root: nat, s': Pool, root': nat)
    requires y < |s| == |s'| && s[y].Kid(Opp(d)) < |s|
    requires s[y].parent < |s| && s[s[y].Kid(Opp(d))].Kid(d) < |s|
  {
    var x, p := s[y].Kid(Opp(d)), s[y].parent;
    var inner := s[x].Kid(d);
    && s'[y] == s[y].SetKid(Opp(d), inner).(parent := x)
    && s'[x] == s[x].SetKid(d, y).(parent := p)
    && (inner != NIL ==> s'[inner] == s[inner].(parent := y))
    && (p != NIL ==> s'[p] == s[p].SetKid(if s[p].Kid(d) == y then d else Opp(d), x))
    && root' == (if p == NIL then x else root)
    && s'[NIL] == s[NIL]
    && forall i :: 0 <= i < |s| && i != x && i != y && i != inner && i != p ==> s'[i] == s[i]
  }

  /** What a rotation writes, by name. */
  lemma RotateValues(k: Ctx, d: Dir, x: nat, xc: Color, y: nat, yc: Color, a: Tree, b: Tree, e: Tree,
                     key: seq<int>, s: Pool, root: nat, s': Pool, root': nat)
    requires At(k, Mk(Opp(d), Mk(Opp(d), a, x, xc, b), y, yc, e), key, s, root)
    requires |s'| == |s| && y < |s| && s[y].Kid(Opp(d)) < |s|
    requires s[y].parent < |s| && s[s[y].Kid(Opp(d))].Kid(d) < |s|
    requires RotateWrites(y, d, s, root, s', root')
    ensures 0 < x < |s| && b.Id() < |s| && k.Id() < |s| && s'[NIL] == s[NIL]
    ensures s'[y] == MkLinks(Opp(d), b.Id(), e.Id(), x, yc)
    ensures s'[x] == MkLinks(Opp(d), a.Id(), y, k.Id(), xc)
    ensures b.Node? ==> s'[b.n] == s[b.n].(parent := y)
    ensures k.In? ==> s'[k.n] == s[k.n].SetKid(k.d, x)
    ensures root' == if k.Top? then x else root
    ensures forall i :: 0 <= i < |s| && i != x && i != y && i != b.Id() && i != k.Id() ==> s'[i] == s[i]
  {
    hide At, Mk;
    RotateNodes(k, Opp(d), x, xc, y, yc, a, b, e, key, s, root);
  }

  /** A rotation moves x above y and changes nothing else about the tree. */
  lemma RotateAt(k: Ctx, d: Dir, x: nat, xc: Color, y: nat, yc: Color, a: Tree, b: Tree, e: Tree,
                 key: seq<int>, s: Pool, root: nat, s': Pool, root': nat)
    requires At(k, Mk(Opp(d), Mk(Opp(d), a, x, xc, b), y, yc, e), key, s, root)
    requires |s'| == |s| && y < |s| && s[y].Kid(Opp(d)) < |s|
    requires s[y].parent < |s| && s[s[y].Kid(Opp(d))].Kid(d) < |s|
    requires RotateWrites(y, d, s, root, s', root')
    ensures At(k, Mk(Opp(d), a, x, xc, Mk(Opp(d), b, y, yc, e)), key, s', root')
  {
    hide RotateWrites, MkLinks, Rep, Ordered, RepCtx, OrderedCtx;
    RotateNodes(k, Opp(d), x, xc, y, yc, a, b, e, key, s, root);
    RotateValues(k, d, x, xc, y, yc, a, b, e, key, s, root, s', root');
    RepCtxHole(k, s, s', y, x, key);
    RotatedTree(Opp(d), x, xc, y, yc, a, b, e, k.Id(), key, Lo(k, key), Hi(k, key), s, s');
  }

  // ---------- Moving the focus, and recolouring at it ----------

  lemma Up(k: Ctx, t: Tree, key: seq<int>, s: Pool, root: nat)
    requires k.In?
    ensures At(k, t, key, s, root) <==> At(k.up, Mk(k.d, t, k.n, k.c, k.sib), key, s, root)
  {
    AtElsewhere(k, t, k.up, Mk(k.d, t, k.n, k.c, k.sib), key, s, root);
  }

  lemma Tint(k: Ctx, t: Tree, c: Color, key: seq<int>, s: Pool, root: nat)
    requires At(k, t, key, s, root) && t.Node?
    ensures At(k, t.(c := c), key, s[t.n := s[t.n].(color := c)], root)
  {
    var s' := s[t.n := s[t.n].(color := c)];
    var lo, hi := Lo(k, key), Hi(k, key);
    RepFrame(t.l, t.n, s, s', key, lo, key[t.n]);
    RepFrame(t.r, t.n, s, s', key, key[t.n], hi);
    RepCtxFrame(k, s, s', t.n, key);
  }

  /** What the links say around the focus. */
  lemma Around(k: Ctx, t: Tree, key: seq<int>, s: Pool, root: nat)
    requires At(k, t, key, s, root)
    ensures t.Node? ==> 0 < t.n < |s| && s[t.n] == Links(t.l.Id(), t.r.Id(), k.Id(), t.c)
    ensures k.In? ==> 0 < k.n < |s| && s[k.n].Kid(k.d) == t.Id() && s[k.n].Kid(Opp(k.d)) == k.sib.Id()
    ensures k.In? ==> s[k.n].parent == k.up.Id() && s[k.n].color == k.c
    ensures k.In? ==>
      k.n != t.Id() && (k.sib.Node? ==> k.sib.n < |s| && k.sib.n != t.Id() && s[k.sib.n].color == k.sib.c)
    ensures k.Top? <==> root == t.Id()
  {
    if k.In? {
      RootInside(k.up, k.n, key, s);
    }
  }

  lemma {:induction false} RootInside(k: Ctx, n: nat, key: seq<int>, s: Pool)
    requires RepCtx(k, s, n) && OrderedCtx(k, key) && |key| == |s| && n < |s|
    requires 0 < n && Lo(k, key) < key[n] < Hi(k, key)
    ensures 0 < RootOf(k, n) < |key|
    ensures !(Lo(k, key) < key[RootOf(k, n)] < key[n]) && !(key[n] < key[RootOf(k, n)] < Hi(k, key))
  {
    if k.In? {
      RootInside(k.up, k.n, key, s);
    }
  }

  /** The colours below the focus, the nil node being black. */
  lemma KidColors(k: Ctx, t: Tree, key: seq<int>, s: Pool, root: nat)
    requires At(k, t, key, s, root) && t.Node?
    ensures t.l.Id() < |s| && s[t.l.Id()].color == t.l.Hue()
    ensures t.r.Id() < |s| && s[t.r.Id()].color == t.r.Hue()
    ensures s[t.n] == Links(t.l.Id(), t.r.Id(), k.Id(), t.c)
  {
    assert Rep(t.l, t.n, s) && Rep(t.r, t.n, s);
  }

  lemma KidsThere(k: Ctx, t: Tree, key: seq<int>, s: Pool, root: nat)
    requires At(k, t, key, s, root) && t.Node?
    ensures t.l.Node? ==> 0 < t.l.n < |s| && t.l.n != t.n && Lo(k, key) < key[t.l.n] < key[t.n]
    ensures t.r.Node? ==> 0 < t.r.n < |s| && t.r.n != t.n && key[t.n] < key[t.r.n] < Hi(k, key)
    ensures t.n < |s| && Lo(k, key) < key[t.n] < Hi(k, key)
    ensures k.In? ==> k.n < |s| && !(Lo(k, key) < key[k.n] < Hi(k, key))
  {
    assert Rep(t.l, t.n, s) && Rep(t.r, t.n, s);
    assert Ordered(t.l, key, Lo(k, key), key[t.n]) && Ordered(t.r, key, key[t.n], Hi(k, key));
  }

  lemma Substituted(k: Ctx, t: Tree, y: nat, key: seq<int>, s: Pool, s': Pool)
    requires RepCtx(k, s, t.Id()) && Rep(t, k.Id(), s) && OrderedCtx(k, key)
    requires t.Node? && Ordered(t, key, Lo(k, key), Hi(k, key))
    requires |s| == |s'| == |key| && 0 < y < |s| && key[y] == key[t.n] && y != t.n
    requires s'[y] == s[t.n]
    requires k.In? ==> s'[k.n] == s[k.n].SetKid(k.d, y)
    requires t.l.Node? ==> t.l.n < |s| && s'[t.l.n] == s[t.l.n].(parent := y)
    requires t.r.Node? ==> t.r.n < |s| && s'[t.r.n] == s[t.r.n].(parent := y)
    requires forall i :: 0 < i < |s| && i != y && i != k.Id() && i != t.l.Id() && i != t.r.Id() ==> s'[i] == s[i]
    ensures RepCtx(k, s', y) && Rep(t.(n := y), k.Id(), s') && Ordered(t.(n := y), key, Lo(k, key), Hi(k, key))
  {
    RepMoved(t.l, t.n, s, s', y, key, Lo(k, key), key[t.n]);
    RepMoved(t.r, t.n, s, s', y, key, key[t.n], Hi(k, key));
    RepCtxHole(k, s, s', t.n, y, key);
  }

  /** The key of a node outside the tree does not matter to the tree. */
  lemma AtRelabel(k: Ctx, t: Tree, key: seq<int>, z: nat, v: int, s: Pool, root: nat)
    requires At(k, t, key, s, root) && z < |key| && z !in Ids(Plug(k, t))
    ensures At(k, t, key[z := v], s, root)
  {
    PlugIds(k, t);
    OrderedRelabel(t, key, z, v, Lo(k, key), Hi(k, key));
    OrderedCtxRelabel(k, key, z, v);
  }

  // ---------- Climbing after an insertion ----------

  /** All colour laws hold, except that the red node in focus may have a red parent. */
  ghost predicate Rising(k: Ctx, t: Tree) {
    && t.Node? && t.c == Red && Balanced(t) && NoRedRed(t)
    && BalancedCtx(k, BlackHeight(t)) && NoRedRedCtx(k)
  }

  lemma MkColors(d: Dir, near: Tree, n: nat, c: Color, far: Tree)
    ensures var t := Mk(d, near, n, c, far);
      && (Balanced(t) <==> BlackHeight(near) == BlackHeight(far) && Balanced(near) && Balanced(far))
      && (NoRedRed(t) <==>
          (c == Red ==> near.Hue() == Black && far.Hue() == Black) && NoRedRed(near) && NoRedRed(far))
      && (BlackHeight(near) == BlackHeight(far) ==>
          BlackHeight(t) == BlackHeight(near) + (if c == Black then 1 else 0))
      && t.Node? && t.Hue() == c && t.Kid(d) == near && t.Kid(Opp(d)) == far
  {
  }

  lemma MkIds(d: Dir, near: Tree, n: nat, c: Color, far: Tree)
    ensures Ids(Mk(d, near, n, c, far)) == Ids(near) + {n} + Ids(far)
  {
  }

  lemma KidIds(t: Tree, d: Dir)
    requires t.Node?
    ensures Ids(t) == Ids(t.Kid(d)) + {t.n} + Ids(t.Kid(Opp(d)))
  {
  }

  lemma SameIds(t: Tree, c: Color)
    ensures t.Node? ==> Ids(t.(c := c)) == Ids(t)
  {
  }

  /** A red uncle: the violation moves up to the grandparent. */
  lemma RisesTwo(k: Ctx, t: Tree)
    requires Rising(k, t) && k.In? && k.c == Red && k.up.In? && k.up.sib.Hue() == Red
    ensures var t' := Mk(k.up.d, Mk(k.d, t, k.n, Black, k.sib), k.up.n, Red, k.up.sib.(c := Black));
      Rising(k.up.up, t') && Ids(Plug(k.up.up, t')) == Ids(Plug(k, t))
  {
    var p := Mk(k.d, t, k.n, Black, k.sib);
    var u := k.up.sib.(c := Black);
    assert NoRedRedCtx(k.up) && BalancedCtx(k.up, BlackHeight(t));
    assert Balanced(u) && NoRedRed(u) && BlackHeight(u) == BlackHeight(t) + 1;
    MkColors(k.d, t, k.n, Black, k.sib);
    MkColors(k.up.d, p, k.up.n, Red, u);
    assert Ids(Plug(k.up.up, Mk(k.up.d, p, k.up.n, Red, u))) == Ids(Plug(k, t)) by {
      SameIds(u, k.up.sib.c);
      MkIds(k.d, t, k.n, Black, k.sib);
      MkIds(k.up.d, p, k.up.n, Red, u);
      PlugIds(k, t);
      PlugIds(k.up.up, Mk(k.up.d, p, k.up.n, Red, u));
    }
  }

  /** An inner grandchild becomes an outer one. */
  lemma TurnsOut(k: Ctx, t: Tree)
    requires Rising(k, t) && k.In? && k.c == Red && k.up.In? && k.d != k.up.d
    ensures var t' := Mk(k.d, t.Kid(Opp(k.d)), k.n, Red, k.sib);
      var k' := In(Opp(k.d), t.n, Red, t.Kid(k.d), k.up);
      Rising(k', t') && Ids(Plug(k', t')) == Ids(Plug(k, t))
  {
    var t' := Mk(k.d, t.Kid(Opp(k.d)), k.n, Red, k.sib);
    var k' := In(Opp(k.d), t.n, Red, t.Kid(k.d), k.up);
    MkColors(k.d, t.Kid(Opp(k.d)), k.n, Red, k.sib);
    assert Ids(Plug(k', t')) == Ids(Plug(k, t)) by {
      KidIds(t, k.d);
      MkIds(k.d, t.Kid(Opp(k.d)), k.n, Red, k.sib);
      PlugIds(k, t);
      PlugIds(k', t');
    }
  }

  /** A black uncle and an outer grandchild: one rotation ends the climb. */
  lemma Settles(k: Ctx, t: Tree)
    requires Rising(k, t) && k.In? && k.c == Red && k.up.In? && k.up.sib.Hue() == Black
    ensures var k' := In(k.d, k.n, Black, Mk(k.d, k.sib, k.up.n, Red, k.up.sib), k.up.up);
      Rising(k', t) && Ids(Plug(k', t)) == Ids(Plug(k, t))
  {
    var g := Mk(k.d, k.sib, k.up.n, Red, k.up.sib);
    assert NoRedRedCtx(k.up) && BalancedCtx(k.up, BlackHeight(t));
    MkColors(k.d, k.sib, k.up.n, Red, k.up.sib);
    assert Ids(Plug(In(k.d, k.n, Black, g, k.up.up), t)) == Ids(Plug(k, t)) by {
      MkIds(k.d, k.sib, k.up.n, Red, k.up.sib);
      PlugIds(k, t);
      PlugIds(In(k.d, k.n, Black, g, k.up.up), t);
    }
  }

  /** The climb ends at the root or below a black node; blackening the root then restores every law. */
  lemma Climbed(k: Ctx, t: Tree)
    requires Rising(k, t) && (k.In? ==> k.c == Black)
    ensures Plug(k, t).Node? && RedBlack(Plug(k, t).(c := Black))
  {
    PlugBalanced(k, t);
    PlugNoRedRed(k, t);
    PlugIds(k, t);
  }

  // ---------- Climbing after a removal ----------

  /**
   All colour laws hold, except that every path through the focus is one black node short,
   and that a red node in focus may have a red parent or red children.
   */
  ghost predicate Sinking(k: Ctx, t: Tree) {
    && Balanced(t) && (t.Node? ==> NoRedRed(t.(c := Black)))
    && BalancedCtx(k, BlackHeight(t) + 1) && NoRedRedCtx(k)
  }

  /** The other child of the node above the focus. */
  function Across(k: Ctx, t: Tree): Ctx
    requires k.In?
  {
    In(Opp(k.d), k.n, k.c, t, k.up)
  }

  lemma FocusAcross(k: Ctx, t: Tree, key: seq<int>, s: Pool, root: nat)
    requires k.In?
    ensures At(k, t, key, s, root) <==> At(Across(k, t), k.sib, key, s, root)
  {
    Up(k, t, key, s, root);
    Up(Across(k, t), k.sib, key, s, root);
  }

  /** The sibling is there: it has black height at least one. */
  lemma SiblingThere(k: Ctx, t: Tree)
    requires Sinking(k, t) && k.In?
    ensures k.sib.Node?
  {
  }

  /** A red sibling: rotating it above the parent gives the focus a black sibling. */
  lemma RedSibling(k: Ctx, t: Tree)
    requires Sinking(k, t) && k.In? && k.sib.Hue() == Red
    ensures k.c == Black
    ensures var w := k.sib;
      var k' := In(k.d, k.n, Red, w.Kid(k.d), In(k.d, w.n, Black, w.Kid(Opp(k.d)), k.up));
      Sinking(k', t) && k'.sib.Hue() == Black && Ids(Plug(k', t)) == Ids(Plug(k, t))
  {
    var w := k.sib;
    var k' := In(k.d, k.n, Red, w.Kid(k.d), In(k.d, w.n, Black, w.Kid(Opp(k.d)), k.up));
    assert Balanced(w) && NoRedRed(w) && BlackHeight(w) == BlackHeight(t) + 1;
    assert BalancedCtx(k.up, BlackHeight(t) + 2);
    assert Ids(Plug(k', t)) == Ids(Plug(k, t)) by {
      KidIds(w, k.d);
      PlugIds(k, t);
      PlugIds(k', t);
    }
  }

  /** A black sibling with black children: redden it and pass the shortage up. */
  lemma SinksOne(k: Ctx, t: Tree)
    requires Sinking(k, t) && k.In? && t.Hue() == Black && k.sib.Node? && k.sib.Hue() == Black
    requires k.sib.l.Hue() == Black && k.sib.r.Hue() == Black
    ensures var t' := Mk(k.d, t, k.n, k.c, k.sib.(c := Red));
      Sinking(k.up, t') && Ids(Plug(k.up, t')) == Ids(Plug(k, t))
  {
    var w := k.sib.(c := Red);
    var t' := Mk(k.d, t, k.n, k.c, w);
    assert Balanced(w) && NoRedRed(w) && BlackHeight(w) == BlackHeight(t);
    MkColors(k.d, t, k.n, k.c, w);
    MkColors(k.d, t, k.n, Black, w);
    assert BlackHeight(t') == BlackHeight(t) + if k.c == Black then 1 else 0;
    assert BalancedCtx(k.up, BlackHeight(t') + 1);
    assert Ids(Plug(k.up, t')) == Ids(Plug(k, t)) by {
      SameIds(w, k.sib.c);
      MkIds(k.d, t, k.n, k.c, w);
      PlugIds(k, t);
      PlugIds(k.up, t');
    }
  }

  /** A red inner nephew of a black outer one: rotate it to be the sibling. */
  lemma RedNephewOut(k: Ctx, t: Tree)
    requires Sinking(k, t) && k.In? && k.sib.Node? && k.sib.Hue() == Black
    requires k.sib.Kid(k.d).Hue() == Red && k.sib.Kid(Opp(k.d)).Hue() == Black
    ensures var w, v := k.sib, k.sib.Kid(k.d);
      var w' := Mk(k.d, v.Kid(k.d), v.n, Black, Mk(k.d, v.Kid(Opp(k.d)), w.n, Red, w.Kid(Opp(k.d))));
      Sinking(k.(sib := w'), t) && Ids(Plug(k.(sib := w'), t)) == Ids(Plug(k, t))
  {
    var w, v := k.sib, k.sib.Kid(k.d);
    var wr := Mk(k.d, v.Kid(Opp(k.d)), w.n, Red, w.Kid(Opp(k.d)));
    var w' := Mk(k.d, v.Kid(k.d), v.n, Black, wr);
    assert Balanced(w) && NoRedRed(w) && BlackHeight(w) == BlackHeight(t) + 1;
    assert Balanced(v) && NoRedRed(v) && BlackHeight(v) == BlackHeight(t);
    MkColors(k.d, v.Kid(Opp(k.d)), w.n, Red, w.Kid(Opp(k.d)));
    MkColors(k.d, v.Kid(k.d), v.n, Black, wr);
    assert Ids(Plug(k.(sib := w'), t)) == Ids(Plug(k, t)) by {
      KidIds(w, k.d);
      KidIds(v, k.d);
      MkIds(k.d, v.Kid(Opp(k.d)), w.n, Red, w.Kid(Opp(k.d)));
      MkIds(k.d, v.Kid(k.d), v.n, Black, wr);
      PlugIds(k, t);
      PlugIds(k.(sib := w'), t);
    }
  }

  /** A red outer nephew: one rotation repays the shortage. */
  lemma Repaid(k: Ctx, t: Tree)
    requires Sinking(k, t) && k.In? && t.Hue() == Black && k.sib.Node? && k.sib.Hue() == Black
    requires k.sib.Kid(Opp(k.d)).Hue() == Red
    ensures var w := k.sib;
      var t' := Mk(k.d, Mk(k.d, t, k.n, Black, w.Kid(k.d)), w.n, k.c, w.Kid(Opp(k.d)).(c := Black));
      RedBlack(Plug(k.up, t')) && Ids(Plug(k.up, t')) == Ids(Plug(k, t))
  {
    var w, o := k.sib, k.sib.Kid(Opp(k.d));
    var far := o.(c := Black);
    var near := Mk(k.d, t, k.n, Black, w.Kid(k.d));
    var t' := Mk(k.d, near, w.n, k.c, far);
    assert RedBlack(Plug(k.up, t')) by {
      assert Balanced(w) && NoRedRed(w) && BlackHeight(w) == BlackHeight(t) + 1;
      assert Balanced(o) && NoRedRed(o) && BlackHeight(o) == BlackHeight(t);
      assert Balanced(far) && NoRedRed(far) && BlackHeight(far) == BlackHeight(t) + 1;
      MkColors(k.d, t, k.n, Black, w.Kid(k.d));
      MkColors(k.d, near, w.n, k.c, far);
      PlugBalanced(k.up, t');
      PlugNoRedRed(k.up, t');
    }
    assert Ids(Plug(k.up, t')) == Ids(Plug(k, t)) by {
      KidIds(w, k.d);
      SameIds(far, o.c);
      MkIds(k.d, t, k.n, Black, w.Kid(k.d));
      MkIds(k.d, near, w.n, k.c, far);
      PlugIds(k, t);
      PlugIds(k.up, t');
    }
  }

  /** Blackening a red focus, or the root, repays the shortage. */
  lemma Blackened(k: Ctx, t: Tree)
    requires Sinking(k, t) && t.Node? && (t.c == Red || k.Top?)
    ensures RedBlack(Plug(k, t.(c := Black))) && Ids(Plug(k, t.(c := Black))) == Ids(Plug(k, t))
  {
    PlugIds(k, t);
    PlugIds(k, t.(c := Black));
    PlugBalanced(k, t.(c := Black));
    PlugNoRedRed(k, t.(c := Black));
  }

  /** A state the source can be in: a red-black tree, or a single red node. */
  ghost predicate LawsOrLone(t: Tree) {
    RedBlack(t) || (t.Node? && t.l.Leaf? && t.r.Leaf?)
  }

  /** A node of a single-node tree is its root. */
  lemma LonePlug(k: Ctx, t: Tree, key: seq<int>)
    requires t.Node? && OrderedCtx(k, key) && Ordered(t, key, Lo(k, key), Hi(k, key))
    requires Plug(k, t).Node? && Plug(k, t).l.Leaf? && Plug(k, t).r.Leaf?
    ensures k.Top?
  {
    PlugIds(k, t);
    OrderedCtxIds(k, key);
    assert Ids(Plug(k, t)) == {Plug(k, t).n};
    assert t.n in Ids(t);
  }

  /** A new red leaf breaks no law but one, or hangs below a red root. */
  lemma NewLeaf(k: Ctx, tn: nat, t: Tree, key: seq<int>)
    requires Plug(k, Leaf) == t && LawsOrLone(t) && OrderedCtx(k, key)
    ensures t.Hue() == Red <==> k.In? && k.c == Red && k.up.Top?
    ensures t.Hue() == Black ==> Rising(k, Node(Leaf, tn, Red, Leaf))
    ensures Ids(Plug(k, Node(Leaf, tn, Red, Leaf))) == Ids(t) + {tn}
  {
    PlugIds(k, Leaf);
    PlugIds(k, Node(Leaf, tn, Red, Leaf));
    PlugBalanced(k, Leaf);
    PlugNoRedRed(k, Leaf);
    if k.In? {
      var m := Mk(k.d, Leaf, k.n, k.c, k.sib);
      PlugOrdered(k, Leaf, key);
      PlugOrdered(k.up, m, key);
      if t.l.Leaf? && t.r.Leaf? {
        LonePlug(k.up, m, key);
      }
    }
  }

  // ---------- Removing a node ----------

  /** z is the root and has exactly one child. */
  ghost predicate OneChild(t: Tree, z: nat) {
    t.Node? && t.n == z && (t.l.Leaf? <==> t.r.Node?)
  }

  /** Unlinking a node with at most one child, by its colour. */
  lemma SplicedLaws(k: Ctx, t: Tree, xt: Tree, key: seq<int>)
    requires t.Node? && (t.l.Leaf? || t.r.Leaf?) && xt == (if t.l.Node? then t.l else t.r)
    requires OrderedCtx(k, key) && Ordered(t, key, Lo(k, key), Hi(k, key)) && LawsOrLone(Plug(k, t))
    ensures t.c == Black ==> Sinking(k, xt)
    ensures t.c == Black && k.Top? ==> (RedBlack(xt) <==> xt.Leaf?) && LawsOrLone(xt)
    ensures t.c == Red ==> RedBlack(Plug(k, xt))
  {
    if !RedBlack(Plug(k, t)) {
      LonePlug(k, t, key);
    }
    PlugBalanced(k, t);
    PlugBalanced(k, xt);
    PlugNoRedRed(k, t);
    PlugNoRedRed(k, xt);
    assert Balanced(t) && NoRedRed(t);
    assert NoRedRed(t.l) && NoRedRed(t.r);
    assert xt.Node? ==> NoRedRed(xt.(c := Black));
  }

  lemma SplicedIds(k: Ctx, t: Tree, xt: Tree, key: seq<int>)
    requires t.Node? && (t.l.Leaf? || t.r.Leaf?) && xt == (if t.l.Node? then t.l else t.r)
    requires OrderedCtx(k, key) && Ordered(t, key, Lo(k, key), Hi(k, key))
    ensures Ids(Plug(k, xt)) == Ids(Plug(k, t)) - {t.n}
  {
    PlugIds(k, t);
    PlugIds(k, xt);
    OrderedCtxIds(k, key);
    OrderedIds(t.l, key, Lo(k, key), key[t.n]);
    OrderedIds(t.r, key, key[t.n], Hi(k, key));
  }

  /** The unlinked node has the root's place only if it is the root. */
  lemma OneChildRoot(t: Tree, k: Ctx, yt: Tree, kz: Ctx, tz: Tree, z: nat)
    requires Plug(kz, tz) == t == Plug(k, yt) && tz.Node? && tz.n == z && yt.Node?
    requires t.Node? && (t.n == z <==> kz.Top?)
    requires (k == kz && yt == tz && (tz.l.Leaf? || tz.r.Leaf?)) || (tz.l.Node? && tz.r.Node? && k.In?)
    requires yt.l.Leaf? || yt.r.Leaf?
    ensures k.Top? ==> yt.n == z && ((if yt.l.Node? then yt.l else yt.r).Node? <==> OneChild(t, z))
    ensures k.In? ==> !OneChild(t, z)
  {
  }

  /** Renaming a node leaves every law as it was. */
  lemma Renamed(k: Ctx, t: Tree, y: nat, key: seq<int>)
    requires t.Node? && OrderedCtx(k, key) && Ordered(t, key, Lo(k, key), Hi(k, key))
    ensures Ids(Plug(k, t.(n := y))) == Ids(Plug(k, t)) - {t.n} + {y}
    ensures RedBlack(Plug(k, t.(n := y))) <==> RedBlack(Plug(k, t))
  {
    RenamedLaws(k, t, y);
    hide RedBlack;
    PlugIds(k, t);
    PlugIds(k, t.(n := y));
    OrderedCtxIds(k, key);
    OrderedIds(t.l, key, Lo(k, key), key[t.n]);
    OrderedIds(t.r, key, key[t.n], Hi(k, key));
  }

  lemma RenamedLaws(k: Ctx, t: Tree, y: nat)
    requires t.Node?
    ensures RedBlack(Plug(k, t.(n := y))) <==> RedBlack(Plug(k, t))
  {
    var t' := t.(n := y);
    assert BlackHeight(t') == BlackHeight(t) && (Balanced(t') <==> Balanced(t)) && (NoRedRed(t') <==> NoRedRed(t));
    PlugBalanced(k, t);
    PlugBalanced(k, t');
    PlugNoRedRed(k, t);
    PlugNoRedRed(k, t');
  }

  /** Once the successor of z is unlinked, z can go by its key. */
  lemma SpliceRelabelled(kz: Ctx, tz: Tree, k: Ctx, yt: Tree, key: seq<int>, s: Pool, root: nat)
    requires tz.Node? && yt.Node? && yt.l == Leaf && LeftSpine(k, In(R, tz.n, tz.c, tz.l, kz))
    requires OrderedCtx(kz, key) && Ordered(tz, key, Lo(kz, key), Hi(kz, key))
    requires OrderedCtx(k, key) && Ordered(yt, key, Lo(k, key), Hi(k, key))
    requires At(k, yt.r, key, s, root)
    ensures At(k, yt.r, key[tz.n := key[yt.n]], s, root)
  {
    var base := In(R, tz.n, tz.c, tz.l, kz);
    SpineRelabel(k, base, key, key[yt.n]);
    OrderedIds(yt.r, key, key[yt.n], Hi(k, key));
    OrderedRelabel(yt.r, key, tz.n, key[yt.n], key[yt.n], Hi(k, key));
  }

  class TreeHead {
    var pool: Pool
    var root: nat

    constructor (size: nat)
      ensures |pool| == size + 1
      ensures forall key: seq<int> | |key| == |pool| :: At(Top, Leaf, key, pool, root)
    {
      pool := seq(size + 1, _ => Links(NIL, NIL, NIL, Black));
      root := NIL;
    }

    /** rb_tree_rightrotate: the left child x of y takes its place, and y becomes the right child of x. */
    method RightRotate(y: nat)
      requires 0 < y < |pool| && 0 < pool[y].left < |pool| && pool[y].left != y
      requires pool[y].parent < |pool| && pool[y].parent != y && pool[y].parent != pool[y].left
      requires var inner := pool[pool[y].left].right;
        inner < |pool| && (inner != NIL ==> inner != y && inner != pool[y].left && inner != pool[y].parent)
      modifies this
      ensures |pool| == old(|pool|)
      ensures RotateWrites(y, R, old(pool), old(root), pool, root)
    {
      var s := pool;
      var x := s[y].left;
      s := s[y := s[y].(left := s[x].right)];
      if s[x].right != NIL {
        s := s[s[x].right := s[s[x].right].(parent := y)];
      }
      s := s[x := s[x].(parent := s[y].parent)];
      var p := s[y].parent;
      if p == NIL {
        root := x;
      } else if y == s[p].right {
        s := s[p := s[p].(right := x)];
      } else {
        s := s[p := s[p].(left := x)];
      }
      s := s[x := s[x].(right := y)];
      s := s[y := s[y].(parent := x)];
      pool := s;
    }

    /** rb_tree_leftrotate: the right child x of y takes its place, and y becomes the left child of x. */
    method LeftRotate(y: nat)
      requires 0 < y < |pool| && 0 < pool[y].right < |pool| && pool[y].right != y
      requires pool[y].parent < |pool| && pool[y].parent != y && pool[y].parent != pool[y].right
      requires var inner := pool[pool[y].right].left;
        inner < |pool| && (inner != NIL ==> inner != y && inner != pool[y].right && inner != pool[y].parent)
      modifies this
      ensures |pool| == old(|pool|)
      ensures RotateWrites(y, L, old(pool), old(root), pool, root)
    {
      var s := pool;
      var x := s[y].right;
      s := s[y := s[y].(right := s[x].left)];
      if s[x].left != NIL {
        s := s[s[x].left := s[s[x].left].(parent := y)];
      }
      s := s[x := s[x].(parent := s[y].parent)];
      var p := s[y].parent;
      if p == NIL {
        root := x;
      } else if y == s[p].left {
        s := s[p := s[p].(left := x)];
      } else {
        s := s[p := s[p].(right := x)];
      }
      s := s[x := s[x].(left := y)];
      s := s[y := s[y].(parent := x)];
      pool := s;
    }

    /** Rotates y towards d, tracking the tree. */
    method Rotate(y: nat, d: Dir, ghost k: Ctx, ghost x: nat, ghost xc: Color, ghost yc: Color,
                  ghost a: Tree, ghost b: Tree, ghost e: Tree, ghost key: seq<int>)
      requires At(k, Mk(Opp(d), Mk(Opp(d), a, x, xc, b), y, yc, e), key, pool, root)
      modifies this
      ensures At(k, Mk(Opp(d), a, x, xc, Mk(Opp(d), b, y, yc, e)), key, pool, root)
      ensures |pool| == old(|pool|) && pool[NIL] == old(pool[NIL])
    {
      ghost var s0, r0 := pool, root;
      RotateNodes(k, Opp(d), x, xc, y, yc, a, b, e, key, pool, root);
      if d == R {
        RightRotate(y);
      } else {
        LeftRotate(y);
      }
      RotateAt(k, d, x, xc, y, yc, a, b, e, key, s0, r0, pool, root);
    }

    /** Sets the colour of the node in focus. */
    method Paint(n: nat, c: Color, ghost k: Ctx, ghost t: Tree, ghost key: seq<int>)
      requires t.Node? && t.n == n && At(k, t, key, pool, root)
      modifies this`pool
      ensures At(k, t.(c := c), key, pool, root)
      ensures |pool| == old(|pool|) && pool[NIL] == old(pool[NIL])
      ensures forall i :: 0 <= i < |pool| && i != n ==> pool[i] == old(pool[i])
      ensures pool[n] == old(pool[n]).(color := c)
    {
      Tint(k, t, c, key, pool, root);
      pool := pool[n := pool[n].(color := c)];
    }

    /** The uncle is red: push the blackness of the grandparent down. */
    method PushBlackDown(x: nat, p: nat, u: nat, g: nat, ghost k: Ctx, ghost t: Tree, ghost key: seq<int>)
      returns (ghost t': Tree)
      requires At(k, t, key, pool, root)
      requires t.Node? && t.n == x && k.In? && k.n == p && k.up.In? && k.up.n == g
      requires k.up.sib.Node? && k.up.sib.n == u
      modifies this`pool
      ensures t' == Mk(k.up.d, Mk(k.d, t, p, Black, k.sib), g, Red, k.up.sib.(c := Black))
      ensures At(k.up.up, t', key, pool, root)
      ensures |pool| == old(|pool|) && pool[NIL] == old(pool[NIL])
    {
      ghost var pt := Mk(k.d, t, p, k.c, k.sib);
      Up(k, t, key, pool, root);
      Paint(p, Black, k.up, pt, key);
      pt := pt.(c := Black);
      Up(k.up, pt, key, pool, root);
      ghost var gt := Mk(k.up.d, pt, g, k.up.c, k.up.sib);
      ghost var uk := In(Opp(k.up.d), g, k.up.c, pt, k.up.up);
      Up(uk, k.up.sib, key, pool, root);
      Paint(u, Black, uk, k.up.sib, key);
      gt := Mk(k.up.d, pt, g, k.up.c, k.up.sib.(c := Black));
      Up(uk, k.up.sib.(c := Black), key, pool, root);
      Paint(g, Red, k.up.up, gt, key);
      t' := gt.(c := Red);
    }

    /** Rotates the inner grandchild x above its parent p, which becomes the outer one. */
    method TurnOutward(x: nat, p: nat, d: Dir, ghost k: Ctx, ghost t: Tree, ghost key: seq<int>)
      returns (ghost k': Ctx, ghost t': Tree)
      requires At(k, t, key, pool, root)
      requires t.Node? && t.n == x && t.c == Red && k.In? && k.n == p && k.c == Red && k.d == Opp(d)
      modifies this
      ensures t' == Mk(k.d, t.Kid(d), p, Red, k.sib) && k' == In(d, x, Red, t.Kid(k.d), k.up)
      ensures At(k', t', key, pool, root)
      ensures |pool| == old(|pool|) && pool[NIL] == old(pool[NIL])
    {
      Up(k, t, key, pool, root);
      Rotate(p, d, k.up, x, Red, Red, t.Kid(k.d), t.Kid(d), k.sib, key);
      t', k' := Mk(k.d, t.Kid(d), p, Red, k.sib), In(d, x, Red, t.Kid(k.d), k.up);
      Up(k', t', key, pool, root);
    }

    /**
     Rotates the parent p above the grandparent g, swapping their colours. The rotation halts when there
     is nothing to rotate above g, as is the case when there is no grandparent and g is the nil node.
     */
    method TurnUpward(p: nat, g: nat, d: Dir, ghost k: Ctx, ghost t: Tree, ghost key: seq<int>)
      returns (halted: bool, ghost k': Ctx)
      requires At(k, t, key, pool, root) && k.In? && k.n == p && g == k.up.Id()
      requires k.up.In? ==> k.d == k.up.d == d
      modifies this
      ensures |pool| == old(|pool|) && (halted <==> k.up.Top?)
      ensures !halted ==> k' == In(k.d, p, Black, Mk(k.d, k.sib, g, Red, k.up.sib), k.up.up)
      ensures !halted ==> At(k', t, key, pool, root) && pool[NIL] == old(pool[NIL])
    {
      k' := k;
      ghost var pt := Mk(k.d, t, p, k.c, k.sib);
      Up(k, t, key, pool, root);
      Paint(p, Black, k.up, pt, key);
      pt := pt.(c := Black);
      Around(k.up, pt, key, pool, root);
      ghost var gt := pt;
      if k.up.In? {
        Up(k.up, pt, key, pool, root);
        gt := Mk(k.d, pt, g, k.up.c, k.up.sib);
        Tint(k.up.up, gt, Red, key, pool, root);
      }
      pool := pool[g := pool[g].(color := Red)];
      halted := pool[g].Kid(d) == NIL;
      if halted {
        return;
      }
      Rotate(g, Opp(d), k.up.up, p, Black, Red, t, k.sib, k.up.sib, key);
      k' := In(k.d, p, Black, Mk(k.d, k.sib, g, Red, k.up.sib), k.up.up);
      Up(k', t, key, pool, root);
    }

    /**
     One round of tree_insert_fixup, at a red node x with a red parent. The two mirrored halves
     of the loop are one body, for side d. It halts when the parent is the root.
     */
    method ClimbStep(x: nat, ghost k: Ctx, ghost t: Tree, ghost key: seq<int>)
      returns (halted: bool, x': nat, ghost k': Ctx, ghost t': Tree)
      requires At(k, t, key, pool, root) && t.Node? && t.n == x && t.c == Red && k.In? && k.c == Red
      requires k.up.In? ==> Rising(k, t)
      modifies this
      ensures |pool| == old(|pool|) && (halted <==> k.up.Top?)
      ensures !halted ==> At(k', t', key, pool, root) && t'.Node? && t'.n == x' && Rising(k', t')
      ensures !halted ==> Ids(Plug(k', t')) == Ids(Plug(k, t)) && pool[NIL] == old(pool[NIL])
      ensures !halted ==> k'.Hue() == Black || Depth(k') < Depth(k)
    {
      Around(k, t, key, pool, root);
      Up(k, t, key, pool, root);
      Around(k.up, Mk(k.d, t, k.n, k.c, k.sib), key, pool, root);
      var p := pool[x].parent;
      var g := pool[p].parent;
      var d := if p == pool[g].left then L else R;
      var u := pool[g].Kid(Opp(d));
      halted, x' := false, x;
      k', t' := k, t;
      if pool[u].color == Red {
        RisesTwo(k, t);
        t' := PushBlackDown(x, p, u, g, k, t, key);
        k' := k.up.up;
        x' := g;
      } else {
        if x == pool[p].Kid(Opp(d)) {
          if k.up.In? {
            TurnsOut(k, t);
          }
          k', t' := TurnOutward(x, p, d, k, t, key);
          x' := p;
        }
        if k.up.In? {
          Settles(k', t');
        }
        Around(k', t', key, pool, root);
        halted, k' := TurnUpward(pool[x'].parent, g, d, k', t', key);
      }
    }

    /**
     tree_insert_fixup: climbs from the new red node, recolouring and rotating until no red node
     has a red parent. Below a red root this comes to rotate the nil node, and halts.
     */
    method InsertFixup(x0: nat, ghost k0: Ctx, ghost t0: Tree, ghost key: seq<int>)
      returns (halted: bool, ghost t': Tree)
      requires At(k0, t0, key, pool, root) && t0.Node? && t0.n == x0
      requires Rising(k0, t0) || (t0.c == Red && k0.In? && k0.c == Red && k0.up.Top?)
      modifies this
      ensures |pool| == old(|pool|) && (!halted ==> pool[NIL] == old(pool[NIL]))
      ensures halted <==> k0.In? && k0.c == Red && k0.up.Top?
      ensures !halted ==> At(Top, t', key, pool, root) && Ids(t') == Ids(Plug(k0, t0))
      ensures !halted ==> t'.Node? && RedBlack(t'.(c := Black))
    {
      var x := x0;
      ghost var k, t := k0, t0;
      ghost var redRoot := k0.In? && k0.c == Red && k0.up.Top?;
      t' := t0;
      Around(k, t, key, pool, root);
      while x != root && pool[pool[x].parent].color == Red
        invariant At(k, t, key, pool, root) && t.Node? && t.n == x
        invariant if redRoot then k == k0 && t == t0 else Rising(k, t)
        invariant Ids(Plug(k, t)) == Ids(Plug(k0, t0))
        invariant x != root ==> pool[x].parent < |pool|
        invariant |pool| == old(|pool|) && pool[NIL] == old(pool[NIL])
        decreases if k.Hue() == Red then Depth(k) else 0
      {
        Around(k, t, key, pool, root);
        halted, x, k, t := ClimbStep(x, k, t, key);
        if halted {
          return true, t0;
        }
        Around(k, t, key, pool, root);
      }
      Around(k, t, key, pool, root);
      AtPlug(k, t, key, pool, root);
      Climbed(k, t);
      return false, Plug(k, t);
    }

    /** A red sibling w of x: rotate it above their parent p. */
    method RotateRedSibling(p: nat, w: nat, d: Dir, ghost k: Ctx, ghost t: Tree, ghost key: seq<int>)
      returns (ghost k': Ctx)
      requires At(k, t, key, pool, root)
      requires k.In? && k.n == p && k.d == d && k.sib.Node? && k.sib.n == w
      modifies this
      ensures k' == In(d, p, Red, k.sib.Kid(d), In(d, w, Black, k.sib.Kid(Opp(d)), k.up))
      ensures At(k', t, key, pool, root)
      ensures |pool| == old(|pool|) && pool[NIL] == old(pool[NIL])
    {
      ghost var b, a := k.sib.Kid(d), k.sib.Kid(Opp(d));
      FocusAcross(k, t, key, pool, root);
      Paint(w, Black, Across(k, t), k.sib, key);
      ghost var k1 := k.(sib := k.sib.(c := Black));
      FocusAcross(k1, t, key, pool, root);
      Up(k1, t, key, pool, root);
      Paint(p, Red, k.up, Mk(d, t, p, k.c, k1.sib), key);
      Rotate(p, d, k.up, w, Black, Red, a, b, t, key);
      k' := In(d, p, Red, b, In(d, w, Black, a, k.up));
      Up(k', t, key, pool, root);
      Up(k'.up, Mk(d, t, p, Red, b), key, pool, root);
    }

    /** A red inner nephew v and a black outer one: rotate v above the sibling w. */
    method RotateInnerNephew(w: nat, v: nat, d: Dir, ghost k: Ctx, ghost t: Tree, ghost key: seq<int>)
      returns (ghost k': Ctx)
      requires At(k, t, key, pool, root)
      requires k.In? && k.d == d && k.sib.Node? && k.sib.n == w && k.sib.Kid(d).Node? && k.sib.Kid(d).n == v
      modifies this
      ensures var s := k.sib;
        k' == k.(sib := Mk(d, s.Kid(d).Kid(d), v, Black, Mk(d, s.Kid(d).Kid(Opp(d)), w, Red, s.Kid(Opp(d)))))
      ensures At(k', t, key, pool, root)
      ensures |pool| == old(|pool|) && pool[NIL] == old(pool[NIL])
    {
      ghost var vt, far := k.sib.Kid(d), k.sib.Kid(Opp(d));
      ghost var ka := Across(k, t);
      FocusAcross(k, t, key, pool, root);
      ghost var kv := In(d, w, k.sib.c, far, ka);
      Up(kv, vt, key, pool, root);
      Paint(v, Black, kv, vt, key);
      vt := vt.(c := Black);
      Up(kv, vt, key, pool, root);
      Paint(w, Red, ka, Mk(d, vt, w, k.sib.c, far), key);
      Rotate(w, Opp(d), ka, v, Black, Red, vt.Kid(d), vt.Kid(Opp(d)), far, key);
      k' := k.(sib := Mk(d, vt.Kid(d), v, Black, Mk(d, vt.Kid(Opp(d)), w, Red, far)));
      FocusAcross(k', t, key, pool, root);
    }

    /** A red outer nephew v: rotate the sibling w above the parent p. */
    method RotateSibling(p: nat, w: nat, v: nat, d: Dir, ghost k: Ctx, ghost t: Tree, ghost key: seq<int>)
      returns (ghost t': Tree)
      requires At(k, t, key, pool, root)
      requires k.In? && k.n == p && k.d == d && k.sib.Node? && k.sib.n == w
      requires k.sib.Kid(Opp(d)).Node? && k.sib.Kid(Opp(d)).n == v
      modifies this
      ensures t' == Mk(d, Mk(d, t, p, Black, k.sib.Kid(d)), w, k.c, k.sib.Kid(Opp(d)).(c := Black))
      ensures At(k.up, t', key, pool, root)
      ensures |pool| == old(|pool|) && pool[NIL] == old(pool[NIL])
    {
      ghost var near, far := k.sib.Kid(d), k.sib.Kid(Opp(d));
      ghost var ka := Across(k, t);
      Around(k, t, key, pool, root);
      FocusAcross(k, t, key, pool, root);
      Paint(w, pool[p].color, ka, k.sib, key);
      ghost var wt := Mk(d, near, w, k.c, far);
      ghost var kw := k.(sib := wt);
      FocusAcross(kw, t, key, pool, root);
      Up(kw, t, key, pool, root);
      Paint(p, Black, k.up, Mk(d, t, p, k.c, wt), key);
      kw := kw.(c := Black);
      Up(kw, t, key, pool, root);
      FocusAcross(kw, t, key, pool, root);
      ghost var kv := In(Opp(d), w, k.c, near, Across(kw, t));
      Up(kv, far, key, pool, root);
      Paint(v, Black, kv, far, key);
      far := far.(c := Black);
      Up(kv, far, key, pool, root);
      kw := kw.(sib := Mk(d, near, w, k.c, far));
      FocusAcross(kw, t, key, pool, root);
      Up(kw, t, key, pool, root);
      Rotate(p, d, k.up, w, k.c, Black, far, near, t, key);
      t' := Mk(d, Mk(d, t, p, Black, near), w, k.c, far);
    }

    /** The sibling is black and has a red child: rotations repay the shortage, and x becomes the root. */
    method Repay(p: nat, w0: nat, d: Dir, ghost k: Ctx, ghost t: Tree, ghost key: seq<int>)
      returns (ghost whole: Tree)
      requires At(k, t, key, pool, root) && Sinking(k, t) && t.Hue() == Black
      requires k.In? && k.n == p && k.d == d && k.sib.Node? && k.sib.n == w0 && k.sib.c == Black
      requires k.sib.l.Hue() == Red || k.sib.r.Hue() == Red
      modifies this
      ensures At(Top, whole, key, pool, root) && Ids(whole) == Ids(Plug(k, t)) && whole.Node? && RedBlack(whole)
      ensures |pool| == old(|pool|) && pool[NIL] == old(pool[NIL])
    {
      var w := w0;
      ghost var k' := k;
      FocusAcross(k, t, key, pool, root);
      KidColors(Across(k, t), k.sib, key, pool, root);
      if pool[pool[w].Kid(Opp(d))].color == Black {
        RedNephewOut(k, t);
        k' := RotateInnerNephew(w, pool[w].Kid(d), d, k, t, key);
        Around(k', t, key, pool, root);
        FocusAcross(k', t, key, pool, root);
        KidColors(Across(k', t), k'.sib, key, pool, root);
        w := pool[p].Kid(Opp(d));
      }
      Repaid(k', t);
      ghost var t' := RotateSibling(p, w, pool[w].Kid(Opp(d)), d, k', t, key);
      AtPlug(k'.up, t', key, pool, root);
      PlugNode(k'.up, t');
      whole := Plug(k'.up, t');
    }

    /** The part of remove_fixup's loop body that follows once the sibling w is black. */
    method SinkBesideBlack(p: nat, w: nat, d: Dir, ghost k: Ctx, ghost t: Tree, ghost key: seq<int>)
      returns (x': nat, ghost done: bool, ghost k': Ctx, ghost t': Tree)
      requires At(k, t, key, pool, root) && Sinking(k, t) && t.Hue() == Black
      requires k.In? && k.n == p && k.d == d && k.sib.Node? && k.sib.n == w && k.sib.c == Black
      modifies this
      ensures At(k', t', key, pool, root) && Ids(Plug(k', t')) == Ids(Plug(k, t))
      ensures t'.Node? && x' == t'.n
      ensures if done then k' == Top && RedBlack(t') else Sinking(k', t') && k' == k.up && t'.c == k.c
      ensures |pool| == old(|pool|) && pool[NIL] == old(pool[NIL])
    {
      FocusAcross(k, t, key, pool, root);
      KidColors(Across(k, t), k.sib, key, pool, root);
      if pool[pool[w].left].color == Black && pool[pool[w].right].color == Black {
        SinksOne(k, t);
        Paint(w, Red, Across(k, t), k.sib, key);
        k' := k.(sib := k.sib.(c := Red));
        FocusAcross(k', t, key, pool, root);
        Up(k', t, key, pool, root);
        t' := Mk(d, t, p, k.c, k.sib.(c := Red));
        k' := k.up;
        x', done := p, false;
      } else {
        t' := Repay(p, w, d, k, t, key);
        k' := Top;
        x', done := root, true;
      }
    }

    /**
     One round of remove_fixup, at a node x that is one black node short. The two mirrored halves
     of the loop are one body, for side d. The loop is done once x becomes the root for good.
     */
    method SinkStep(x: nat, ghost k: Ctx, ghost t: Tree, ghost key: seq<int>)
      returns (x': nat, ghost done: bool, ghost k': Ctx, ghost t': Tree)
      requires At(k, t, key, pool, root) && t.Id() == x && Sinking(k, t) && t.Hue() == Black
      requires k.In? && x < |pool| && pool[x].parent == k.n
      modifies this
      ensures At(k', t', key, pool, root) && Ids(Plug(k', t')) == Ids(Plug(k, t))
      ensures t'.Node? && x' == t'.n
      ensures if done then k' == Top && RedBlack(t') else Sinking(k', t') && (t'.c == Red || Depth(k') < Depth(k))
      ensures |pool| == old(|pool|) && pool[NIL] == old(pool[NIL])
    {
      SiblingThere(k, t);
      Around(k, t, key, pool, root);
      var p := pool[x].parent;
      var d := if x == pool[p].left then L else R;
      var w := pool[p].Kid(Opp(d));
      k' := k;
      if pool[w].color == Red {
        RedSibling(k, t);
        k' := RotateRedSibling(p, w, d, k, t, key);
        SiblingThere(k', t);
        Around(k', t, key, pool, root);
        w := pool[p].Kid(Opp(d));
      }
      x', done, k', t' := SinkBesideBlack(p, w, d, k', t, key);
    }

    /**
     remove_fixup: climbs from x, which took the place of an unlinked black node. When that node was
     the root the source returns at once, leaving x its colour.
     */
    method RemoveFixup(x0: nat, ghost k0: Ctx, ghost t0: Tree, ghost key: seq<int>) returns (ghost t': Tree)
      requires At(k0, t0, key, pool, root) && t0.Id() == x0 && Sinking(k0, t0)
      requires x0 < |pool| && pool[x0].parent == k0.Id()
      modifies this
      ensures At(Top, t', key, pool, root) && Ids(t') == Ids(Plug(k0, t0))
      ensures if k0.Top? then t' == t0 else RedBlack(t')
      ensures |pool| == old(|pool|) && pool[NIL] == old(pool[NIL])
    {
      var x := x0;
      ghost var k, t := k0, t0;
      Around(k, t, key, pool, root);
      if pool[x].parent == NIL {
        return t;
      }
      assert k.In?;
      ghost var done := false;
      while x != root && pool[x].color == Black
        invariant At(k, t, key, pool, root) && t.Id() == x < |pool|
        invariant done ==> k == Top && RedBlack(t)
        invariant !done ==> Sinking(k, t)
        invariant pool[x].parent == k.Id() && pool[x].color == t.Hue()
        invariant x == root <==> k.Top?
        invariant k.Top? ==> t.Node?
        invariant Ids(Plug(k, t)) == Ids(Plug(k0, t0))
        invariant |pool| == old(|pool|) && pool[NIL] == old(pool[NIL])
        decreases if t.Hue() == Black then Depth(k) + 1 else 0
      {
        x, done, k, t := SinkStep(x, k, t, key);
        Around(k, t, key, pool, root);
      }
      assert !done ==> RedBlack(Plug(k, t.(c := Black))) && Ids(Plug(k, t.(c := Black))) == Ids(Plug(k, t)) by {
        if !done { Blackened(k, t); }
      }
      Paint(x, Black, k, t, key);
      t := t.(c := Black);
      AtPlug(k, t, key, pool, root);
      return Plug(k, t);
    }

    /**
     The descent of find_node and of binary_insert: n is the node with the sought key, or nil;
     y is the last node met before it.
     */
    method Descend(oid: int, key: seq<int>, ghost t: Tree)
      returns (n: nat, y: nat, ghost k: Ctx, ghost sub: Tree)
      requires At(Top, t, key, pool, root) && MIN < oid < MAX
      ensures At(k, sub, key, pool, root) && Plug(k, sub) == t && n == sub.Id() && y == k.Id()
      ensures Lo(k, key) < oid < Hi(k, key)
      ensures if n == NIL then sub == Leaf && (forall i :: i in Ids(t) ==> i < |key| && key[i] != oid)
              else n in Ids(t) && n < |key| && key[n] == oid
    {
      y, n := NIL, root;
      k, sub := Top, t;
      while n != NIL && key[n] != oid
        invariant At(k, sub, key, pool, root) && Plug(k, sub) == t && n == sub.Id() && y == k.Id()
        invariant n != NIL ==> n < |key|
        invariant Lo(k, key) < oid < Hi(k, key)
        decreases sub
      {
        y := n;
        Around(k, sub, key, pool, root);
        if oid < key[n] {
          n := pool[n].left;
          k, sub := In(L, sub.n, sub.c, sub.r, k), sub.l;
        } else {
          n := pool[n].right;
          k, sub := In(R, sub.n, sub.c, sub.l, k), sub.r;
        }
        Up(k, sub, key, pool, root);
        Around(k, sub, key, pool, root);
      }
      PlugIds(k, sub);
      OrderedCtxIds(k, key);
    }

    /** The linking half of binary_insert: a new node hung below y, on the side its key asks for. */
    method LinkLeaf(tn: nat, y: nat, key: seq<int>, ghost k: Ctx)
      requires 0 < tn < |pool| == |key| && y == k.Id() && tn !in CtxIds(k)
      requires At(k, Leaf, key, pool, root) && Lo(k, key) < key[tn] < Hi(k, key)
      modifies this
      ensures At(k, Node(Leaf, tn, Red, Leaf), key, pool, root)
      ensures |pool| == old(|pool|) && pool[NIL] == old(pool[NIL])
    {
      ghost var s0 := pool;
      pool := pool[tn := Links(NIL, NIL, y, Red)];
      if y == NIL {
        root := tn;
      } else if key[tn] < key[y] {
        pool := pool[y := pool[y].(left := tn)];
      } else {
        pool := pool[y := pool[y].(right := tn)];
      }
      RepCtxHole(k, s0, pool, NIL, tn, key);
    }

    /** rbtree_do_min below the right child of z: the successor of z. */
    method Successor(z: nat, ghost kz: Ctx, ghost tz: Tree, ghost key: seq<int>)
      returns (y: nat, ghost k: Ctx, ghost t: Tree)
      requires At(kz, tz, key, pool, root) && tz.Node? && tz.n == z && tz.r.Node?
      ensures At(k, t, key, pool, root) && Plug(k, t) == Plug(kz, tz)
      ensures t.Node? && t.n == y && t.l == Leaf && LeftSpine(k, In(R, z, tz.c, tz.l, kz))
    {
      ghost var base := In(R, z, tz.c, tz.l, kz);
      Around(kz, tz, key, pool, root);
      y := pool[z].right;
      k, t := base, tz.r;
      Up(k, t, key, pool, root);
      Around(k, t, key, pool, root);
      while pool[y].left != NIL
        invariant At(k, t, key, pool, root) && Plug(k, t) == Plug(kz, tz)
        invariant t.Node? && t.n == y < |pool| && pool[y].left == t.l.Id() && LeftSpine(k, base)
        decreases t
      {
        y := pool[y].left;
        k, t := In(L, t.n, t.c, t.r, k), t.l;
        Up(k, t, key, pool, root);
        Around(k, t, key, pool, root);
      }
      Around(k, t, key, pool, root);
      KidsThere(k, t, key, pool, root);
    }

    /** Unlinks y, which has at most one child: that child x takes its place, even if it is nil. */
    method SpliceOut(y: nat, ghost k: Ctx, ghost t: Tree, ghost key: seq<int>) returns (x: nat, ghost xt: Tree)
      requires At(k, t, key, pool, root) && t.Node? && t.n == y && (t.l.Leaf? || t.r.Leaf?)
      modifies this
      ensures xt == (if t.l.Node? then t.l else t.r) && x == xt.Id()
      ensures At(k, xt, key, pool, root)
      ensures x < |pool| && pool[x].parent == k.Id()
      ensures |pool| == old(|pool|) && y < |pool| && pool[y] == old(pool[y])
    {
      ghost var s0 := pool;
      Around(k, t, key, pool, root);
      KidColors(k, t, key, pool, root);
      KidsThere(k, t, key, pool, root);
      x := if pool[y].left != NIL then pool[y].left else pool[y].right;
      xt := if t.l.Node? then t.l else t.r;
      var p := pool[y].parent;
      pool := pool[x := pool[x].(parent := p)];
      if p == NIL {
        root := x;
      } else if y == pool[p].left {
        pool := pool[p := pool[p].(left := x)];
      } else {
        pool := pool[p := pool[p].(right := x)];
      }
      var lo, hi := if t.l.Node? then Lo(k, key) else key[y], if t.l.Node? then key[y] else Hi(k, key);
      RepMoved(xt, y, s0, pool, k.Id(), key, lo, hi);
      OrderedWiden(xt, key, lo, hi, Lo(k, key), Hi(k, key));
      RepCtxHole(k, s0, pool, y, x, key);
    }

    /** Puts the unlinked node y in the place of z, giving it z's links and colour. */
    method Substitute(z: nat, y: nat, ghost k: Ctx, ghost t: Tree, ghost key: seq<int>)
      requires At(k, t, key, pool, root) && t.Node? && t.n == z && z != y
      requires 0 < y < |pool| && key[y] == key[z]
      modifies this
      ensures At(k, t.(n := y), key, pool, root)
      ensures |pool| == old(|pool|) && pool[NIL] == old(pool[NIL])
    {
      hide Rep, Ordered, RepCtx, OrderedCtx;
      ghost var s0 := pool;
      Around(k, t, key, pool, root);
      KidsThere(k, t, key, pool, root);
      var zl := pool[z];
      pool := pool[y := zl];
      if zl.parent != NIL {
        if pool[zl.parent].left == z {
          pool := pool[zl.parent := pool[zl.parent].(left := y)];
        } else {
          pool := pool[zl.parent := pool[zl.parent].(right := y)];
        }
      }
      if zl.left != NIL {
        pool := pool[zl.left := pool[zl.left].(parent := y)];
      }
      if zl.right != NIL {
        pool := pool[zl.right := pool[zl.right].(parent := y)];
      }
      if root == z {
        root := y;
      }
      Substituted(k, t, y, key, s0, pool);
    }

    /**
     The first half of tree_remove_node: y is z, or the successor of z when z has two children;
     y is unlinked, and its only child x (perhaps nil) takes its place. From then on z goes by
     the key of y.
     */
    method Unlink(z: nat, ghost t: Tree, ghost key: seq<int>) returns (y: nat, x: nat, ghost k: Ctx, ghost xt: Tree)
      requires At(Top, t, key, pool, root) && z in Ids(t) && LawsOrLone(t)
      modifies this
      ensures |pool| == old(|pool|) && 0 < z < |pool| && 0 < y < |pool| && x == xt.Id() && y in Ids(t)
      ensures At(k, xt, key[z := key[y]], pool, root)
      ensures x < |pool| && pool[x].parent == k.Id() && pool[y].color == old(pool[y]).color
      ensures Ids(Plug(k, xt)) == Ids(t) - {y}
      ensures pool[y].color == Black ==> Sinking(k, xt)
      ensures pool[y].color == Red ==> RedBlack(Plug(k, xt)) && !OneChild(t, z)
      ensures pool[y].color == Black && k.Top? ==> y == z && (RedBlack(xt) <==> !OneChild(t, z)) && LawsOrLone(xt)
      ensures k.In? ==> !OneChild(t, z)
    {
      ghost var kz, tz := Focus(Top, t, z);
      AtElsewhere(Top, t, kz, tz, key, pool, root);
      Around(Top, t, key, pool, root);
      Around(kz, tz, key, pool, root);
      KidsThere(kz, tz, key, pool, root);
      ghost var yt;
      y, k, yt := z, kz, tz;
      if pool[z].left != NIL && pool[z].right != NIL {
        y, k, yt := Successor(z, kz, tz, key);
      }
      Around(k, yt, key, pool, root);
      x, xt := SpliceOut(y, k, yt, key);
      SplicedLaws(k, yt, xt, key);
      SplicedIds(k, yt, xt, key);
      PlugIds(k, yt);
      OneChildRoot(t, k, yt, kz, tz, z);
      if y != z {
        SpliceRelabelled(kz, tz, k, yt, key, pool, root);
      } else {
        assert key[z := key[y]] == key;
      }
    }

    /** The last half of tree_remove_node: the unlinked y takes the place of z, which takes back its key. */
    method Replace(z: nat, y: nat, ghost t: Tree, ghost key: seq<int>) returns (ghost t': Tree)
      requires 0 < y < |pool| == |key| && 0 < z < |pool| && y != z && z in Ids(t) && y !in Ids(t)
      requires At(Top, t, key[z := key[y]], pool, root)
      modifies this
      ensures At(Top, t', key, pool, root)
      ensures Ids(t') == Ids(t) - {z} + {y}
      ensures RedBlack(t') <==> RedBlack(t)
      ensures |pool| == old(|pool|) && pool[NIL] == old(pool[NIL])
    {
      ghost var key' := key[z := key[y]];
      ghost var k, sub := Focus(Top, t, z);
      AtElsewhere(Top, t, k, sub, key', pool, root);
      Substitute(z, y, k, sub, key');
      t' := Plug(k, sub.(n := y));
      Renamed(k, sub, y, key');
      AtPlug(k, sub.(n := y), key', pool, root);
      AtRelabel(Top, t', key', z, key[z], pool, root);
      assert key'[z := key[z]] == key;
    }

    /**
     The tree part of tree_remove_node. The node y that is unlinked is z or its successor; while it
     is out, z stands in for it, going by its key. The colour laws hold afterwards, except that
     removing the root of a two-node tree leaves its red child as a red root.
     */
    method Remove(z: nat, ghost t: Tree, ghost key: seq<int>) returns (y: nat, ghost t': Tree)
      requires At(Top, t, key, pool, root) && z in Ids(t) && LawsOrLone(t)
      modifies this
      ensures |pool| == old(|pool|) && 0 < z < |pool| && 0 < y < |pool| && y in Ids(t)
      ensures At(Top, t', key, pool, root) && Ids(t') == Ids(t) - {z}
      ensures LawsOrLone(t') && (RedBlack(t') <==> !OneChild(t, z))
    {
      var x;
      ghost var k, xt;
      y, x, k, xt := Unlink(z, t, key);
      hide At, RedBlack, Sinking, OneChild, Ids;
      if pool[y].color == Black {
        t' := RemoveFixup(x, k, xt, key[z := key[y]]);
      } else {
        AtPlug(k, xt, key[z := key[y]], pool, root);
        t' := Plug(k, xt);
      }
      if y != z {
        t' := Replace(z, y, t', key);
      } else {
        assert key[z := key[y]] == key;
      }
    }

    /**
     The tree part of ld_recordLocation for an OID not yet there: hang a new red leaf below y, climb,
     blacken the root. Halts when the tree is a single red node.
     */
    method Insert(tn: nat, y: nat, key: seq<int>, ghost k: Ctx, ghost t: Tree) returns (halted: bool, ghost t': Tree)
      requires 0 < tn < |pool| == |key| && y == k.Id() && tn !in Ids(t) && LawsOrLone(t) && Plug(k, Leaf) == t
      requires At(k, Leaf, key, pool, root) && Lo(k, key) < key[tn] < Hi(k, key)
      modifies this
      ensures |pool| == old(|pool|)
      ensures halted <==> t.Hue() == Red
      ensures !halted ==> At(Top, t', key, pool, root) && Ids(t') == Ids(t) + {tn} && RedBlack(t')
    {
      PlugIds(k, Leaf);
      NewLeaf(k, tn, t, key);
      LinkLeaf(tn, y, key, k);
      halted, t' := InsertFixup(tn, k, Node(Leaf, tn, Red, Leaf), key);
      if !halted {
        Around(Top, t', key, pool, root);
        Paint(root, Black, Top, t', key);
        t' := t'.(c := Black);
      }
    }
  }
}
