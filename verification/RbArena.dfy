/**
 * The node store of `kvstore_rbtree.c`: an arena of cells whose left, right and parent
 * links are indices, with one shared nil cell at index 0, and when such an arena holds a
 * given tree around a given position.
 */
module RbArena {
  import opened CStrings
  import opened RbShape

  datatype Cell = Cell(color: Color, left: Id, right: Id, parent: Id, key: CString, value: CString) {
    function Child(side: Side): Id {
      if side == Left then left else right
    }

    function WithChild(side: Side, x: Id): Cell {
      if side == Left then this.(left := x) else this.(right := x)
    }
  }

  type Arena = seq<Cell>

  /** The cells of `a` spell out `t`, hanging below `p`. */
  ghost predicate Holds(a: Arena, t: Tree, p: Id) {
    t.Node? ==>
      && 0 < t.id < |a|
      && a[t.id] == Cell(t.color, Root(t.left), Root(t.right), p, t.key, t.value)
      && Holds(a, t.left, t.id) && Holds(a, t.right, t.id)
  }

  /** The cells of `a` spell out `ctx` with node `x` linked into the hole. */
  ghost predicate HoldsCtx(a: Arena, ctx: Context, x: Id) {
    ctx.Frame? ==>
      && 0 < ctx.id < |a|
      && a[ctx.id] == Cell(ctx.color, if ctx.side == Left then x else Root(ctx.sibling),
                           if ctx.side == Left then Root(ctx.sibling) else x,
                           Parent(ctx.up), ctx.key, ctx.value)
      && Holds(a, ctx.sibling, ctx.id) && HoldsCtx(a, ctx.up, ctx.id)
  }

  /** The arena is the tree `Plug(ctx, t)`: links agree both ways, no cell is shared, nil is black. */
  ghost predicate Linked(a: Arena, root: Id, ctx: Context, t: Tree) {
    && |a| > 0 && a[0].color == Black
    && HoldsCtx(a, ctx, Root(t)) && Holds(a, t, Parent(ctx))
    && Apart(ctx, t) && root == Apex(ctx, Root(t))
  }

  ghost predicate Agree(a: Arena, b: Arena, ids: set<Id>) {
    |a| <= |b| && forall i | i in ids && i < |a| :: b[i] == a[i]
  }

  lemma {:induction false} FrameTree(a: Arena, b: Arena, t: Tree, p: Id)
    requires Holds(a, t, p) && Agree(a, b, Ids(t))
    ensures Holds(b, t, p)
    decreases t
  {
    if t.Node? {
      FrameTree(a, b, t.left, t.id);
      FrameTree(a, b, t.right, t.id);
    }
  }

  lemma {:induction false} FrameCtx(a: Arena, b: Arena, ctx: Context, x: Id)
    requires HoldsCtx(a, ctx, x) && Agree(a, b, CtxIds(ctx))
    ensures HoldsCtx(b, ctx, x)
    decreases ctx
  {
    if ctx.Frame? {
      FrameTree(a, b, ctx.sibling, ctx.id);
      FrameCtx(a, b, ctx.up, ctx.id);
    }
  }

  /** Rewriting only the parent link of a subtree's root moves the subtree under `q`. */
  lemma Reparent(a: Arena, b: Arena, t: Tree, p: Id, q: Id)
    requires Holds(a, t, p) && Distinct(t) && Agree(a, b, Ids(t) - {Root(t)})
    requires t.Node? ==> b[t.id] == a[t.id].(parent := q)
    ensures Holds(b, t, q)
  {
    if t.Node? {
      FrameTree(a, b, t.left, t.id);
      FrameTree(a, b, t.right, t.id);
    }
  }

  /** Rewriting only the link into the hole leaves a context with another node there. */
  lemma Rechild(a: Arena, b: Arena, ctx: Context, x: Id, y: Id)
    requires HoldsCtx(a, ctx, x) && CtxDistinct(ctx) && Agree(a, b, CtxIds(ctx) - {Parent(ctx)})
    requires ctx.Frame? ==> b[ctx.id] == a[ctx.id].WithChild(ctx.side, y)
    ensures HoldsCtx(b, ctx, y)
  {
    if ctx.Frame? {
      FrameTree(a, b, ctx.sibling, ctx.id);
      FrameCtx(a, b, ctx.up, ctx.id);
    }
  }

  /** The focus may move to the parent ... */
  lemma Up(a: Arena, root: Id, ctx: Context, t: Tree)
    requires Linked(a, root, ctx, t) && ctx.Frame?
    ensures Linked(a, root, ctx.up, Fill(ctx, t))
  {
    MakeIds(ctx.side, ctx.id, ctx.color, ctx.key, ctx.value, t, ctx.sibling);
  }

  /** ... and to a child. */
  lemma Down(a: Arena, root: Id, ctx: Context, t: Tree, side: Side)
    requires Linked(a, root, ctx, t) && t.Node?
    ensures Linked(a, root, Enter(ctx, t, side), t.Child(side))
    ensures Fill(Enter(ctx, t, side), t.Child(side)) == t
  {
    assert side == Left || side == Right;
  }

  lemma AcrossLinked(a: Arena, root: Id, ctx: Context, t: Tree)
    requires Linked(a, root, ctx, t) && ctx.Frame?
    ensures Linked(a, root, Across(ctx, t), ctx.sibling)
    ensures Across(Across(ctx, t), ctx.sibling) == ctx
    ensures Fill(Across(ctx, t), ctx.sibling) == Fill(ctx, t)
  {
  }

  lemma {:induction false} UpToRoot(a: Arena, root: Id, ctx: Context, t: Tree)
    requires Linked(a, root, ctx, t)
    ensures Linked(a, root, Top, Plug(ctx, t))
    decreases ctx
  {
    if ctx.Frame? {
      Up(a, root, ctx, t);
      UpToRoot(a, root, ctx.up, Fill(ctx, t));
    }
  }

  /** Where a node sits: the hole's context and the subtree rooted at it. */
  ghost function Locate(ctx: Context, t: Tree, z: Id): (r: (Context, Tree))
    requires z in Ids(t)
    ensures Plug(r.0, r.1) == Plug(ctx, t)
    ensures r.1.Node? && r.1.id == z
    decreases t
  {
    if t.id == z then (ctx, t)
    else if z in Ids(t.left) then Locate(Enter(ctx, t, Left), t.left, z)
    else Locate(Enter(ctx, t, Right), t.right, z)
  }

  lemma {:induction false} LocateLinked(a: Arena, root: Id, ctx: Context, t: Tree, z: Id)
    requires Linked(a, root, ctx, t) && z in Ids(t)
    ensures var (c, s) := Locate(ctx, t, z); Linked(a, root, c, s)
    decreases t
  {
    if t.id == z {
    } else if z in Ids(t.left) {
      Down(a, root, ctx, t, Left);
      LocateLinked(a, root, Enter(ctx, t, Left), t.left, z);
    } else {
      Down(a, root, ctx, t, Right);
      LocateLinked(a, root, Enter(ctx, t, Right), t.right, z);
    }
  }

  /** The comparison with the parent's child link tells which side the hole is on. */
  lemma HoleSide(a: Arena, root: Id, ctx: Context, t: Tree, side: Side)
    requires Linked(a, root, ctx, t) && ctx.Frame?
    requires t.Node? || ctx.sibling.Node?
    ensures Root(t) == a[ctx.id].Child(side) <==> ctx.side == side
  {
  }

  /** What an insertion step reads around a focus two levels deep. */
  lemma GrandparentSide(a: Arena, root: Id, ctx: Context, t: Tree)
    requires Linked(a, root, ctx, t) && t.Node? && ctx.Frame? && ctx.up.Frame?
    ensures a[t.id].parent == ctx.id < |a| && a[ctx.id].parent == ctx.up.id < |a|
    ensures ctx.id == a[ctx.up.id].left <==> ctx.up.side == Left
    ensures a[ctx.up.id].Child(ctx.up.side.Other()) == Root(ctx.up.sibling) < |a|
    ensures a[Root(ctx.up.sibling)].color == ColorOf(ctx.up.sibling)
  {
    Up(a, root, ctx, t);
    HoleSide(a, root, ctx.up, Fill(ctx, t), Left);
    assert Holds(a, ctx.up.sibling, ctx.up.id);
  }

  /** What a deletion step reads around the sibling of a focus. */
  lemma SiblingReads(a: Arena, root: Id, ctx: Context, t: Tree)
    requires Linked(a, root, ctx, t) && ctx.Frame? && ctx.sibling.Node?
    ensures ctx.id < |a| && ctx.sibling.id < |a|
    ensures a[ctx.id].color == ctx.color && a[ctx.id].Child(ctx.side.Other()) == ctx.sibling.id
    ensures a[ctx.sibling.id].color == ctx.sibling.color
    ensures forall s: Side ::
      && a[ctx.sibling.id].Child(s) == Root(ctx.sibling.Child(s)) < |a|
      && a[Root(ctx.sibling.Child(s))].color == ColorOf(ctx.sibling.Child(s))
    ensures a[ctx.sibling.id].left == Root(ctx.sibling.left) < |a|
    ensures a[ctx.sibling.id].right == Root(ctx.sibling.right) < |a|
    ensures a[Root(ctx.sibling.left)].color == ColorOf(ctx.sibling.left)
    ensures a[Root(ctx.sibling.right)].color == ColorOf(ctx.sibling.right)
    ensures Root(t) == a[ctx.id].left <==> ctx.side == Left
  {
    var w := ctx.sibling;
    assert Holds(a, w.left, w.id) && Holds(a, w.right, w.id);
    HoleSide(a, root, ctx, t, Left);
  }

  lemma {:induction false} ApexInCtx(ctx: Context, x: Id)
    requires ctx.Frame?
    ensures Apex(ctx, x) in CtxIds(ctx)
    decreases ctx
  {
    if ctx.up.Frame? {
      ApexInCtx(ctx.up, ctx.id);
    }
  }

  /** A focus below some frame is not the root. */
  lemma FocusNotRoot(a: Arena, root: Id, ctx: Context, t: Tree)
    requires Linked(a, root, ctx, t)
    ensures Root(t) == root <==> ctx.Top?
  {
    if ctx.Frame? {
      ApexInCtx(ctx, Root(t));
      CtxIdsPositive(a, ctx, Root(t));
    }
  }

  lemma {:induction false} CtxIdsPositive(a: Arena, ctx: Context, x: Id)
    requires HoldsCtx(a, ctx, x)
    ensures forall i | i in CtxIds(ctx) :: 0 < i < |a|
    decreases ctx
  {
    if ctx.Frame? {
      IdsPositive(a, ctx.sibling, ctx.id);
      CtxIdsPositive(a, ctx.up, ctx.id);
    }
  }

  lemma {:induction false} IdsPositive(a: Arena, t: Tree, p: Id)
    requires Holds(a, t, p)
    ensures forall i | i in Ids(t) :: 0 < i < |a|
    decreases t
  {
    if t.Node? {
      IdsPositive(a, t.left, t.id);
      IdsPositive(a, t.right, t.id);
    }
  }

  /** The cells a rotation writes, and that it leaves the four surrounding pieces alone. */
  ghost predicate RotationApart(a: Arena, side: Side, ctx: Context, t: Tree)
    requires t.Node? && t.Child(side.Other()).Node?
  {
    var yt := t.Child(side.Other());
    var x, y, m, p := t.id, yt.id, Root(yt.Child(side)), Parent(ctx);
    && 0 < x < |a| && 0 < y < |a| && m < |a| && p < |a|
    && x != y && m != x && m != y && p != x && p != y && (p == m ==> p == 0)
    && Ids(t.Child(side)) !! {0, x, y, m, p}
    && Ids(yt.Child(side.Other())) !! {0, x, y, m, p}
    && Ids(yt.Child(side)) !! {0, x, y, p}
    && CtxIds(ctx) !! {0, x, y, m}
  }

  lemma RotationIsApart(a: Arena, root: Id, side: Side, ctx: Context, t: Tree)
    requires Linked(a, root, ctx, t) && t.Node? && t.Child(side.Other()).Node?
    ensures RotationApart(a, side, ctx, t)
  {
    var yt := t.Child(side.Other());
    var mt := yt.Child(side);
    MakeIds(side, t.id, t.color, t.key, t.value, t.Child(side), yt);
    MakeIds(side, yt.id, yt.color, yt.key, yt.value, mt, yt.Child(side.Other()));
    IdsPositive(a, t, Parent(ctx));
    CtxIdsPositive(a, ctx, t.id);
    assert yt.id in Ids(yt) && Ids(yt) <= Ids(t);
    assert mt.Node? ==> mt.id in Ids(mt);
    assert ctx.Frame? ==> ctx.id in CtxIds(ctx);
  }

  /** What a rotation reads from the arena is what the tree says. */
  lemma RotationReads(a: Arena, root: Id, side: Side, ctx: Context, t: Tree)
    requires Linked(a, root, ctx, t) && t.Node? && t.Child(side.Other()).Node?
    requires RotationApart(a, side, ctx, t)
    ensures var yt, p := t.Child(side.Other()), Parent(ctx);
      && a[t.id].Child(side.Other()) == yt.id && a[t.id].parent == p
      && a[yt.id].Child(side) == Root(yt.Child(side))
      && (p == 0 ==> ctx.Top? && root == t.id)
      && (p != 0 ==>
          && (t.id == a[p].Child(side) <==> ctx.side == side)
          && Apex(ctx, yt.id) == root)
  {
    assert Holds(a, t.Child(side.Other()), t.id);
    if ctx.Frame? {
      HoleSide(a, root, ctx, t, side);
    }
  }

  /** The writes of a rotation at `t`, as the arena sees them. */
  ghost predicate RotationWrites(a: Arena, b: Arena, side: Side, ctx: Context, t: Tree)
    requires t.Node? && t.Child(side.Other()).Node? && RotationApart(a, side, ctx, t)
  {
    var yt := t.Child(side.Other());
    var x, y, m, p := t.id, yt.id, Root(yt.Child(side)), Parent(ctx);
    && |b| == |a| && b[0] == a[0]
    && b[x] == a[x].WithChild(side.Other(), m).(parent := y)
    && b[y] == a[y].WithChild(side, x).(parent := p)
    && (m != 0 ==> b[m] == a[m].(parent := x))
    && (p != 0 ==> b[p] == a[p].WithChild(ctx.side, y))
    && forall i | 0 <= i < |a| && i !in {0, x, y, m, p} :: b[i] == a[i]
  }

  /** Those writes turn the subtree at `t` into its rotation and nothing else. */
  lemma RotationLinks(a: Arena, b: Arena, root: Id, side: Side, ctx: Context, t: Tree)
    requires Linked(a, root, ctx, t) && t.Node? && t.Child(side.Other()).Node?
    requires RotationApart(a, side, ctx, t) && RotationWrites(a, b, side, ctx, t)
    ensures Linked(b, Apex(ctx, t.Child(side.Other()).id), ctx, Rotated(side, t))
  {
    var yt := t.Child(side.Other());
    var mt := yt.Child(side);
    RotatedKeeps(side, t);
    RotationCtx(a, b, root, side, ctx, t);
    RotationInner(a, b, root, side, ctx, t);
    assert Holds(b, Rotated(side, t), Parent(ctx));
  }

  lemma RotationCtx(a: Arena, b: Arena, root: Id, side: Side, ctx: Context, t: Tree)
    requires Linked(a, root, ctx, t) && t.Node? && t.Child(side.Other()).Node?
    requires RotationApart(a, side, ctx, t) && RotationWrites(a, b, side, ctx, t)
    ensures HoldsCtx(b, ctx, t.Child(side.Other()).id)
  {
    CtxIdsPositive(a, ctx, t.id);
    Rechild(a, b, ctx, t.id, t.Child(side.Other()).id);
  }

  lemma RotationInner(a: Arena, b: Arena, root: Id, side: Side, ctx: Context, t: Tree)
    requires Linked(a, root, ctx, t) && t.Node? && t.Child(side.Other()).Node?
    requires RotationApart(a, side, ctx, t) && RotationWrites(a, b, side, ctx, t)
    ensures var yt := t.Child(side.Other());
      && a[t.id].Child(side) == Root(t.Child(side)) && a[t.id].parent == Parent(ctx)
      && a[yt.id].Child(side.Other()) == Root(yt.Child(side.Other()))
      && a[t.id].color == t.color && a[t.id].key == t.key && a[t.id].value == t.value
      && a[yt.id].color == yt.color && a[yt.id].key == yt.key && a[yt.id].value == yt.value
      && Holds(b, t.Child(side), t.id) && Holds(b, yt.Child(side), t.id)
      && Holds(b, yt.Child(side.Other()), yt.id)
  {
    var yt := t.Child(side.Other());
    var mt, near, far := yt.Child(side), t.Child(side), yt.Child(side.Other());
    assert Holds(a, yt, t.id) && Distinct(yt);
    FrameTree(a, b, near, t.id);
    FrameTree(a, b, far, yt.id);
    IdsPositive(a, mt, yt.id);
    Reparent(a, b, mt, yt.id, t.id);
  }

  /** Hanging a fresh red node in a hole. */
  lemma AttachLinked(a: Arena, b: Arena, root: Id, ctx: Context, n: Tree)
    requires Linked(a, root, ctx, Leaf)
    requires n.Node? && n.left.Leaf? && n.right.Leaf? && 0 < n.id < |a| && n.id !in CtxIds(ctx)
    requires |b| == |a| && b[n.id] == Cell(n.color, 0, 0, Parent(ctx), n.key, n.value)
    requires ctx.Frame? ==> b[ctx.id] == a[ctx.id].WithChild(ctx.side, n.id)
    requires forall i | 0 <= i < |a| && i != n.id && (i != Parent(ctx) || i == 0) :: b[i] == a[i]
    ensures Linked(b, Apex(ctx, n.id), ctx, n)
  {
    CtxIdsPositive(a, ctx, 0);
    Rechild(a, b, ctx, 0, n.id);
    assert Ids(n) == {n.id};
  }

  /** Letting the only child of a node take its place. */
  lemma SpliceLinked(a: Arena, b: Arena, root: Id, ctx: Context, t: Tree)
    requires Linked(a, root, ctx, t) && t.Node? && (t.left.Leaf? || t.right.Leaf?)
    requires var x := Root(OnlyChild(t));
      && |b| == |a| && x < |a| && b[x] == a[x].(parent := Parent(ctx))
      && (ctx.Frame? ==> b[ctx.id] == a[ctx.id].WithChild(ctx.side, x))
      && forall i | 0 <= i < |a| && i != x && (i != Parent(ctx) || i == 0) :: b[i] == a[i]
    ensures Linked(b, Apex(ctx, Root(OnlyChild(t))), ctx, OnlyChild(t))
    ensures t.id !in Ids(OnlyChild(t)) && t.id !in CtxIds(ctx)
    ensures Ids(t) == Ids(OnlyChild(t)) + {t.id}
  {
    var x := OnlyChild(t);
    CtxIdsPositive(a, ctx, t.id);
    IdsPositive(a, t, Parent(ctx));
    assert x.Node? ==> x.id in Ids(x);
    assert Ids(x) <= Ids(t) && t.id in Ids(t);
    Rechild(a, b, ctx, t.id, Root(x));
    Reparent(a, b, x, t.id, Parent(ctx));
  }

  lemma {:induction false} RekeyHolds(a: Arena, b: Arena, ctx: Context, x: Id, z: Id, k: CString, v: CString)
    requires HoldsCtx(a, ctx, x) && CtxDistinct(ctx) && OnPath(ctx, z)
    requires Agree(a, b, CtxIds(ctx) - {z}) && z < |a| && b[z] == a[z].(key := k, value := v)
    ensures z in CtxIds(ctx)
    ensures HoldsCtx(b, Rekey(ctx, z, k, v), x)
    decreases ctx
  {
    if ctx.id == z {
      FrameTree(a, b, ctx.sibling, ctx.id);
      FrameCtx(a, b, ctx.up, ctx.id);
    } else {
      RekeyHolds(a, b, ctx.up, ctx.id, z, k, v);
      FrameTree(a, b, ctx.sibling, ctx.id);
      RekeyKeepsShape(ctx.up, z, k, v, 0, 0);
    }
  }

  /** Moving another node's pair into a node on the path to the hole. */
  lemma RekeyLinked(a: Arena, b: Arena, root: Id, ctx: Context, t: Tree, z: Id, k: CString, v: CString)
    requires Linked(a, root, ctx, t) && OnPath(ctx, z) && z < |a|
    requires Agree(a, b, Ids(t) + CtxIds(ctx) - {z}) && b[0] == a[0] && b[z] == a[z].(key := k, value := v)
    ensures Linked(b, root, Rekey(ctx, z, k, v), t)
  {
    RekeyHolds(a, b, ctx, Root(t), z, k, v);
    RekeyKeepsShape(ctx, z, k, v, 0, Root(t));
    FrameTree(a, b, t, Parent(ctx));
  }
}
