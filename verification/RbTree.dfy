/**
 * The red-black tree engine of `kvstore_rbtree.c`. Left and right branches of the source
 * that mirror each other are one branch here, taken for a `Side`: `RotateAt(Left, x)` is
 * `rbtree_left_rotate`, `RotateAt(Right, x)` is `rbtree_right_rotate`.
 */
module RbTree {
  import opened CStrings
  import opened KeyOrder
  import opened RbShape
  import opened RbArena

  /** Keys and values stay where they are, whatever happens to links and colours. */
  ghost predicate SameData(a: Arena, b: Arena) {
    |a| == |b| && forall i | 0 <= i < |a| :: a[i].key == b[i].key && a[i].value == b[i].value
  }

  class Engine {
    var cells: Arena
    var root: Id
    var count: int
    ghost var tree: Tree

    ghost predicate Valid()
      reads this
    {
      && Linked(cells, root, Top, tree)
      && RedBlack(tree) && Sorted(Entries(tree))
    }

    ghost function Contents(): map<CString, CString>
      reads this
    {
      ToMap(Entries(tree))
    }

    constructor ()
      ensures Valid() && Contents() == map[] && count == 0
    {
      cells := [Cell(Black, 0, 0, 0, [], [])];
      root, count, tree := 0, 0, Leaf;
    }

    method Paint(x: Id, c: Color, ghost ctx: Context, ghost t: Tree)
      requires Linked(cells, root, ctx, t) && Root(t) == x && (t.Leaf? ==> c == Black)
      modifies `cells
      ensures Linked(cells, root, ctx, t.Painted(c))
      ensures SameData(old(cells), cells) && cells[0].parent == old(cells[0].parent)
    {
      IdsPositive(cells, t, Parent(ctx));
      CtxIdsPositive(cells, ctx, x);
      cells := cells[x := cells[x].(color := c)];
      if t.Node? {
        FrameTree(old(cells), cells, t.left, x);
        FrameTree(old(cells), cells, t.right, x);
      }
      assert Ids(t.Painted(c)) == Ids(t);
      FrameCtx(old(cells), cells, ctx, x);
    }

    /** Node `y` takes the place of `x` under the parent of `x`, whose links are tested `side` first. */
    method Transplant(side: Side, x: Id, y: Id)
      requires x < |cells| && y < |cells| && cells[x].parent < |cells|
      requires cells[x].parent == 0 || cells[x].parent != y
      modifies `cells, `root
      ensures |cells| == |old(cells)|
      ensures cells[y] == old(cells[y]).(parent := old(cells[x].parent))
      ensures var p := old(cells[x].parent);
        && (p != 0 ==>
              cells[p] == old(cells[p]).WithChild(if x == old(cells[p].Child(side)) then side else side.Other(), y))
        && root == if p == 0 then y else old(root)
      ensures forall i | 0 <= i < |cells| && i != y && (i != old(cells[x].parent) || i == 0) ::
                cells[i] == old(cells[i])
    {
      var p := cells[x].parent;
      cells := cells[y := cells[y].(parent := p)];
      if p == 0 {
        root := y;
      } else if x == cells[p].Child(side) {
        cells := cells[p := cells[p].WithChild(side, y)];
      } else {
        cells := cells[p := cells[p].WithChild(side.Other(), y)];
      }
    }

    method RotateAt(side: Side, x: Id, ghost ctx: Context, ghost t: Tree)
      requires Linked(cells, root, ctx, t) && t.Node? && t.id == x && t.Child(side.Other()).Node?
      modifies `cells, `root
      ensures Linked(cells, root, ctx, Rotated(side, t))
      ensures SameData(old(cells), cells) && cells[0].parent == old(cells[0].parent)
    {
      RotationIsApart(cells, root, side, ctx, t);
      RotationReads(cells, root, side, ctx, t);
      WriteRotation(side, x);
      assert RotationWrites(old(cells), cells, side, ctx, t);
      RotationLinks(old(cells), cells, old(root), side, ctx, t);
      RotationData(old(cells), cells, side, ctx, t);
    }

    /** The pointer writes of `rbtree_left_rotate` (`Left`) and `rbtree_right_rotate` (`Right`). */
    method WriteRotation(side: Side, x: Id)
      requires 0 < x < |cells|
      requires var y, p := cells[x].Child(side.Other()), cells[x].parent;
        && 0 < y < |cells| && p < |cells| && x != y && p != x && p != y
        && cells[y].Child(side) < |cells| && cells[y].Child(side) !in {x, y}
        && (p != 0 ==> p != cells[y].Child(side))
      modifies `cells, `root
      ensures |cells| == |old(cells)|
      ensures var y, p := old(cells[x].Child(side.Other())), old(cells[x].parent);
        var m := old(cells[y].Child(side));
        var onSide := x == old(cells[p].Child(side));
        && cells[x] == old(cells[x]).WithChild(side.Other(), m).(parent := y)
        && cells[y] == old(cells[y]).WithChild(side, x).(parent := p)
        && (m != 0 ==> cells[m] == old(cells[m]).(parent := x))
        && (p != 0 ==> cells[p] == old(cells[p]).WithChild(if onSide then side else side.Other(), y))
        && (forall i | 0 <= i < |cells| && i != x && i != y && (i != m || m == 0) && (i != p || p == 0) ::
              cells[i] == old(cells[i]))
        && root == if p == 0 then y else old(root)
    {
      var y := cells[x].Child(side.Other());
      var m := cells[y].Child(side);
      cells := cells[x := cells[x].WithChild(side.Other(), m)];
      if m != 0 {
        cells := cells[m := cells[m].(parent := x)];
      }
      Transplant(side, x, y);
      cells := cells[y := cells[y].WithChild(side, x)];
      cells := cells[x := cells[x].(parent := y)];
    }

    // ------------------------------------------------------------ insertion

    /** A red uncle: parent and uncle turn black, the grandparent red, and `z` moves up to it. */
    method InsertRecolor(z: Id, side: Side, ghost ctx: Context, ghost t: Tree) returns (z': Id, ghost t': Tree)
      requires Linked(cells, root, ctx, t) && InsertInv(ctx, t) && z == t.id
      requires ctx.Frame? && ctx.color == Red && ctx.up.Frame? && ctx.up.side == side
      requires ColorOf(ctx.up.sibling) == Red
      modifies `cells
      ensures Linked(cells, root, ctx.up.up, t') && InsertInv(ctx.up.up, t') && z' == t'.id
      ensures SameContents(ctx, t, ctx.up.up, t') && SameData(old(cells), cells)
    {
      ghost var g, u := ctx.up, ctx.up.sibling;
      InsertRecolors(ctx, t);
      assert HoldsCtx(cells, g, ctx.id);
      var p := cells[z].parent;
      var gp := cells[p].parent;
      var y := cells[gp].Child(side.Other());
      Up(cells, root, ctx, t);
      ghost var pt := Fill(ctx, t);
      Paint(p, Black, g, pt);
      Up(cells, root, g, pt.Painted(Black));
      ghost var gt := Fill(g, pt.Painted(Black));
      Down(cells, root, g.up, gt, side.Other());
      Paint(y, Black, Enter(g.up, gt, side.Other()), u);
      Up(cells, root, Enter(g.up, gt, side.Other()), u.Painted(Black));
      ghost var gt' := Make(side, g.id, g.color, g.key, g.value, pt.Painted(Black), u.Painted(Black));
      assert gt' == Fill(Enter(g.up, gt, side.Other()), u.Painted(Black));
      Paint(gp, Red, g.up, gt');
      z', t' := gp, gt'.Painted(Red);
      PaintedKeeps(pt, Black);
      PaintedKeeps(u, Black);
      MakeKeeps(side, g.id, g.color, Red, g.key, g.value, pt, pt.Painted(Black), u, u.Painted(Black));
      ReplaceKeeps(g.up, Fill(g, pt), t');
    }

    /** An inner grandchild: `z` moves to its parent, which is rotated below. */
    method InsertStraighten(z: Id, side: Side, ghost ctx: Context, ghost t: Tree)
      returns (z': Id, ghost ctx': Context, ghost t': Tree)
      requires Linked(cells, root, ctx, t) && InsertInv(ctx, t) && z == t.id
      requires ctx.Frame? && ctx.color == Red && ctx.up.Frame? && ctx.up.side == side && ctx.side != side
      modifies `cells, `root
      ensures Linked(cells, root, ctx', t') && InsertInv(ctx', t') && z' == t'.id
      ensures ctx'.Frame? && ctx'.color == Red && ctx'.side == side && ctx'.up == ctx.up
      ensures SameContents(ctx, t, ctx', t') && SameData(old(cells), cells)
    {
      InsertStraightens(ctx, t);
      Up(cells, root, ctx, t);
      ghost var pt := Fill(ctx, t);
      z' := cells[z].parent;
      RotateAt(side, z', ctx.up, pt);
      ghost var qt := Rotated(side, pt);
      Down(cells, root, ctx.up, qt, side);
      ctx', t' := Enter(ctx.up, qt, side), qt.Child(side);
      RotatedKeeps(side, pt);
      ReplaceKeeps(ctx.up, pt, qt);
    }

    /** An outer grandchild under a black uncle: recolour and rotate the grandparent down. */
    method InsertRotate(z: Id, side: Side, ghost ctx: Context, ghost t: Tree) returns (ghost ctx': Context)
      requires Linked(cells, root, ctx, t) && InsertInv(ctx, t) && z == t.id
      requires ctx.Frame? && ctx.color == Red && ctx.up.Frame? && ctx.up.side == ctx.side == side
      requires ColorOf(ctx.up.sibling) == Black
      modifies `cells, `root
      ensures Linked(cells, root, ctx', t) && InsertInv(ctx', t)
      ensures ctx'.Frame? && ctx'.color == Black && ctx'.up == ctx.up.up
      ensures SameContents(ctx, t, ctx', t) && SameData(old(cells), cells)
    {
      InsertRotates(ctx, t);
      ghost var g := ctx.up;
      var p := cells[z].parent;
      var gp := cells[p].parent;
      Up(cells, root, ctx, t);
      ghost var pt := Fill(ctx, t);
      Paint(p, Black, g, pt);
      Up(cells, root, g, pt.Painted(Black));
      ghost var gt := Fill(g, pt.Painted(Black));
      Paint(gp, Red, g.up, gt);
      RotateAt(side.Other(), gp, g.up, gt.Painted(Red));
      ghost var rt := Rotated(side.Other(), gt.Painted(Red));
      Down(cells, root, g.up, rt, side);
      ctx' := Enter(g.up, rt, side);
      PaintedKeeps(pt, Black);
      MakeKeeps(side, g.id, g.color, Red, g.key, g.value, pt, pt.Painted(Black), g.sibling, g.sibling);
      RotatedKeeps(side.Other(), gt.Painted(Red));
      ReplaceKeeps(g.up, Fill(g, pt), rt);
    }

    /** One turn of the insertion loop. */
    method InsertStep(z: Id, ghost ctx: Context, ghost t: Tree) returns (z': Id, ghost ctx': Context, ghost t': Tree)
      requires Linked(cells, root, ctx, t) && InsertInv(ctx, t) && z == t.id
      requires ctx.Frame? && ctx.color == Red
      modifies `cells, `root
      ensures Linked(cells, root, ctx', t') && InsertInv(ctx', t') && z' == t'.id
      ensures SameContents(ctx, t, ctx', t') && SameData(old(cells), cells)
      ensures Depth(ctx') < Depth(ctx)
    {
      InsertRecolors(ctx, t);
      ghost var g := ctx.up;
      GrandparentSide(cells, root, ctx, t);
      var p := cells[z].parent;
      var gp := cells[p].parent;
      var side := if p == cells[gp].left then Left else Right;
      var y := cells[gp].Child(side.Other());
      if cells[y].color == Red {
        z', t' := InsertRecolor(z, side, ctx, t);
        ctx' := g.up;
      } else {
        HoleSide(cells, root, ctx, t, side.Other());
        z', ctx', t' := z, ctx, t;
        if z == cells[p].Child(side.Other()) {
          z', ctx', t' := InsertStraighten(z, side, ctx, t);
        }
        ctx' := InsertRotate(z', side, ctx', t');
      }
    }

    method InsertFixup(start: Id, ghost ctx0: Context, ghost t0: Tree)
      requires Linked(cells, root, ctx0, t0) && InsertInv(ctx0, t0) && start == t0.id
      modifies `cells, `root, `tree
      ensures Linked(cells, root, Top, tree) && RedBlack(tree)
      ensures SameContents(ctx0, t0, Top, tree) && SameData(old(cells), cells)
    {
      var z := start;
      ghost var ctx, t := ctx0, t0;
      while cells[cells[z].parent].color == Red
        invariant Linked(cells, root, ctx, t) && InsertInv(ctx, t) && z == t.id
        invariant SameContents(ctx0, t0, ctx, t) && SameData(old(cells), cells)
        decreases Depth(ctx)
      {
        z, ctx, t := InsertStep(z, ctx, t);
      }
      UpToRoot(cells, root, ctx, t);
      tree := Plug(ctx, t);
      PlugIds(ctx, t);
      if ctx.Frame? {
        PlugRedBlack(ctx, t);
      }
      PaintedKeeps(tree, Black);
      Paint(root, Black, Top, tree);
      tree := tree.Painted(Black);
    }

    // ------------------------------------------------------------ deletion

    /** Paints the parent of the hole. */
    method PaintParent(p: Id, c: Color, ghost ctx: Context, ghost t: Tree)
      requires Linked(cells, root, ctx, t) && ctx.Frame? && p == ctx.id
      modifies `cells
      ensures Linked(cells, root, ctx.(color := c), t)
      ensures SameContents(ctx, t, ctx.(color := c), t)
      ensures SameData(old(cells), cells) && cells[0].parent == old(cells[0].parent)
    {
      ghost var pt := Fill(ctx, t);
      Up(cells, root, ctx, t);
      Paint(p, c, ctx.up, pt);
      Down(cells, root, ctx.up, pt.Painted(c), ctx.side);
      PaintedKeeps(pt, c);
      ReplaceKeeps(ctx.up, pt, pt.Painted(c));
    }

    /** Paints the sibling of the hole. */
    method PaintSibling(w: Id, c: Color, ghost ctx: Context, ghost t: Tree)
      requires Linked(cells, root, ctx, t) && ctx.Frame? && ctx.sibling.Node? && w == ctx.sibling.id
      modifies `cells
      ensures Linked(cells, root, ctx.(sibling := ctx.sibling.Painted(c)), t)
      ensures SameContents(ctx, t, ctx.(sibling := ctx.sibling.Painted(c)), t)
      ensures SameData(old(cells), cells) && cells[0].parent == old(cells[0].parent)
    {
      AcrossLinked(cells, root, ctx, t);
      Paint(w, c, Across(ctx, t), ctx.sibling);
      AcrossLinked(cells, root, Across(ctx, t), ctx.sibling.Painted(c));
      PaintedKeeps(ctx.sibling, c);
      SiblingKeeps(ctx, t, ctx.sibling.Painted(c));
    }

    /** Paints a child of the sibling. */
    method PaintNephew(n: Id, side: Side, c: Color, ghost ctx: Context, ghost t: Tree) returns (ghost w: Tree)
      requires Linked(cells, root, ctx, t) && ctx.Frame? && ctx.sibling.Node?
      requires ctx.sibling.Child(side).Node? && n == ctx.sibling.Child(side).id
      modifies `cells
      ensures w == Make(side, ctx.sibling.id, ctx.sibling.color, ctx.sibling.key, ctx.sibling.value,
                        ctx.sibling.Child(side).Painted(c), ctx.sibling.Child(side.Other()))
      ensures Linked(cells, root, ctx.(sibling := w), t)
      ensures SameContents(ctx, t, ctx.(sibling := w), t)
      ensures SameData(old(cells), cells) && cells[0].parent == old(cells[0].parent)
    {
      ghost var s := ctx.sibling;
      ghost var at, nt := Across(ctx, t), s.Child(side);
      AcrossLinked(cells, root, ctx, t);
      Down(cells, root, at, s, side);
      Paint(n, c, Enter(at, s, side), nt);
      Up(cells, root, Enter(at, s, side), nt.Painted(c));
      w := Fill(Enter(at, s, side), nt.Painted(c));
      AcrossLinked(cells, root, at, w);
      PaintedKeeps(nt, c);
      ghost var far := s.Child(side.Other());
      MakeKeeps(side, s.id, s.color, s.color, s.key, s.value, nt, nt.Painted(c), far, far);
      SiblingKeeps(ctx, t, w);
    }

    /** Rotates the sibling. */
    method RotateSibling(side: Side, w: Id, ghost ctx: Context, ghost t: Tree)
      requires Linked(cells, root, ctx, t) && ctx.Frame? && ctx.sibling.Node? && w == ctx.sibling.id
      requires ctx.sibling.Child(side.Other()).Node?
      modifies `cells, `root
      ensures Linked(cells, root, ctx.(sibling := Rotated(side, ctx.sibling)), t)
      ensures SameContents(ctx, t, ctx.(sibling := Rotated(side, ctx.sibling)), t)
      ensures SameData(old(cells), cells) && cells[0].parent == old(cells[0].parent)
    {
      AcrossLinked(cells, root, ctx, t);
      RotateAt(side, w, Across(ctx, t), ctx.sibling);
      AcrossLinked(cells, root, Across(ctx, t), Rotated(side, ctx.sibling));
      RotatedKeeps(side, ctx.sibling);
      SiblingKeeps(ctx, t, Rotated(side, ctx.sibling));
    }

    /** A red sibling: recolour it and the parent, rotate the parent, and look at the new sibling. */
    method DeleteLiftSibling(x: Id, side: Side, ghost ctx: Context, ghost t: Tree) returns (ghost ctx': Context)
      requires Linked(cells, root, ctx, t) && DeleteInv(ctx, t) && Root(t) == x && ColorOf(t) == Black
      requires ctx.Frame? && ctx.side == side && cells[x].parent == ctx.id && ColorOf(ctx.sibling) == Red
      modifies `cells, `root
      ensures Linked(cells, root, ctx', t) && DeleteInv(ctx', t) && cells[x].parent == ctx.id
      ensures ctx'.Frame? && ctx'.id == ctx.id && ctx'.side == side
      ensures ctx'.color == Red && ctx'.sibling.Node? && ctx'.sibling.color == Black
      ensures SameContents(ctx, t, ctx', t)
      ensures SameData(old(cells), cells) && cells[0].parent == old(cells[0].parent)
    {
      DeleteRedSibling(ctx, t);
      var p := cells[x].parent;
      var w := cells[p].Child(side.Other());
      PaintSibling(w, Black, ctx, t);
      ghost var c1 := ctx.(sibling := ctx.sibling.Painted(Black));
      PaintParent(p, Red, c1, t);
      ctx' := RotateAbove(side, p, c1.(color := Red), t);
      ShortSubtreeHasSibling(ctx', t);
    }

    /** Rotates the parent of the hole towards it; the hole sinks one level. */
    method RotateAbove(side: Side, p: Id, ghost ctx: Context, ghost t: Tree) returns (ghost ctx': Context)
      requires Linked(cells, root, ctx, t) && ctx.Frame? && ctx.side == side && p == ctx.id && ctx.sibling.Node?
      modifies `cells, `root
      ensures var wt := Rotated(side, Fill(ctx, t));
              ctx' == Enter(Enter(ctx.up, wt, side), wt.Child(side), side)
      ensures Linked(cells, root, ctx', t) && SameContents(ctx, t, ctx', t)
      ensures SameData(old(cells), cells) && cells[0].parent == old(cells[0].parent)
    {
      ghost var pt := Fill(ctx, t);
      Up(cells, root, ctx, t);
      RotateAt(side, p, ctx.up, pt);
      ghost var wt := Rotated(side, pt);
      RotatedKeeps(side, pt);
      ReplaceKeeps(ctx.up, pt, wt);
      Down(cells, root, ctx.up, wt, side);
      Down(cells, root, Enter(ctx.up, wt, side), wt.Child(side), side);
      ctx' := Enter(Enter(ctx.up, wt, side), wt.Child(side), side);
    }

    /** Two black nephews: the sibling turns red and the shortage moves to the parent. */
    method DeletePushUp(x: Id, w: Id, ghost ctx: Context, ghost t: Tree) returns (x': Id, ghost t': Tree)
      requires Linked(cells, root, ctx, t) && DeleteInv(ctx, t) && Root(t) == x && ColorOf(t) == Black
      requires ctx.Frame? && cells[x].parent == ctx.id
      requires ctx.sibling.Node? && ctx.sibling.color == Black && w == ctx.sibling.id
      requires ColorOf(ctx.sibling.left) == Black && ColorOf(ctx.sibling.right) == Black
      modifies `cells
      ensures Linked(cells, root, ctx.up, t') && DeleteInv(ctx.up, t') && t'.Node? && x' == t'.id
      ensures t'.color == ctx.color
      ensures SameContents(ctx, t, ctx.up, t') && SameData(old(cells), cells)
    {
      DeleteBlackNephews(ctx, t);
      PaintSibling(w, Red, ctx, t);
      ghost var c1 := ctx.(sibling := ctx.sibling.Painted(Red));
      x' := cells[x].parent;
      Up(cells, root, c1, t);
      t' := Fill(c1, t);
    }

    /** Only the inner nephew is red: rotate the sibling so that the outer one is. */
    method DeleteTurnNephew(x: Id, w: Id, side: Side, ghost ctx: Context, ghost t: Tree) returns (ghost ctx': Context)
      requires Linked(cells, root, ctx, t) && DeleteInv(ctx, t) && Root(t) == x
      requires ctx.Frame? && ctx.side == side && cells[x].parent == ctx.id
      requires ctx.sibling.Node? && ctx.sibling.color == Black && w == ctx.sibling.id
      requires ColorOf(ctx.sibling.Child(side.Other())) == Black && ColorOf(ctx.sibling.Child(side)) == Red
      modifies `cells, `root
      ensures Linked(cells, root, ctx', t) && DeleteInv(ctx', t) && cells[x].parent == ctx.id
      ensures ctx'.Frame? && ctx' == ctx.(sibling := ctx'.sibling)
      ensures ctx'.sibling.Node? && ctx'.sibling.color == Black
      ensures ColorOf(ctx'.sibling.Child(side.Other())) == Red
      ensures SameContents(ctx, t, ctx', t)
      ensures SameData(old(cells), cells) && cells[0].parent == old(cells[0].parent)
    {
      DeleteInnerNephew(ctx, t);
      ghost var c2 := PaintInner(w, side, ctx, t);
      RotateSibling(side.Other(), w, c2, t);
      ctx' := c2.(sibling := Rotated(side.Other(), c2.sibling));
    }

    /** The inner nephew turns black and the sibling red. */
    method PaintInner(w: Id, side: Side, ghost ctx: Context, ghost t: Tree) returns (ghost ctx': Context)
      requires Linked(cells, root, ctx, t) && ctx.Frame? && ctx.sibling.Node? && w == ctx.sibling.id
      requires ctx.sibling.Child(side).Node?
      modifies `cells
      ensures var s := ctx.sibling;
        ctx' == ctx.(sibling := Make(side, s.id, Red, s.key, s.value, s.Child(side).Painted(Black),
                                     s.Child(side.Other())))
      ensures Linked(cells, root, ctx', t) && SameContents(ctx, t, ctx', t)
      ensures SameData(old(cells), cells) && cells[0].parent == old(cells[0].parent)
    {
      SiblingReads(cells, root, ctx, t);
      ghost var wt := PaintNephew(cells[w].Child(side), side, Black, ctx, t);
      PaintSibling(w, Red, ctx.(sibling := wt), t);
      ctx' := ctx.(sibling := wt.Painted(Red));
    }

    /** The outer nephew is red: the sibling takes the parent's colour, parent and nephew turn black. */
    method DeleteRepaint(x: Id, w: Id, side: Side, ghost ctx: Context, ghost t: Tree) returns (ghost ctx': Context)
      requires Linked(cells, root, ctx, t) && Root(t) == x
      requires ctx.Frame? && ctx.side == side && cells[x].parent == ctx.id
      requires ctx.sibling.Node? && w == ctx.sibling.id && ctx.sibling.Child(side.Other()).Node?
      modifies `cells
      ensures var s := ctx.sibling;
        ctx' == ctx.(color := Black, sibling := Make(side, s.id, ctx.color, s.key, s.value, s.Child(side),
                                                     s.Child(side.Other()).Painted(Black)))
      ensures Linked(cells, root, ctx', t) && SameContents(ctx, t, ctx', t)
      ensures SameData(old(cells), cells) && cells[0].parent == old(cells[0].parent)
    {
      SiblingReads(cells, root, ctx, t);
      var p := cells[x].parent;
      PaintSibling(w, cells[p].color, ctx, t);
      ghost var c1 := ctx.(sibling := ctx.sibling.Painted(ctx.color));
      PaintParent(p, Black, c1, t);
      ghost var c2 := c1.(color := Black);
      SiblingReads(cells, root, c2, t);
      ghost var wt := PaintNephew(cells[w].Child(side.Other()), side.Other(), Black, c2, t);
      ctx' := c2.(sibling := wt);
    }

    /** ... and after rotating the parent the tree is whole again. */
    method DeleteSettle(x: Id, w: Id, side: Side, ghost ctx: Context, ghost t: Tree) returns (ghost whole: Tree)
      requires Linked(cells, root, ctx, t) && DeleteInv(ctx, t) && Root(t) == x && ColorOf(t) == Black
      requires ctx.Frame? && ctx.side == side && cells[x].parent == ctx.id
      requires ctx.sibling.Node? && ctx.sibling.color == Black && w == ctx.sibling.id
      requires ColorOf(ctx.sibling.Child(side.Other())) == Red
      modifies `cells, `root
      ensures Linked(cells, root, Top, whole) && RedBlack(whole)
      ensures SameContents(ctx, t, Top, whole) && SameData(old(cells), cells)
    {
      DeleteOuterNephew(ctx, t);
      ghost var ctx' := DeleteRepaint(x, w, side, ctx, t);
      whole := RotateParent(side, cells[x].parent, ctx', t);
    }

    /** Rotates the parent of the hole; the result is seen from the root. */
    method RotateParent(side: Side, p: Id, ghost ctx: Context, ghost t: Tree) returns (ghost whole: Tree)
      requires Linked(cells, root, ctx, t) && ctx.Frame? && ctx.side == side && p == ctx.id && ctx.sibling.Node?
      modifies `cells, `root
      ensures whole == Plug(ctx.up, Rotated(side, Fill(ctx, t)))
      ensures Linked(cells, root, Top, whole)
      ensures SameContents(ctx, t, Top, whole) && SameData(old(cells), cells)
    {
      ghost var pt := Fill(ctx, t);
      Up(cells, root, ctx, t);
      RotateAt(side, p, ctx.up, pt);
      RotatedKeeps(side, pt);
      ReplaceKeeps(ctx.up, pt, Rotated(side, pt));
      UpToRoot(cells, root, ctx.up, Rotated(side, pt));
      whole := Plug(ctx.up, Rotated(side, pt));
    }

    /** One turn of the deletion loop. */
    method DeleteStep(x: Id, ghost ctx: Context, ghost t: Tree) returns (x': Id, ghost ctx': Context, ghost t': Tree)
      requires Linked(cells, root, ctx, t) && DeleteInv(ctx, t) && Root(t) == x && ColorOf(t) == Black
      requires ctx.Frame? && cells[x].parent == ctx.id
      modifies `cells, `root
      ensures Linked(cells, root, ctx', t') && DeleteInv(ctx', t') && t'.Node? && t'.id == x'
      ensures DeleteMeasure(ctx', t') < DeleteMeasure(ctx, t)
      ensures SameContents(ctx, t, ctx', t') && SameData(old(cells), cells)
    {
      ShortSubtreeHasSibling(ctx, t);
      SiblingReads(cells, root, ctx, t);
      var side := if x == cells[cells[x].parent].left then Left else Right;
      var w := cells[cells[x].parent].Child(side.Other());
      if cells[w].color == Red {
        ghost var lifted := DeleteLiftSibling(x, side, ctx, t);
        w := SiblingOf(x, side, lifted, t);
        x', ctx', t' := DeleteResolve(x, w, side, lifted, t);
      } else {
        x', ctx', t' := DeleteResolve(x, w, side, ctx, t);
      }
    }

    /** The reload of the sibling after a rotation. */
    method SiblingOf(x: Id, side: Side, ghost ctx: Context, ghost t: Tree) returns (w: Id)
      requires Linked(cells, root, ctx, t) && ctx.Frame? && ctx.side == side && ctx.sibling.Node?
      requires x < |cells| && cells[x].parent == ctx.id
      ensures w == ctx.sibling.id
    {
      SiblingReads(cells, root, ctx, t);
      w := cells[cells[x].parent].Child(side.Other());
    }

    /** The part of a deletion turn that starts from a black sibling. */
    method DeleteResolve(x: Id, sibling: Id, side: Side, ghost ctx: Context, ghost t: Tree)
      returns (x': Id, ghost ctx': Context, ghost t': Tree)
      requires Linked(cells, root, ctx, t) && DeleteInv(ctx, t) && Root(t) == x && ColorOf(t) == Black
      requires ctx.Frame? && ctx.side == side && cells[x].parent == ctx.id
      requires ctx.sibling.Node? && ctx.sibling.color == Black && sibling == ctx.sibling.id
      modifies `cells, `root
      ensures Linked(cells, root, ctx', t') && DeleteInv(ctx', t') && t'.Node? && t'.id == x'
      ensures ctx'.Top? || (ctx' == ctx.up && t'.color == ctx.color)
      ensures SameContents(ctx, t, ctx', t') && SameData(old(cells), cells)
    {
      var w := sibling;
      SiblingReads(cells, root, ctx, t);
      if cells[cells[w].left].color == Black && cells[cells[w].right].color == Black {
        x', t' := DeletePushUp(x, w, ctx, t);
        ctx' := ctx.up;
      } else {
        t' := DeleteEnds(x, w, side, ctx, t);
        x', ctx' := root, Top;
      }
    }

    /** The part of a deletion turn with a red nephew, after which the loop ends. */
    method DeleteEnds(x: Id, sibling: Id, side: Side, ghost ctx: Context, ghost t: Tree) returns (ghost whole: Tree)
      requires Linked(cells, root, ctx, t) && DeleteInv(ctx, t) && Root(t) == x && ColorOf(t) == Black
      requires ctx.Frame? && ctx.side == side && cells[x].parent == ctx.id
      requires ctx.sibling.Node? && ctx.sibling.color == Black && sibling == ctx.sibling.id
      requires ColorOf(ctx.sibling.left) == Red || ColorOf(ctx.sibling.right) == Red
      modifies `cells, `root
      ensures Linked(cells, root, Top, whole) && RedBlack(whole) && whole.Node?
      ensures SameContents(ctx, t, Top, whole) && SameData(old(cells), cells)
    {
      var w := sibling;
      ghost var c := ctx;
      SiblingReads(cells, root, ctx, t);
      if cells[cells[w].Child(side.Other())].color == Black {
        c := DeleteTurnNephew(x, w, side, ctx, t);
        w := SiblingOf(x, side, c, t);
      }
      whole := DeleteSettle(x, w, side, c, t);
      PlugNotLeaf(c, t);
    }

    method DeleteFixup(start: Id, ghost ctx0: Context, ghost t0: Tree)
      requires Linked(cells, root, ctx0, t0) && DeleteInv(ctx0, t0) && Root(t0) == start
      requires ctx0.Frame? ==> cells[start].parent == ctx0.id
      modifies `cells, `root, `tree
      ensures Linked(cells, root, Top, tree) && RedBlack(tree)
      ensures SameContents(ctx0, t0, Top, tree) && SameData(old(cells), cells)
    {
      var x := start;
      ghost var ctx, t := ctx0, t0;
      FocusNotRoot(cells, root, ctx, t);
      while x != root && cells[x].color == Black
        invariant Linked(cells, root, ctx, t) && DeleteInv(ctx, t) && Root(t) == x
        invariant ctx.Frame? ==> cells[x].parent == ctx.id
        invariant x == root <==> ctx.Top?
        invariant SameContents(ctx0, t0, ctx, t) && SameData(old(cells), cells)
        decreases DeleteMeasure(ctx, t)
      {
        x, ctx, t := DeleteStep(x, ctx, t);
        FocusNotRoot(cells, root, ctx, t);
      }
      DeleteFinishes(ctx, t);
      PaintedKeeps(t, Black);
      ReplaceKeeps(ctx, t, t.Painted(Black));
      Paint(x, Black, ctx, t);
      UpToRoot(cells, root, ctx, t.Painted(Black));
      tree := Plug(ctx, t.Painted(Black));
    }

    // ------------------------------------------------------------ search, insert, delete

    method Search(key: CString) returns (r: Id, ghost ctx: Context, ghost t: Tree, ghost steps: nat)
      requires Valid()
      ensures r == 0 <==> key !in Contents()
      ensures r != 0 ==> r < |cells| && cells[r].key == key && cells[r].value == Contents()[key]
      ensures Linked(cells, root, ctx, t) && Plug(ctx, t) == tree && Root(t) == r
      ensures steps <= Height(tree)
    {
      r, ctx, t, steps := root, Top, tree, 0;
      while r != 0
        invariant Linked(cells, root, ctx, t) && Plug(ctx, t) == tree && Root(t) == r
        invariant Brackets(ctx, key) && steps + Height(t) <= Height(tree)
        decreases t
      {
        Trichotomy(key, t.key);
        steps := steps + 1;
        if Strcmp(key, cells[r].key) < 0 {
          Narrows(ctx, t, key, Left);
          Down(cells, root, ctx, t, Left);
          r, ctx, t := cells[r].left, Enter(ctx, t, Left), t.left;
        } else if Strcmp(key, cells[r].key) > 0 {
          Narrows(ctx, t, key, Right);
          Down(cells, root, ctx, t, Right);
          r, ctx, t := cells[r].right, Enter(ctx, t, Right), t.right;
        } else {
          NodeFound(ctx, t);
          return;
        }
      }
      assert t == Leaf;
      LeafAbsent(ctx, key);
    }

    method Insert(z: Id)
      requires Valid() && 0 < z < |cells| && z !in Ids(tree)
      modifies `cells, `root, `tree
      ensures Valid() && SameData(old(cells), cells)
      ensures old(cells[z].key in Contents()) ==> cells == old(cells) && root == old(root) && tree == old(tree)
      ensures old(cells[z].key !in Contents()) ==>
        && Contents() == old(Contents()[cells[z].key := cells[z].value])
        && Ids(tree) == old(Ids(tree)) + {z}
    {
      var y, x := 0, root;
      var key := cells[z].key;
      ghost var ctx, t := Top, tree;
      while x != 0
        invariant Linked(cells, root, ctx, t) && Plug(ctx, t) == tree && Root(t) == x && y == Parent(ctx)
        invariant Valid() && cells == old(cells) && root == old(root) && tree == old(tree)
        invariant Brackets(ctx, key)
        decreases t
      {
        Trichotomy(key, t.key);
        y := x;
        if Strcmp(key, cells[x].key) < 0 {
          Narrows(ctx, t, key, Left);
          Down(cells, root, ctx, t, Left);
          x, ctx, t := cells[x].left, Enter(ctx, t, Left), t.left;
        } else if Strcmp(key, cells[x].key) > 0 {
          Narrows(ctx, t, key, Right);
          Down(cells, root, ctx, t, Right);
          x, ctx, t := cells[x].right, Enter(ctx, t, Right), t.right;
        } else {
          NodeFound(ctx, t);
          return;
        }
      }
      assert t == Leaf;
      LeafAbsent(ctx, key);
      PlugIds(ctx, t);
      Attach(z, y, ctx);
    }

    /** The second half of `rbtree_insert`: `z` becomes a red leaf below `y`, then the fix-up runs. */
    method Attach(z: Id, y: Id, ghost ctx: Context)
      requires Linked(cells, root, ctx, Leaf) && y == Parent(ctx)
      requires RedBlack(Plug(ctx, Leaf)) && Sorted(Entries(Plug(ctx, Leaf)))
      requires 0 < z < |cells| && z !in CtxIds(ctx) && Brackets(ctx, cells[z].key)
      modifies `cells, `root, `tree
      ensures Valid() && SameData(old(cells), cells)
      ensures Contents() == ToMap(Entries(Plug(ctx, Leaf)))[old(cells[z].key) := old(cells[z].value)]
      ensures Ids(tree) == Ids(Plug(ctx, Leaf)) + {z}
    {
      ghost var n := Node(z, Red, Leaf, cells[z].key, cells[z].value, Leaf);
      Hang(z, y, ctx);
      AttachEntries(ctx, n);
      InsertFixup(z, ctx, n);
    }

    /** The writes of `rbtree_insert` after its descent. */
    method Hang(z: Id, y: Id, ghost ctx: Context)
      requires Linked(cells, root, ctx, Leaf) && y == Parent(ctx)
      requires 0 < z < |cells| && z !in CtxIds(ctx) && Brackets(ctx, cells[z].key)
      modifies `cells, `root
      ensures Linked(cells, root, ctx, Node(z, Red, Leaf, old(cells[z].key), old(cells[z].value), Leaf))
      ensures SameData(old(cells), cells)
    {
      CtxIdsPositive(cells, ctx, 0);
      assert ctx.Frame? ==> ctx.id in CtxIds(ctx);
      cells := cells[z := cells[z].(parent := y)];
      if y == 0 {
        root := z;
      } else {
        BracketSide(ctx, cells[z].key);
        if Strcmp(cells[z].key, cells[y].key) < 0 {
          cells := cells[y := cells[y].(left := z)];
        } else {
          cells := cells[y := cells[y].(right := z)];
        }
      }
      cells := cells[z := cells[z].(left := 0)];
      cells := cells[z := cells[z].(right := 0)];
      cells := cells[z := cells[z].(color := Red)];
      AttachLinked(old(cells), cells, old(root), ctx,
                   Node(z, Red, Leaf, old(cells[z].key), old(cells[z].value), Leaf));
    }

    method Mini(x: Id, ghost ctx: Context, ghost t: Tree) returns (m: Id, ghost cm: Context, ghost tm: Tree)
      requires Linked(cells, root, ctx, t) && t.Node? && t.id == x
      ensures Linked(cells, root, cm, tm) && tm.Node? && tm.id == m && tm.left.Leaf?
      ensures 0 < m < |cells| && cells[m].left == 0
      ensures LeftSpine(cm, ctx) && Plug(cm, tm) == Plug(ctx, t) && Before(cm) == Before(ctx)
    {
      m, cm, tm := x, ctx, t;
      while cells[m].left != 0
        invariant Linked(cells, root, cm, tm) && tm.Node? && tm.id == m
        invariant LeftSpine(cm, ctx) && Plug(cm, tm) == Plug(ctx, t) && Before(cm) == Before(ctx)
        decreases tm
      {
        Down(cells, root, cm, tm, Left);
        m, cm, tm := cells[m].left, Enter(cm, tm, Left), tm.left;
      }
      assert Holds(cells, tm.left, m);
    }

    /** The loop of `rbtree_successor`: up while the node is a right child. */
    method Climb(z: Id, ghost ctx: Context, ghost t: Tree) returns (y: Id, ghost cy: Context, ghost ty: Tree)
      requires Linked(cells, root, ctx, t) && t.Node? && t.id == z
      ensures Linked(cells, root, cy, ty) && ty.Node? && y == Parent(cy) && (cy.Frame? ==> cy.side == Left)
      ensures Before(cy) + Entries(ty) == Before(ctx) + Entries(t) && Plug(cy, ty) == Plug(ctx, t)
      ensures y != 0 ==> y < |cells| && y in Ids(Plug(ctx, t))
    {
      var x := z;
      y := cells[z].parent;
      cy, ty := ctx, t;
      while y != 0 && x == cells[y].right
        invariant Linked(cells, root, cy, ty) && ty.Node? && ty.id == x && y == Parent(cy)
        invariant Before(cy) + Entries(ty) == Before(ctx) + Entries(t) && Plug(cy, ty) == Plug(ctx, t)
        decreases cy
      {
        HoleSide(cells, root, cy, ty, Right);
        Up(cells, root, cy, ty);
        ClimbRight(cy, ty);
        x, cy, ty := y, cy.up, Fill(cy, ty);
        y := cells[y].parent;
      }
      if cy.Frame? {
        HoleSide(cells, root, cy, ty, Right);
        PlugIds(cy, ty);
      }
    }

    /** The node with the next larger key, or nil when there is none. */
    method Successor(z: Id, ghost ctx: Context, ghost t: Tree) returns (y: Id, ghost cy: Context, ghost ty: Tree)
      requires Linked(cells, root, ctx, t) && t.Node? && t.id == z && Sorted(Entries(Plug(ctx, t)))
      ensures y == 0 ==> forall e | e in Entries(Plug(ctx, t)) :: !Less(cells[z].key, e.0)
      ensures y != 0 ==>
        && y < |cells| && y in Ids(Plug(ctx, t)) && Less(cells[z].key, cells[y].key)
        && forall e | e in Entries(Plug(ctx, t)) :: !(Less(cells[z].key, e.0) && Less(e.0, cells[y].key))
      ensures cells[z].right != 0 ==>
        && Linked(cells, root, cy, ty) && ty.Node? && ty.id == y && ty.left.Leaf?
        && LeftSpine(cy, Enter(ctx, t, Right)) && Plug(cy, ty) == Plug(ctx, t)
    {
      if cells[z].right != 0 {
        Down(cells, root, ctx, t, Right);
        y, cy, ty := Mini(cells[z].right, Enter(ctx, t, Right), t.right);
        PlugAround(ctx, t);
        NextBySpine(ctx, t, cy, ty);
        PlugIds(cy, ty);
      } else {
        assert Holds(cells, t.right, z);
        y, cy, ty := Climb(z, ctx, t);
        NextByClimb(ctx, t, cy, ty);
        PlugIds(cy, ty);
      }
    }

    /** Unlinks the node `y` that holds the pair of `z` at the end, and returns it. */
    method Delete(z: Id) returns (y: Id)
      requires Valid() && z in Ids(tree) && z < |cells|
      modifies `cells, `root, `tree
      ensures Valid() && |cells| == |old(cells)|
      ensures old(cells[z].key in Contents() && Contents()[cells[z].key] == cells[z].value)
      ensures Contents() == old(Contents() - {cells[z].key})
      ensures y < |cells| && cells[y].key == old(cells[z].key) && cells[y].value == old(cells[z].value)
      ensures y in old(Ids(tree)) && Ids(tree) == old(Ids(tree)) - {y}
    {
      LocateLinked(cells, root, Top, tree, z);
      ghost var (cz, tz) := Locate(Top, tree, z);
      NodeFound(cz, tz);
      if cells[z].left == 0 || cells[z].right == 0 {
        y := z;
        assert Holds(cells, tz.left, z) && Holds(cells, tz.right, z);
        RemovesSelf(cz, tz);
        Unlink(y, z, cz, tz);
      } else {
        ghost var cy, ty;
        y, cy, ty := Successor(z, cz, tz);
        RemovesSuccessor(cz, tz, cy, ty);
        Unlink(y, z, cy, ty);
      }
    }

    /** The writes of `rbtree_delete` once the node `y` to unlink is chosen. */
    method Unlink(y: Id, z: Id, ghost cy: Context, ghost ty: Tree)
      requires Linked(cells, root, cy, ty) && RedBlack(Plug(cy, ty)) && ty.Node? && ty.id == y
      requires ty.left.Leaf? || ty.right.Leaf?
      requires z == y || (OnPath(cy, z) && z < |cells|)
      requires Sorted(EntriesWithout(cy, ty, z))
      modifies `cells, `root, `tree
      ensures Valid() && |cells| == |old(cells)|
      ensures Entries(tree) == EntriesWithout(cy, ty, z)
      ensures y in Ids(Plug(cy, ty)) && Ids(tree) == Ids(Plug(cy, ty)) - {y}
      ensures y < |cells| && cells[y].key == old(cells[z].key) && cells[y].value == old(cells[z].value)
    {
      var x := Detach(y, z, cy, ty);
      DetachedInv(cy, ty, z);
      Rebalance(x, y, Rekey(cy, z, ty.key, ty.value), OnlyChild(ty));
    }

    /** Bypasses `y` and gives its pair to `z`, all but the fix-up. */
    method Detach(y: Id, z: Id, ghost cy: Context, ghost ty: Tree) returns (x: Id)
      requires Linked(cells, root, cy, ty) && ty.Node? && ty.id == y && (ty.left.Leaf? || ty.right.Leaf?)
      requires z == y || (OnPath(cy, z) && z < |cells|)
      modifies `cells, `root
      ensures Linked(cells, root, Rekey(cy, z, ty.key, ty.value), OnlyChild(ty)) && |cells| == |old(cells)|
      ensures x == Root(OnlyChild(ty)) && cells[x].parent == Parent(cy)
      ensures y in Ids(Plug(cy, ty))
      ensures Ids(Plug(Rekey(cy, z, ty.key, ty.value), OnlyChild(ty))) == Ids(Plug(cy, ty)) - {y}
      ensures y < |cells| && cells[y].color == ty.color
      ensures cells[y].key == old(cells[z].key) && cells[y].value == old(cells[z].value)
    {
      x := SpliceOut(y, cy, ty);
      UnlinkIds(cy, ty, z);
      if y != z {
        SwapPairs(y, z, cy, ty);
      } else {
        RekeyOffPath(cy, z, ty.key, ty.value);
      }
    }

    /** The fix-up runs exactly when a black node was unlinked. */
    method Rebalance(x: Id, y: Id, ghost ctx: Context, ghost t: Tree)
      requires Linked(cells, root, ctx, t) && x == Root(t) && cells[x].parent == Parent(ctx) && y < |cells|
      requires Balanced(t) && RedOk(t) && RedOk(t.Painted(Black)) && CtxRedOk(ctx)
      requires CtxBalanced(ctx, BlackHeight(t) + Weight(cells[y].color))
      requires cells[y].color == Red ==> ColorOf(t) == Black
      modifies `cells, `root, `tree
      ensures Linked(cells, root, Top, tree) && RedBlack(tree)
      ensures SameContents(ctx, t, Top, tree) && SameData(old(cells), cells)
    {
      if cells[y].color == Black {
        DeleteFixup(x, ctx, t);
      } else {
        UpToRoot(cells, root, ctx, t);
        PlugRedBlack(ctx, t);
        tree := Plug(ctx, t);
      }
    }

    /** The only child of `y`, or nil, takes its place; nil's parent link is written too. */
    method SpliceOut(y: Id, ghost cy: Context, ghost ty: Tree) returns (x: Id)
      requires Linked(cells, root, cy, ty) && ty.Node? && ty.id == y && (ty.left.Leaf? || ty.right.Leaf?)
      modifies `cells, `root
      ensures Linked(cells, root, cy, OnlyChild(ty)) && x == Root(OnlyChild(ty)) && cells[x].parent == Parent(cy)
      ensures SameData(old(cells), cells) && cells[y] == old(cells[y])
      ensures y !in Ids(OnlyChild(ty)) && y !in CtxIds(cy) && Ids(ty) == Ids(OnlyChild(ty)) + {y}
    {
      CtxIdsPositive(cells, cy, y);
      IdsPositive(cells, ty, Parent(cy));
      assert Holds(cells, ty.left, y) && Holds(cells, ty.right, y);
      x := 0;
      if cells[y].left != 0 {
        x := cells[y].left;
      } else if cells[y].right != 0 {
        x := cells[y].right;
      }
      if cy.Frame? {
        HoleSide(cells, root, cy, ty, Left);
        assert cy.id in CtxIds(cy);
      }
      assert OnlyChild(ty).Node? ==> x in Ids(OnlyChild(ty)) && x in Ids(ty);
      Transplant(Left, y, x);
      SpliceLinked(old(cells), cells, old(root), cy, ty);
    }

    /** The unlinked node `y` and `z` exchange their pairs. */
    method SwapPairs(y: Id, z: Id, ghost cy: Context, ghost ty: Tree)
      requires ty.Node? && Linked(cells, root, cy, OnlyChild(ty)) && OnPath(cy, z) && z < |cells|
      requires 0 < y < |cells| && y !in Ids(OnlyChild(ty)) && y !in CtxIds(cy)
      requires cells[y].key == ty.key && cells[y].value == ty.value
      modifies `cells
      ensures Linked(cells, root, Rekey(cy, z, ty.key, ty.value), OnlyChild(ty)) && |cells| == |old(cells)|
      ensures cells[y] == old(cells[y]).(key := old(cells[z].key), value := old(cells[z].value))
      ensures forall i | 0 <= i < |cells| :: cells[i].parent == old(cells[i].parent)
    {
      OnPathInCtx(cy, z);
      CtxIdsPositive(cells, cy, Root(OnlyChild(ty)));
      var tmp := cells[z].key;
      cells := cells[z := cells[z].(key := cells[y].key)];
      cells := cells[y := cells[y].(key := tmp)];
      tmp := cells[z].value;
      cells := cells[z := cells[z].(value := cells[y].value)];
      cells := cells[y := cells[y].(value := tmp)];
      RekeyLinked(old(cells), cells, root, cy, OnlyChild(ty), z, ty.key, ty.value);
    }

    // ------------------------------------------------------------ commands

    method Set(key: CString, value: CString, junk: Cell) returns (code: int)
      requires Valid()
      modifies this
      ensures Valid() && code == 0 && count == old(count) + 1
      ensures Contents() == if key in old(Contents()) then old(Contents()) else old(Contents())[key := value]
    {
      IdsPositive(cells, tree, 0);
      var node := |cells|;
      cells := cells + [junk.(key := key, value := value)];
      FrameTree(old(cells), cells, tree, 0);
      Insert(node);
      count := count + 1;
      code := 0;
    }

    method Get(key: CString) returns (found: bool, value: CString)
      requires Valid()
      ensures found <==> key in Contents()
      ensures found ==> value == Contents()[key]
    {
      ghost var ctx, t, steps;
      var node;
      node, ctx, t, steps := Search(key);
      if node == 0 {
        return false, [];
      }
      return true, cells[node].value;
    }

    method Del(key: CString) returns (code: int)
      requires Valid()
      modifies this
      ensures Valid()
      ensures key in old(Contents()) ==> code == 0 && Contents() == old(Contents()) - {key} && count == old(count) - 1
      ensures key !in old(Contents()) ==> code == -1 && Contents() == old(Contents()) && count == old(count)
    {
      ghost var ctx, t, steps;
      var node;
      node, ctx, t, steps := Search(key);
      if node == 0 {
        return -1;
      }
      PlugIds(ctx, t);
      var cur := Delete(node);
      count := count - 1;
      code := 0;
    }

    method Modify(key: CString, value: CString) returns (code: int)
      requires Valid()
      modifies this
      ensures Valid() && count == old(count)
      ensures key in old(Contents()) ==> code == 0 && Contents() == old(Contents())[key := value]
      ensures key !in old(Contents()) ==> code == -1 && Contents() == old(Contents())
    {
      ghost var ctx, t, steps;
      var node;
      node, ctx, t, steps := Search(key);
      if node == 0 {
        return -1;
      }
      cells := cells[node := cells[node].(value := value)];
      Revalue(old(cells), cells, root, ctx, t, value);
      tree := Plug(ctx, t.(value := value));
      code := 0;
    }
  }

  /** Climbing from a right child keeps the list of entries up to and including the subtree. */
  lemma ClimbRight(c: Context, t: Tree)
    requires c.Frame? && c.side == Right
    ensures Before(c.up) + Entries(Fill(c, t)) == Before(c) + Entries(t)
  {
    var mid := [(c.key, c.value)];
    assert Before(c.up) + (Entries(c.sibling) + mid + Entries(t))
        == (Before(c.up) + Entries(c.sibling) + mid) + Entries(t);
  }

  lemma LastEntry(b: seq<Entry>, e: Entry)
    requires Sorted(b + [e])
    ensures forall f | f in b + [e] :: !Less(e.0, f.0)
  {
    assert b + [e] + [] == b + [e];
    SortedRemove(b, e, []);
    forall f | f in b + [e]
      ensures !Less(e.0, f.0)
    {
      Trichotomy(e.0, f.0);
    }
  }

  /** The leftmost node of the right subtree holds the next entry. */
  lemma NextBySpine(ctx: Context, t: Tree, cy: Context, ty: Tree)
    requires t.Node? && ty.Node? && ty.left.Leaf? && Plug(cy, ty) == Plug(ctx, t)
    requires Before(cy) == Before(Enter(ctx, t, Right)) && Sorted(Entries(Plug(ctx, t)))
    ensures Less(t.key, ty.key)
    ensures forall e | e in Entries(Plug(ctx, t)) :: !(Less(t.key, e.0) && Less(e.0, ty.key))
  {
    var b, e, y := Before(ctx) + Entries(t.left), (t.key, t.value), (ty.key, ty.value);
    PlugAround(cy, ty);
    ShiftNext(b, e, y, Entries(ty.right) + After(cy));
    Neighbours(b, e, y, Entries(ty.right) + After(cy));
  }

  /** The entries after `z`'s pair is dropped: `y` is unlinked and its pair moves into `z`. */
  ghost function EntriesWithout(cy: Context, ty: Tree, z: Id): seq<Entry>
    requires ty.Node?
  {
    var c := Rekey(cy, z, ty.key, ty.value);
    Before(c) + Entries(OnlyChild(ty)) + After(c)
  }

  /** Without a right subtree the next key is that of the first ancestor reached from its left. */
  lemma NextByClimb(ctx: Context, t: Tree, cy: Context, ty: Tree)
    requires t.Node? && t.right.Leaf? && Sorted(Entries(Plug(ctx, t))) && (cy.Frame? ==> cy.side == Left)
    requires Before(cy) + Entries(ty) == Before(ctx) + Entries(t) && Plug(cy, ty) == Plug(ctx, t)
    ensures cy.Top? ==> forall x | x in Entries(Plug(ctx, t)) :: !Less(t.key, x.0)
    ensures cy.Frame? ==>
      && Less(t.key, cy.key)
      && forall x | x in Entries(Plug(ctx, t)) :: !(Less(t.key, x.0) && Less(x.0, cy.key))
  {
    var b, e := Before(ctx) + Entries(t.left), (t.key, t.value);
    UpToSelf(ctx, t);
    PlugEntries(cy, ty);
    assert Entries(Plug(ctx, t)) == b + [e] + After(cy);
    NextInOrder(b, e, After(cy));
  }

  /** In sorted pairs the one after `e` has the next key, and without one `e` has the last. */
  lemma NextInOrder(b: seq<Entry>, e: Entry, rest: seq<Entry>)
    requires Sorted(b + [e] + rest)
    ensures rest == [] ==> forall x | x in b + [e] + rest :: !Less(e.0, x.0)
    ensures rest != [] ==>
      Less(e.0, rest[0].0) && forall x | x in b + [e] + rest :: !(Less(e.0, x.0) && Less(x.0, rest[0].0))
  {
    if rest == [] {
      assert b + [e] + rest == b + [e];
      LastEntry(b, e);
    } else {
      assert rest == [rest[0]] + rest[1..];
      Neighbours(b, e, rest[0], rest[1..]);
    }
  }

  lemma UpToSelf(ctx: Context, t: Tree)
    requires t.Node? && t.right.Leaf?
    ensures Before(ctx) + Entries(t) == Before(ctx) + Entries(t.left) + [(t.key, t.value)]
  {
    var e := (t.key, t.value);
    assert Entries(t) == Entries(t.left) + [e] + [];
    AppendLast(Before(ctx), Entries(t.left), e);
  }

  lemma AppendLast(a: seq<Entry>, b: seq<Entry>, e: Entry)
    ensures a + (b + [e] + []) == a + b + [e]
  {
  }

  lemma {:induction false} RekeyOffPath(ctx: Context, z: Id, k: CString, v: CString)
    requires z !in CtxIds(ctx)
    ensures Rekey(ctx, z, k, v) == ctx
  {
    if ctx.Frame? {
      RekeyOffPath(ctx.up, z, k, v);
    }
  }

  lemma {:induction false} OnPathInCtx(ctx: Context, z: Id)
    requires OnPath(ctx, z)
    ensures z in CtxIds(ctx)
  {
    if ctx.id != z {
      OnPathInCtx(ctx.up, z);
    }
  }

  /** Unlinking `z` itself drops exactly its pair ... */
  lemma RemovesSelf(ctx: Context, t: Tree)
    requires t.Node? && (t.left.Leaf? || t.right.Leaf?) && Sorted(Entries(Plug(ctx, t)))
    requires t.id !in CtxIds(ctx)
    ensures Sorted(EntriesWithout(ctx, t, t.id))
    ensures ToMap(EntriesWithout(ctx, t, t.id)) == ToMap(Entries(Plug(ctx, t))) - {t.key}
  {
    var b, a := Before(ctx) + Entries(t.left), Entries(t.right) + After(ctx);
    RekeyOffPath(ctx, t.id, t.key, t.value);
    PlugAround(ctx, t);
    RemoveEntry(b, (t.key, t.value), a);
    assert Entries(OnlyChild(t)) == Entries(t.left) + Entries(t.right);
    JoinAround(Before(ctx), Entries(t.left), Entries(t.right), After(ctx));
  }

  /** ... and so does unlinking its successor and moving the successor's pair into `z`. */
  lemma RemovesSuccessor(cz: Context, tz: Tree, cy: Context, ty: Tree)
    requires tz.Node? && ty.Node? && ty.left.Leaf? && Plug(cy, ty) == Plug(cz, tz)
    requires LeftSpine(cy, Enter(cz, tz, Right)) && CtxDistinct(cy) && Sorted(Entries(Plug(cz, tz)))
    ensures OnPath(cy, tz.id)
    ensures Sorted(EntriesWithout(cy, ty, tz.id))
    ensures ToMap(EntriesWithout(cy, ty, tz.id)) == ToMap(Entries(Plug(cz, tz))) - {tz.key}
  {
    var base := Enter(cz, tz, Right);
    SpineRekey(cy, base, ty.key, ty.value);
    var b, e, y := Before(cz) + Entries(tz.left), (tz.key, tz.value), (ty.key, ty.value);
    var r := Entries(ty.right) + After(cy);
    PlugAround(cy, ty);
    ShiftNext(b, e, y, r);
    RemoveEntry(b, e, [y] + r);
    MoveNext(b, y, Entries(ty.right), After(cy));
  }

  /** Writing a new value into a node changes that pair and nothing else. */
  lemma Revalue(a: Arena, b: Arena, root: Id, ctx: Context, t: Tree, v: CString)
    requires Linked(a, root, ctx, t) && t.Node? && t.id < |a| && b == a[t.id := a[t.id].(value := v)]
    requires RedBlack(Plug(ctx, t)) && Sorted(Entries(Plug(ctx, t)))
    ensures var whole := Plug(ctx, t.(value := v));
      && Linked(b, root, Top, whole) && RedBlack(whole) && Sorted(Entries(whole))
      && ToMap(Entries(whole)) == ToMap(Entries(Plug(ctx, t)))[t.key := v]
  {
    var t' := t.(value := v);
    CtxIdsPositive(a, ctx, t.id);
    FrameTree(a, b, t.left, t.id);
    FrameTree(a, b, t.right, t.id);
    FrameCtx(a, b, ctx, t.id);
    assert Ids(t') == Ids(t);
    UpToRoot(b, root, ctx, t');
    UnplugRedBlack(ctx, t);
    PlugRedBlack(ctx, t');
    PlugAround(ctx, t);
    PlugAround(ctx, t');
    UpdateEntry(Before(ctx) + Entries(t.left), (t.key, t.value), v, Entries(t.right) + After(ctx));
  }

  /** What the fix-up needs of the tree without `ty`. */
  lemma DetachedInv(cy: Context, ty: Tree, z: Id)
    requires RedBlack(Plug(cy, ty)) && ty.Node? && (ty.left.Leaf? || ty.right.Leaf?)
    ensures var c, x := Rekey(cy, z, ty.key, ty.value), OnlyChild(ty);
      && CtxRedOk(c) && Balanced(x) && RedOk(x) && RedOk(x.Painted(Black))
      && CtxBalanced(c, BlackHeight(x) + Weight(ty.color)) && (ty.color == Red ==> ColorOf(x) == Black)
      && Parent(c) == Parent(cy) && Entries(Plug(c, x)) == EntriesWithout(cy, ty, z)
  {
    SpliceInv(cy, ty);
    RekeyKeepsShape(cy, z, ty.key, ty.value, BlackHeight(OnlyChild(ty)) + Weight(ty.color), 0);
    PlugEntries(Rekey(cy, z, ty.key, ty.value), OnlyChild(ty));
  }

  lemma UnlinkIds(cy: Context, ty: Tree, z: Id)
    requires ty.Node? && Ids(ty) == Ids(OnlyChild(ty)) + {ty.id}
    requires ty.id !in Ids(OnlyChild(ty)) && ty.id !in CtxIds(cy)
    ensures ty.id in Ids(Plug(cy, ty))
    ensures Ids(Plug(Rekey(cy, z, ty.key, ty.value), OnlyChild(ty))) == Ids(Plug(cy, ty)) - {ty.id}
  {
    PlugIds(cy, ty);
    PlugIds(Rekey(cy, z, ty.key, ty.value), OnlyChild(ty));
    RekeyKeepsShape(cy, z, ty.key, ty.value, 0, 0);
  }

  /** A red leaf hung in a bracketed hole satisfies the loop invariant and adds one pair. */
  lemma AttachEntries(ctx: Context, n: Tree)
    requires n.Node? && n.color == Red && n.left.Leaf? && n.right.Leaf? && Brackets(ctx, n.key)
    requires RedBlack(Plug(ctx, Leaf)) && Sorted(Entries(Plug(ctx, Leaf)))
    ensures InsertInv(ctx, n) && Sorted(Entries(Plug(ctx, n)))
    ensures ToMap(Entries(Plug(ctx, n))) == ToMap(Entries(Plug(ctx, Leaf)))[n.key := n.value]
    ensures Ids(Plug(ctx, n)) == Ids(Plug(ctx, Leaf)) + {n.id}
  {
    var e := (n.key, n.value);
    UnplugRedBlack(ctx, Leaf);
    PlugEntries(ctx, Leaf);
    PlugEntries(ctx, n);
    assert Entries(n) == [e];
    assert Before(ctx) + [] + After(ctx) == Before(ctx) + After(ctx);
    InsertEntry(Before(ctx), e, After(ctx));
    PlugIds(ctx, n);
    PlugIds(ctx, Leaf);
  }

  lemma RotationData(a: Arena, b: Arena, side: Side, ctx: Context, t: Tree)
    requires t.Node? && t.Child(side.Other()).Node? && RotationApart(a, side, ctx, t)
    requires RotationWrites(a, b, side, ctx, t)
    ensures SameData(a, b)
  {
  }
}
