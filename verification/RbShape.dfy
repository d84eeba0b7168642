/**
 * Red-black trees as values: the trees the arena of `kvstore_rbtree.c` denotes, a position
 * inside such a tree (a context with a hole), and what the two fix-up loops keep true of
 * the colours while a violation moves towards the root.
 */
module RbShape {
  import opened CStrings
  import opened KeyOrder

  datatype Color = Red | Black

  datatype Side = Left | Right {
    function Other(): Side {
      if this == Left then Right else Left
    }
  }

  /** A node is named by its index in the arena; 0 is the shared nil node. */
  type Id = nat

  datatype Tree =
    | Leaf
    | Node(id: Id, color: Color, left: Tree, key: CString, value: CString, right: Tree)
  {
    function Child(side: Side): Tree
      requires Node?
    {
      if side == Left then left else right
    }

    function Painted(c: Color): Tree {
      if Leaf? then Leaf else this.(color := c)
    }
  }

  /** A tree with a hole. The innermost frame is the parent of the hole. */
  datatype Context =
    | Top
    | Frame(up: Context, side: Side, id: Id, color: Color, key: CString, value: CString, sibling: Tree)

  function Root(t: Tree): Id {
    if t.Leaf? then 0 else t.id
  }

  function ColorOf(t: Tree): Color {
    if t.Leaf? then Black else t.color
  }

  function Parent(ctx: Context): Id {
    if ctx.Top? then 0 else ctx.id
  }

  function ParentColor(ctx: Context): Color {
    if ctx.Top? then Black else ctx.color
  }

  /** A node with `inner` on the given side. */
  function Make(side: Side, id: Id, c: Color, k: CString, v: CString, inner: Tree, outer: Tree): Tree {
    if side == Left then Node(id, c, inner, k, v, outer) else Node(id, c, outer, k, v, inner)
  }

  function Fill(ctx: Context, t: Tree): Tree
    requires ctx.Frame?
  {
    Make(ctx.side, ctx.id, ctx.color, ctx.key, ctx.value, t, ctx.sibling)
  }

  function Plug(ctx: Context, t: Tree): Tree {
    if ctx.Top? then t else Plug(ctx.up, Fill(ctx, t))
  }

  function Enter(ctx: Context, t: Tree, side: Side): Context
    requires t.Node?
  {
    Frame(ctx, side, t.id, t.color, t.key, t.value, t.Child(side.Other()))
  }

  /** The same position seen from the sibling of the hole. */
  function Across(ctx: Context, t: Tree): Context
    requires ctx.Frame?
  {
    ctx.(side := ctx.side.Other(), sibling := t)
  }

  function Depth(ctx: Context): nat {
    if ctx.Top? then 0 else 1 + Depth(ctx.up)
  }

  /** The identity of the root once a tree rooted at `x` fills the hole. */
  function Apex(ctx: Context, x: Id): Id {
    if ctx.Top? then x else Apex(ctx.up, ctx.id)
  }

  function Ids(t: Tree): set<Id> {
    if t.Leaf? then {} else {t.id} + Ids(t.left) + Ids(t.right)
  }

  function CtxIds(ctx: Context): set<Id> {
    if ctx.Top? then {} else {ctx.id} + Ids(ctx.sibling) + CtxIds(ctx.up)
  }

  ghost predicate Distinct(t: Tree) {
    t.Node? ==>
      && t.id !in Ids(t.left) && t.id !in Ids(t.right)
      && Ids(t.left) !! Ids(t.right)
      && Distinct(t.left) && Distinct(t.right)
  }

  ghost predicate CtxDistinct(ctx: Context) {
    ctx.Frame? ==>
      && ctx.id !in Ids(ctx.sibling) && ctx.id !in CtxIds(ctx.up)
      && Ids(ctx.sibling) !! CtxIds(ctx.up)
      && Distinct(ctx.sibling) && CtxDistinct(ctx.up)
  }

  ghost predicate Apart(ctx: Context, t: Tree) {
    Distinct(t) && CtxDistinct(ctx) && Ids(t) !! CtxIds(ctx)
  }

  // ---------------------------------------------------------------- entries in key order

  function Entries(t: Tree): seq<Entry> {
    if t.Leaf? then [] else Entries(t.left) + [(t.key, t.value)] + Entries(t.right)
  }

  function Before(ctx: Context): seq<Entry> {
    if ctx.Top? then []
    else if ctx.side == Left then Before(ctx.up)
    else Before(ctx.up) + Entries(ctx.sibling) + [(ctx.key, ctx.value)]
  }

  function After(ctx: Context): seq<Entry> {
    if ctx.Top? then []
    else if ctx.side == Right then After(ctx.up)
    else [(ctx.key, ctx.value)] + Entries(ctx.sibling) + After(ctx.up)
  }

  lemma Regroup(a: seq<Entry>, b: seq<Entry>, c: seq<Entry>, d: seq<Entry>, e: seq<Entry>)
    ensures a + (b + c + d) + e == a + b + (c + d + e)
    ensures a + (b + c + d) + e == (a + b + c) + d + e
    ensures a + (b + c + d) + e == (a + b) + c + (d + e)
  {
  }

  lemma Rotate(a: seq<Entry>, b: seq<Entry>, c: seq<Entry>, d: seq<Entry>, e: seq<Entry>)
    ensures (a + b + c) + d + e == a + b + (c + d + e)
  {
  }

  lemma {:induction false} PlugEntries(ctx: Context, t: Tree)
    ensures Entries(Plug(ctx, t)) == Before(ctx) + Entries(t) + After(ctx)
    decreases ctx
  {
    if ctx.Frame? {
      PlugEntries(ctx.up, Fill(ctx, t));
      var mid := [(ctx.key, ctx.value)];
      if ctx.side == Left {
        Regroup(Before(ctx.up), Entries(t), mid, Entries(ctx.sibling), After(ctx.up));
      } else {
        Regroup(Before(ctx.up), Entries(ctx.sibling), mid, Entries(t), After(ctx.up));
      }
    }
  }

  /** Replacing a subtree by one with the same entries changes no entry of the whole. */
  lemma PlugSameEntries(ctx: Context, t: Tree, t': Tree)
    requires Entries(t) == Entries(t')
    ensures Entries(Plug(ctx, t)) == Entries(Plug(ctx, t'))
  {
    PlugEntries(ctx, t);
    PlugEntries(ctx, t');
  }

  lemma {:induction false} PlugIds(ctx: Context, t: Tree)
    ensures Ids(Plug(ctx, t)) == Ids(t) + CtxIds(ctx)
    ensures Apart(ctx, t) ==> Distinct(Plug(ctx, t))
    ensures Root(Plug(ctx, t)) == Apex(ctx, Root(t))
    decreases ctx
  {
    if ctx.Frame? {
      PlugIds(ctx.up, Fill(ctx, t));
    }
  }

  lemma MakeIds(side: Side, id: Id, c: Color, k: CString, v: CString, inner: Tree, outer: Tree)
    ensures Ids(Make(side, id, c, k, v, inner, outer)) == {id} + Ids(inner) + Ids(outer)
    ensures Distinct(Make(side, id, c, k, v, inner, outer)) <==>
      && id !in Ids(inner) && id !in Ids(outer) && Ids(inner) !! Ids(outer)
      && Distinct(inner) && Distinct(outer)
  {
    assert side == Left || side == Right;
  }

  /** Two positions denote trees with the same nodes and the same entries in the same order. */
  ghost predicate SameContents(ctx: Context, t: Tree, ctx': Context, t': Tree) {
    Entries(Plug(ctx, t)) == Entries(Plug(ctx', t')) && Ids(Plug(ctx, t)) == Ids(Plug(ctx', t'))
  }

  lemma ReplaceKeeps(ctx: Context, t: Tree, t': Tree)
    requires Entries(t) == Entries(t') && Ids(t) == Ids(t')
    ensures SameContents(ctx, t, ctx, t')
  {
    PlugSameEntries(ctx, t, t');
    PlugIds(ctx, t);
    PlugIds(ctx, t');
  }

  /** A node rebuilt from pieces with the same entries and identities, in any colour. */
  lemma MakeKeeps(side: Side, id: Id, c: Color, c': Color, k: CString, v: CString,
                  inner: Tree, inner': Tree, outer: Tree, outer': Tree)
    requires Entries(inner) == Entries(inner') && Entries(outer) == Entries(outer')
    requires Ids(inner) == Ids(inner') && Ids(outer) == Ids(outer')
    ensures var t, t' := Make(side, id, c, k, v, inner, outer), Make(side, id, c', k, v, inner', outer');
      Entries(t) == Entries(t') && Ids(t) == Ids(t')
  {
    assert side == Left || side == Right;
  }

  lemma SiblingKeeps(ctx: Context, t: Tree, w: Tree)
    requires ctx.Frame? && Entries(w) == Entries(ctx.sibling) && Ids(w) == Ids(ctx.sibling)
    ensures SameContents(ctx, t, ctx.(sibling := w), t)
  {
    MakeKeeps(ctx.side, ctx.id, ctx.color, ctx.color, ctx.key, ctx.value, t, t, ctx.sibling, w);
    ReplaceKeeps(ctx.up, Fill(ctx, t), Fill(ctx.(sibling := w), t));
  }

  lemma PaintedKeeps(t: Tree, c: Color)
    ensures Entries(t.Painted(c)) == Entries(t) && Ids(t.Painted(c)) == Ids(t)
  {
  }

  lemma {:induction false} PlugNotLeaf(ctx: Context, t: Tree)
    requires ctx.Frame?
    ensures Ids(Plug(ctx, t)) != {}
  {
    PlugIds(ctx, t);
    assert ctx.id in CtxIds(ctx);
  }

  // ---------------------------------------------------------------- searching

  /** Everything before the hole is below `k` and everything after it is above. */
  ghost predicate Brackets(ctx: Context, k: CString) {
    AllBelow(Before(ctx), k) && AllAbove(After(ctx), k)
  }

  lemma PlugAround(ctx: Context, t: Tree)
    requires t.Node?
    ensures Entries(Plug(ctx, t))
         == (Before(ctx) + Entries(t.left)) + [(t.key, t.value)] + (Entries(t.right) + After(ctx))
  {
    PlugEntries(ctx, t);
    Regroup(Before(ctx), Entries(t.left), [(t.key, t.value)], Entries(t.right), After(ctx));
  }

  /** Following the comparison keeps the searched key bracketed. */
  lemma Narrows(ctx: Context, t: Tree, k: CString, side: Side)
    requires t.Node? && Brackets(ctx, k) && Sorted(Entries(Plug(ctx, t)))
    requires if side == Left then Less(k, t.key) else Less(t.key, k)
    ensures Brackets(Enter(ctx, t, side), k)
  {
    var b, e, a := Before(ctx) + Entries(t.left), (t.key, t.value), Entries(t.right) + After(ctx);
    PlugAround(ctx, t);
    SortedRemove(b, e, a);
    if side == Left {
      forall i | 0 <= i < |a|
        ensures Less(k, a[i].0)
      {
        LessTransitive(k, t.key, a[i].0);
      }
      assert After(Enter(ctx, t, Left)) == [e] + a;
    } else {
      forall i | 0 <= i < |b|
        ensures Less(b[i].0, k)
      {
        LessTransitive(b[i].0, t.key, k);
      }
      assert Before(Enter(ctx, t, Right)) == b + [e];
    }
  }

  /** A bracketed hole at a leaf: the parent's key tells the side. */
  lemma BracketSide(ctx: Context, k: CString)
    requires ctx.Frame? && Brackets(ctx, k)
    ensures Less(k, ctx.key) <==> ctx.side == Left
  {
    Trichotomy(k, ctx.key);
    if ctx.side == Left {
      assert After(ctx)[0] == (ctx.key, ctx.value);
    } else {
      assert Before(ctx)[|Before(ctx)| - 1] == (ctx.key, ctx.value);
    }
  }

  /** Reaching a leaf proves the key absent ... */
  lemma LeafAbsent(ctx: Context, k: CString)
    requires Brackets(ctx, k) && Sorted(Entries(Plug(ctx, Leaf)))
    ensures k !in ToMap(Entries(Plug(ctx, Leaf)))
  {
    PlugEntries(ctx, Leaf);
    assert Before(ctx) + [] + After(ctx) == Before(ctx) + After(ctx);
    Absent(Before(ctx), After(ctx), k);
  }

  /** ... and a node's pair is in the map of the whole tree. */
  lemma NodeFound(ctx: Context, t: Tree)
    requires t.Node? && Sorted(Entries(Plug(ctx, t)))
    ensures t.key in ToMap(Entries(Plug(ctx, t)))
    ensures ToMap(Entries(Plug(ctx, t)))[t.key] == t.value
  {
    PlugAround(ctx, t);
    RemoveEntry(Before(ctx) + Entries(t.left), (t.key, t.value), Entries(t.right) + After(ctx));
  }

  // ---------------------------------------------------------------- successor and deletion

  /** `inner` is reached from `base` by going left only. */
  ghost predicate LeftSpine(inner: Context, base: Context) {
    inner == base || (inner.Frame? && inner.side == Left && LeftSpine(inner.up, base))
  }

  /** Nothing lies strictly between two neighbours of a sorted list. */
  lemma Neighbours(b: seq<Entry>, x: Entry, y: Entry, a: seq<Entry>)
    requires Sorted(b + [x] + ([y] + a))
    ensures Less(x.0, y.0)
    ensures forall e | e in b + [x] + ([y] + a) :: !(Less(x.0, e.0) && Less(e.0, y.0))
  {
    var s := b + [x] + ([y] + a);
    assert s == (b + [x]) + [y] + a;
    SortedRemove(b, x, [y] + a);
    SortedRemove(b + [x], y, a);
    assert ([y] + a)[0] == y;
    forall e | e in s
      ensures !(Less(x.0, e.0) && Less(e.0, y.0))
    {
      Trichotomy(x.0, e.0);
      Trichotomy(e.0, y.0);
      if e in b {
      } else if e in a {
      }
    }
  }

  /** Puts another pair into the frame named `z`. */
  function Rekey(ctx: Context, z: Id, k: CString, v: CString): Context {
    if ctx.Top? then Top
    else if ctx.id == z then ctx.(key := k, value := v)
    else ctx.(up := Rekey(ctx.up, z, k, v))
  }

  ghost predicate OnPath(ctx: Context, z: Id) {
    ctx.Frame? && (ctx.id == z || OnPath(ctx.up, z))
  }

  lemma {:induction false} RekeyKeepsShape(ctx: Context, z: Id, k: CString, v: CString, n: int, x: Id)
    ensures var r := Rekey(ctx, z, k, v);
      && CtxIds(r) == CtxIds(ctx) && Parent(r) == Parent(ctx) && Apex(r, x) == Apex(ctx, x)
      && (CtxDistinct(r) <==> CtxDistinct(ctx))
      && (CtxBalanced(r, n) <==> CtxBalanced(ctx, n)) && (CtxRedOk(r) <==> CtxRedOk(ctx))
      && (ctx.Frame? <==> r.Frame?) && ParentColor(r) == ParentColor(ctx)
  {
    if ctx.Frame? {
      RekeyKeepsShape(ctx.up, z, k, v, n + Weight(ctx.color), ctx.id);
    }
  }

  /** Rekeying the node above a left spine changes just the entry before the hole. */
  lemma {:induction false} SpineRekey(inner: Context, base: Context, k: CString, v: CString)
    requires LeftSpine(inner, base) && base.Frame? && base.side == Right && CtxDistinct(inner)
    ensures OnPath(inner, base.id) && base.id in CtxIds(inner)
    ensures Before(inner) == Before(base)
    ensures Before(Rekey(inner, base.id, k, v)) == Before(base.up) + Entries(base.sibling) + [(k, v)]
    ensures After(Rekey(inner, base.id, k, v)) == After(inner)
    decreases inner
  {
    if inner != base {
      SpineRekey(inner.up, base, k, v);
    }
  }

  /** The subtree that takes the place of a node with at most one child. */
  function OnlyChild(t: Tree): Tree
    requires t.Node?
  {
    if t.left.Node? then t.left else t.right
  }

  /** Taking such a node out leaves a red-black tree, or one that is one black node short. */
  lemma SpliceInv(ctx: Context, t: Tree)
    requires RedBlack(Plug(ctx, t)) && t.Node? && (t.left.Leaf? || t.right.Leaf?)
    ensures var x := OnlyChild(t);
      && CtxRedOk(ctx) && Balanced(x) && RedOk(x) && RedOk(x.Painted(Black))
      && CtxBalanced(ctx, BlackHeight(x) + Weight(t.color))
      && (t.color == Red ==> ColorOf(x) == Black)
  {
    UnplugRedBlack(ctx, t);
    var x := OnlyChild(t);
    assert BlackHeight(t) == BlackHeight(x) + Weight(t.color);
  }

  // ---------------------------------------------------------------- rotations

  /** `Rotated(Left, x)` is the subtree after a left rotation at `x`; `Right` mirrors it. */
  function Rotated(side: Side, t: Tree): Tree
    requires t.Node? && t.Child(side.Other()).Node?
  {
    var y := t.Child(side.Other());
    Make(side, y.id, y.color, y.key, y.value,
         Make(side, t.id, t.color, t.key, t.value, t.Child(side), y.Child(side)),
         y.Child(side.Other()))
  }

  lemma RotatedKeeps(side: Side, t: Tree)
    requires t.Node? && t.Child(side.Other()).Node?
    ensures Entries(Rotated(side, t)) == Entries(t)
    ensures Ids(Rotated(side, t)) == Ids(t)
    ensures Distinct(t) ==> Distinct(Rotated(side, t))
  {
    var y := t.Child(side.Other());
    MakeIds(side, t.id, t.color, t.key, t.value, t.Child(side), y);
    MakeIds(side, y.id, y.color, y.key, y.value, y.Child(side), y.Child(side.Other()));
    MakeIds(side, t.id, t.color, t.key, t.value, t.Child(side), y.Child(side));
    MakeIds(side, y.id, y.color, y.key, y.value,
            Make(side, t.id, t.color, t.key, t.value, t.Child(side), y.Child(side)), y.Child(side.Other()));
    var kx, ky := [(t.key, t.value)], [(y.key, y.value)];
    if side == Left {
      Rotate(Entries(t.left), kx, Entries(y.left), ky, Entries(y.right));
    } else {
      Rotate(Entries(y.left), ky, Entries(y.right), kx, Entries(t.right));
    }
  }

  // ---------------------------------------------------------------- colours and balance

  function Weight(c: Color): nat {
    if c == Black then 1 else 0
  }

  function BlackHeight(t: Tree): nat {
    if t.Leaf? then 0 else BlackHeight(t.left) + Weight(t.color)
  }

  ghost predicate Balanced(t: Tree) {
    t.Node? ==> Balanced(t.left) && Balanced(t.right) && BlackHeight(t.left) == BlackHeight(t.right)
  }

  ghost predicate RedOk(t: Tree) {
    t.Node? ==>
      && RedOk(t.left) && RedOk(t.right)
      && (t.color == Red ==> ColorOf(t.left) == Black && ColorOf(t.right) == Black)
  }

  ghost predicate RedBlack(t: Tree) {
    Balanced(t) && RedOk(t) && ColorOf(t) == Black
  }

  /** A subtree of black height `n` in the hole makes the whole tree balanced. */
  ghost predicate CtxBalanced(ctx: Context, n: int) {
    ctx.Frame? ==>
      && Balanced(ctx.sibling) && BlackHeight(ctx.sibling) == n
      && CtxBalanced(ctx.up, n + Weight(ctx.color))
  }

  /** No red node of the context has a red parent or a red child outside the hole. */
  ghost predicate CtxRedOk(ctx: Context) {
    ctx.Frame? ==>
      && RedOk(ctx.sibling) && CtxRedOk(ctx.up)
      && (ctx.color == Red ==> ColorOf(ctx.sibling) == Black && ctx.up.Frame? && ctx.up.color == Black)
  }

  lemma MakeRedBlack(side: Side, id: Id, c: Color, k: CString, v: CString, inner: Tree, outer: Tree)
    ensures var t := Make(side, id, c, k, v, inner, outer);
      && (Balanced(t) <==> Balanced(inner) && Balanced(outer) && BlackHeight(inner) == BlackHeight(outer))
      && (Balanced(t) ==> BlackHeight(t) == BlackHeight(inner) + Weight(c))
      && (RedOk(t) <==>
          && RedOk(inner) && RedOk(outer)
          && (c == Red ==> ColorOf(inner) == Black && ColorOf(outer) == Black))
  {
    assert side == Left || side == Right;
  }

  lemma {:induction false} PlugRedBlack(ctx: Context, t: Tree)
    requires Balanced(t) && CtxBalanced(ctx, BlackHeight(t))
    requires RedOk(t) && CtxRedOk(ctx)
    requires ColorOf(t) == Red ==> ctx.Frame? && ctx.color == Black
    ensures RedBlack(Plug(ctx, t))
    decreases ctx
  {
    if ctx.Frame? {
      PlugRedBlack(ctx.up, Fill(ctx, t));
    }
  }

  /** The converse: every position of a red-black tree splits into a sound context and subtree. */
  lemma {:induction false} UnplugRedBlack(ctx: Context, t: Tree)
    requires RedBlack(Plug(ctx, t))
    ensures Balanced(t) && RedOk(t) && CtxBalanced(ctx, BlackHeight(t)) && CtxRedOk(ctx)
    ensures ColorOf(t) == Red ==> ctx.Frame? && ctx.color == Black
    decreases ctx
  {
    if ctx.Frame? {
      UnplugRedBlack(ctx.up, Fill(ctx, t));
    }
  }

  // ---------------------------------------------------------------- the insertion fix-up

  /** The insertion loop's invariant: the only possible violation is a red parent of the red `t`. */
  ghost predicate InsertInv(ctx: Context, t: Tree) {
    && t.Node? && t.color == Red
    && Balanced(t) && RedOk(t)
    && CtxBalanced(ctx, BlackHeight(t)) && CtxRedOk(ctx)
  }

  lemma InsertRecolors(ctx: Context, t: Tree)
    requires InsertInv(ctx, t) && ctx.Frame? && ctx.color == Red
    ensures ctx.up.Frame? && ctx.up.color == Black
    ensures ColorOf(ctx.up.sibling) == Red ==>
      var p := ctx.(color := Black, up := ctx.up.(color := Red, sibling := ctx.up.sibling.Painted(Black)));
      InsertInv(p.up.up, Fill(p.up, Fill(p, t)))
  {
    if ColorOf(ctx.up.sibling) == Red {
      var p := ctx.(color := Black, up := ctx.up.(color := Red, sibling := ctx.up.sibling.Painted(Black)));
      var u, w := p.up.sibling, ctx.up.sibling;
      assert CtxBalanced(ctx.up, BlackHeight(t)) && CtxRedOk(ctx.up);
      MakeRedBlack(Left, w.id, Red, w.key, w.value, w.left, w.right);
      MakeRedBlack(ctx.side, p.id, p.color, p.key, p.value, t, p.sibling);
      MakeRedBlack(p.up.side, p.up.id, p.up.color, p.up.key, p.up.value, Fill(p, t), u);
      assert Balanced(u) && RedOk(u);
    }
  }

  /** When `t` is the inner grandchild, the first rotation makes its parent the outer one. */
  lemma InsertStraightens(ctx: Context, t: Tree)
    requires InsertInv(ctx, t) && ctx.Frame? && ctx.color == Red
    requires ctx.up.Frame? && ctx.side != ctx.up.side
    ensures var pt := Rotated(ctx.up.side, Fill(ctx, t));
            InsertInv(Enter(ctx.up, pt, ctx.up.side), pt.Child(ctx.up.side))
  {
    var side := ctx.up.side;
    MakeRedBlack(side, t.id, t.color, t.key, t.value, t.Child(side), t.Child(side.Other()));
    MakeRedBlack(side, ctx.id, ctx.color, ctx.key, ctx.value, ctx.sibling, t.Child(side));
  }

  /** With a black uncle, recolouring and one rotation at the grandparent end the loop. */
  lemma InsertRotates(ctx: Context, t: Tree)
    requires InsertInv(ctx, t) && ctx.Frame? && ctx.color == Red
    requires ctx.up.Frame? && ctx.side == ctx.up.side && ColorOf(ctx.up.sibling) == Black
    ensures var p := ctx.(color := Black, up := ctx.up.(color := Red));
            var gt := Rotated(ctx.side.Other(), Fill(p.up, Fill(p, t)));
            && gt.color == Black && gt.Child(ctx.side) == t
            && InsertInv(Enter(ctx.up.up, gt, ctx.side), t)
  {
    var g := ctx.up;
    assert CtxBalanced(g, BlackHeight(t)) && CtxRedOk(g);
    MakeRedBlack(ctx.side, g.id, Red, g.key, g.value, ctx.sibling, g.sibling);
  }

  // ---------------------------------------------------------------- the deletion fix-up

  /** The deletion loop's invariant: the subtree in the hole is one black node short. */
  ghost predicate DeleteInv(ctx: Context, t: Tree) {
    && Balanced(t) && RedOk(t.Painted(Black))
    && CtxBalanced(ctx, BlackHeight(t) + 1) && CtxRedOk(ctx)
  }

  /** How many turns the deletion loop can still take. */
  function DeleteMeasure(ctx: Context, t: Tree): nat {
    if ctx.Top? || ColorOf(t) == Red then 0 else 1 + Depth(ctx)
  }

  lemma ShortSubtreeHasSibling(ctx: Context, t: Tree)
    requires DeleteInv(ctx, t) && ctx.Frame?
    ensures ctx.sibling.Node?
    ensures ColorOf(ctx.sibling) == Red ==>
      ctx.color == Black && ctx.sibling.left.Node? && ctx.sibling.right.Node?
  {
  }

  /** A red sibling is rotated above the parent, leaving a black sibling. */
  lemma DeleteRedSibling(ctx: Context, t: Tree)
    requires DeleteInv(ctx, t) && ctx.Frame? && ColorOf(ctx.sibling) == Red && ColorOf(t) == Black
    ensures var red := ctx.(color := Red, sibling := ctx.sibling.Painted(Black));
            var wt := Rotated(ctx.side, Fill(red, t));
            var above := Enter(ctx.up, wt, ctx.side);
            var ctx' := Enter(above, wt.Child(ctx.side), ctx.side);
            && wt.Child(ctx.side).Node? && wt.Child(ctx.side).Child(ctx.side) == t
            && DeleteInv(ctx', t) && ctx'.color == Red && ColorOf(ctx'.sibling) == Black
  {
    var w := ctx.sibling;
    MakeRedBlack(ctx.side, w.id, w.color, w.key, w.value, w.Child(ctx.side), w.Child(ctx.side.Other()));
  }

  /** A black sibling with black children is painted red and the shortage moves up. */
  lemma DeleteBlackNephews(ctx: Context, t: Tree)
    requires DeleteInv(ctx, t) && ctx.Frame? && ColorOf(t) == Black
    requires ctx.sibling.Node? && ctx.sibling.color == Black
    requires ColorOf(ctx.sibling.left) == Black && ColorOf(ctx.sibling.right) == Black
    ensures DeleteInv(ctx.up, Fill(ctx.(sibling := ctx.sibling.Painted(Red)), t))
  {
    var w := ctx.sibling;
    MakeRedBlack(Left, w.id, w.color, w.key, w.value, w.left, w.right);
    MakeRedBlack(Left, w.id, Red, w.key, w.value, w.left, w.right);
    MakeRedBlack(ctx.side, ctx.id, ctx.color, ctx.key, ctx.value, t, w.Painted(Red));
    MakeRedBlack(ctx.side, ctx.id, Black, ctx.key, ctx.value, t, w.Painted(Red));
  }

  /** A black outer nephew is replaced by a red one by rotating the sibling. */
  lemma DeleteInnerNephew(ctx: Context, t: Tree)
    requires DeleteInv(ctx, t) && ctx.Frame?
    requires ctx.sibling.Node? && ctx.sibling.color == Black
    requires ColorOf(ctx.sibling.Child(ctx.side.Other())) == Black
    requires ColorOf(ctx.sibling.Child(ctx.side)) == Red
    ensures var w := ctx.sibling;
            var inner := w.Child(ctx.side).Painted(Black);
            var red := Make(ctx.side, w.id, Red, w.key, w.value, inner, w.Child(ctx.side.Other()));
            var wt := Rotated(ctx.side.Other(), red);
            && DeleteInv(ctx.(sibling := wt), t)
            && wt.color == Black && ColorOf(wt.Child(ctx.side.Other())) == Red
  {
    var w, side := ctx.sibling, ctx.side;
    var n := w.Child(side);
    MakeRedBlack(side, w.id, w.color, w.key, w.value, n, w.Child(side.Other()));
    MakeRedBlack(side, n.id, n.color, n.key, n.value, n.Child(side), n.Child(side.Other()));
    MakeRedBlack(side, w.id, Red, w.key, w.value, n.Child(side.Other()), w.Child(side.Other()));
    MakeRedBlack(side, n.id, Black, n.key, n.value, n.Child(side),
                 Make(side, w.id, Red, w.key, w.value, n.Child(side.Other()), w.Child(side.Other())));
  }

  /** A red outer nephew pays for the missing black node: the whole tree is red-black again. */
  lemma DeleteOuterNephew(ctx: Context, t: Tree)
    requires DeleteInv(ctx, t) && ctx.Frame? && ColorOf(t) == Black
    requires ctx.sibling.Node? && ctx.sibling.color == Black
    requires ColorOf(ctx.sibling.Child(ctx.side.Other())) == Red
    ensures var w := ctx.sibling;
            var outer := w.Child(ctx.side.Other()).Painted(Black);
            var wt := Make(ctx.side, w.id, ctx.color, w.key, w.value, w.Child(ctx.side), outer);
            RedBlack(Plug(ctx.up, Rotated(ctx.side, Fill(ctx.(color := Black, sibling := wt), t))))
  {
    var w := ctx.sibling;
    var outer := w.Child(ctx.side.Other()).Painted(Black);
    var wt := Make(ctx.side, w.id, ctx.color, w.key, w.value, w.Child(ctx.side), outer);
    var all := Rotated(ctx.side, Fill(ctx.(color := Black, sibling := wt), t));
    var far := w.Child(ctx.side.Other());
    MakeRedBlack(ctx.side, w.id, w.color, w.key, w.value, w.Child(ctx.side), far);
    MakeRedBlack(Left, far.id, far.color, far.key, far.value, far.left, far.right);
    MakeRedBlack(Left, far.id, Black, far.key, far.value, far.left, far.right);
    var below := Make(ctx.side, ctx.id, Black, ctx.key, ctx.value, t, w.Child(ctx.side));
    MakeRedBlack(ctx.side, ctx.id, Black, ctx.key, ctx.value, t, w.Child(ctx.side));
    MakeRedBlack(ctx.side, w.id, ctx.color, w.key, w.value, below, outer);
    assert all == Make(ctx.side, w.id, ctx.color, w.key, w.value, below, outer);
    PlugRedBlack(ctx.up, all);
  }

  /** When the loop stops at the root or at a red node, painting it black repairs the tree. */
  lemma DeleteFinishes(ctx: Context, t: Tree)
    requires DeleteInv(ctx, t) && (ctx.Top? || ColorOf(t) == Red)
    ensures RedBlack(Plug(ctx, t.Painted(Black)))
  {
    PlugRedBlack(ctx, t.Painted(Black));
  }

  // ---------------------------------------------------------------- height

  function Max(a: nat, b: nat): nat {
    if a < b then b else a
  }

  function Height(t: Tree): nat {
    if t.Leaf? then 0 else 1 + Max(Height(t.left), Height(t.right))
  }

  function Pow2(n: nat): nat {
    if n == 0 then 1 else 2 * Pow2(n - 1)
  }

  lemma {:induction false} Pow2Add(a: nat, b: nat)
    ensures Pow2(a + b) == Pow2(a) * Pow2(b)
  {
    if a > 0 {
      Pow2Add(a - 1, b);
    }
  }

  lemma {:induction false} Pow2Monotone(a: nat, b: nat)
    requires a <= b
    ensures 1 <= Pow2(a) <= Pow2(b)
    decreases b
  {
    if a < b {
      Pow2Monotone(a, b - 1);
    } else if a > 0 {
      Pow2Monotone(a - 1, b - 1);
    }
  }

  lemma {:induction false} BlackHeightBounds(t: Tree)
    requires Balanced(t) && RedOk(t)
    ensures Height(t) <= 2 * BlackHeight(t) + (if ColorOf(t) == Red then 1 else 0)
    ensures Pow2(BlackHeight(t)) <= |Entries(t)| + 1
  {
    if t.Node? {
      BlackHeightBounds(t.left);
      BlackHeightBounds(t.right);
    }
  }

  lemma SquareMonotone(a: nat, b: nat)
    requires a <= b
    ensures a * a <= b * b
  {
    assert a * a <= a * b <= b * b;
  }

  /** Height is at most 2 * log2(n + 1) for n entries, stated without logarithms. */
  lemma HeightBound(t: Tree)
    requires RedBlack(t)
    ensures Pow2(Height(t)) <= (|Entries(t)| + 1) * (|Entries(t)| + 1)
  {
    BlackHeightBounds(t);
    var b, n := BlackHeight(t), |Entries(t)| + 1;
    Pow2Monotone(Height(t), b + b);
    Pow2Add(b, b);
    SquareMonotone(Pow2(b), n);
  }
}
