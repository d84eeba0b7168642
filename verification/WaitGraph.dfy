/**
 * Directed graphs as adjacency lists (repeated entries allowed), walks, cycles and merges, and
 * the sets a depth-first search marks.
 */
module WaitGraph {

  type Graph = seq<seq<int>>

  ghost predicate Proper(g: Graph) {
    forall x, q | 0 <= x < |g| && 0 <= q < |g[x]| :: 0 <= g[x][q] < |g|
  }

  ghost predicate Walk(g: Graph, w: seq<int>) {
    && |w| > 0
    && (forall i | 0 <= i < |w| :: 0 <= w[i] < |g|)
    && (forall i | 0 < i < |w| :: w[i] in g[w[i - 1]])
  }

  ghost predicate WalkBetween(g: Graph, w: seq<int>, x: int, y: int) {
    Walk(g, w) && w[0] == x && w[|w| - 1] == y
  }

  ghost predicate Reaches(g: Graph, x: int, y: int) {
    exists w :: WalkBetween(g, w, x, y)
  }

  ghost predicate HasCycle(g: Graph) {
    exists w :: Walk(g, w) && |w| >= 2 && w[0] == w[|w| - 1]
  }

  ghost predicate Edge(g: Graph, x: int, q: int) {
    0 <= x < |g| && 0 <= q < |g[x]|
  }

  /** Two different edges `(x, a)` and `(y, b)` below the far end of edge `(i, p)` meet in one vertex. */
  ghost predicate MergeAt(g: Graph, i: int, p: int, x: int, a: int, y: int, b: int) {
    && Edge(g, i, p) && Edge(g, x, a) && Edge(g, y, b) && (x, a) != (y, b)
    && g[x][a] == g[y][b] && Reaches(g, g[i][p], x) && Reaches(g, g[i][p], y)
  }

  ghost predicate HasMerge(g: Graph) {
    exists i, p, x, a, y, b :: MergeAt(g, i, p, x, a, y, b)
  }

  lemma ReachesSelf(g: Graph, x: int)
    requires 0 <= x < |g|
    ensures Reaches(g, x, x)
  {
    assert WalkBetween(g, [x], x, x);
  }

  lemma ReachesOn(g: Graph, x: int, y: int, q: int)
    requires Proper(g) && Reaches(g, x, y) && Edge(g, y, q)
    ensures Reaches(g, x, g[y][q])
  {
    var w :| WalkBetween(g, w, x, y);
    assert WalkBetween(g, w + [g[y][q]], x, g[y][q]);
  }

  lemma ReachesFrom(g: Graph, x: int, q: int, z: int)
    requires Proper(g) && Edge(g, x, q) && Reaches(g, g[x][q], z)
    ensures Reaches(g, x, z)
  {
    var w :| WalkBetween(g, w, g[x][q], z);
    assert WalkBetween(g, [x] + w, x, z);
  }

  lemma CycleThrough(g: Graph, i: int, p: int)
    requires Proper(g) && Edge(g, i, p) && Reaches(g, g[i][p], i)
    ensures HasCycle(g)
  {
    var w :| WalkBetween(g, w, g[i][p], i);
    var c := [i] + w;
    assert Walk(g, c) && c[0] == c[|c| - 1];
  }

  /** A set that holds `x` and every successor of its members holds all that `x` reaches. */
  lemma {:induction false} ClosedHolds(g: Graph, s: set<int>, w: seq<int>)
    requires Walk(g, w) && w[0] in s
    requires forall x, q | x in s && Edge(g, x, q) :: g[x][q] in s
    ensures w[|w| - 1] in s
  {
    if |w| > 1 {
      var q :| 0 <= q < |g[w[0]]| && g[w[0]][q] == w[1];
      assert Edge(g, w[0], q);
      ClosedHolds(g, s, w[1..]);
    }
  }

  // ---------------------------------------------------------------- at most one successor

  ghost predicate Functional(g: Graph) {
    forall x | 0 <= x < |g| :: |g[x]| <= 1
  }

  lemma {:induction false} WalksAgree(g: Graph, v: seq<int>, w: seq<int>, i: nat)
    requires Functional(g) && Walk(g, v) && Walk(g, w) && v[0] == w[0] && i < |v| && i < |w|
    ensures v[i] == w[i]
  {
    if i > 0 {
      WalksAgree(g, v, w, i - 1);
      assert v[i] in g[v[i - 1]] && w[i] in g[w[i - 1]];
    }
  }

  lemma LongerWalkCycles(g: Graph, v: seq<int>, w: seq<int>, a: int, b: int)
    requires Proper(g) && Functional(g) && Walk(g, v) && Walk(g, w) && v[0] == w[0] && |v| < |w|
    requires Edge(g, v[|v| - 1], a) && Edge(g, w[|w| - 1], b) && g[v[|v| - 1]][a] == g[w[|w| - 1]][b]
    ensures HasCycle(g)
  {
    var n := |v|;
    WalksAgree(g, v, w, n - 1);
    assert w[n] in g[w[n - 1]] && w[n] == g[w[n - 1]][a];
    var c := w[n..] + [g[w[|w| - 1]][b]];
    assert Walk(g, c) && c[0] == c[|c| - 1];
  }

  /** Where every vertex has at most one successor, two edges can only meet on a cycle. */
  lemma MergeCycles(g: Graph)
    requires Proper(g) && Functional(g) && HasMerge(g)
    ensures HasCycle(g)
  {
    var i, p, x, a, y, b :| MergeAt(g, i, p, x, a, y, b);
    var v :| WalkBetween(g, v, g[i][p], x);
    var w :| WalkBetween(g, w, g[i][p], y);
    if |v| == |w| {
      WalksAgree(g, v, w, |v| - 1);
      assert false;
    } else if |v| < |w| {
      LongerWalkCycles(g, v, w, a, b);
    } else {
      LongerWalkCycles(g, w, v, b, a);
    }
  }

  // ---------------------------------------------------------------- what a search marks

  /** Edge `(x, q)` has been followed: `x` is in `m`, and of `u` only the first `p` edges count. */
  ghost predicate Followed(g: Graph, u: int, p: int, m: set<int>, x: int, q: int) {
    x in m && Edge(g, x, q) && (x == u ==> q < p)
  }

  /** The followed edges lead to different vertices of `m` other than `u`. */
  ghost predicate Tidy(g: Graph, u: int, p: int, m: set<int>) {
    && (forall x, q | Followed(g, u, p, m, x, q) :: g[x][q] in m && g[x][q] != u)
    && (forall x, q, y, r | Followed(g, u, p, m, x, q) && Followed(g, u, p, m, y, r) && (x, q) != (y, r) ::
          g[x][q] != g[y][r])
  }

  /** Every vertex of `m` but `u` is the far end of a followed edge. */
  ghost predicate Covered(g: Graph, u: int, p: int, m: set<int>) {
    forall y {:trigger Entered(g, u, p, m, y)} | y in m && y != u :: Entered(g, u, p, m, y)
  }

  ghost predicate Entered(g: Graph, u: int, p: int, m: set<int>, y: int) {
    exists x, q :: Followed(g, u, p, m, x, q) && g[x][q] == y
  }

  /** No followed edge leaves `s`. */
  ghost predicate Inside(g: Graph, u: int, p: int, m: set<int>, s: set<int>) {
    forall x, q | Followed(g, u, p, m, x, q) :: g[x][q] in s
  }

  /** What one search from `u` has marked, `m`, starting from marks `seen`. */
  ghost predicate Marks(g: Graph, seen: set<int>, u: int, p: int, m: set<int>) {
    && m !! seen && (forall y | y in m :: 0 <= y < |g|)
    && Covered(g, u, p, m) && Inside(g, u, p, m, seen + m)
    && (forall y | y in m :: Reaches(g, u, y))
  }

  /** The search from `u` met no marked vertex. */
  ghost predicate Clean(g: Graph, seen: set<int>, u: int, m: set<int>) {
    u !in seen && 0 <= u < |g| && Tidy(g, u, |g[u]|, m)
  }

  /** Marks of the first `p` children of `u`, `m`, and of the next child, `n`. */
  ghost predicate NextChild(g: Graph, seen: set<int>, u: int, p: int, m: set<int>, n: set<int>) {
    && Proper(g) && Edge(g, u, p) && u in m && Marks(g, seen, u, p, m)
    && Marks(g, seen + m, g[u][p], |g[g[u][p]]|, n)
    && (if g[u][p] in seen + m then n == {} else g[u][p] in n)
  }

  lemma ChildCovered(g: Graph, seen: set<int>, u: int, p: int, m: set<int>, n: set<int>)
    requires NextChild(g, seen, u, p, m, n)
    ensures Covered(g, u, p + 1, m + n)
  {
    var c := g[u][p];
    forall y | y in m + n && y != u
      ensures Entered(g, u, p + 1, m + n, y)
    {
      if y in m {
        assert Entered(g, u, p, m, y);
        var x, q :| Followed(g, u, p, m, x, q) && g[x][q] == y;
        assert Followed(g, u, p + 1, m + n, x, q);
      } else if y == c {
        assert Followed(g, u, p + 1, m + n, u, p);
      } else {
        assert Entered(g, c, |g[c]|, n, y);
        var x, q :| Followed(g, c, |g[c]|, n, x, q) && g[x][q] == y;
        assert Followed(g, u, p + 1, m + n, x, q);
      }
    }
  }

  /** Each followed edge is an earlier one, the edge to the child, or one below the child. */
  lemma FollowedCases(g: Graph, seen: set<int>, u: int, p: int, m: set<int>, n: set<int>, x: int, q: int)
    requires NextChild(g, seen, u, p, m, n) && Followed(g, u, p + 1, m + n, x, q)
    ensures Followed(g, u, p, m, x, q) || (x == u && q == p) || Followed(g, g[u][p], |g[g[u][p]]|, n, x, q)
  {
  }

  lemma ChildMarks(g: Graph, seen: set<int>, u: int, p: int, m: set<int>, n: set<int>)
    requires NextChild(g, seen, u, p, m, n)
    ensures Marks(g, seen, u, p + 1, m + n)
  {
    ChildCovered(g, seen, u, p, m, n);
    forall x, q | Followed(g, u, p + 1, m + n, x, q)
      ensures g[x][q] in seen + (m + n)
    {
      FollowedCases(g, seen, u, p, m, n, x, q);
    }
    forall y | y in n
      ensures Reaches(g, u, y)
    {
      ReachesFrom(g, u, p, y);
    }
  }

  lemma ChildTidy(g: Graph, seen: set<int>, u: int, p: int, m: set<int>, n: set<int>)
    requires NextChild(g, seen, u, p, m, n) && Tidy(g, u, p, m) && Clean(g, seen + m, g[u][p], n)
    ensures Tidy(g, u, p + 1, m + n)
  {
    forall x, q | Followed(g, u, p + 1, m + n, x, q)
      ensures g[x][q] in m + n && g[x][q] != u
    {
      FollowedCases(g, seen, u, p, m, n, x, q);
    }
    forall x, q, y, r | Followed(g, u, p + 1, m + n, x, q) && Followed(g, u, p + 1, m + n, y, r) && (x, q) != (y, r)
      ensures g[x][q] != g[y][r]
    {
      FollowedCases(g, seen, u, p, m, n, x, q);
      FollowedCases(g, seen, u, p, m, n, y, r);
    }
  }

  lemma ChildWasTidy(g: Graph, seen: set<int>, u: int, p: int, m: set<int>, n: set<int>)
    requires NextChild(g, seen, u, p, m, n) && Tidy(g, u, p + 1, m + n)
    ensures Tidy(g, u, p, m) && Clean(g, seen + m, g[u][p], n)
  {
    var c := g[u][p];
    assert Followed(g, u, p + 1, m + n, u, p);
    forall x, q | Followed(g, u, p, m, x, q)
      ensures Followed(g, u, p + 1, m + n, x, q) && g[x][q] in m
    {
    }
    assert c in m ==> Entered(g, u, p, m, c);
    assert c !in m;
    forall x, q | Followed(g, c, |g[c]|, n, x, q)
      ensures Followed(g, u, p + 1, m + n, x, q) && g[x][q] in n && g[x][q] != c
    {
      assert Followed(g, u, p + 1, m + n, x, q);
      assert g[x][q] in m ==> Entered(g, u, p, m, g[x][q]);
      assert g[x][q] !in m;
    }
  }

  lemma ChildStep(g: Graph, seen: set<int>, u: int, p: int, m: set<int>, n: set<int>)
    requires NextChild(g, seen, u, p, m, n)
    ensures Marks(g, seen, u, p + 1, m + n)
    ensures Tidy(g, u, p + 1, m + n) <==> Tidy(g, u, p, m) && Clean(g, seen + m, g[u][p], n)
  {
    ChildMarks(g, seen, u, p, m, n);
    if Tidy(g, u, p + 1, m + n) {
      ChildWasTidy(g, seen, u, p, m, n);
    } else if Tidy(g, u, p, m) && Clean(g, seen + m, g[u][p], n) {
      ChildTidy(g, seen, u, p, m, n);
    }
  }

  lemma FirstMark(g: Graph, seen: set<int>, u: int)
    requires 0 <= u < |g| && u !in seen
    ensures Marks(g, seen, u, 0, {u}) && Tidy(g, u, 0, {u})
  {
    ReachesSelf(g, u);
  }

  lemma NoMarks(g: Graph, seen: set<int>, u: int)
    requires 0 <= u < |g| && u in seen
    ensures Marks(g, seen, u, |g[u]|, {}) && !Clean(g, seen, u, {})
  {
  }

  lemma WalkOn(g: Graph, w: seq<int>, q: int)
    requires Proper(g) && Walk(g, w) && Edge(g, w[|w| - 1], q)
    ensures Walk(g, w + [g[w[|w| - 1]][q]])
  {
  }

  // ---------------------------------------------------------------- the verdict

  /** Following edge `(i, p)` comes back to `i` or to its own far end, or meets one vertex twice. */
  ghost predicate Flagged(g: Graph, i: int, p: int) {
    && Edge(g, i, p)
    && (|| Reaches(g, g[i][p], i)
        || (exists x, q :: Edge(g, x, q) && g[x][q] == g[i][p] && Reaches(g, g[i][p], x))
        || (exists x, a, y, b :: MergeAt(g, i, p, x, a, y, b)))
  }

  lemma CleanNotFlagged(g: Graph, i: int, p: int, m: set<int>)
    requires Proper(g) && Edge(g, i, p) && g[i][p] in m
    requires Marks(g, {i}, g[i][p], |g[g[i][p]]|, m) && Clean(g, {i}, g[i][p], m)
    ensures !Flagged(g, i, p)
  {
    var u := g[i][p];
    forall x, q | x in m && Edge(g, x, q)
      ensures g[x][q] in m && g[x][q] != u
    {
      assert Followed(g, u, |g[u]|, m, x, q);
    }
    forall x | Reaches(g, u, x)
      ensures x in m
    {
      var w :| WalkBetween(g, w, u, x);
      ClosedHolds(g, m, w);
    }
    forall x, a, y, b | MergeAt(g, i, p, x, a, y, b)
      ensures false
    {
      assert Followed(g, u, |g[u]|, m, x, a) && Followed(g, u, |g[u]|, m, y, b);
    }
  }

  lemma FlaggedOtherwise(g: Graph, i: int, p: int, m: set<int>)
    requires Proper(g) && Edge(g, i, p) && g[i][p] in m
    requires Marks(g, {i}, g[i][p], |g[g[i][p]]|, m) && !Clean(g, {i}, g[i][p], m)
    ensures Flagged(g, i, p)
  {
    var u := g[i][p];
    if x, q :| Followed(g, u, |g[u]|, m, x, q) && g[x][q] !in m {
      ReachesOn(g, u, x, q);
      assert g[x][q] == i;
    } else if x, q :| Followed(g, u, |g[u]|, m, x, q) && g[x][q] == u {
      assert Edge(g, x, q) && Reaches(g, u, x);
    } else {
      var x, q, y, r :| Followed(g, u, |g[u]|, m, x, q) && Followed(g, u, |g[u]|, m, y, r)
                        && (x, q) != (y, r) && g[x][q] == g[y][r];
      assert MergeAt(g, i, p, x, q, y, r);
    }
  }

  /** A search along edge `(i, p)` meets a marked vertex exactly when the edge is flagged. */
  lemma SearchVerdict(g: Graph, i: int, p: int, m: set<int>)
    requires Proper(g) && Edge(g, i, p) && Marks(g, {i}, g[i][p], |g[g[i][p]]|, m)
    requires if g[i][p] == i then m == {} else g[i][p] in m
    ensures Clean(g, {i}, g[i][p], m) <==> !Flagged(g, i, p)
  {
    if g[i][p] == i {
      ReachesSelf(g, i);
    } else if Clean(g, {i}, g[i][p], m) {
      CleanNotFlagged(g, i, p, m);
    } else {
      FlaggedOtherwise(g, i, p, m);
    }
  }

  /** Some edge is flagged exactly when the graph has a cycle or a merge. */
  lemma FlagMeaning(g: Graph)
    requires Proper(g)
    ensures (exists i, p :: Flagged(g, i, p)) <==> HasCycle(g) || HasMerge(g)
  {
    if HasCycle(g) {
      var w :| Walk(g, w) && |w| >= 2 && w[0] == w[|w| - 1];
      var p :| 0 <= p < |g[w[0]]| && g[w[0]][p] == w[1];
      assert Walk(g, w[1..]) by {
        assert forall k | 0 < k < |w[1..]| :: w[1..][k] == w[k + 1] && w[k + 1] in g[w[k]];
      }
      assert WalkBetween(g, w[1..], w[1], w[0]);
      assert Flagged(g, w[0], p);
    }
    if HasMerge(g) {
      var i, p, x, a, y, b :| MergeAt(g, i, p, x, a, y, b);
      assert Flagged(g, i, p);
    }
    forall i, p | Flagged(g, i, p)
      ensures HasCycle(g) || HasMerge(g)
    {
      var u := g[i][p];
      if Reaches(g, u, i) {
        CycleThrough(g, i, p);
      } else if x, q :| Edge(g, x, q) && g[x][q] == u && Reaches(g, u, x) {
        CycleThrough(g, x, q);
      }
    }
  }

  /** Where every vertex has at most one successor, some edge is flagged exactly when there is a cycle. */
  lemma FlagMeansCycle(g: Graph)
    requires Proper(g) && Functional(g)
    ensures (exists i, p :: Flagged(g, i, p)) <==> HasCycle(g)
  {
    FlagMeaning(g);
    if HasMerge(g) {
      MergeCycles(g);
    }
  }

  lemma {:induction false} ForwardWalk(g: Graph, w: seq<int>)
    requires Walk(g, w) && |w| >= 2 && forall x, q | Edge(g, x, q) :: x < g[x][q]
    ensures w[0] < w[|w| - 1]
  {
    var n := |w| - 1;
    assert w[n] in g[w[n - 1]];
    var q :| 0 <= q < |g[w[n - 1]]| && g[w[n - 1]][q] == w[n];
    assert Edge(g, w[n - 1], q);
    if n > 1 {
      ForwardWalk(g, w[..n]);
    }
  }

  /** Vertex 0 waits for 1, 1 for 2 and 3, and 2 for 3: no cycle, yet the search raises its flag. */
  lemma FalseAlarm()
    ensures var g := [[1], [2, 3], [3], []]; Proper(g) && !HasCycle(g) && HasMerge(g) && Flagged(g, 0, 0)
  {
    var g: Graph := [[1], [2, 3], [3], []];
    assert Proper(g);
    forall w | Walk(g, w) && |w| >= 2
      ensures w[0] != w[|w| - 1]
    {
      ForwardWalk(g, w);
    }
    ReachesSelf(g, 1);
    ReachesOn(g, 1, 1, 0);
    assert MergeAt(g, 0, 0, 1, 1, 2, 0);
  }
}
