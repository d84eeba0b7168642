/**
 * The wait-for graph of `deadlock.c` and its search for cycles: one global mark array, one path
 * array and a stack height `k` shared by a recursive depth-first search.
 */
module DeadlockDetector {
  import opened WaitGraph

  const MAX: int := 100

  datatype Kind = Process | Resource
  datatype Source = Source(id: nat, kind: Kind)

  /** A slot of the vertex table with its chain of targets, oldest first. */
  datatype Vertex = Vertex(s: Source, targets: seq<Source>)

  // ---------------------------------------------------------------- the table as a graph

  ghost predicate Named(list: seq<Vertex>, s: Source) {
    exists i :: 0 <= i < |list| && list[i].s == s
  }

  /** The slot of `s`, or -1. */
  function IndexOf(list: seq<Vertex>, s: Source): int {
    if list == [] then -1
    else
      var last := |list| - 1;
      var i := IndexOf(list[..last], s);
      if i >= 0 then i else if list[last].s == s then last else -1
  }

  lemma {:induction false} IndexOfMeaning(list: seq<Vertex>, s: Source)
    ensures var i := IndexOf(list, s);
            && -1 <= i < |list| && (i >= 0 ==> list[i].s == s) && (i >= 0 <==> Named(list, s))
            && (forall j | 0 <= j < i :: list[j].s != s)
  {
    if list != [] {
      IndexOfMeaning(list[..|list| - 1], s);
      assert forall j | 0 <= j < |list| - 1 :: list[..|list| - 1][j].s == list[j].s;
    }
  }

  /** Slots are named apart and every target has a slot. */
  ghost predicate TableOk(list: seq<Vertex>) {
    && |list| <= MAX
    && (forall i, j | 0 <= i < j < |list| :: list[i].s != list[j].s)
    && (forall i, p | 0 <= i < |list| && 0 <= p < |list[i].targets| :: Named(list, list[i].targets[p]))
  }

  /** `g` is the graph of the table: vertices by slot, edges in chain order. */
  ghost predicate Represents(g: Graph, list: seq<Vertex>) {
    && |g| == |list|
    && (forall i | 0 <= i < |g| :: |g[i]| == |list[i].targets|)
    && (forall i, p {:trigger list[i].targets[p]} | 0 <= i < |g| && 0 <= p < |g[i]| ::
          g[i][p] == IndexOf(list, list[i].targets[p]))
  }

  ghost function GraphOf(list: seq<Vertex>): (g: Graph)
    ensures Represents(g, list)
  {
    seq(|list|, i requires 0 <= i < |list| =>
      seq(|list[i].targets|, p requires 0 <= p < |list[i].targets| => IndexOf(list, list[i].targets[p])))
  }

  lemma TableProper(g: Graph, list: seq<Vertex>)
    requires TableOk(list) && Represents(g, list)
    ensures Proper(g)
  {
    forall i, p | 0 <= i < |g| && 0 <= p < |g[i]|
      ensures 0 <= g[i][p] < |g|
    {
      IndexOfMeaning(list, list[i].targets[p]);
    }
  }

  /** The table after `add_vertex`. */
  function WithVertex(list: seq<Vertex>, s: Source): seq<Vertex> {
    if IndexOf(list, s) == -1 then list + [Vertex(s, [])] else list
  }

  lemma VertexAdded(list: seq<Vertex>, s: Source)
    requires TableOk(list) && |WithVertex(list, s)| <= MAX
    ensures TableOk(WithVertex(list, s)) && Named(WithVertex(list, s), s)
    ensures WithVertex(list, s) == if Named(list, s) then list else list + [Vertex(s, [])]
  {
    IndexOfMeaning(list, s);
    if !Named(list, s) {
      var now := list + [Vertex(s, [])];
      assert now[|list|].s == s;
      forall t | Named(list, t)
        ensures Named(now, t)
      {
        var j :| 0 <= j < |list| && list[j].s == t;
        assert now[j].s == t;
      }
    }
  }

  /** Position of the first target with this id, or the chain's length; kinds are not compared. */
  function FirstId(targets: seq<Source>, id: nat): (i: nat)
    ensures i <= |targets| && (i < |targets| ==> targets[i].id == id)
    ensures forall j | 0 <= j < i :: targets[j].id != id
  {
    if targets == [] then 0
    else if targets[0].id == id then 0
    else 1 + FirstId(targets[1..], id)
  }

  /** The targets after `remove_edge`. */
  function Without(targets: seq<Source>, id: nat): seq<Source> {
    var i := FirstId(targets, id);
    if i < |targets| then targets[..i] + targets[i + 1..] else targets
  }

  /**
   * `remove_edge` drops the edge asked for, or nothing where there is none, exactly when no target
   * has its id or the first that has is the one asked for.
   */
  lemma RemovesThatEdge(targets: seq<Source>, to: Source)
    ensures multiset(Without(targets, to.id)) == multiset(targets) - multiset{to}
            <==> FirstId(targets, to.id) == |targets| || targets[FirstId(targets, to.id)] == to
  {
    var i := FirstId(targets, to.id);
    if i < |targets| {
      TakenOut(targets, i);
      TakesOne(multiset(targets), multiset(Without(targets, to.id)), targets[i], to);
    } else {
      assert to !in targets;
    }
  }

  lemma TakenOut<T>(s: seq<T>, i: nat)
    requires i < |s|
    ensures multiset(s) == multiset(s[..i] + s[i + 1..]) + multiset{s[i]}
  {
    assert s == s[..i] + [s[i]] + s[i + 1..];
  }

  lemma TakesOne<T>(all: multiset<T>, rest: multiset<T>, gone: T, x: T)
    requires all == rest + multiset{gone}
    ensures rest == all - multiset{x} <==> gone == x
  {
    if gone != x {
      assert (all - multiset{x})[gone] == rest[gone] + 1;
    }
  }

  /** With vertices of both kinds sharing an id, `remove_edge` can drop another edge than the one asked for ... */
  lemma RemovesAnotherEdge()
    ensures var p, r := Source(7, Process), Source(7, Resource); Without([r, p], p.id) == [p]
  {
    assert FirstId([Source(7, Resource), Source(7, Process)], 7) == 0;
  }

  /** ... also when there is no edge of the kind asked for. */
  lemma RemovesWhereNoneIs()
    ensures var p, r := Source(7, Process), Source(7, Resource); p !in [r] && Without([r], p.id) == []
  {
    assert FirstId([Source(7, Resource)], 7) == 0;
  }

  // ---------------------------------------------------------------- the detector

  /** Indices below `n` that are marked. */
  ghost function Marked(visited: seq<int>, n: int): set<int>
    requires n <= |visited|
  {
    set i | 0 <= i < n && visited[i] == 1
  }

  lemma {:induction false} FewMarks(s: set<int>, n: nat)
    requires forall i | i in s :: 0 <= i < n
    ensures |s| <= n
  {
    if n == 0 {
      assert forall i :: i !in s;
    } else {
      FewMarks(s - {n - 1}, n - 1);
    }
  }

  class Detector {
    var list: seq<Vertex>
    const visited: array<int>
    const path: array<int>
    var k: int
    var deadlock: int
    var printed: seq<seq<int>>      // the paths reported by the current check

    ghost predicate Sized()
      reads this
    {
      visited.Length == MAX && path.Length == MAX + 1 && visited != path && |list| <= MAX
    }

    ghost predicate Valid()
      reads this
    {
      Sized() && TableOk(list)
    }

    constructor ()
      ensures Valid() && fresh(visited) && fresh(path) && list == [] && deadlock == 0 && printed == []
    {
      list := [];
      visited := new int[MAX];
      path := new int[MAX + 1];
      k := 0;
      deadlock := 0;
      printed := [];
    }

    /** `search_vertex`. */
    method SearchVertex(s: Source) returns (i: int)
      ensures i == IndexOf(list, s)
    {
      IndexOfMeaning(list, s);
      i := 0;
      while i < |list|
        invariant 0 <= i <= |list| && forall j | 0 <= j < i :: list[j].s != s
      {
        if list[i].s.kind == s.kind && list[i].s.id == s.id {
          return;
        }
        i := i + 1;
      }
      return -1;
    }

    /** `add_vertex`. */
    method AddVertex(s: Source)
      requires Valid() && |WithVertex(list, s)| <= MAX
      modifies `list
      ensures Valid() && list == old(WithVertex(list, s)) && Named(list, s)
      ensures list == if old(Named(list, s)) then old(list) else old(list) + [Vertex(s, [])]
    {
      VertexAdded(list, s);
      var i := SearchVertex(s);
      if i == -1 {
        list := list + [Vertex(s, [])];
      }
    }

    /** `add_edge`: the chain of `from` gains `to` at its end; nothing else changes. */
    method AddEdge(from: Source, to: Source)
      requires Valid() && |WithVertex(WithVertex(list, from), to)| <= MAX
      modifies `list
      ensures Valid()
      ensures var was := old(WithVertex(WithVertex(list, from), to)); var i := IndexOf(was, from);
              0 <= i < |was| && list == was[i := Vertex(from, was[i].targets + [to])]
    {
      AddVertex(from);
      StaysNamed(list, to, from);
      AddVertex(to);
      var i := SearchVertex(from);
      IndexOfMeaning(list, from);
      TargetAdded(list, i, to);
      list := list[i := list[i].(targets := list[i].targets + [to])];
    }

    /** `remove_edge`: the chain of `from` loses its first target with the id of `to`. */
    method RemoveEdge(from: Source, to: Source)
      requires Valid()
      modifies `list
      ensures Valid()
      ensures !(Named(old(list), from) && Named(old(list), to)) ==> list == old(list)
      ensures Named(old(list), from) && Named(old(list), to) ==>
                var i := IndexOf(old(list), from);
                && 0 <= i < |old(list)|
                && var was := old(list)[i].targets; var k := FirstId(was, to.id);
                   list == old(list)[i := Vertex(from, if k < |was| then was[..k] + was[k + 1..] else was)]
    {
      var i := SearchVertex(from);
      var j := SearchVertex(to);
      IndexOfMeaning(list, from);
      IndexOfMeaning(list, to);
      if i != -1 && j != -1 {
        var at := FindTarget(i, to.id);
        DropTarget(i, at, to.id);
      }
    }

    /** The walk of `remove_edge` to the first target with the id. */
    method FindTarget(i: nat, id: nat) returns (at: nat)
      requires i < |list|
      ensures at == FirstId(list[i].targets, id)
    {
      at := 0;
      while at < |list[i].targets| && list[i].targets[at].id != id
        invariant at <= |list[i].targets| && forall p | 0 <= p < at :: list[i].targets[p].id != id
      {
        at := at + 1;
      }
    }

    /** The target found is unlinked. */
    method DropTarget(i: nat, at: nat, ghost id: nat)
      requires Valid() && i < |list| && at == FirstId(list[i].targets, id)
      modifies `list
      ensures Valid()
      ensures var was := old(list)[i].targets;
              list == old(list)[i := old(list)[i].(targets := if at < |was| then was[..at] + was[at + 1..] else was)]
    {
      TargetRemoved(list, i, id);
      var targets := list[i].targets;
      if at < |targets| {
        list := list[i := list[i].(targets := targets[..at] + targets[at + 1..])];
      }
    }

    /** `verify_edge`: starts at the vertex itself, and compares ids only. */
    method VerifyEdge(from: Source, to: Source) returns (found: bool)
      requires Valid()
      ensures found <==> exists i :: 0 <= i < |list| && list[i].s == from
                                     && (from.id == to.id || exists t :: t in list[i].targets && t.id == to.id)
    {
      if |list| == 0 {
        return false;
      }
      var i := SearchVertex(from);
      IndexOfMeaning(list, from);
      if i == -1 {
        return false;
      }
      if list[i].s.id == to.id {
        return true;
      }
      var at := 0;
      while at < |list[i].targets|
        invariant 0 <= at <= |list[i].targets|
        invariant forall p | 0 <= p < at :: list[i].targets[p].id != to.id
      {
        if list[i].targets[at].id == to.id {
          return true;
        }
        at := at + 1;
      }
      return false;
    }

    /** Every reported path is a walk of the graph of at least two vertices. */
    ghost predicate Reported(g: Graph)
      reads this
    {
      forall i | 0 <= i < |printed| :: |printed[i]| >= 2 && Walk(g, printed[i])
    }

    ghost function Seen(): set<int>
      reads this, visited
      requires |list| <= visited.Length
    {
      Marked(visited[..], |list|)
    }

    method Push(idx: int)
      requires Sized() && 0 <= k <= MAX
      modifies path, `k
      ensures k == old(k) + 1 && path[..k] == old(path[..k]) + [idx]
    {
      path[k] := idx;
      k := k + 1;
    }

    method Mark(idx: int)
      requires Sized() && 0 <= idx < |list| && idx !in Seen()
      modifies visited
      ensures Seen() == old(Seen()) + {idx} && |Seen()| == old(|Seen()|) + 1 <= |list|
    {
      visited[idx] := 1;
      assert Seen() == old(Seen()) + {idx};
      FewMarks(Seen(), |list|);
    }

    /** The branch of `DFS` that meets a marked vertex. */
    method Meet(idx: int, ghost g: Graph)
      requires Sized() && 0 < k <= MAX && Walk(g, path[..k] + [idx]) && Reported(g)
      modifies path, `k, `deadlock, `printed
      ensures k == old(k) + 1 && path[..k] == old(path[..k]) + [idx] && deadlock == 1
      ensures printed == old(printed) + [path[..k]] && Reported(g)
    {
      Push(idx);
      printed := printed + [path[..k]];
      deadlock := 1;
    }

    /**
     * `DFS`. It marks `m`, leaves the stack one higher, and raises the flag exactly when the part
     * it walks is not a tree hanging below `idx` apart from what was marked before.
     */
    method Dfs(idx: int, ghost g: Graph) returns (ghost m: set<int>)
      requires Sized() && Proper(g) && Represents(g, list) && 0 <= idx < |list|
      requires 0 < k <= |Seen()| && k <= MAX && Walk(g, path[..k] + [idx]) && Reported(g)
      modifies visited, path, `k, `deadlock, `printed
      ensures Sized() && k == old(k) + 1 && path[..k] == old(path[..k]) + [idx] && Reported(g)
      ensures Seen() == old(Seen()) + m && Marks(g, old(Seen()), idx, |g[idx]|, m)
      ensures if idx in old(Seen()) then m == {} else idx in m
      ensures deadlock == 1 <==> old(deadlock) == 1 || !Clean(g, old(Seen()), idx, m)
      decreases |list| - |Seen()|, 0
    {
      if visited[idx] == 1 {
        NoMarks(g, Seen(), idx);
        Meet(idx, g);
        m := {};
        return;
      }
      ghost var seen, stack, was := Seen(), path[..k], deadlock == 1;
      Enter(idx, g);
      m := {idx};
      var p := 0;
      while p < |list[idx].targets|
        invariant 0 <= p <= |list[idx].targets|
        invariant Walking(idx, p, g, seen, stack, was, m)
      {
        m := Child(idx, p, g, seen, stack, was, m);
        p := p + 1;
      }
    }

    /** The first steps of `DFS` at an unmarked vertex. */
    method Enter(idx: int, ghost g: Graph)
      requires Sized() && Proper(g) && Represents(g, list) && 0 <= idx < |list| && idx !in Seen()
      requires 0 < k <= |Seen()| && k <= MAX && Walk(g, path[..k] + [idx]) && Reported(g)
      modifies visited, path, `k
      ensures Walking(idx, 0, g, old(Seen()), old(path[..k]), old(deadlock == 1), {idx})
    {
      FirstMark(g, Seen(), idx);
      Mark(idx);
      Push(idx);
    }

    /** The state of `DFS(idx)` after `p` children: `stack` and `seen` are as on entry, `was` its flag. */
    ghost predicate Walking(idx: int, p: int, g: Graph, seen: set<int>, stack: seq<int>, was: bool, m: set<int>)
      reads this, visited, path
    {
      && Sized() && Proper(g) && Represents(g, list) && 0 <= idx < |list|
      && 0 < |stack| <= |seen| < |Seen()| <= |list| && k == |stack| + 1 && path[..k] == stack + [idx]
      && Walk(g, stack + [idx]) && Reported(g)
      && Seen() == seen + m && idx in m && Marks(g, seen, idx, p, m)
      && (deadlock == 1 <==> was || !Tidy(g, idx, p, m))
    }

    /** `DFS` of one child, with the stack taken back down. */
    method Visit(idx: int, p: int, ghost g: Graph) returns (ghost n: set<int>)
      requires Sized() && Proper(g) && Represents(g, list) && 0 <= idx < |list| && 0 <= p < |list[idx].targets|
      requires 1 < k <= |Seen()| && k <= MAX && path[k - 1] == idx && Walk(g, path[..k]) && Reported(g)
      modifies visited, path, `k, `deadlock, `printed
      ensures k == old(k) && path[..k] == old(path[..k]) && Reported(g)
      ensures Seen() == old(Seen()) + n && Marks(g, old(Seen()), g[idx][p], |g[g[idx][p]]|, n)
      ensures if g[idx][p] in old(Seen()) then n == {} else g[idx][p] in n
      ensures deadlock == 1 <==> old(deadlock) == 1 || !Clean(g, old(Seen()), g[idx][p], n)
      decreases |list| - |Seen()|, 1
    {
      var c := SearchVertex(list[idx].targets[p]);
      WalkOn(g, path[..k], p);
      n := Dfs(c, g);
      k := k - 1;
    }

    /** One turn of the loop of `DFS`. */
    method Child(idx: int, p: int, ghost g: Graph, ghost seen: set<int>, ghost stack: seq<int>, ghost was: bool,
                 ghost m: set<int>)
      returns (ghost m': set<int>)
      requires Walking(idx, p, g, seen, stack, was, m) && 0 <= p < |list[idx].targets|
      modifies visited, path, `k, `deadlock, `printed
      ensures Walking(idx, p + 1, g, seen, stack, was, m')
      decreases |list| - |Seen()|, 2
    {
      ghost var n := Visit(idx, p, g);
      m' := m + n;
      ChildStep(g, seen, idx, p, m, n);
      MoreSeen(seen, m, n, |list|);
      assert Seen() == seen + m';
    }

    /** The reset loops of `search_for_cycle`: only `idx` stays marked, only `path[0]` stays set. */
    method Restart(idx: int)
      requires Sized() && 0 <= idx < |list| && visited[idx] == 1 && path[0] == idx
      modifies visited, path, `k
      ensures Seen() == {idx} && visited[idx] == 1 && k == 1 && path[..k] == [idx]
    {
      var i := 0;
      while i < |list|
        modifies visited
        invariant 0 <= i <= |list| && visited[idx] == 1
        invariant forall j | 0 <= j < i && j != idx :: visited[j] == 0
      {
        if i != idx {
          visited[i] := 0;
        }
        i := i + 1;
      }
      i := 1;
      while i <= MAX
        modifies path
        invariant 1 <= i <= MAX + 1 && path[0] == idx
      {
        path[i] := -1;
        i := i + 1;
      }
      k := 1;
    }

    /** One turn of the loop of `search_for_cycle`. */
    method Probe(idx: int, p: int, ghost g: Graph)
      requires Sized() && Proper(g) && Represents(g, list) && 0 <= idx < |list| && 0 <= p < |list[idx].targets|
      requires visited[idx] == 1 && path[0] == idx && Reported(g)
      modifies visited, path, `k, `deadlock, `printed
      ensures visited[idx] == 1 && path[0] == idx && Reported(g)
      ensures deadlock == 1 <==> old(deadlock) == 1 || Flagged(g, idx, p)
    {
      Restart(idx);
      var c := SearchVertex(list[idx].targets[p]);
      WalkOn(g, path[..k], p);
      ghost var m := Dfs(c, g);
      SearchVerdict(g, idx, p, m);
      assert path[0] == path[..k][0];
      assert visited[idx] == 1 by {
        assert idx in Seen();
      }
    }

    /** `search_for_cycle`: the flag is raised exactly when some edge out of `idx` is flagged. */
    method SearchForCycle(idx: int, ghost g: Graph)
      requires Sized() && Proper(g) && Represents(g, list) && 0 <= idx < |list| && Reported(g)
      modifies visited, path, `k, `deadlock, `printed
      ensures Reported(g)
      ensures deadlock == 1 <==> old(deadlock) == 1 || exists p :: Flagged(g, idx, p)
    {
      visited[idx] := 1;
      k := 0;
      path[k] := idx;
      k := k + 1;
      var p := 0;
      while p < |list[idx].targets|
        invariant 0 <= p <= |list[idx].targets|
        invariant visited[idx] == 1 && path[0] == idx && Reported(g)
        invariant deadlock == 1 <==> old(deadlock) == 1 || exists q :: 0 <= q < p && Flagged(g, idx, q)
      {
        Probe(idx, p, g);
        p := p + 1;
      }
    }

    /** The loop of `check_dead_lock`. */
    method Scan(ghost g: Graph)
      requires Sized() && Proper(g) && Represents(g, list) && deadlock == 0 && Reported(g)
      modifies visited, path, `k, `deadlock, `printed
      ensures Reported(g) && (deadlock == 1 <==> exists i, p :: Flagged(g, i, p))
    {
      var i := 0;
      while i < |list|
        invariant 0 <= i <= |list| && Reported(g)
        invariant deadlock == 1 <==> exists j, q :: 0 <= j < i && Flagged(g, j, q)
      {
        if deadlock == 1 {
          break;
        }
        SearchForCycle(i, g);
        i := i + 1;
      }
    }

    /**
     * `check_dead_lock`. It ends, and raises the flag exactly when the wait-for graph has a cycle or
     * a merge; so it never misses a cycle, and is exact where no vertex waits twice. Every path it
     * reports is a walk of the graph.
     */
    method CheckDeadLock()
      requires Valid()
      modifies visited, path, `k, `deadlock, `printed
      ensures Valid() && Reported(GraphOf(list))
      ensures deadlock == 1 <==> HasCycle(GraphOf(list)) || HasMerge(GraphOf(list))
      ensures (forall i | 0 <= i < |list| :: |list[i].targets| <= 1) ==> (deadlock == 1 <==> HasCycle(GraphOf(list)))
    {
      ghost var g := GraphOf(list);
      TableProper(g, list);
      deadlock := 0;
      printed := [];
      Scan(g);
      FlagMeaning(g);
      if forall i | 0 <= i < |list| :: |list[i].targets| <= 1 {
        assert Functional(g);
        FlagMeansCycle(g);
      }
    }
  }

  function Thread(id: nat): Source {
    Source(id, Process)
  }

  function Threads(ids: seq<nat>): seq<Source> {
    seq(|ids|, p requires 0 <= p < |ids| => Thread(ids[p]))
  }

  /** The table where the threads from 0 on wait for those listed. */
  function Waits(edges: seq<seq<nat>>): seq<Vertex> {
    seq(|edges|, i requires 0 <= i < |edges| => Vertex(Thread(i), Threads(edges[i])))
  }

  lemma WaitsIndex(edges: seq<seq<nat>>, id: nat)
    ensures IndexOf(Waits(edges), Thread(id)) == if id < |edges| then id else -1
  {
    IndexOfMeaning(Waits(edges), Thread(id));
    if id < |edges| {
      assert Waits(edges)[id].s == Thread(id);
    }
  }

  lemma WaitsVertex(edges: seq<seq<nat>>)
    ensures Waits(edges + [[]]) == WithVertex(Waits(edges), Thread(|edges|))
  {
    WaitsIndex(edges, |edges|);
    assert Threads([]) == [];
  }

  lemma WaitsEdge(edges: seq<seq<nat>>, i: nat, to: nat)
    requires i < |edges|
    ensures Waits(edges[i := edges[i] + [to]])
            == Waits(edges)[i := Vertex(Thread(i), Waits(edges)[i].targets + [Thread(to)])]
  {
    assert Threads(edges[i] + [to]) == Threads(edges[i]) + [Thread(to)];
  }

  /** Thread `from` comes to wait for `to`, which may be the next new thread. */
  method Await(d: Detector, ghost edges: seq<seq<nat>>, from: nat, to: nat) returns (ghost edges': seq<seq<nat>>)
    requires d.Valid() && d.list == Waits(edges) && from < |edges| && to <= |edges| && |edges| < MAX
    modifies d
    ensures edges' == (if to < |edges| then edges else edges + [[]])[from := edges[from] + [to]]
    ensures d.Valid() && d.list == Waits(edges')
  {
    ghost var all := if to < |edges| then edges else edges + [[]];
    WaitsIndex(edges, from);
    WaitsIndex(edges, to);
    WaitsVertex(edges);
    WaitsIndex(all, from);
    WaitsEdge(all, from, to);
    d.AddEdge(Thread(from), Thread(to));
    edges' := all[from := edges[from] + [to]];
  }

  lemma WaitsGraph(edges: seq<seq<nat>>)
    requires forall i, p | 0 <= i < |edges| && 0 <= p < |edges[i]| :: edges[i][p] < |edges|
    ensures |GraphOf(Waits(edges))| == |edges|
    ensures forall i | 0 <= i < |edges| :: GraphOf(Waits(edges))[i] == edges[i]
  {
    forall i, p | 0 <= i < |edges| && 0 <= p < |edges[i]|
      ensures GraphOf(Waits(edges))[i][p] == edges[i][p]
    {
      WaitsIndex(edges, edges[i][p]);
    }
  }

  /** Thread 0 waits for 1, 1 for 2 and 3, and 2 for 3. */
  method FourWaits() returns (d: Detector, ghost edges: seq<seq<nat>>)
    ensures fresh(d) && fresh(d.visited) && fresh(d.path) && d.Valid()
    ensures d.list == Waits(edges) && edges == [[1], [2, 3], [3], []]
  {
    d := new Detector();
    WaitsVertex([]);
    d.AddVertex(Thread(0));
    edges := [[]];
    assert Waits([]) == [] && [] + [[]] == edges;
    edges := Await(d, edges, 0, 1);
    assert edges[0] == [1] && edges == [[1], []];
    edges := Await(d, edges, 1, 2);
    assert edges[1] == [2] && edges == [[1], [2], []];
    edges := Await(d, edges, 1, 3);
    assert edges[1] == [2, 3] && edges == [[1], [2, 3], [], []];
    edges := Await(d, edges, 2, 3);
    assert edges[2] == [3];
  }

  /** Four edges without a cycle, added one by one, on which `check_dead_lock` reports a deadlock. */
  method ReportsFalseAlarm() returns (d: Detector)
    ensures fresh(d) && d.Valid() && d.list == Waits([[1], [2, 3], [3], []])
    ensures !HasCycle(GraphOf(d.list)) && d.deadlock == 1
  {
    ghost var edges;
    d, edges := FourWaits();
    WaitsGraph(edges);
    assert GraphOf(d.list) == [[1], [2, 3], [3], []];
    FalseAlarm();
    d.CheckDeadLock();
  }

  lemma MoreSeen(seen: set<int>, m: set<int>, n: set<int>, bound: nat)
    requires m != {} && m !! seen && forall i | i in seen + m + n :: 0 <= i < bound
    ensures seen + m + n == seen + (m + n) && |seen| < |seen + (m + n)| <= bound
  {
    FewMarks(seen + m + n, bound);
    assert seen + m + n == seen + (m + n);
    SmallerSet(seen, seen + (m + n));
  }

  lemma SmallerSet(a: set<int>, b: set<int>)
    requires a < b
    ensures |a| < |b|
  {
    assert |b| == |a| + |b - a| by {
      assert b == a + (b - a);
    }
    assert b - a != {};
  }

  lemma StaysNamed(list: seq<Vertex>, s: Source, t: Source)
    requires Named(list, t)
    ensures Named(WithVertex(list, s), t)
  {
    var j :| 0 <= j < |list| && list[j].s == t;
    assert WithVertex(list, s)[j].s == t;
  }

  lemma TargetRemoved(list: seq<Vertex>, i: nat, id: nat)
    requires TableOk(list) && i < |list|
    ensures TableOk(list[i := list[i].(targets := Without(list[i].targets, id))])
  {
    var targets := list[i].targets;
    SameNames(list, list[i := list[i].(targets := Without(targets, id))]);
    forall p | 0 <= p < |Without(targets, id)|
      ensures Named(list, Without(targets, id)[p])
    {
      var q := if p < FirstId(targets, id) then p else p + 1;
      assert FirstId(targets, id) < |targets| ==> Without(targets, id)[p] == targets[q];
    }
  }

  lemma TargetAdded(list: seq<Vertex>, i: nat, to: Source)
    requires TableOk(list) && i < |list| && Named(list, to)
    ensures TableOk(list[i := list[i].(targets := list[i].targets + [to])])
  {
    SameNames(list, list[i := list[i].(targets := list[i].targets + [to])]);
  }

  lemma SameNames(a: seq<Vertex>, b: seq<Vertex>)
    requires |a| == |b| && forall i | 0 <= i < |a| :: a[i].s == b[i].s
    ensures forall t :: Named(a, t) <==> Named(b, t)
  {
    forall t
      ensures Named(a, t) <==> Named(b, t)
    {
      if Named(a, t) {
        var i :| 0 <= i < |a| && a[i].s == t;
        assert b[i].s == t;
      }
      if Named(b, t) {
        var i :| 0 <= i < |b| && b[i].s == t;
        assert a[i].s == t;
      }
    }
  }
}
