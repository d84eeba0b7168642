/**
 * Whole runs of SET, GET, DEL and MOD on the red-black tree engine and on the hash engine, against
 * one plain map, and the counts that the engines keep along them.
 */
module Commands {
  import opened CStrings
  import KeyOrder
  import RbShape
  import RbArena
  import RbTree
  import HashEngine

  datatype Command =
    | Set(key: CString, value: CString)
    | Get(key: CString)
    | Del(key: CString)
    | Mod(key: CString, value: CString)

  datatype Reply = Code(code: int) | Missing | Found(value: CString)

  type Store = map<CString, CString>

  // ---------------------------------------------------------------- the reference

  /** A stored key is not overwritten by SET; MOD changes stored keys only. */
  function After(m: Store, c: Command): Store {
    match c
    case Set(k, v) => if k in m then m else m[k := v]
    case Get(_) => m
    case Del(k) => m - {k}
    case Mod(k, v) => if k in m then m[k := v] else m
  }

  function Final(cmds: seq<Command>): Store {
    if cmds == [] then map[] else After(Final(cmds[..|cmds| - 1]), cmds[|cmds| - 1])
  }

  /** The answers to GET, DEL and MOD. */
  function Answer(m: Store, c: Command): Reply
    requires !c.Set?
  {
    match c
    case Get(k) => if k in m then Found(m[k]) else Missing
    case Del(k) => Code(if k in m then 0 else -1)
    case Mod(k, _) => Code(if k in m then 0 else -1)
  }

  predicate Repeated(m: Store, c: Command) {
    c.Set? && c.key in m
  }

  /** How many SETs hit a stored key. */
  function Repeats(cmds: seq<Command>): nat {
    if cmds == [] then 0
    else Repeats(cmds[..|cmds| - 1])
         + if Repeated(Final(cmds[..|cmds| - 1]), cmds[|cmds| - 1]) then 1 else 0
  }

  /** The tree answers every SET with 0 ... */
  function TreeAnswer(m: Store, c: Command): Reply {
    if c.Set? then Code(0) else Answer(m, c)
  }

  /** ... and the hash table a repeated one with 1. */
  function HashAnswer(m: Store, c: Command): Reply {
    if c.Set? then Code(if Repeated(m, c) then 1 else 0) else Answer(m, c)
  }

  ghost predicate TreeReplies(cmds: seq<Command>, replies: seq<Reply>) {
    |replies| == |cmds| && forall i | 0 <= i < |cmds| :: replies[i] == TreeAnswer(Final(cmds[..i]), cmds[i])
  }

  ghost predicate HashReplies(cmds: seq<Command>, replies: seq<Reply>) {
    |replies| == |cmds| && forall i | 0 <= i < |cmds| :: replies[i] == HashAnswer(Final(cmds[..i]), cmds[i])
  }

  /** A SET of `k` that no DEL of `k` follows. */
  ghost predicate KeptSet(cmds: seq<Command>, k: CString, i: int) {
    && 0 <= i < |cmds| && cmds[i].Set? && cmds[i].key == k
    && forall j | i < j < |cmds| :: !(cmds[j].Del? && cmds[j].key == k)
  }

  /** A key is stored exactly when it was set and not deleted since. */
  lemma {:induction false} StoredMeansSet(cmds: seq<Command>, k: CString)
    ensures k in Final(cmds) <==> exists i :: KeptSet(cmds, k, i)
  {
    if cmds != [] {
      var n := |cmds| - 1;
      var front, last := cmds[..n], cmds[n];
      StoredMeansSet(front, k);
      if last.Set? && last.key == k {
        assert KeptSet(cmds, k, n);
      } else if i :| KeptSet(front, k, i) {
        assert !(last.Del? && last.key == k) ==> KeptSet(cmds, k, i);
      }
      if i :| KeptSet(cmds, k, i) {
        assert i < n ==> KeptSet(front, k, i);
      }
    }
  }

  lemma FinalSnoc(cmds: seq<Command>, n: nat)
    requires n < |cmds|
    ensures Final(cmds[..n + 1]) == After(Final(cmds[..n]), cmds[n])
    ensures Repeats(cmds[..n + 1]) == Repeats(cmds[..n]) + if Repeated(Final(cmds[..n]), cmds[n]) then 1 else 0
  {
    assert cmds[..n + 1][..n] == cmds[..n];
  }

  // ---------------------------------------------------------------- the tree engine

  method TreeCommand(e: RbTree.Engine, c: Command, junk: RbArena.Cell) returns (r: Reply)
    requires e.Valid()
    modifies e
    ensures e.Valid() && e.Contents() == After(old(e.Contents()), c)
    ensures r == TreeAnswer(old(e.Contents()), c)
    ensures e.count - |e.Contents()| == old(e.count - |e.Contents()|) + if Repeated(old(e.Contents()), c) then 1 else 0
  {
    Sizes(e.Contents(), c);
    match c
    case Set(k, v) =>
      var code := e.Set(k, v, junk);
      r := Code(code);
    case Get(k) =>
      var found, v := e.Get(k);
      r := if found then Found(v) else Missing;
    case Del(k) =>
      assert k !in e.Contents() ==> e.Contents() - {k} == e.Contents();
      var code := e.Del(k);
      r := Code(code);
    case Mod(k, v) =>
      var code := e.Modify(k, v);
      r := Code(code);
  }

  lemma Sizes(m: Store, c: Command)
    ensures |After(m, c)| == |m| + (if c.Set? && c.key !in m then 1 else 0) - (if c.Del? && c.key in m then 1 else 0)
  {
    if c.Del? {
      RemovedSize(m, c.key);
    } else if !c.Get? {
      UpdatedSize(m, c.key, c.value);
    }
  }

  lemma UpdatedSize<K, V>(m: map<K, V>, k: K, v: V)
    ensures |m[k := v]| == |m| + if k in m then 0 else 1
  {
    assert m[k := v].Keys == m.Keys + {k};
  }

  lemma RemovedSize<K, V>(m: map<K, V>, k: K)
    ensures |m - {k}| == |m| - if k in m then 1 else 0
  {
    assert (m - {k}).Keys == m.Keys - {k};
  }

  /**
   * Every run of the tree engine, `junk[i]` being what command `i` finds in newly allocated memory:
   * its pairs are those of the map, its count is the number of keys plus the repeated SETs, and its
   * height is at most 2 * log2 of the keys plus one.
   */
  method RunTree(cmds: seq<Command>, junk: seq<RbArena.Cell>) returns (e: RbTree.Engine, replies: seq<Reply>)
    requires |junk| == |cmds|
    ensures fresh(e) && e.Valid() && e.Contents() == Final(cmds) && TreeReplies(cmds, replies)
    ensures e.count == |Final(cmds)| + Repeats(cmds)
    ensures RbShape.Pow2(RbShape.Height(e.tree)) <= (|Final(cmds)| + 1) * (|Final(cmds)| + 1)
  {
    e := new RbTree.Engine();
    replies := [];
    var n := 0;
    while n < |cmds|
      invariant n <= |cmds| && fresh(e) && TreeAt(e, cmds[..n]) && TreeReplies(cmds[..n], replies)
    {
      TreeRepliesSnoc(cmds, n, replies);
      var r := TreeTurn(e, cmds, n, junk[n]);
      replies := replies + [r];
      n := n + 1;
    }
    assert cmds[..n] == cmds;
    TreeHeight(e);
  }

  /** The engine after `cmds`. */
  ghost predicate TreeAt(e: RbTree.Engine, cmds: seq<Command>)
    reads e
  {
    e.Valid() && e.Contents() == Final(cmds) && e.count == |Final(cmds)| + Repeats(cmds)
  }

  method TreeTurn(e: RbTree.Engine, cmds: seq<Command>, n: nat, junk: RbArena.Cell) returns (r: Reply)
    requires n < |cmds| && TreeAt(e, cmds[..n])
    modifies e
    ensures TreeAt(e, cmds[..n + 1]) && r == TreeAnswer(Final(cmds[..n]), cmds[n])
  {
    r := TreeCommand(e, cmds[n], junk);
    FinalSnoc(cmds, n);
  }

  lemma TreeHeight(e: RbTree.Engine)
    requires e.Valid()
    ensures RbShape.Pow2(RbShape.Height(e.tree)) <= (|e.Contents()| + 1) * (|e.Contents()| + 1)
  {
    RbShape.HeightBound(e.tree);
    KeyOrder.ToMapExact(RbShape.Entries(e.tree));
  }

  lemma TreeRepliesSnoc(cmds: seq<Command>, n: nat, replies: seq<Reply>)
    requires n < |cmds| && TreeReplies(cmds[..n], replies)
    ensures TreeReplies(cmds[..n + 1], replies + [TreeAnswer(Final(cmds[..n]), cmds[n])])
  {
    var more, all := cmds[..n + 1], replies + [TreeAnswer(Final(cmds[..n]), cmds[n])];
    forall i | 0 <= i < |more|
      ensures all[i] == TreeAnswer(Final(more[..i]), more[i])
    {
      assert more[..i] == cmds[..i];
      if i < n {
        assert cmds[..n][..i] == cmds[..i] && cmds[..n][i] == cmds[i];
      }
    }
  }

  // ---------------------------------------------------------------- the hash engine

  method HashCommand(e: HashEngine.Engine, c: Command) returns (r: Reply)
    requires e.Valid() && HashEngine.Indexable(c.key)
    modifies e, e.heads
    ensures e.Valid() && e.contents == After(old(e.contents), c)
    ensures r == HashAnswer(old(e.contents), c)
  {
    match c
    case Set(k, v) =>
      var code := e.Set(k, v);
      r := Code(code);
    case Get(k) =>
      var found, v := e.Get(k);
      r := if found then Found(v) else Missing;
    case Del(k) =>
      var code := e.Delete(k);
      r := Code(code);
    case Mod(k, v) =>
      var code := e.Modify(k, v);
      r := Code(code);
  }

  lemma HashRepliesSnoc(cmds: seq<Command>, n: nat, replies: seq<Reply>)
    requires n < |cmds| && HashReplies(cmds[..n], replies)
    ensures HashReplies(cmds[..n + 1], replies + [HashAnswer(Final(cmds[..n]), cmds[n])])
  {
    var more, all := cmds[..n + 1], replies + [HashAnswer(Final(cmds[..n]), cmds[n])];
    forall i | 0 <= i < |more|
      ensures all[i] == HashAnswer(Final(more[..i]), more[i])
    {
      assert more[..i] == cmds[..i];
      if i < n {
        assert cmds[..n][..i] == cmds[..i] && cmds[..n][i] == cmds[i];
      }
    }
  }

  /** Every run of the hash engine: its pairs are those of the map and its count is the number of keys. */
  method RunHash(cmds: seq<Command>) returns (e: HashEngine.Engine, replies: seq<Reply>)
    requires forall i | 0 <= i < |cmds| :: HashEngine.Indexable(cmds[i].key)
    ensures fresh(e) && e.Valid() && e.contents == Final(cmds) && HashReplies(cmds, replies)
    ensures e.count == |Final(cmds)|
  {
    e := new HashEngine.Engine();
    replies := [];
    var n := 0;
    while n < |cmds|
      invariant n <= |cmds| && fresh(e) && fresh(e.heads) && e.Valid() && e.contents == Final(cmds[..n])
      invariant |replies| == n && HashReplies(cmds[..n], replies)
    {
      var r := HashCommand(e, cmds[n]);
      FinalSnoc(cmds, n);
      HashRepliesSnoc(cmds, n, replies);
      replies := replies + [r];
      n := n + 1;
    }
    assert cmds[..n] == cmds;
  }

  /** On every common run both engines hold the same map and answer GET, DEL and MOD alike. */
  method RunBoth(cmds: seq<Command>, junk: seq<RbArena.Cell>)
    returns (t: RbTree.Engine, h: HashEngine.Engine, fromTree: seq<Reply>, fromHash: seq<Reply>)
    requires |junk| == |cmds| && forall i | 0 <= i < |cmds| :: HashEngine.Indexable(cmds[i].key)
    ensures t.Valid() && h.Valid() && t.Contents() == h.contents
    ensures |fromTree| == |fromHash| == |cmds|
    ensures forall i | 0 <= i < |cmds| && !cmds[i].Set? :: fromTree[i] == fromHash[i]
    ensures t.count == h.count + Repeats(cmds)
  {
    t, fromTree := RunTree(cmds, junk);
    h, fromHash := RunHash(cmds);
  }
}
