/**
 * The chained hash engine of `kvstore_hash.c`. Nodes live in an arena indexed by id (0 is the null
 * pointer) that only grows, as every node comes from the allocator; ghost chains list each
 * bucket's ids from its head.
 */
module HashEngine {
  import opened CStrings

  const MAX_TABLE_SIZE: int := 102400

  /** A byte as C reads it through a signed `char`. */
  function SignedChar(b: Byte): int {
    if b < 128 then b else b - 256
  }

  /** The sum of the first `n` bytes. */
  function SumTo(key: CString, n: nat): int
    requires n <= |key|
  {
    if n == 0 then 0 else SumTo(key, n - 1) + SignedChar(key[n - 1])
  }

  function Sum(key: CString): int {
    SumTo(key, |key|)
  }

  /** C's `%` by a positive size, which takes the sign of its left operand. */
  function Remainder(x: int, size: int): int
    requires size > 0
  {
    if x >= 0 then x % size else -((-x) % size)
  }

  function Index(key: CString): int {
    Remainder(Sum(key), MAX_TABLE_SIZE)
  }

  /** The index is what is left of the byte sum after whole table sizes, with the sign of the sum. */
  lemma IndexIsRemainder(key: CString)
    ensures exists q :: Sum(key) == q * MAX_TABLE_SIZE + Index(key)
    ensures -MAX_TABLE_SIZE < Index(key) < MAX_TABLE_SIZE
    ensures if Sum(key) >= 0 then Index(key) >= 0 else Index(key) <= 0
  {
    var x := Sum(key);
    var q := if x >= 0 then x / MAX_TABLE_SIZE else -((-x) / MAX_TABLE_SIZE);
    assert x == q * MAX_TABLE_SIZE + Index(key);
  }

  /** The sum of a joined key is the sum of its parts, a single byte counting as a signed `char`. */
  lemma {:induction false} SumAdds(a: CString, b: CString)
    ensures Sum(a + b) == Sum(a) + Sum(b)
    ensures |b| == 1 ==> Sum(b) == b[0] as int - if b[0] < 128 then 0 else 256
    decreases |b|
  {
    if b == [] {
      assert a + b == a;
    } else {
      var n, last := |b| - 1, b[|b| - 1];
      SumAdds(a, b[..n]);
      SumPrefix(a + b, a + b[..n]);
      SumPrefix(b, b[..n]);
      assert |b| == 1 ==> SumTo(b, 0) == 0;
    }
  }

  /** Sums of a prefix, and of one byte more. */
  lemma SumPrefix(key: CString, front: CString)
    requires |key| == |front| + 1 && front == key[..|front|]
    ensures Sum(key) == Sum(front) + SignedChar(key[|front|])
  {
    SumToAgrees(key, front, |front|);
  }

  lemma {:induction false} SumToAgrees(key: CString, front: CString, n: nat)
    requires n <= |front| <= |key| && front == key[..|front|]
    ensures SumTo(key, n) == SumTo(front, n)
  {
    if n > 0 {
      SumToAgrees(key, front, n - 1);
    }
  }

  predicate Indexable(key: CString) {
    0 <= Index(key) < MAX_TABLE_SIZE
  }

  /** `_hash` yields a slot of the table unless the bytes sum to a negative number off its multiples. */
  lemma IndexableExactly(key: CString)
    ensures Indexable(key) <==> Sum(key) >= 0 || (-Sum(key)) % MAX_TABLE_SIZE == 0
  {
  }

  /** Seven-bit keys always have a slot. */
  lemma PlainKeysIndexable(key: CString)
    requires forall i | 0 <= i < |key| :: key[i] < 128
    ensures Sum(key) >= 0 && Indexable(key)
  {
    PlainSum(key, |key|);
  }

  lemma {:induction false} PlainSum(key: CString, n: nat)
    requires n <= |key| && forall i | 0 <= i < |key| :: key[i] < 128
    ensures SumTo(key, n) >= 0
  {
    if n > 0 {
      PlainSum(key, n - 1);
    }
  }

  /** A key of one byte above 127 has none. */
  lemma HighByteNotIndexable(b: Byte)
    requires b >= 128
    ensures !Indexable([b])
  {
    assert SumTo([b], 1) == SumTo([b], 0) + SignedChar(b);
  }

  datatype Node = Node(key: CString, value: CString, next: nat)

  type Arena = seq<Node>

  // ---------------------------------------------------------------- buckets

  /** Id number `i` of a chain, null past its end. */
  function At(chain: seq<nat>, i: nat): nat {
    if i < |chain| then chain[i] else 0
  }

  /** The nodes of `chain` are linked in order, end in null, belong to bucket `b`, and differ in key. */
  ghost predicate BucketOk(cells: Arena, b: int, chain: seq<nat>) {
    && (forall i | 0 <= i < |chain| :: 0 < chain[i] < |cells| && Index(cells[chain[i]].key) == b)
    && (forall i {:trigger LinkOk(cells, chain, i)} | 0 <= i < |chain| :: LinkOk(cells, chain, i))
    && (forall i, j | 0 <= i < j < |chain| :: cells[chain[i]].key != cells[chain[j]].key)
  }

  ghost predicate LinkOk(cells: Arena, chain: seq<nat>, i: nat) {
    i < |chain| && chain[i] < |cells| && cells[chain[i]].next == At(chain, i + 1)
  }

  ghost predicate InChain(cells: Arena, chain: seq<nat>, key: CString) {
    exists i :: 0 <= i < |chain| && 0 <= chain[i] < |cells| && cells[chain[i]].key == key
  }

  /** Every node of `chain` carries a pair of `m`. */
  ghost predicate Agrees(cells: Arena, chain: seq<nat>, m: map<CString, CString>) {
    forall i | 0 <= i < |chain| :: 0 < chain[i] < |cells| && Pair(cells[chain[i]], m)
  }

  ghost predicate Pair(n: Node, m: map<CString, CString>) {
    n.key in m && m[n.key] == n.value
  }

  /** The table holds exactly the pairs of `m`. */
  ghost predicate Holds(cells: Arena, chains: seq<seq<nat>>, m: map<CString, CString>) {
    && |chains| == MAX_TABLE_SIZE && |cells| > 0
    && (forall b | 0 <= b < |chains| :: BucketOk(cells, b, chains[b]) && Agrees(cells, chains[b], m))
    && (forall k | k in m :: Listed(cells, chains, k))
  }

  ghost predicate Listed(cells: Arena, chains: seq<seq<nat>>, k: CString) {
    Indexable(k) && |chains| == MAX_TABLE_SIZE && InChain(cells, chains[Index(k)], k)
  }

  /** A change that keeps the nodes of a bucket, and the map on that bucket's keys, keeps the bucket. */
  lemma BucketFrame(cells: Arena, cells': Arena, b: int, chain: seq<nat>,
                    m: map<CString, CString>, m': map<CString, CString>)
    requires BucketOk(cells, b, chain) && Agrees(cells, chain, m) && |cells| <= |cells'|
    requires forall i | 0 <= i < |chain| && chain[i] < |cells| :: cells'[chain[i]] == cells[chain[i]]
    requires forall k | k in m && Index(k) == b :: k in m' && m'[k] == m[k]
    ensures BucketOk(cells', b, chain) && Agrees(cells', chain, m')
  {
    forall i | 0 <= i < |chain|
      ensures LinkOk(cells', chain, i)
    {
      assert LinkOk(cells, chain, i);
    }
  }

  lemma PrependBucket(cells: Arena, b: int, chain: seq<nat>, m: map<CString, CString>, key: CString, value: CString)
    requires BucketOk(cells, b, chain) && Agrees(cells, chain, m) && Index(key) == b && key !in m && |cells| > 0
    ensures var cells' := cells + [Node(key, value, At(chain, 0))];
            BucketOk(cells', b, [|cells|] + chain) && Agrees(cells', [|cells|] + chain, m[key := value])
  {
    var cells', chain' := cells + [Node(key, value, At(chain, 0))], [|cells|] + chain;
    forall i | 0 <= i < |chain'|
      ensures LinkOk(cells', chain', i)
    {
      assert i > 0 ==> LinkOk(cells, chain, i - 1);
    }
  }

  /** A new node at the front of its bucket. */
  lemma Prepend(cells: Arena, chains: seq<seq<nat>>, m: map<CString, CString>, key: CString, value: CString)
    requires Holds(cells, chains, m) && Indexable(key) && key !in m
    ensures var b := Index(key);
            Holds(cells + [Node(key, value, At(chains[b], 0))], chains[b := [|cells|] + chains[b]], m[key := value])
  {
    var b := Index(key);
    var cells', chains' := cells + [Node(key, value, At(chains[b], 0))], chains[b := [|cells|] + chains[b]];
    PrependBucket(cells, b, chains[b], m, key, value);
    forall c | 0 <= c < |chains'| && c != b
      ensures BucketOk(cells', c, chains'[c]) && Agrees(cells', chains'[c], m[key := value])
    {
      BucketFrame(cells, cells', c, chains[c], m, m[key := value]);
    }
    forall k | k in m[key := value]
      ensures Listed(cells', chains', k)
    {
      if k == key {
        assert cells'[chains'[b][0]].key == key;
      } else {
        assert Listed(cells, chains, k);
        ListedAfterPrepend(cells, chains[Index(k)], cells', chains'[Index(k)], k);
      }
    }
  }

  lemma ListedAfterPrepend(cells: Arena, chain: seq<nat>, cells': Arena, chain': seq<nat>, k: CString)
    requires InChain(cells, chain, k) && cells <= cells'
    requires chain' == chain || (|chain'| == |chain| + 1 && chain'[1..] == chain)
    ensures InChain(cells', chain', k)
  {
    var i :| 0 <= i < |chain| && 0 <= chain[i] < |cells| && cells[chain[i]].key == k;
    assert chain'[if chain' == chain then i else i + 1] == chain[i];
  }

  /** The arena after node `i` of `chain` is bypassed. */
  function Bypassed(cells: Arena, chain: seq<nat>, i: nat): Arena
    requires i < |chain| && forall j | 0 <= j < |chain| :: chain[j] < |cells|
  {
    if i == 0 then cells
    else cells[chain[i - 1] := cells[chain[i - 1]].(next := cells[chain[i]].next)]
  }

  function Dropped(chain: seq<nat>, i: nat): seq<nat>
    requires i < |chain|
  {
    chain[..i] + chain[i + 1..]
  }

  /** Where number `j` of the shortened chain was before. */
  function Before(i: nat, j: nat): nat {
    if j < i then j else j + 1
  }

  lemma BypassNode(cells: Arena, b: int, chain: seq<nat>, i: nat, j: nat)
    requires BucketOk(cells, b, chain) && i < |chain| && j < |chain| - 1
    ensures var cells', chain', was := Bypassed(cells, chain, i), Dropped(chain, i), Before(i, j);
            && chain'[j] == chain[was] && cells[chain[was]].key != cells[chain[i]].key
            && cells'[chain'[j]].key == cells[chain[was]].key && cells'[chain'[j]].value == cells[chain[was]].value
  {
  }

  lemma BypassLink(cells: Arena, b: int, chain: seq<nat>, i: nat, j: nat)
    requires BucketOk(cells, b, chain) && i < |chain| && j < |chain| - 1
    ensures LinkOk(Bypassed(cells, chain, i), Dropped(chain, i), j)
  {
    var was := Before(i, j);
    assert LinkOk(cells, chain, was) && LinkOk(cells, chain, i);
    if i > 0 && was != i - 1 {
      assert cells[chain[was]].key != cells[chain[i - 1]].key;
    }
  }

  lemma BypassBucket(cells: Arena, b: int, chain: seq<nat>, m: map<CString, CString>, i: nat)
    requires BucketOk(cells, b, chain) && Agrees(cells, chain, m) && i < |chain|
    ensures BucketOk(Bypassed(cells, chain, i), b, Dropped(chain, i))
    ensures Agrees(Bypassed(cells, chain, i), Dropped(chain, i), m - {cells[chain[i]].key})
  {
    var cells', chain' := Bypassed(cells, chain, i), Dropped(chain, i);
    forall j | 0 <= j < |chain'|
      ensures 0 < chain'[j] < |cells'| && Index(cells'[chain'[j]].key) == b && LinkOk(cells', chain', j)
      ensures Pair(cells'[chain'[j]], m - {cells[chain[i]].key})
    {
      BypassNode(cells, b, chain, i, j);
      BypassLink(cells, b, chain, i, j);
      assert Pair(cells[chain[Before(i, j)]], m);
    }
    forall j, l | 0 <= j < l < |chain'|
      ensures cells'[chain'[j]].key != cells'[chain'[l]].key
    {
      BypassNode(cells, b, chain, i, j);
      BypassNode(cells, b, chain, i, l);
    }
  }

  /** A bucket without node `i`. */
  lemma Bypass(cells: Arena, chains: seq<seq<nat>>, m: map<CString, CString>, b: nat, i: nat)
    requires Holds(cells, chains, m) && b < |chains| && i < |chains[b]|
    ensures chains[b][i] < |cells| && cells[chains[b][i]].key in m
    ensures (forall j | 0 <= j < |chains[b]| :: chains[b][j] < |cells|)
            && Holds(Bypassed(cells, chains[b], i), chains[b := Dropped(chains[b], i)], m - {cells[chains[b][i]].key})
  {
    var chain := chains[b];
    assert BucketOk(cells, b, chain) && Agrees(cells, chain, m);
    var gone := cells[chain[i]].key;
    var cells', chains' := Bypassed(cells, chain, i), chains[b := Dropped(chain, i)];
    BypassBucket(cells, b, chain, m, i);
    forall c | 0 <= c < |chains'| && c != b
      ensures BucketOk(cells', c, chains'[c]) && Agrees(cells', chains'[c], m - {gone})
    {
      BucketFrame(cells, cells', c, chains[c], m, m - {gone});
    }
    forall k | k in m - {gone}
      ensures Listed(cells', chains', k)
    {
      assert Listed(cells, chains, k);
      ListedAfterBypass(cells, chain, i, chains[Index(k)], chains'[Index(k)], k);
    }
  }

  lemma ListedAfterBypass(cells: Arena, chain: seq<nat>, i: nat, mine: seq<nat>, mine': seq<nat>, k: CString)
    requires i < |chain| && forall j | 0 <= j < |chain| :: chain[j] < |cells|
    requires InChain(cells, mine, k) && cells[chain[i]].key != k
    requires mine' == mine || (mine == chain && mine' == Dropped(chain, i))
    ensures InChain(Bypassed(cells, chain, i), mine', k)
  {
    var j :| 0 <= j < |mine| && 0 <= mine[j] < |cells| && cells[mine[j]].key == k;
    assert mine'[if mine' == mine || j < i then j else j - 1] == mine[j];
  }

  /** A new value in node `i` of bucket `b`. */
  lemma Revalue(cells: Arena, chains: seq<seq<nat>>, m: map<CString, CString>, b: nat, i: nat, value: CString)
    requires Holds(cells, chains, m) && b < |chains| && i < |chains[b]|
    ensures var id := chains[b][i];
            id < |cells| && Holds(cells[id := cells[id].(value := value)], chains, m[cells[id].key := value])
  {
    var id := chains[b][i];
    assert BucketOk(cells, b, chains[b]) && Agrees(cells, chains[b], m);
    var cells', m' := cells[id := cells[id].(value := value)], m[cells[id].key := value];
    RevalueBucket(cells, b, chains[b], m, i, value);
    forall c | 0 <= c < |chains| && c != b
      ensures BucketOk(cells', c, chains[c]) && Agrees(cells', chains[c], m')
    {
      BucketFrame(cells, cells', c, chains[c], m, m');
    }
    forall k | k in m'
      ensures Listed(cells', chains, k)
    {
      assert k in m && Listed(cells, chains, k);
      ListedAfterRevalue(cells, chains[Index(k)], id, value, k);
    }
  }

  lemma ListedAfterRevalue(cells: Arena, chain: seq<nat>, id: nat, value: CString, k: CString)
    requires InChain(cells, chain, k) && id < |cells|
    ensures InChain(cells[id := cells[id].(value := value)], chain, k)
  {
    var j :| 0 <= j < |chain| && 0 <= chain[j] < |cells| && cells[chain[j]].key == k;
    assert cells[id := cells[id].(value := value)][chain[j]].key == k;
  }

  lemma RevalueBucket(cells: Arena, b: int, chain: seq<nat>, m: map<CString, CString>, i: nat, value: CString)
    requires BucketOk(cells, b, chain) && Agrees(cells, chain, m) && i < |chain|
    ensures var id := chain[i]; var cells' := cells[id := cells[id].(value := value)];
            BucketOk(cells', b, chain) && Agrees(cells', chain, m[cells[id].key := value])
  {
    var id := chain[i];
    var cells', m' := cells[id := cells[id].(value := value)], m[cells[id].key := value];
    forall j | 0 <= j < |chain|
      ensures Pair(cells'[chain[j]], m')
    {
      assert j != i ==> cells[chain[j]].key != cells[id].key && Pair(cells[chain[j]], m);
    }
    forall j | 0 <= j < |chain|
      ensures LinkOk(cells', chain, j)
    {
      assert LinkOk(cells, chain, j);
    }
  }

  /** A key is stored exactly when its bucket has a node for it. */
  lemma KeyListed(cells: Arena, chains: seq<seq<nat>>, m: map<CString, CString>, key: CString)
    requires Holds(cells, chains, m) && Indexable(key)
    ensures BucketOk(cells, Index(key), chains[Index(key)])
    ensures key in m <==> InChain(cells, chains[Index(key)], key)
  {
    var chain := chains[Index(key)];
    assert BucketOk(cells, Index(key), chain) && Agrees(cells, chain, m);
    assert key in m ==> Listed(cells, chains, key);
    if i :| 0 <= i < |chain| && 0 <= chain[i] < |cells| && cells[chain[i]].key == key {
      assert Pair(cells[chain[i]], m);
    }
  }

  // ---------------------------------------------------------------- the engine

  class Engine {
    const heads: array<nat>
    var cells: Arena
    var count: int
    ghost var chains: seq<seq<nat>>
    ghost var contents: map<CString, CString>

    ghost predicate Valid()
      reads this, heads
    {
      Heads() && Holds(cells, chains, contents) && count == |contents|
    }

    ghost predicate Heads()
      reads this, heads
    {
      && heads.Length == MAX_TABLE_SIZE == |chains|
      && forall b | 0 <= b < MAX_TABLE_SIZE :: heads[b] == At(chains[b], 0)
    }

    method SetHead(index: nat, head: nat, ghost chain: seq<nat>)
      requires Heads() && index < MAX_TABLE_SIZE && head == At(chain, 0)
      modifies heads, `chains
      ensures Heads() && chains == old(chains)[index := chain]
    {
      heads[index] := head;
      chains := chains[index := chain];
    }

    /** `init_hashtable`, its slots taken as null. */
    constructor ()
      ensures Valid() && fresh(heads) && contents == map[] && count == 0
    {
      heads := new nat[MAX_TABLE_SIZE](_ => 0);
      cells := [Node([], [], 0)];
      count := 0;
      chains := seq(MAX_TABLE_SIZE, _ => []);
      contents := map[];
    }

    /** `_hash`. */
    method Hash(key: CString) returns (index: int)
      ensures index == Index(key)
    {
      var sum, i := 0, 0;
      while i < |key|
        invariant 0 <= i <= |key| && sum == SumTo(key, i)
      {
        sum := sum + SignedChar(key[i]);
        i := i + 1;
      }
      index := Remainder(sum, MAX_TABLE_SIZE);
    }

    /** The walk down a bucket. */
    method Walk(index: nat, key: CString) returns (node: nat, ghost i: nat)
      requires Heads() && index < MAX_TABLE_SIZE && BucketOk(cells, index, chains[index])
      ensures i <= |chains[index]| && node == At(chains[index], i) && (node == 0 <==> i == |chains[index]|)
      ensures node == 0 <==> !InChain(cells, chains[index], key)
      ensures node != 0 ==> node < |cells| && cells[node].key == key
    {
      ghost var chain := chains[index];
      node, i := heads[index], 0;
      while node != 0
        invariant i <= |chain| && node == At(chain, i)
        invariant forall j | 0 <= j < i :: cells[chain[j]].key != key
        decreases |chain| - i
      {
        StrcmpZeroIsEquality(cells[node].key, key);
        if Strcmp(cells[node].key, key) == 0 {
          return;
        }
        assert LinkOk(cells, chain, i);
        node := cells[node].next;
        i := i + 1;
      }
    }

    /** The search shared by set, get and modify. */
    method Find(key: CString) returns (index: int, node: nat, ghost i: nat)
      requires Valid() && Indexable(key)
      ensures index == Index(key) && i <= |chains[index]| && node == At(chains[index], i)
      ensures node == 0 <==> i == |chains[index]|
      ensures node == 0 <==> key !in contents
      ensures node != 0 ==> node < |cells| && cells[node].key == key && cells[node].value == contents[key]
    {
      index := Hash(key);
      KeyListed(cells, chains, contents, key);
      node, i := Walk(index, key);
      assert node != 0 ==> Pair(cells[node], contents) by {
        assert Agrees(cells, chains[index], contents);
      }
    }

    /** A new node at the front of its bucket. */
    method AddNode(index: nat, key: CString, value: CString)
      requires Valid() && Indexable(key) && index == Index(key) && key !in contents
      modifies this, heads
      ensures Valid() && contents == old(contents)[key := value]
    {
      Prepend(cells, chains, contents, key, value);
      var id := |cells|;
      cells := cells + [Node(key, value, heads[index])];
      SetHead(index, id, [id] + chains[index]);
      count := count + 1;
      contents := contents[key := value];
    }

    /** `put_kv_hashtable`: 1 and no change for a stored key, else the pair is added. */
    method Set(key: CString, value: CString) returns (code: int)
      requires Valid() && Indexable(key)
      modifies this, heads
      ensures Valid()
      ensures code == if key in old(contents) then 1 else 0
      ensures contents == if key in old(contents) then old(contents) else old(contents)[key := value]
    {
      var index, node, i := Find(key);
      if node != 0 {
        return 1;
      }
      AddNode(index, key, value);
      return 0;
    }

    /** `get_kv_hashtable`. */
    method Get(key: CString) returns (found: bool, value: CString)
      requires Valid() && Indexable(key)
      ensures found <==> key in contents
      ensures found ==> value == contents[key]
    {
      var index, node, i := Find(key);
      if node == 0 {
        return false, [];
      }
      return true, cells[node].value;
    }

    /** `kvs_hash_modify`: -1 for a missing key, else its value is replaced. */
    method Modify(key: CString, value: CString) returns (code: int)
      requires Valid() && Indexable(key)
      modifies this
      ensures Valid()
      ensures code == if key in old(contents) then 0 else -1
      ensures contents == if key in old(contents) then old(contents)[key := value] else old(contents)
    {
      var index, node, i := Find(key);
      if node == 0 {
        return -1;
      }
      Revalue(cells, chains, contents, index, i, value);
      cells := cells[node := cells[node].(value := value)];
      contents := contents[key := value];
      return 0;
    }

    /** The head of a bucket is unlinked. */
    method DropHead(index: nat)
      requires Valid() && index < MAX_TABLE_SIZE && heads[index] != 0
      modifies this, heads
      ensures Valid() && old(heads[index]) < |old(cells)|
      ensures old(cells[heads[index]].key in contents) && contents == old(contents - {cells[heads[index]].key})
    {
      var head := heads[index];
      ghost var chain := chains[index];
      Bypass(cells, chains, contents, index, 0);
      contents := contents - {cells[head].key};
      assert LinkOk(cells, chain, 0) by {
        assert BucketOk(cells, index, chain);
      }
      SetHead(index, cells[head].next, Dropped(chain, 0));
      count := count - 1;
    }

    /** The node after number `i` of a bucket is unlinked. */
    method DropNext(index: nat, cur: nat, ghost i: nat)
      requires Valid() && index < MAX_TABLE_SIZE && i + 1 < |chains[index]| && cur == chains[index][i]
      requires cur < |cells| && cells[cur].next == chains[index][i + 1] < |cells|
      modifies this
      ensures Valid()
      ensures old(cells[cells[cur].next].key in contents) && contents == old(contents - {cells[cells[cur].next].key})
    {
      var tmp := cells[cur].next;
      ghost var chain := chains[index];
      Bypass(cells, chains, contents, index, i + 1);
      contents := contents - {cells[tmp].key};
      cells := cells[cur := cells[cur].(next := cells[tmp].next)];
      chains := chains[index := Dropped(chain, i + 1)];
      count := count - 1;
    }

    /** The search of `delete_kv_hashtable` for the predecessor of a key's node, past the head. */
    method FindBefore(index: nat, key: CString) returns (cur: nat, ghost i: nat)
      requires Heads() && index < MAX_TABLE_SIZE && BucketOk(cells, index, chains[index])
      requires chains[index] != [] && cells[heads[index]].key != key
      ensures i < |chains[index]| && cur == chains[index][i] && cur < |cells|
      ensures cells[cur].next == At(chains[index], i + 1) < |cells|
      ensures cells[cur].next == 0 <==> i + 1 == |chains[index]|
      ensures cells[cur].next == 0 <==> !InChain(cells, chains[index], key)
      ensures cells[cur].next != 0 ==> cells[cells[cur].next].key == key
    {
      ghost var chain := chains[index];
      cur, i := heads[index], 0;
      while cells[cur].next != 0
        invariant i < |chain| && cur == chain[i]
        invariant forall j | 0 <= j <= i :: cells[chain[j]].key != key
        decreases |chain| - i
      {
        assert LinkOk(cells, chain, i);
        var next := cells[cur].next;
        StrcmpZeroIsEquality(cells[next].key, key);
        if Strcmp(cells[next].key, key) == 0 {
          break;
        }
        cur := next;
        i := i + 1;
      }
      assert LinkOk(cells, chain, i);
    }

    /** `delete_kv_hashtable`: -1 for a missing key, else its node is unlinked. */
    method Delete(key: CString) returns (code: int)
      requires Valid() && Indexable(key)
      modifies this, heads
      ensures Valid()
      ensures code == if key in old(contents) then 0 else -1
      ensures contents == old(contents) - {key}
    {
      var index := Hash(key);
      var head := heads[index];
      KeyListed(cells, chains, contents, key);
      if head == 0 {
        assert contents - {key} == contents;
        return -1;
      }
      StrcmpZeroIsEquality(cells[head].key, key);
      if Strcmp(cells[head].key, key) == 0 {
        DropHead(index);
        return 0;
      }
      var cur, i := FindBefore(index, key);
      if cells[cur].next == 0 {
        assert contents - {key} == contents;
        return -1;
      }
      DropNext(index, cur, i);
      return 0;
    }
  }
}
