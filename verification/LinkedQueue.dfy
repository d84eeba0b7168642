/**
 * `SimpleLockFreeQueue`: a linked queue whose head carries a consumed flag and whose nodes
 * are recycled through a versioned free list. Every load, store, exchange and
 * compare-and-swap of the source is one step; any thread may take the next step.
 */
module LinkedQueue {

  type Tid = nat
  type Item = int

  datatype Option<T> = None | Some(value: T)

  /** A node index with its version; node 0 is the null index. */
  datatype Idx = Idx(node: nat, ver: nat)

  const NULL: Idx := Idx(0, 0)

  datatype Cell = Cell(next: Idx, item: Option<Item>)

  datatype Head = Head(idx: Idx, consumed: bool)

  /** Where a producer stands inside `enqueue`. */
  datatype Producer =
    | PIdle
    | PLoaded(item: Item, free: Idx)              // holds a free-list head
    | PNext(item: Item, free: Idx, next: Idx)     // ... and the successor it read
    | PAlloc(item: Item)                          // saw an empty free list
    | POwn(item: Item, idx: Idx)                  // popped a node
    | PCleared(item: Item, idx: Idx)              // cleared its next link
    | PFresh(item: Item, idx: Idx)                // took a new node number
    | PReady(item: Item, idx: Idx)                // constructed the item
    | PTail(item: Item, idx: Idx, tail: Idx)      // holds a tail value
    | PLink(pred: Idx, idx: Idx)                  // moved the tail, link pending

  /** Where a consumer stands inside `try_dequeue`; `won` says whether an item was taken. */
  datatype Consumer =
    | CIdle
    | CStart
    | CHead(raw: Head)
    | CNext(raw: Head, next: Idx)
    | CClaimed(idx: Idx)                          // set the flag, item not read yet
    | CTaken(idx: Idx, consumed: bool)            // moved the head, item not read yet
    | CRelease(idx: Idx, won: bool)
    | CFree(idx: Idx, free: Idx, won: bool)       // holds a free-list head
    | CStored(idx: Idx, free: Idx, won: bool)     // ... and wrote it into the node

  /** Who holds a node: the queue, the free list, or one thread. */
  datatype Place = Live(pos: nat) | Free(pos: nat) | Producing(p: Tid) | Consuming(c: Tid)

  /**
   * Shared memory, with its history: `chain` is every node index in the order the tail was
   * exchanged (the initial dummy first), `items` what was enqueued with them, `front` the
   * head's position in `chain`, `list` the free list from its bottom, `vers` and `where`
   * each node's version and holder.
   */
  datatype Memory = Memory(
    cells: map<nat, Cell>, nodes: nat, head: Head, tail: Idx, free: Idx,
    chain: seq<Idx>, items: seq<Item>, front: nat, list: seq<Idx>,
    vers: map<nat, nat>, where: map<nat, Place>)

  /** A state of the run; `out` is everything dequeued so far. */
  datatype State = State(m: Memory, producers: map<Tid, Producer>, consumers: map<Tid, Consumer>, out: seq<Item>)

  /** One step of one thread: `item` is what an idle producer enqueues, `weak` a spurious failure. */
  datatype Action = Produce(p: Tid, item: Item, weak: bool) | Consume(c: Tid, weak: bool)

  /** What a move out of a node's storage yields; storage without an object reads as 0. */
  function Read(cell: Cell): Item {
    if cell.item.Some? then cell.item.value else 0
  }

  function WithFree(item: Item, free: Idx): Producer {
    if free == NULL then PAlloc(item) else PLoaded(item, free)
  }

  // ---------------------------------------------------------------- writes to shared memory

  function Write(m: Memory, n: nat, cell: Cell): Memory {
    m.(cells := m.cells[n := cell])
  }

  /** A successful pop of the free list by producer `p`. */
  function Pop(m: Memory, p: Tid, f: Idx, next: Idx): Memory {
    m.(free := next, list := if m.list == [] then [] else m.list[..|m.list| - 1],
       vers := m.vers[f.node := f.ver + 1], where := m.where[f.node := Producing(p)])
  }

  function Fresh(m: Memory, p: Tid): Memory {
    m.(nodes := m.nodes + 1, cells := m.cells[m.nodes := Cell(NULL, None)],
       vers := m.vers[m.nodes := 0], where := m.where[m.nodes := Producing(p)])
  }

  /** A successful exchange of the tail. */
  function Append(m: Memory, idx: Idx, item: Item): Memory {
    m.(tail := idx, chain := m.chain + [idx], items := m.items + [item], where := m.where[idx.node := Live(|m.chain|)])
  }

  /** A successful move of the head by consumer `c`. */
  function Behead(m: Memory, c: Tid, next: Idx): Memory {
    m.(head := Head(next, false), front := m.front + 1, where := m.where[m.head.idx.node := Consuming(c)])
  }

  /** A successful push on the free list. */
  function Push(m: Memory, idx: Idx): Memory {
    m.(free := idx, list := m.list + [idx], where := m.where[idx.node := Free(|m.list|)])
  }

  // ---------------------------------------------------------------- steps

  /** The node a producer's next step dereferences exists. */
  predicate ProducerCan(m: Memory, t: Producer) {
    match t
    case PLoaded(_, f) => f.node in m.cells
    case POwn(_, idx) => idx.node in m.cells
    case PCleared(_, idx) => idx.node in m.cells
    case PLink(pred, _) => pred.node in m.cells
    case _ => true
  }

  function ProducerStep(m: Memory, p: Tid, t: Producer, item: Item, weak: bool): (Memory, Producer)
    requires ProducerCan(m, t)
  {
    match t
    case PIdle => (m, WithFree(item, m.free))
    case PLoaded(x, f) => (m, PNext(x, f, m.cells[f.node].next))
    case PNext(x, f, next) =>
      if m.free == f && !weak then (Pop(m, p, f, next), POwn(x, Idx(f.node, f.ver + 1)))
      else (m, WithFree(x, m.free))
    case PAlloc(x) => (Fresh(m, p), PFresh(x, Idx(m.nodes, 0)))
    case PFresh(x, idx) => (Write(m, idx.node, Cell(NULL, Some(x))), PReady(x, idx))
    case POwn(x, idx) => (Write(m, idx.node, m.cells[idx.node].(next := NULL)), PCleared(x, idx))
    case PCleared(x, idx) => (Write(m, idx.node, m.cells[idx.node].(item := Some(x))), PReady(x, idx))
    case PReady(x, idx) => (m, PTail(x, idx, m.tail))
    case PTail(x, idx, tail) =>
      if m.tail == tail && !weak then (Append(m, idx, x), PLink(tail, idx))
      else (m, PTail(x, idx, m.tail))
    case PLink(pred, idx) => (Write(m, pred.node, m.cells[pred.node].(next := idx)), PIdle)
  }

  predicate ConsumerCan(m: Memory, t: Consumer) {
    match t
    case CHead(raw) => raw.idx.node in m.cells
    case CClaimed(idx) => idx.node in m.cells
    case CTaken(idx, _) => idx.node in m.cells
    case CFree(idx, _, _) => idx.node in m.cells
    case _ => true
  }

  /** The third component is what the step hands to the caller. */
  function ConsumerStep(m: Memory, c: Tid, t: Consumer, weak: bool): (Memory, Consumer, seq<Item>)
    requires ConsumerCan(m, t)
  {
    match t
    case CIdle => (m, CHead(m.head), [])
    case CStart => (m, CHead(m.head), [])
    case CHead(raw) => (m, CNext(raw, m.cells[raw.idx.node].next), [])
    case CNext(raw, next) =>
      if next == NULL then
        if raw.consumed then (m, CIdle, [])
        else if m.head == raw then (m.(head := Head(raw.idx, true)), CClaimed(raw.idx), [])
        else (m, CStart, [])
      else if m.head == raw && !weak then (Behead(m, c, next), CTaken(raw.idx, raw.consumed), [])
      else (m, CStart, [])
    case CClaimed(idx) =>
      (Write(m, idx.node, m.cells[idx.node].(item := None)), CIdle, [Read(m.cells[idx.node])])
    case CTaken(idx, consumed) =>
      if consumed then (m, CRelease(idx, false), [])
      else (Write(m, idx.node, m.cells[idx.node].(item := None)), CRelease(idx, true), [Read(m.cells[idx.node])])
    case CRelease(idx, won) => (m, CFree(idx, m.free, won), [])
    case CFree(idx, f, won) => (Write(m, idx.node, m.cells[idx.node].(next := f)), CStored(idx, f, won), [])
    case CStored(idx, f, won) =>
      if m.free == f && !weak then (Push(m, idx), if won then CIdle else CStart, [])
      else (m, CFree(idx, m.free, won), [])
  }

  predicate Enabled(s: State, a: Action) {
    match a
    case Produce(p, _, _) => p in s.producers && ProducerCan(s.m, s.producers[p])
    case Consume(c, _) => c in s.consumers && ConsumerCan(s.m, s.consumers[c])
  }

  function Do(s: State, a: Action): State
    requires Enabled(s, a)
  {
    match a
    case Produce(p, item, weak) =>
      var (m, t) := ProducerStep(s.m, p, s.producers[p], item, weak);
      s.(m := m, producers := s.producers[p := t])
    case Consume(c, weak) =>
      var (m, t, got) := ConsumerStep(s.m, c, s.consumers[c], weak);
      s.(m := m, consumers := s.consumers[c := t], out := s.out + got)
  }

  /** The constructor: node 1 is the dummy, already consumed. */
  const EMPTY: Memory :=
    Memory(map[1 := Cell(NULL, None)], 2, Head(Idx(1, 0), true), Idx(1, 0), NULL,
           [Idx(1, 0)], [], 0, [], map[1 := 0], map[1 := Live(0)])

  ghost predicate Init(s: State) {
    && s.m == EMPTY && s.out == []
    && (forall p | p in s.producers :: s.producers[p] == PIdle)
    && (forall c | c in s.consumers :: s.consumers[c] == CIdle)
  }

  // ---------------------------------------------------------------- invariant of shared memory

  /** The index is the current one of a node held at `place`. */
  ghost predicate At(m: Memory, idx: Idx, place: Place) {
    && idx.node in m.where && idx.node in m.vers && idx.node in m.cells
    && m.where[idx.node] == place && m.vers[idx.node] == idx.ver
  }

  ghost predicate InList(m: Memory, f: Idx) {
    && f.node in m.where && m.where[f.node].Free?
    && m.where[f.node].pos < |m.list| && m.list[m.where[f.node].pos] == f
  }

  ghost predicate Shape(m: Memory) {
    && |m.chain| == |m.items| + 1 && m.front < |m.chain|
    && m.head.idx == m.chain[m.front] && m.tail == m.chain[|m.chain| - 1]
    && (m.front == 0 ==> m.head.consumed)
    && m.free == (if m.list == [] then NULL else m.list[|m.list| - 1])
    && m.nodes > 0
  }

  /** Every node is in exactly one place, under its current version. */
  ghost predicate Placed(m: Memory) {
    && (forall i | m.front <= i < |m.chain| :: At(m, m.chain[i], Live(i)))
    && (forall i | 0 <= i < |m.list| :: At(m, m.list[i], Free(i)))
    && (forall n | n in m.where :: 0 < n < m.nodes && n in m.cells && n in m.vers)
    && (forall n | n in m.cells :: n in m.where)
    && (forall n | n in m.where && m.where[n].Live? ::
          m.front <= m.where[n].pos < |m.chain| && m.chain[m.where[n].pos].node == n)
    && (forall n | n in m.where && m.where[n].Free? ::
          m.where[n].pos < |m.list| && m.list[m.where[n].pos].node == n)
  }

  /** Live node `i` is linked to the next one, or not yet. */
  ghost predicate NextOk(m: Memory, i: int) {
    && 0 <= i < |m.chain| - 1 && m.chain[i].node in m.cells
    && (m.cells[m.chain[i].node].next == m.chain[i + 1] || m.cells[m.chain[i].node].next == NULL)
  }

  /** Free node `i` is linked to the one below, the bottom one to none. */
  ghost predicate BelowOk(m: Memory, i: int) {
    && 0 <= i < |m.list| && m.list[i].node in m.cells
    && m.cells[m.list[i].node].next == if i == 0 then NULL else m.list[i - 1]
  }

  ghost predicate Links(m: Memory)
    requires Shape(m) && Placed(m)
  {
    && m.cells[m.tail.node].next == NULL
    && (forall i | m.front <= i < |m.chain| - 1 :: NextOk(m, i))
    && (forall i | 0 <= i < |m.list| :: BelowOk(m, i))
  }

  ghost predicate ValueOk(m: Memory, i: int) {
    && 0 < i < |m.chain| && i <= |m.items| && m.chain[i].node in m.cells
    && m.cells[m.chain[i].node].item == Some(m.items[i - 1])
  }

  /** The value of every enqueued, not yet claimed item is in its node. */
  ghost predicate Values(m: Memory)
    requires Shape(m) && Placed(m)
  {
    && (forall i | m.front < i < |m.chain| :: ValueOk(m, i))
    && (!m.head.consumed ==> ValueOk(m, m.front))
  }

  ghost predicate MemoryOk(m: Memory) {
    Shape(m) && Placed(m) && Links(m) && Values(m)
  }

  // ---------------------------------------------------------------- what each thread relies on

  ghost predicate HasHand(t: Producer) {
    t.POwn? || t.PCleared? || t.PFresh? || t.PReady? || t.PTail?
  }

  /** The free-list head a producer holds is current, or its version is outdated. */
  ghost predicate FreeOk(m: Memory, t: Producer) {
    t.PLoaded? || t.PNext? ==>
      && t.free.node in m.cells && t.free.node in m.vers && t.free != NULL
      && (InList(m, t.free) || t.free.ver < m.vers[t.free.node])
      && (t.PNext? && InList(m, t.free) ==> t.next == m.cells[t.free.node].next)
  }

  ghost predicate HandOk(m: Memory, p: Tid, t: Producer) {
    && (HasHand(t) ==> At(m, t.idx, Producing(p)))
    && (t.PCleared? ==> m.cells[t.idx.node].next == NULL)
    && (t.PReady? || t.PTail? ==> m.cells[t.idx.node] == Cell(NULL, Some(t.item)))
  }

  /** The predecessor a producer still has to link is live and right before its own node. */
  ghost predicate LinkOk(m: Memory, t: Producer) {
    t.PLink? ==>
      && t.pred.node in m.where && t.pred.node in m.cells && m.where[t.pred.node].Live?
      && var i := m.where[t.pred.node].pos;
         && i + 1 < |m.chain| && m.chain[i] == t.pred && m.chain[i + 1] == t.idx
         && m.cells[t.pred.node].next == NULL
  }

  ghost predicate ProducerOk(m: Memory, p: Tid, t: Producer) {
    FreeOk(m, t) && HandOk(m, p, t) && LinkOk(m, t)
  }

  ghost predicate HoldsNode(r: Consumer) {
    r.CTaken? || r.CRelease? || r.CFree? || r.CStored?
  }

  /** With a single consumer nobody else moves the head. */
  ghost predicate ReaderOk(m: Memory, c: Tid, r: Consumer) {
    && (HoldsNode(r) ==> At(m, r.idx, Consuming(c)))
    && (r.CHead? || r.CNext? ==> r.raw == m.head)
    && (r.CNext? && r.next != NULL ==>
          && m.front + 1 < |m.chain| && r.next == m.chain[m.front + 1]
          && m.head.idx.node in m.cells && m.cells[m.head.idx.node].next == r.next)
    && (r.CClaimed? ==>
          && r.idx == m.head.idx && m.head.consumed && 0 < m.front <= |m.items| && r.idx.node in m.cells
          && m.cells[r.idx.node].item == Some(m.items[m.front - 1]))
    && (r.CTaken? ==> m.front > 0 && !m.head.consumed)
    && (r.CTaken? && !r.consumed ==>
          1 < m.front <= |m.items| + 1 && m.cells[r.idx.node].item == Some(m.items[m.front - 2]))
    && (r.CStored? ==> m.cells[r.idx.node].next == r.free)
  }

  // ---------------------------------------------------------------- every write keeps the memory sound

  /** Overwriting the cell of an existing node moves no node. */
  lemma WriteStays(m: Memory, n: nat, cell: Cell)
    requires Shape(m) && Placed(m) && n in m.cells
    ensures Shape(Write(m, n, cell)) && Placed(Write(m, n, cell))
  {
  }

  /** Links that a write leaves alone: those of live nodes from the new front on and of the lowest `k` free ones. */
  lemma LinksFrame(m: Memory, m': Memory, k: nat)
    requires Shape(m) && Placed(m) && Links(m) && m.chain <= m'.chain && m.front <= m'.front < |m.chain|
    requires k <= |m.list| && k <= |m'.list| && m'.list[..k] == m.list[..k]
    requires forall i | m'.front <= i < |m.chain| :: SameNext(m, m', m.chain[i].node)
    requires forall i | 0 <= i < k :: SameNext(m, m', m.list[i].node)
    ensures forall i | m'.front <= i < |m.chain| - 1 :: NextOk(m', i)
    ensures forall i | 0 <= i < k :: BelowOk(m', i)
    ensures m.tail.node in m'.cells && m'.cells[m.tail.node].next == NULL
  {
    forall i | m'.front <= i < |m.chain| - 1
      ensures NextOk(m', i)
    {
      assert NextOk(m, i) && SameNext(m, m', m.chain[i].node);
    }
    forall i | 0 <= i < k
      ensures BelowOk(m', i)
    {
      assert m'.list[..k][i] == m.list[..k][i];
      assert BelowOk(m, i) && SameNext(m, m', m.list[i].node);
    }
    assert SameNext(m, m', m.chain[|m.chain| - 1].node);
  }

  ghost predicate SameNext(m: Memory, m': Memory, n: nat) {
    n in m.cells && n in m'.cells && m'.cells[n].next == m.cells[n].next
  }

  ghost predicate SameItem(m: Memory, m': Memory, n: nat) {
    n in m.cells && n in m'.cells && m'.cells[n].item == m.cells[n].item
  }

  /** Values that a write leaves alone. */
  lemma ValuesFrame(m: Memory, m': Memory)
    requires Shape(m) && Placed(m) && Values(m) && m.chain <= m'.chain && m.items <= m'.items && m.front <= m'.front
    requires forall i | m.front < i < |m.chain| :: SameItem(m, m', m.chain[i].node)
    requires !m.head.consumed ==> SameItem(m, m', m.chain[m.front].node)
    ensures forall i | m.front < i < |m.chain| :: ValueOk(m', i)
    ensures !m.head.consumed ==> ValueOk(m', m.front)
  {
    forall i | m.front <= i < |m.chain| && (i == m.front ==> !m.head.consumed)
      ensures ValueOk(m', i)
    {
      assert ValueOk(m, i) && SameItem(m, m', m.chain[i].node);
    }
  }

  /** The memory after a change that rewrites no cell of a live or free node other than `n`. */
  ghost predicate SameBut(m: Memory, m': Memory, n: nat) {
    forall k | k in m.cells && k != n :: k in m'.cells && m'.cells[k] == m.cells[k]
  }

  /** Both frames at once, for a node `n` that is neither live nor free. */
  lemma CellsFrame(m: Memory, m': Memory, n: nat, k: nat)
    requires MemoryOk(m) && SameBut(m, m', n) && (n in m.where ==> m.where[n].Producing? || m.where[n].Consuming?)
    requires m.chain <= m'.chain && m.items <= m'.items && m.front <= m'.front < |m.chain|
    requires k <= |m.list| && k <= |m'.list| && m'.list[..k] == m.list[..k]
    ensures forall i | m'.front <= i < |m.chain| - 1 :: NextOk(m', i)
    ensures forall i | 0 <= i < k :: BelowOk(m', i)
    ensures m.tail.node in m'.cells && m'.cells[m.tail.node].next == NULL
    ensures forall i | m.front < i < |m.chain| :: ValueOk(m', i)
    ensures !m.head.consumed ==> ValueOk(m', m.front)
  {
    forall i | m.front <= i < |m.chain|
      ensures SameNext(m, m', m.chain[i].node) && SameItem(m, m', m.chain[i].node)
    {
      assert At(m, m.chain[i], Live(i));
    }
    forall i | 0 <= i < k
      ensures SameNext(m, m', m.list[i].node)
    {
      assert At(m, m.list[i], Free(i));
    }
    LinksFrame(m, m', k);
    ValuesFrame(m, m');
  }

  lemma WriteHeld(m: Memory, n: nat, cell: Cell)
    requires MemoryOk(m) && n in m.where && (m.where[n].Producing? || m.where[n].Consuming?)
    ensures MemoryOk(Write(m, n, cell))
  {
    WriteStays(m, n, cell);
    CellsFrame(m, Write(m, n, cell), n, |m.list|);
  }

  lemma PopPlaced(m: Memory, p: Tid, f: Idx, next: Idx)
    requires Shape(m) && Placed(m) && m.list != [] && m.free == f
    requires next == if |m.list| == 1 then NULL else m.list[|m.list| - 2]
    ensures InList(m, f) && Shape(Pop(m, p, f, next)) && Placed(Pop(m, p, f, next))
  {
    forall i | 0 <= i < |m.list|
      ensures i != |m.list| - 1 ==> m.list[i].node != f.node
    {
      assert At(m, m.list[i], Free(i)) && At(m, f, Free(|m.list| - 1));
    }
  }

  lemma PopKeeps(m: Memory, p: Tid, f: Idx, next: Idx)
    requires MemoryOk(m) && m.free == f && f != NULL && f.node in m.cells && next == m.cells[f.node].next
    ensures InList(m, f) && MemoryOk(Pop(m, p, f, next))
  {
    assert BelowOk(m, |m.list| - 1);
    PopPlaced(m, p, f, next);
    CellsFrame(m, Pop(m, p, f, next), 0, |m.list| - 1);
  }

  lemma FreshPlaced(m: Memory, p: Tid)
    requires Shape(m) && Placed(m)
    ensures m.nodes !in m.where && m.nodes !in m.cells && Shape(Fresh(m, p)) && Placed(Fresh(m, p))
  {
    assert m.nodes !in m.where;
  }

  lemma FreshKeeps(m: Memory, p: Tid)
    requires MemoryOk(m)
    ensures MemoryOk(Fresh(m, p))
  {
    FreshPlaced(m, p);
    CellsFrame(m, Fresh(m, p), m.nodes, |m.list|);
  }

  lemma AppendPlaced(m: Memory, p: Tid, idx: Idx, item: Item)
    requires Shape(m) && Placed(m) && At(m, idx, Producing(p))
    ensures Shape(Append(m, idx, item)) && Placed(Append(m, idx, item))
  {
  }

  lemma AppendNew(m: Memory, idx: Idx, item: Item)
    requires |m.chain| == |m.items| + 1 && m.tail == m.chain[|m.chain| - 1]
    requires m.tail.node in m.cells && m.cells[m.tail.node].next == NULL
    requires idx.node in m.cells && m.cells[idx.node] == Cell(NULL, Some(item))
    ensures NextOk(Append(m, idx, item), |m.chain| - 1) && ValueOk(Append(m, idx, item), |m.chain|)
  {
  }

  lemma AppendKeeps(m: Memory, p: Tid, idx: Idx, item: Item)
    requires MemoryOk(m) && At(m, idx, Producing(p)) && m.cells[idx.node] == Cell(NULL, Some(item))
    ensures MemoryOk(Append(m, idx, item))
  {
    var m' := Append(m, idx, item);
    AppendPlaced(m, p, idx, item);
    assert Links(m') && Values(m') by {
      CellsFrame(m, m', 0, |m.list|);
      AppendNew(m, idx, item);
      assert forall i | m.front <= i < |m.chain| :: NextOk(m', i);
      assert forall i | m.front < i <= |m.chain| :: ValueOk(m', i);
    }
  }

  lemma LinkKeeps(m: Memory, t: Producer)
    requires MemoryOk(m) && t.PLink? && LinkOk(m, t)
    ensures MemoryOk(Write(m, t.pred.node, m.cells[t.pred.node].(next := t.idx)))
  {
    var m' := Write(m, t.pred.node, m.cells[t.pred.node].(next := t.idx));
    WriteStays(m, t.pred.node, m.cells[t.pred.node].(next := t.idx));
    ValuesFrame(m, m');
    LinkKeepsLinks(m, m', t);
  }

  lemma LinkKeepsLive(m: Memory, m': Memory, t: Producer, i: nat)
    requires forall j | m.front <= j < |m.chain| :: At(m, m.chain[j], Live(j))
    requires NextOk(m, i) && t.PLink? && LinkOk(m, t) && m.front <= i
    requires m' == Write(m, t.pred.node, m.cells[t.pred.node].(next := t.idx))
    ensures NextOk(m', i)
  {
    assert At(m, m.chain[i], Live(i));
  }

  lemma LinkKeepsLinks(m: Memory, m': Memory, t: Producer)
    requires Shape(m) && Placed(m) && Links(m) && t.PLink? && LinkOk(m, t)
    requires m' == Write(m, t.pred.node, m.cells[t.pred.node].(next := t.idx)) && Shape(m') && Placed(m')
    ensures Links(m')
  {
    forall i | m.front <= i < |m.chain| - 1
      ensures NextOk(m', i)
    {
      assert NextOk(m, i);
      LinkKeepsLive(m, m', t, i);
    }
    forall i | 0 <= i < |m.list|
      ensures BelowOk(m', i)
    {
      assert At(m, m.list[i], Free(i)) && BelowOk(m, i);
    }
    assert At(m, m.chain[|m.chain| - 1], Live(|m.chain| - 1));
  }

  lemma FlagKeeps(m: Memory)
    requires MemoryOk(m)
    ensures MemoryOk(m.(head := Head(m.head.idx, true)))
  {
    CellsFrame(m, m.(head := Head(m.head.idx, true)), 0, |m.list|);
  }

  lemma DropKeeps(m: Memory)
    requires MemoryOk(m) && m.head.consumed
    ensures MemoryOk(Write(m, m.head.idx.node, m.cells[m.head.idx.node].(item := None)))
  {
    var m' := Write(m, m.head.idx.node, m.cells[m.head.idx.node].(item := None));
    WriteStays(m, m.head.idx.node, m.cells[m.head.idx.node].(item := None));
    LinksFrame(m, m', |m.list|);
    assert At(m, m.chain[m.front], Live(m.front));
    forall i | m.front < i < |m.chain|
      ensures SameItem(m, m', m.chain[i].node)
    {
      assert At(m, m.chain[i], Live(i));
    }
    ValuesFrame(m, m');
  }

  lemma BeheadPlaced(m: Memory, c: Tid)
    requires Shape(m) && Placed(m) && m.front + 1 < |m.chain|
    ensures Shape(Behead(m, c, m.chain[m.front + 1])) && Placed(Behead(m, c, m.chain[m.front + 1]))
  {
    assert At(m, m.chain[m.front], Live(m.front));
  }

  lemma BeheadKeeps(m: Memory, c: Tid)
    requires MemoryOk(m) && m.front + 1 < |m.chain|
    ensures MemoryOk(Behead(m, c, m.chain[m.front + 1]))
  {
    BeheadPlaced(m, c);
    CellsFrame(m, Behead(m, c, m.chain[m.front + 1]), 0, |m.list|);
  }

  lemma PushPlaced(m: Memory, c: Tid, idx: Idx)
    requires Shape(m) && Placed(m) && At(m, idx, Consuming(c))
    ensures Shape(Push(m, idx)) && Placed(Push(m, idx))
  {
  }

  lemma PushKeeps(m: Memory, c: Tid, idx: Idx)
    requires MemoryOk(m) && At(m, idx, Consuming(c)) && m.cells[idx.node].next == m.free
    ensures MemoryOk(Push(m, idx))
  {
    PushPlaced(m, c, idx);
    CellsFrame(m, Push(m, idx), 0, |m.list|);
    assert BelowOk(Push(m, idx), |m.list|);
  }

  // ---------------------------------------------------------------- and what the other producers rely on

  lemma WriteHeldRely(m: Memory, n: nat, cell: Cell, q: Tid, t: Producer)
    requires MemoryOk(m) && n in m.where && (m.where[n].Producing? || m.where[n].Consuming?)
    requires m.where[n] != Producing(q) && ProducerOk(m, q, t)
    ensures ProducerOk(Write(m, n, cell), q, t)
  {
  }

  lemma PopRely(m: Memory, p: Tid, f: Idx, next: Idx, q: Tid, t: Producer)
    requires MemoryOk(m) && m.free == f && f != NULL && InList(m, f) && q != p
    requires ProducerOk(m, q, t)
    ensures ProducerOk(Pop(m, p, f, next), q, t)
  {
  }

  lemma FreshRely(m: Memory, p: Tid, q: Tid, t: Producer)
    requires MemoryOk(m) && ProducerOk(m, q, t)
    ensures ProducerOk(Fresh(m, p), q, t)
  {
    assert m.nodes !in m.where;
  }

  lemma AppendRely(m: Memory, p: Tid, idx: Idx, item: Item, q: Tid, t: Producer)
    requires MemoryOk(m) && At(m, idx, Producing(p)) && q != p && ProducerOk(m, q, t)
    ensures ProducerOk(Append(m, idx, item), q, t)
  {
  }

  lemma LinkRely(m: Memory, u: Producer, q: Tid, t: Producer)
    requires MemoryOk(m) && u.PLink? && LinkOk(m, u) && ProducerOk(m, q, t)
    requires t.PLink? ==> t.pred.node != u.pred.node
    ensures ProducerOk(Write(m, u.pred.node, m.cells[u.pred.node].(next := u.idx)), q, t)
  {
  }

  lemma DropRely(m: Memory, q: Tid, t: Producer)
    requires MemoryOk(m) && ProducerOk(m, q, t)
    ensures ProducerOk(Write(m, m.head.idx.node, m.cells[m.head.idx.node].(item := None)), q, t)
  {
  }

  lemma BeheadRely(m: Memory, c: Tid, q: Tid, t: Producer)
    requires MemoryOk(m) && m.front + 1 < |m.chain| && m.cells[m.head.idx.node].next == m.chain[m.front + 1] != NULL
    requires ProducerOk(m, q, t)
    ensures ProducerOk(Behead(m, c, m.chain[m.front + 1]), q, t)
  {
  }

  lemma PushRely(m: Memory, c: Tid, idx: Idx, q: Tid, t: Producer)
    requires MemoryOk(m) && At(m, idx, Consuming(c)) && ProducerOk(m, q, t)
    ensures ProducerOk(Push(m, idx), q, t)
  {
  }

  // ---------------------------------------------------------------- one step of a producer

  /** The stepping producer finds what it dereferences and keeps memory sound ... */
  lemma ProducerKeepsMemory(m: Memory, p: Tid, t: Producer, item: Item, weak: bool)
    requires MemoryOk(m) && ProducerOk(m, p, t)
    ensures ProducerCan(m, t) && MemoryOk(ProducerStep(m, p, t, item, weak).0)
  {
    match t
    case PIdle =>
    case PLoaded(x, f) =>
    case PNext(x, f, next) =>
      if m.free == f && !weak {
        ListHeadIsCurrent(m, f);
        PopKeeps(m, p, f, next);
      }
    case PAlloc(x) => FreshKeeps(m, p);
    case PFresh(x, idx) => WriteHeld(m, idx.node, Cell(NULL, Some(x)));
    case POwn(x, idx) => WriteHeld(m, idx.node, m.cells[idx.node].(next := NULL));
    case PCleared(x, idx) => WriteHeld(m, idx.node, m.cells[idx.node].(item := Some(x)));
    case PReady(x, idx) =>
    case PTail(x, idx, tail) =>
      if m.tail == tail && !weak {
        AppendKeeps(m, p, idx, x);
      }
    case PLink(pred, idx) => LinkKeeps(m, t);
  }

  /** ... and its own assertion. */
  lemma ProducerKeepsOwn(m: Memory, p: Tid, t: Producer, item: Item, weak: bool)
    requires MemoryOk(m) && ProducerOk(m, p, t) && ProducerCan(m, t)
    ensures var (m', t') := ProducerStep(m, p, t, item, weak); ProducerOk(m', p, t')
  {
    if m.free != NULL {
      ListHeadIsCurrent(m, m.free);
    }
    match t
    case PTail(x, idx, tail) => assert At(m, m.tail, Live(|m.chain| - 1));
    case _ =>
  }

  /** A compare-and-swap that succeeds on the free list pops a node that is in it. */
  lemma ListHeadIsCurrent(m: Memory, f: Idx)
    requires MemoryOk(m) && m.free == f && f != NULL
    ensures InList(m, f)
  {
    assert At(m, m.list[|m.list| - 1], Free(|m.list| - 1));
  }

  lemma ProducerRely(m: Memory, p: Tid, t: Producer, item: Item, weak: bool, q: Tid, u: Producer)
    requires MemoryOk(m) && ProducerOk(m, p, t) && ProducerOk(m, q, u) && p != q
    requires t.PLink? && u.PLink? ==> t.pred.node != u.pred.node
    requires ProducerCan(m, t)
    ensures ProducerOk(ProducerStep(m, p, t, item, weak).0, q, u)
  {
    match t
    case PIdle =>
    case PLoaded(x, f) =>
    case PNext(x, f, next) =>
      if m.free == f && !weak {
        ListHeadIsCurrent(m, f);
        PopRely(m, p, f, next, q, u);
      }
    case PAlloc(x) => FreshRely(m, p, q, u);
    case PFresh(x, idx) => WriteHeldRely(m, idx.node, Cell(NULL, Some(x)), q, u);
    case POwn(x, idx) => WriteHeldRely(m, idx.node, m.cells[idx.node].(next := NULL), q, u);
    case PCleared(x, idx) => WriteHeldRely(m, idx.node, m.cells[idx.node].(item := Some(x)), q, u);
    case PReady(x, idx) =>
    case PTail(x, idx, tail) =>
      if m.tail == tail && !weak {
        AppendRely(m, p, idx, x, q, u);
      }
    case PLink(pred, idx) => LinkRely(m, t, q, u);
  }

  /** The predecessor a producer starts to link is not one another producer is linking. */
  lemma NewLinkApart(m: Memory, p: Tid, t: Producer, item: Item, weak: bool, u: Producer)
    requires MemoryOk(m) && ProducerOk(m, p, t) && LinkOk(m, u) && u.PLink? && ProducerCan(m, t)
    ensures var t' := ProducerStep(m, p, t, item, weak).1; t'.PLink? ==> t'.pred.node != u.pred.node
  {
    assert At(m, m.tail, Live(|m.chain| - 1));
  }

  /** Nodes the consumer looks at: the head, and the one in its hand. */
  ghost predicate SamePlace(m: Memory, m': Memory, n: nat) {
    && n in m.where && n in m'.where && m'.where[n] == m.where[n]
    && n in m.vers && n in m'.vers && m'.vers[n] == m.vers[n]
  }

  ghost predicate SameForReader(m: Memory, m': Memory, r: Consumer)
    requires m.head.idx.node in m.cells && (HoldsNode(r) ==> r.idx.node in m.cells)
  {
    && m'.head == m.head && m'.front == m.front && m.chain <= m'.chain && m.items <= m'.items
    && m.head.idx.node in m'.cells && m'.cells[m.head.idx.node].item == m.cells[m.head.idx.node].item
    && (m.cells[m.head.idx.node].next != NULL ==> m'.cells[m.head.idx.node].next == m.cells[m.head.idx.node].next)
    && (HoldsNode(r) ==>
          && r.idx.node in m'.cells && m'.cells[r.idx.node] == m.cells[r.idx.node] && SamePlace(m, m', r.idx.node))
  }

  lemma ReaderFrame(m: Memory, m': Memory, c: Tid, r: Consumer)
    requires ReaderOk(m, c, r)
    requires m.head.idx.node in m.cells && (HoldsNode(r) ==> r.idx.node in m.cells) && SameForReader(m, m', r)
    ensures ReaderOk(m', c, r)
  {
  }

  lemma ProducerSparesReader(m: Memory, p: Tid, t: Producer, item: Item, weak: bool, c: Tid, r: Consumer)
    requires MemoryOk(m) && ProducerOk(m, p, t) && ProducerCan(m, t) && (HoldsNode(r) ==> At(m, r.idx, Consuming(c)))
    ensures At(m, m.head.idx, Live(m.front))
    ensures SameForReader(m, ProducerStep(m, p, t, item, weak).0, r)
  {
    assert At(m, m.head.idx, Live(m.front));
    match t
    case PNext(_, f, _) =>
      if m.free == f {
        ListHeadIsCurrent(m, f);
      }
    case PAlloc(_) => assert m.nodes !in m.where;
    case _ =>
  }

  // ---------------------------------------------------------------- one step of the only consumer

  /** How many items the head says are gone: those before it, and its own once its flag is set. */
  ghost function Claimed(m: Memory): int {
    m.front - 1 + if m.head.consumed then 1 else 0
  }

  /** An item claimed by the consumer but not read yet. */
  ghost function Owed(r: Consumer): int {
    if r.CClaimed? || (r.CTaken? && !r.consumed) then 1 else 0
  }

  ghost function Delivered(m: Memory, r: Consumer): int {
    Claimed(m) - Owed(r)
  }

  lemma ConsumerKeepsMemory(m: Memory, c: Tid, r: Consumer, weak: bool)
    requires MemoryOk(m) && ReaderOk(m, c, r)
    ensures ConsumerCan(m, r) && MemoryOk(ConsumerStep(m, c, r, weak).0)
  {
    match r
    case CNext(raw, next) =>
      if next == NULL {
        FlagKeeps(m);
      } else {
        BeheadKeeps(m, c);
      }
    case CClaimed(idx) => DropKeeps(m);
    case CTaken(idx, consumed) => WriteHeld(m, idx.node, m.cells[idx.node].(item := None));
    case CFree(idx, f, won) => WriteHeld(m, idx.node, m.cells[idx.node].(next := f));
    case CStored(idx, f, won) =>
      if m.free == f {
        PushKeeps(m, c, idx);
      }
    case _ =>
      assert At(m, m.head.idx, Live(m.front));
  }

  lemma ConsumerKeepsOwn(m: Memory, c: Tid, r: Consumer, weak: bool)
    requires MemoryOk(m) && ReaderOk(m, c, r) && ConsumerCan(m, r)
    requires MemoryOk(ConsumerStep(m, c, r, weak).0)
    ensures ReaderOk(ConsumerStep(m, c, r, weak).0, c, ConsumerStep(m, c, r, weak).1)
  {
    match r
    case CIdle =>
    case CStart =>
    case CHead(raw) =>
      assert At(m, m.head.idx, Live(m.front));
      assert m.front + 1 < |m.chain| ==> NextOk(m, m.front);
      assert m.front + 1 < |m.chain| || m.head.idx == m.tail;
    case CNext(raw, next) => AdvanceKeepsOwn(m, c, r, weak);
    case _ => ReleaseKeepsOwn(m, c, r, weak);
  }

  lemma AdvanceKeepsOwn(m: Memory, c: Tid, r: Consumer, weak: bool)
    requires MemoryOk(m) && ReaderOk(m, c, r) && r.CNext?
    ensures ReaderOk(ConsumerStep(m, c, r, weak).0, c, ConsumerStep(m, c, r, weak).1)
  {
    assert At(m, m.head.idx, Live(m.front));
  }

  lemma ReleaseKeepsOwn(m: Memory, c: Tid, r: Consumer, weak: bool)
    requires ReaderOk(m, c, r) && ConsumerCan(m, r) && (r.CClaimed? || HoldsNode(r))
    ensures ReaderOk(ConsumerStep(m, c, r, weak).0, c, ConsumerStep(m, c, r, weak).1)
  {
    if r.CTaken? || r.CRelease? {
      TakenKeepsOwn(m, c, r, weak);
    } else if r.CFree? || r.CStored? {
      StoredKeepsOwn(m, c, r, weak);
    }
  }

  lemma TakenKeepsOwn(m: Memory, c: Tid, r: Consumer, weak: bool)
    requires ReaderOk(m, c, r) && ConsumerCan(m, r) && (r.CTaken? || r.CRelease?)
    ensures ReaderOk(ConsumerStep(m, c, r, weak).0, c, ConsumerStep(m, c, r, weak).1)
  {
    assert At(ConsumerStep(m, c, r, weak).0, r.idx, Consuming(c));
  }

  lemma StoredKeepsOwn(m: Memory, c: Tid, r: Consumer, weak: bool)
    requires ReaderOk(m, c, r) && ConsumerCan(m, r) && (r.CFree? || r.CStored?)
    ensures ReaderOk(ConsumerStep(m, c, r, weak).0, c, ConsumerStep(m, c, r, weak).1)
  {
    assert At(m, r.idx, Consuming(c));
  }

  /** Whatever the consumer hands out is the next item in tail-exchange order. */
  lemma ConsumerDelivers(m: Memory, c: Tid, r: Consumer, weak: bool)
    requires Shape(m) && Placed(m) && ReaderOk(m, c, r) && ConsumerCan(m, r)
    requires 0 <= Delivered(m, r) <= |m.items|
    ensures var (m', r', got) := ConsumerStep(m, c, r, weak);
      && m'.items == m.items && 0 <= Delivered(m', r') <= |m.items|
      && m.items[..Delivered(m, r)] + got == m.items[..Delivered(m', r')]
  {
    Extend(m.items, Delivered(m, r));
  }

  lemma Extend(s: seq<Item>, d: nat)
    requires d <= |s|
    ensures s[..d] + [] == s[..d] && (d < |s| ==> s[..d] + [s[d]] == s[..d + 1])
  {
  }

  lemma ConsumerRely(m: Memory, c: Tid, r: Consumer, weak: bool, q: Tid, u: Producer)
    requires MemoryOk(m) && ReaderOk(m, c, r) && ConsumerCan(m, r) && ProducerOk(m, q, u)
    ensures ProducerOk(ConsumerStep(m, c, r, weak).0, q, u)
  {
    match r
    case CIdle =>
    case CStart =>
    case CHead(raw) =>
    case CNext(raw, next) =>
      if next != NULL && !weak {
        BeheadRely(m, c, q, u);
      }
    case CClaimed(idx) => DropRely(m, q, u);
    case CTaken(idx, consumed) =>
      if !consumed {
        WriteHeldRely(m, idx.node, m.cells[idx.node].(item := None), q, u);
      }
    case CRelease(idx, won) =>
    case CFree(idx, f, won) => WriteHeldRely(m, idx.node, m.cells[idx.node].(next := f), q, u);
    case CStored(idx, f, won) =>
      if m.free == f && !weak {
        PushRely(m, c, idx, q, u);
      }
  }

  // ---------------------------------------------------------------- all threads together

  /** No consumer but `c` exists. */
  ghost predicate Solo(s: State, c: Tid) {
    s.consumers.Keys <= {c}
  }

  ghost function Reader(s: State, c: Tid): Consumer {
    if c in s.consumers then s.consumers[c] else CIdle
  }

  ghost predicate LinksApart(s: State) {
    forall p, q | p in s.producers && q in s.producers && s.producers[p].PLink? && s.producers[q].PLink? && p != q ::
      s.producers[p].pred.node != s.producers[q].pred.node
  }

  ghost predicate Inv(s: State, c: Tid) {
    && Solo(s, c) && MemoryOk(s.m) && ReaderOk(s.m, c, Reader(s, c))
    && (forall p | p in s.producers :: ProducerOk(s.m, p, s.producers[p]))
    && LinksApart(s)
    && 0 <= Delivered(s.m, Reader(s, c)) <= |s.m.items|
    && s.out == s.m.items[..Delivered(s.m, Reader(s, c))]
  }

  lemma EmptyOk()
    ensures MemoryOk(EMPTY)
  {
    assert Shape(EMPTY) && Placed(EMPTY);
  }

  lemma InitInv(s: State, c: Tid)
    requires Init(s) && Solo(s, c)
    ensures Inv(s, c)
  {
    EmptyOk();
    assert s.out == s.m.items[..0];
  }

  lemma ProduceKeeps(s: State, p: Tid, item: Item, weak: bool, c: Tid)
    requires Inv(s, c) && Enabled(s, Produce(p, item, weak))
    ensures Inv(Do(s, Produce(p, item, weak)), c)
  {
    var s' := Do(s, Produce(p, item, weak));
    ProduceProducers(s, p, item, weak, c);
    ProduceSparesReader(s, p, item, weak, c);
    ProduceLinksApart(s, p, item, weak, c);
    SamePrefix(s.m.items, s'.m.items, Delivered(s.m, Reader(s, c)));
  }

  lemma SamePrefix(a: seq<Item>, b: seq<Item>, d: nat)
    requires a <= b && d <= |a|
    ensures a[..d] == b[..d]
  {
  }

  lemma ProduceProducers(s: State, p: Tid, item: Item, weak: bool, c: Tid)
    requires Inv(s, c) && Enabled(s, Produce(p, item, weak))
    ensures var s' := Do(s, Produce(p, item, weak));
      MemoryOk(s'.m) && forall q | q in s'.producers :: ProducerOk(s'.m, q, s'.producers[q])
  {
    var t, s' := s.producers[p], Do(s, Produce(p, item, weak));
    ProducerKeepsMemory(s.m, p, t, item, weak);
    forall q | q in s'.producers
      ensures ProducerOk(s'.m, q, s'.producers[q])
    {
      if q == p {
        ProducerKeepsOwn(s.m, p, t, item, weak);
      } else {
        ProducerRely(s.m, p, t, item, weak, q, s.producers[q]);
      }
    }
  }

  lemma ProduceSparesReader(s: State, p: Tid, item: Item, weak: bool, c: Tid)
    requires Inv(s, c) && Enabled(s, Produce(p, item, weak))
    requires MemoryOk(Do(s, Produce(p, item, weak)).m)
    ensures var s' := Do(s, Produce(p, item, weak));
      && Reader(s', c) == Reader(s, c) && ReaderOk(s'.m, c, Reader(s, c))
      && Delivered(s'.m, Reader(s, c)) == Delivered(s.m, Reader(s, c)) && s.m.items <= s'.m.items
  {
    ProducerSparesReader(s.m, p, s.producers[p], item, weak, c, Reader(s, c));
    ReaderFrame(s.m, Do(s, Produce(p, item, weak)).m, c, Reader(s, c));
  }

  lemma ProduceLinksApart(s: State, p: Tid, item: Item, weak: bool, c: Tid)
    requires Inv(s, c) && Enabled(s, Produce(p, item, weak))
    ensures LinksApart(Do(s, Produce(p, item, weak)))
  {
    forall q | q in s.producers && s.producers[q].PLink?
      ensures var t' := ProducerStep(s.m, p, s.producers[p], item, weak).1;
        t'.PLink? ==> t'.pred.node != s.producers[q].pred.node
    {
      NewLinkApart(s.m, p, s.producers[p], item, weak, s.producers[q]);
    }
  }

  lemma ConsumeKeeps(s: State, c: Tid, weak: bool)
    requires Inv(s, c) && Enabled(s, Consume(c, weak))
    ensures Inv(Do(s, Consume(c, weak)), c)
  {
    var r, s' := s.consumers[c], Do(s, Consume(c, weak));
    ConsumerKeepsMemory(s.m, c, r, weak);
    ConsumerKeepsOwn(s.m, c, r, weak);
    ConsumerDelivers(s.m, c, r, weak);
    forall q | q in s'.producers
      ensures ProducerOk(s'.m, q, s'.producers[q])
    {
      ConsumerRely(s.m, c, r, weak, q, s.producers[q]);
    }
  }

  // ---------------------------------------------------------------- no node and no item is lost

  /** Node `n` is held at `place`, read off the queue, the free list and the threads themselves. */
  ghost predicate Holder(s: State, n: nat, place: Place) {
    match place
    case Live(i) => s.m.front <= i < |s.m.chain| && s.m.chain[i].node == n
    case Free(i) => i < |s.m.list| && s.m.list[i].node == n
    case Producing(p) => p in s.producers && HasHand(s.producers[p]) && s.producers[p].idx.node == n
    case Consuming(c) => c in s.consumers && HoldsNode(s.consumers[c]) && s.consumers[c].idx.node == n
  }

  /** A node said to be in a thread's hand is the one that thread holds. */
  ghost predicate InHand(s: State, n: nat) {
    n in s.m.where ==>
      match s.m.where[n]
      case Producing(p) => Holder(s, n, Producing(p))
      case Consuming(c) => Holder(s, n, Consuming(c))
      case _ => true
  }

  /** Some producer is about to write the link out of position `i`. */
  ghost predicate Pending(s: State, i: nat) {
    i + 1 < |s.m.chain| && exists p :: p in s.producers && s.producers[p] == PLink(s.m.chain[i], s.m.chain[i + 1])
  }

  ghost predicate Unlinked(m: Memory, i: nat) {
    m.front <= i < |m.chain| - 1 && m.chain[i].node in m.cells && m.cells[m.chain[i].node].next == NULL
  }

  /** Every allocated node has a holder, and an unlinked live node a producer about to link it. */
  ghost predicate Accounted(s: State) {
    && (forall n | 0 < n < s.m.nodes :: n in s.m.where)
    && (forall n | n in s.m.where :: InHand(s, n))
    && (forall i | Unlinked(s.m, i) :: Pending(s, i))
  }

  lemma ProduceInHand(s: State, p: Tid, item: Item, weak: bool, n: nat)
    requires Enabled(s, Produce(p, item, weak)) && InHand(s, n)
    requires var t := s.producers[p];
      && HandOk(s.m, p, t) && s.m.nodes !in s.m.where
      && (t.PNext? && s.m.free == t.free ==> t.free.node in s.m.where && s.m.where[t.free.node].Free?)
    ensures InHand(Do(s, Produce(p, item, weak)), n)
  {
  }

  lemma ConsumeInHand(s: State, c: Tid, weak: bool, n: nat)
    requires Enabled(s, Consume(c, weak)) && InHand(s, n)
    requires var r := s.consumers[c];
      && (HoldsNode(r) ==> At(s.m, r.idx, Consuming(c))) && (r.CNext? ==> r.raw == s.m.head)
      && s.m.head.idx.node in s.m.where && s.m.where[s.m.head.idx.node].Live?
    ensures InHand(Do(s, Consume(c, weak)), n)
  {
  }

  lemma ProducePending(s: State, p: Tid, item: Item, weak: bool, i: nat)
    requires Enabled(s, Produce(p, item, weak)) && MemoryOk(s.m) && ProducerOk(s.m, p, s.producers[p])
    requires Unlinked(s.m, i) ==> Pending(s, i)
    requires var s' := Do(s, Produce(p, item, weak)); Unlinked(s'.m, i)
    ensures Pending(Do(s, Produce(p, item, weak)), i)
  {
    var t, s' := s.producers[p], Do(s, Produce(p, item, weak));
    assert At(s.m, s.m.chain[i], Live(i));
    if i == |s.m.chain| - 1 {
      assert s'.producers[p] == PLink(s'.m.chain[i], s'.m.chain[i + 1]);
    } else {
      assert s.m.cells[s.m.chain[i].node].next == NULL;
      var q :| q in s.producers && s.producers[q] == PLink(s.m.chain[i], s.m.chain[i + 1]);
      assert s'.producers[q] == s.producers[q];
    }
  }

  lemma ProduceAccounts(s: State, p: Tid, item: Item, weak: bool, c: Tid)
    requires Inv(s, c) && Accounted(s) && Enabled(s, Produce(p, item, weak))
    ensures Accounted(Do(s, Produce(p, item, weak)))
  {
    var s' := Do(s, Produce(p, item, weak));
    assert ProducerOk(s.m, p, s.producers[p]);
    forall n
      ensures InHand(s', n)
    {
      ProduceReadyForHands(s.m, p, s.producers[p]);
      ProduceInHand(s, p, item, weak, n);
    }
    forall i | Unlinked(s'.m, i)
      ensures Pending(s', i)
    {
      ProducePending(s, p, item, weak, i);
    }
    ProduceWhere(s.m, p, s.producers[p], item, weak);
  }

  lemma ProduceReadyForHands(m: Memory, p: Tid, t: Producer)
    requires MemoryOk(m) && ProducerOk(m, p, t)
    ensures m.nodes !in m.where
    ensures t.PNext? && m.free == t.free ==> t.free.node in m.where && m.where[t.free.node].Free?
  {
    if t.PNext? && m.free == t.free {
      ListHeadIsCurrent(m, t.free);
    }
  }

  lemma ProduceWhere(m: Memory, p: Tid, t: Producer, item: Item, weak: bool)
    requires ProducerCan(m, t) && forall n | 0 < n < m.nodes :: n in m.where
    ensures var m' := ProducerStep(m, p, t, item, weak).0; forall n | 0 < n < m'.nodes :: n in m'.where
  {
  }

  lemma ConsumeAccounts(s: State, c: Tid, weak: bool)
    requires Inv(s, c) && Accounted(s) && Enabled(s, Consume(c, weak))
    ensures Accounted(Do(s, Consume(c, weak)))
  {
    var r, s' := s.consumers[c], Do(s, Consume(c, weak));
    assert At(s.m, s.m.head.idx, Live(s.m.front));
    forall n | n in s'.m.where
      ensures InHand(s', n)
    {
      ConsumeInHand(s, c, weak, n);
    }
    forall i | Unlinked(s'.m, i)
      ensures Pending(s', i)
    {
      ConsumeUnlinked(s.m, c, r, weak, i);
    }
  }

  lemma ConsumeUnlinked(m: Memory, c: Tid, r: Consumer, weak: bool, i: nat)
    requires MemoryOk(m) && ReaderOk(m, c, r) && ConsumerCan(m, r) && Unlinked(ConsumerStep(m, c, r, weak).0, i)
    ensures Unlinked(m, i) && ConsumerStep(m, c, r, weak).0.chain == m.chain
  {
    assert At(m, m.chain[i], Live(i));
  }

  // ---------------------------------------------------------------- whole runs

  /** A run: each state follows from the one before by a step of some thread. */
  /** A stretch of a run: consecutive steps from any state. */
  ghost predicate Steps(trace: seq<State>, acts: seq<Action>) {
    && |trace| == |acts| + 1
    && forall i {:trigger acts[i]} | 0 <= i < |acts| ::
         Enabled(trace[i], acts[i]) && trace[i + 1] == Do(trace[i], acts[i])
  }

  ghost predicate Run(trace: seq<State>, acts: seq<Action>) {
    Steps(trace, acts) && Init(trace[0])
  }

  lemma InitAccounted(s: State)
    requires Init(s)
    ensures Accounted(s)
  {
  }

  lemma StepKeeps(s: State, a: Action, c: Tid)
    requires Inv(s, c) && Accounted(s) && Enabled(s, a)
    ensures Inv(Do(s, a), c) && Accounted(Do(s, a))
  {
    match a
    case Produce(p, item, weak) =>
      ProduceKeeps(s, p, item, weak, c);
      ProduceAccounts(s, p, item, weak, c);
    case Consume(d, weak) =>
      assert d == c;
      ConsumeKeeps(s, c, weak);
      ConsumeAccounts(s, c, weak);
  }

  lemma {:induction false} StepsKeep(trace: seq<State>, acts: seq<Action>, c: Tid, n: nat)
    requires Steps(trace, acts) && n < |trace| && Inv(trace[0], c) && Accounted(trace[0])
    ensures Inv(trace[n], c) && Accounted(trace[n])
  {
    if n > 0 {
      StepsKeep(trace, acts, c, n - 1);
      StepKeeps(trace[n - 1], acts[n - 1], c);
    }
  }

  lemma RunInv(trace: seq<State>, acts: seq<Action>, c: Tid, n: nat)
    requires Run(trace, acts) && n < |trace| && Solo(trace[0], c)
    ensures Inv(trace[n], c) && Accounted(trace[n])
  {
    InitInv(trace[0], c);
    InitAccounted(trace[0]);
    StepsKeep(trace, acts, c, n);
  }

  /**
   * With one consumer and any number of producers, in every interleaving what has been
   * dequeued is a prefix, in order, of what was enqueued in tail-exchange order.
   */
  lemma FifoWithOneConsumer(trace: seq<State>, acts: seq<Action>, c: Tid, n: nat)
    requires Run(trace, acts) && n < |trace| && Solo(trace[0], c)
    ensures trace[n].out <= trace[n].m.items
  {
    RunInv(trace, acts, c, n);
  }

  /** At a consumed head without a successor all is delivered, or all up to it and its link is not written yet. */
  lemma EmptyLoad(s: State, c: Tid)
    requires Inv(s, c) && c in s.consumers && s.consumers[c].CHead? && s.m.head.consumed
    requires s.m.head.idx.node in s.m.cells && s.m.cells[s.m.head.idx.node].next == NULL
    ensures
      || s.out == s.m.items
      || (Unlinked(s.m, s.m.front) && s.m.front < |s.m.items| && s.out == s.m.items[..s.m.front])
  {
  }

  /** In every run each allocated node has exactly one holder. */
  lemma OneHolder(trace: seq<State>, acts: seq<Action>, c: Tid, n: nat, node: nat)
    requires Run(trace, acts) && n < |trace| && Solo(trace[0], c) && 0 < node < trace[n].m.nodes
    ensures exists place :: Holder(trace[n], node, place)
    ensures forall x, y | Holder(trace[n], node, x) && Holder(trace[n], node, y) :: x == y
  {
    RunInv(trace, acts, c, n);
    var s := trace[n];
    assert InHand(s, node);
    assert Holder(s, node, s.m.where[node]);
    forall x | Holder(s, node, x)
      ensures x == s.m.where[node]
    {
      match x
      case Live(i) => assert At(s.m, s.m.chain[i], Live(i));
      case Free(i) => assert At(s.m, s.m.list[i], Free(i));
      case Producing(p) => assert ProducerOk(s.m, p, s.producers[p]);
      case Consuming(d) =>
    }
  }

  /** A pop that succeeds installs the node that really lies below the popped one. */
  lemma PopInstallsSuccessor(trace: seq<State>, acts: seq<Action>, c: Tid, n: nat, p: Tid)
    requires Run(trace, acts) && n < |trace| && Solo(trace[0], c) && p in trace[n].producers
    requires trace[n].producers[p].PNext? && trace[n].m.free == trace[n].producers[p].free
    ensures var s := trace[n];
      && s.m.list != [] && s.m.list[|s.m.list| - 1] == s.producers[p].free
      && s.producers[p].next == if |s.m.list| == 1 then NULL else s.m.list[|s.m.list| - 2]
  {
    RunInv(trace, acts, c, n);
    ReadsSuccessor(trace[n].m, p, trace[n].producers[p]);
  }

  lemma ReadsSuccessor(m: Memory, p: Tid, t: Producer)
    requires MemoryOk(m) && ProducerOk(m, p, t) && t.PNext? && m.free == t.free
    ensures m.list != [] && m.list[|m.list| - 1] == t.free
    ensures t.next == if |m.list| == 1 then NULL else m.list[|m.list| - 2]
  {
    ListHeadIsCurrent(m, m.free);
    assert BelowOk(m, |m.list| - 1);
  }

  /** The node whose link an enqueuer writes last is still in the queue, right before its own. */
  lemma PredecessorStillLive(trace: seq<State>, acts: seq<Action>, c: Tid, n: nat, p: Tid)
    requires Run(trace, acts) && n < |trace| && Solo(trace[0], c)
    requires p in trace[n].producers && trace[n].producers[p].PLink?
    ensures var s := trace[n];
      exists i ::
        && s.m.front <= i < |s.m.chain| - 1
        && s.m.chain[i] == s.producers[p].pred && s.m.chain[i + 1] == s.producers[p].idx
  {
    RunInv(trace, acts, c, n);
    var s := trace[n];
    assert ProducerOk(s.m, p, s.producers[p]);
    var i := s.m.where[s.producers[p].pred.node].pos;
    assert s.m.chain[i] == s.producers[p].pred;
  }

  /** No thread ever dereferences an index without a node behind it. */
  lemma NoDanglingStep(trace: seq<State>, acts: seq<Action>, c: Tid, n: nat)
    requires Run(trace, acts) && n < |trace| && Solo(trace[0], c)
    ensures forall p | p in trace[n].producers :: ProducerCan(trace[n].m, trace[n].producers[p])
    ensures forall d | d in trace[n].consumers :: ConsumerCan(trace[n].m, trace[n].consumers[d])
  {
    RunInv(trace, acts, c, n);
    var s := trace[n];
    forall p | p in s.producers
      ensures ProducerCan(s.m, s.producers[p])
    {
      ProducerKeepsMemory(s.m, p, s.producers[p], 0, false);
    }
    if c in s.consumers {
      ConsumerKeepsMemory(s.m, c, s.consumers[c], false);
    }
  }
}
