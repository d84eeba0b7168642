/**
 * `ypipe_t` over `yqueue_t`: one writer and one reader share a list of chunks of `n` slots,
 * one spare chunk and one pointer `c`. A step performs one access to shared memory together
 * with the assignments to the thread's own fields around it. Pointers are addresses (chunk
 * and slot); `malloc` may hand out any chunk that is not allocated, so addresses are reused.
 */
module YPipe {

  type Item = int

  /** A chunk's identity; 0 is the null pointer. */
  type Cid = nat

  /** `Ptr(0, _)` is null; `Ptr(k, n)` is one past the last slot of chunk `k`. */
  datatype Ptr = Ptr(chunk: Cid, slot: nat)

  const NULL: Ptr := Ptr(0, 0)

  datatype Chunk = Chunk(values: seq<Item>, prev: Cid, next: Cid)

  datatype Place = Live(j: nat) | Spare | WriterHand | ReaderHand

  /**
   * Shared memory, with its history: positions count the slots ever pushed, `vals[i]` is the
   * value written at position `i`, `chain[j]` the chunk of the positions `j * n` onwards, and
   * `front` and `flushed` the reader's and the last published position. `open` marks a new
   * last chunk whose `prev` link is not written yet.
   */
  datatype Memory = Memory(
    n: nat, chunks: map<Cid, Chunk>, spare: Cid, c: Ptr,
    where: map<Cid, Place>, chain: seq<Cid>, vals: seq<Item>, front: nat, flushed: nat, open: bool)

  datatype WriterAt =
    | WIdle
    | WFull(complete: bool)                     // end passed the last slot of its chunk
    | WGot(complete: bool, sc: Cid)             // took the spare chunk
    | WLinked(complete: bool, k: Cid)           // appended chunk k, its prev link pending
    | WUnend(v: Item)                           // back moved, end not yet
    | WFree(k: Cid, v: Item)                    // end left chunk k
    | WUnpushed(v: Item)                        // un-push done, value not read yet
    | WWake                                     // the exchange failed: the reader sleeps

  /** The writer's fields; `wpos` and `fpos` are the positions of the pointers `w` and `f`. */
  datatype Writer = Writer(back: Ptr, end: Ptr, w: Ptr, f: Ptr, wpos: nat, fpos: nat, at: WriterAt)

  datatype ReaderAt =
    | RIdle
    | RHave                                     // a value is available
    | RNext                                     // begin passed the last slot of its chunk
    | RClear(o: Cid)                            // moved to the next chunk, prev link pending
    | RSpare(o: Cid)                            // about to make chunk o the spare one
    | RFree(cs: Cid)                            // about to free the old spare

  /** The reader's fields; `rpos` is the position of the pointer `r` when it is not null. */
  datatype Reader = Reader(begin: Ptr, r: Ptr, rpos: nat, at: ReaderAt)

  // ---------------------------------------------------------------- addresses

  /** The number of the chunk that holds position `i`, and its slot in that chunk. */
  function Num(i: nat, n: nat): nat
    requires n > 0
  {
    if i < n then 0 else 1 + Num(i - n, n)
  }

  function Off(i: nat, n: nat): (r: nat)
    requires n > 0
    ensures r < n
  {
    if i < n then i else Off(i - n, n)
  }

  function Addr(m: Memory, i: nat): Ptr
    requires m.n > 0 && Num(i, m.n) < |m.chain|
  {
    Ptr(m.chain[Num(i, m.n)], Off(i, m.n))
  }

  lemma {:induction false} NextSlot(i: nat, n: nat)
    requires n > 0
    ensures Off(i, n) + 1 < n ==> Num(i + 1, n) == Num(i, n) && Off(i + 1, n) == Off(i, n) + 1
    ensures Off(i, n) + 1 == n ==> Num(i + 1, n) == Num(i, n) + 1 && Off(i + 1, n) == 0
    decreases i
  {
    if i >= n {
      NextSlot(i - n, n);
    }
  }

  lemma {:induction false} NumMonotone(i: nat, k: nat, n: nat)
    requires n > 0 && i <= k
    ensures Num(i, n) <= Num(k, n)
    decreases i
  {
    if i >= n {
      NumMonotone(i - n, k - n, n);
    }
  }

  lemma {:induction false} SamePosition(i: nat, k: nat, n: nat)
    requires n > 0 && Num(i, n) == Num(k, n) && Off(i, n) == Off(k, n)
    ensures i == k
    decreases i
  {
    if i >= n && k >= n {
      SamePosition(i - n, k - n, n);
    }
  }

  // ---------------------------------------------------------------- writes to shared memory

  function WithChunk(m: Memory, k: Cid, chunk: Chunk): Memory {
    m.(chunks := m.chunks[k := chunk])
  }

  function Store(m: Memory, p: Ptr, v: Item): Memory
    requires p.chunk in m.chunks && p.slot < |m.chunks[p.chunk].values|
  {
    var chunk := m.chunks[p.chunk];
    WithChunk(m, p.chunk, chunk.(values := chunk.values[p.slot := v])).(vals := m.vals + [v])
  }

  function TakeSpare(m: Memory): Memory {
    m.(spare := 0, where := if m.spare == 0 then m.where else m.where[m.spare := WriterHand])
  }

  function Blank(n: nat): Chunk {
    Chunk(seq(n, _ => 0), 0, 0)
  }

  /** Chunk `k`, taken from the spare or newly allocated, becomes the successor of the last chunk `e`. */
  function AppendChunk(m: Memory, e: Cid, k: Cid): Memory
    requires e in m.chunks
  {
    var chunks := if k in m.chunks then m.chunks else m.chunks[k := Blank(m.n)];
    m.(chunks := chunks[e := chunks[e].(next := k)], chain := m.chain + [k],
       where := m.where[k := Live(|m.chain|)], open := true)
  }

  function SetPrev(m: Memory, k: Cid, e: Cid): Memory
    requires k in m.chunks
  {
    WithChunk(m, k, m.chunks[k].(prev := e)).(open := false)
  }

  function DropLast(m: Memory, k: Cid): Memory {
    m.(chain := if m.chain == [] then [] else m.chain[..|m.chain| - 1], where := m.where[k := WriterHand])
  }

  /** Frees the successor of chunk `e` and clears the link to it. */
  function FreeAfter(m: Memory, e: Cid): Memory
    requires e in m.chunks
  {
    var d := m.chunks[e].next;
    m.(chunks := (m.chunks - {d})[e := m.chunks[e].(next := 0)], where := m.where - {d})
  }

  function Publish(m: Memory, p: Ptr, pos: nat): Memory {
    m.(c := p, flushed := pos)
  }

  /** The reader leaves the slot at `begin`, and with its last slot also the chunk. */
  function Consume(m: Memory, begin: Ptr): Memory {
    m.(front := m.front + 1, where := if begin.slot + 1 == m.n then m.where[begin.chunk := ReaderHand] else m.where)
  }

  function SwapSpare(m: Memory, o: Cid): Memory {
    m.(spare := o, where := (if m.spare == 0 then m.where else m.where[m.spare := ReaderHand])[o := Spare])
  }

  function Free(m: Memory, k: Cid): Memory {
    m.(chunks := m.chunks - {k}, where := m.where - {k})
  }

  // ---------------------------------------------------------------- steps

  datatype Call = Write(v: Item, incomplete: bool) | Unwrite | Flush

  ghost predicate InBounds(m: Memory, p: Ptr) {
    p.chunk in m.chunks && p.slot < |m.chunks[p.chunk].values|
  }

  /** What the writer's next step dereferences exists, and `alloc` is not allocated yet. */
  ghost predicate WriterCan(m: Memory, t: Writer, call: Call, alloc: Cid) {
    match t.at
    case WIdle =>
      && (call.Write? ==> InBounds(m, t.back))
      && (call.Unwrite? && t.f != t.back ==> m.vals != [] && t.back.chunk in m.chunks)
    case WFull(_) => true
    case WGot(_, sc) => t.end.chunk in m.chunks && if sc == 0 then alloc != 0 && alloc !in m.chunks else sc in m.chunks
    case WLinked(_, k) => t.end.chunk in m.chunks && k in m.chunks
    case WUnend(_) => t.end.chunk in m.chunks
    case WFree(_, _) => t.end.chunk in m.chunks
    case WUnpushed(_) => InBounds(m, t.back)
    case WWake => true
  }

  /** The third component is what `unwrite` hands back. */
  ghost function WriterStep(m: Memory, t: Writer, call: Call, alloc: Cid): (Memory, Writer, seq<Item>)
    requires WriterCan(m, t, call, alloc)
  {
    match t.at
    case WIdle =>
      (match call
       case Write(v, incomplete) =>
         var m' := Store(m, t.back, v);
         var t' := t.(back := t.end, end := Ptr(t.end.chunk, t.end.slot + 1));
         if t.end.slot + 1 == m.n then (m', t'.(at := WFull(!incomplete)), [])
         else if incomplete then (m', t', [])
         else (m', t'.(f := t.end, fpos := |m.vals| + 1), [])
       case Unwrite =>
         if t.f == t.back then (m, t, [])
         else
           var m' := m.(vals := m.vals[..|m.vals| - 1]);
           var v := m.vals[|m.vals| - 1];
           var back := if t.back.slot > 0 then Ptr(t.back.chunk, t.back.slot - 1)
                       else Ptr(m.chunks[t.back.chunk].prev, if m.n > 0 then m.n - 1 else 0);
           if t.end.slot > 0 then
             (m', t.(back := back, end := Ptr(t.end.chunk, t.end.slot - 1), at := WUnpushed(v)), [])
           else (m', t.(back := back, at := WUnend(v)), [])
       case Flush =>
         if t.w == t.f then (m, t, [])
         else if m.c == t.w then (Publish(m, t.f, t.fpos), t.(w := t.f, wpos := t.fpos), [])
         else (m, t.(at := WWake), []))
    case WFull(complete) => (TakeSpare(m), t.(at := WGot(complete, m.spare)), [])
    case WGot(complete, sc) =>
      var k := if sc == 0 then alloc else sc;
      (AppendChunk(m, t.end.chunk, k), t.(at := WLinked(complete, k)), [])
    case WLinked(complete, k) =>
      var t' := t.(end := Ptr(m.chunks[t.end.chunk].next, 0), at := WIdle);
      (SetPrev(m, k, t.end.chunk), if complete then t'.(f := t.back, fpos := |m.vals|) else t', [])
    case WUnend(v) =>
      (DropLast(m, t.end.chunk),
       t.(end := Ptr(m.chunks[t.end.chunk].prev, if m.n > 0 then m.n - 1 else 0), at := WFree(t.end.chunk, v)), [])
    case WFree(_, v) => (FreeAfter(m, t.end.chunk), t.(at := WUnpushed(v)), [])
    case WUnpushed(_) => (m, t.(at := WIdle), [m.chunks[t.back.chunk].values[t.back.slot]])
    case WWake => (Publish(m, t.f, t.fpos), t.(w := t.f, wpos := t.fpos, at := WIdle), [])
  }

  ghost predicate ReaderCan(m: Memory, t: Reader) {
    match t.at
    case RIdle => true
    case RHave => InBounds(m, t.begin)
    case RNext => t.begin.chunk in m.chunks
    case RClear(_) => t.begin.chunk in m.chunks
    case RSpare(_) => true
    case RFree(_) => true
  }

  /** `check` stops after `check_read`; the third component is what `read` hands out. */
  ghost function ReaderStep(m: Memory, t: Reader, check: bool): (Memory, Reader, seq<Item>)
    requires ReaderCan(m, t)
  {
    match t.at
    case RIdle =>
      if t.begin != t.r && t.r != NULL then (m, if check then t else t.(at := RHave), [])
      else
        var m' := if m.c == t.begin then m.(c := NULL) else m;
        var t' := t.(r := m.c, rpos := m.flushed);
        if t.begin == m.c || m.c == NULL || check then (m', t', []) else (m', t'.(at := RHave), [])
    case RHave =>
      var t' := t.(begin := Ptr(t.begin.chunk, t.begin.slot + 1),
                   at := if t.begin.slot + 1 == m.n then RNext else RIdle);
      (Consume(m, t.begin), t', [m.chunks[t.begin.chunk].values[t.begin.slot]])
    case RNext => (m, t.(begin := Ptr(m.chunks[t.begin.chunk].next, 0), at := RClear(t.begin.chunk)), [])
    case RClear(o) => (WithChunk(m, t.begin.chunk, m.chunks[t.begin.chunk].(prev := 0)), t.(at := RSpare(o)), [])
    case RSpare(o) => (SwapSpare(m, o), t.(at := if m.spare == 0 then RIdle else RFree(m.spare)), [])
    case RFree(cs) => (Free(m, cs), t.(at := RIdle), [])
  }

  // ---------------------------------------------------------------- invariant of shared memory

  /** The chunk the reader is in, by number. */
  function Low(m: Memory): nat
    requires m.n > 0
  {
    Num(m.front, m.n)
  }

  ghost predicate Shape(m: Memory) {
    && m.n > 0 && m.front <= m.flushed <= |m.vals|
    && Num(|m.vals|, m.n) < |m.chain|
    && (m.open ==> Num(|m.vals|, m.n) + 1 < |m.chain|)
  }

  /** Every allocated chunk is in one place; the live ones are those from the reader's on. */
  ghost predicate Placed(m: Memory)
    requires Shape(m)
  {
    && (forall j | Low(m) <= j < |m.chain| :: m.chain[j] in m.where && m.where[m.chain[j]] == Live(j))
    && (forall k | k in m.where :: k != 0 && k in m.chunks && |m.chunks[k].values| == m.n)
    && (forall k | k in m.chunks :: k in m.where)
    && (forall k | k in m.where && m.where[k].Live? :: Low(m) <= m.where[k].j < |m.chain| && m.chain[m.where[k].j] == k)
    && (m.spare != 0 ==> m.spare in m.where)
    && (forall k | k in m.where :: m.where[k] == Spare <==> k == m.spare)
  }

  /** Chunk `j` is linked to the next one ... */
  ghost predicate NextOk(m: Memory, j: int) {
    0 <= j < |m.chain| - 1 && m.chain[j] in m.chunks && m.chunks[m.chain[j]].next == m.chain[j + 1]
  }

  /** ... and back. */
  ghost predicate PrevOk(m: Memory, j: int) {
    0 <= j < |m.chain| - 1 && m.chain[j + 1] in m.chunks && m.chunks[m.chain[j + 1]].prev == m.chain[j]
  }

  ghost predicate Links(m: Memory)
    requires Shape(m) && Placed(m)
  {
    && (forall j | Low(m) <= j < |m.chain| - 1 :: NextOk(m, j))
    && (forall j | Low(m) <= j < |m.chain| - (if m.open then 2 else 1) :: PrevOk(m, j))
  }

  /** Every position not yet read holds its value. */
  ghost predicate Values(m: Memory)
    requires Shape(m) && Placed(m)
  {
    forall i | m.front <= i < |m.vals| :: Holds(m, i, m.vals[i])
  }

  ghost predicate Holds(m: Memory, i: nat, v: Item) {
    && m.n > 0 && Num(i, m.n) < |m.chain| && m.chain[Num(i, m.n)] in m.chunks
    && Off(i, m.n) < |m.chunks[m.chain[Num(i, m.n)]].values| && m.chunks[m.chain[Num(i, m.n)]].values[Off(i, m.n)] == v
  }

  /** The shared pointer is null once the reader drained all that was published, else it points there. */
  ghost predicate Handshake(m: Memory)
    requires Shape(m)
  {
    NumMonotone(m.flushed, |m.vals|, m.n);
    (m.c == NULL && m.front == m.flushed) || m.c == Addr(m, m.flushed)
  }

  ghost predicate MemoryOk(m: Memory) {
    Shape(m) && Placed(m) && Links(m) && Values(m) && Handshake(m)
  }

  // ---------------------------------------------------------------- what each thread relies on

  /** `p` is the address of position `i`. */
  ghost predicate PointsTo(m: Memory, p: Ptr, i: nat) {
    m.n > 0 && Num(i, m.n) < |m.chain| && p == Addr(m, i)
  }

  /** Where `end` is: at the given position, with the chain ending in its chunk. */
  ghost predicate EndAt(m: Memory, p: Ptr, i: nat) {
    PointsTo(m, p, i) && |m.chain| == Num(i, m.n) + 1
  }

  /** `end` just left the last slot of the last chunk. */
  ghost predicate EndPast(m: Memory, p: Ptr)
    requires Shape(m)
  {
    p == Ptr(m.chain[Num(|m.vals|, m.n)], m.n) && Off(|m.vals| + 1, m.n) == 0
  }

  ghost predicate WriterOk(m: Memory, t: Writer)
    requires Shape(m)
  {
    var b := |m.vals|;
    && PointsTo(m, t.back, b) && PointsTo(m, t.w, t.wpos) && PointsTo(m, t.f, t.fpos)
    && t.wpos == m.flushed && t.wpos <= t.fpos <= b
    && (m.open <==> t.at.WLinked?)
    && match t.at
       case WIdle => EndAt(m, t.end, b + 1)
       case WFull(_) => EndPast(m, t.end) && |m.chain| == Num(b, m.n) + 1
       case WGot(_, sc) =>
         && EndPast(m, t.end) && |m.chain| == Num(b, m.n) + 1
         && (sc != 0 ==> sc in m.where && m.where[sc] == WriterHand)
       case WLinked(_, k) => EndPast(m, t.end) && |m.chain| == Num(b, m.n) + 2 && m.chain[Num(b, m.n) + 1] == k
       case WUnend(v) => EndAt(m, t.end, b + 2) && t.end.slot == 0 && Holds(m, b, v)
       case WFree(k, v) =>
         && EndAt(m, t.end, b + 1) && Holds(m, b, v)
         && k in m.where && m.where[k] == WriterHand
         && t.end.chunk in m.chunks && m.chunks[t.end.chunk].next == k
       case WUnpushed(v) => EndAt(m, t.end, b + 1) && Holds(m, b, v)
       case WWake => EndAt(m, t.end, b + 1) && m.c == NULL && t.wpos < t.fpos
  }

  ghost predicate Retired(m: Memory, o: Cid) {
    o in m.where && m.where[o] == ReaderHand
  }

  ghost predicate ReaderOk(m: Memory, t: Reader)
    requires Shape(m)
  {
    && (t.r != NULL ==> m.front <= t.rpos <= m.flushed && PointsTo(m, t.r, t.rpos))
    && match t.at
       case RIdle => PointsTo(m, t.begin, m.front)
       case RHave => PointsTo(m, t.begin, m.front) && t.r != NULL && m.front < t.rpos
       case RNext =>
         && Retired(m, t.begin.chunk) && Off(m.front, m.n) == 0 && t.begin.chunk in m.chunks
         && Num(m.front, m.n) < |m.chain| && m.chunks[t.begin.chunk].next == m.chain[Num(m.front, m.n)]
       case RClear(o) => PointsTo(m, t.begin, m.front) && Retired(m, o)
       case RSpare(o) => PointsTo(m, t.begin, m.front) && Retired(m, o)
       case RFree(cs) => PointsTo(m, t.begin, m.front) && Retired(m, cs)
  }

  // ---------------------------------------------------------------- the writer's writes keep memory sound

  /** Two live positions have the same address only when they are equal. */
  lemma DistinctAddresses(m: Memory, i: nat, k: nat)
    requires Shape(m) && Placed(m) && m.front <= i && m.front <= k
    requires Num(i, m.n) < |m.chain| && Num(k, m.n) < |m.chain|
    ensures Addr(m, i) == Addr(m, k) <==> i == k
  {
    NumMonotone(m.front, i, m.n);
    NumMonotone(m.front, k, m.n);
    if Num(i, m.n) == Num(k, m.n) && Off(i, m.n) == Off(k, m.n) {
      SamePosition(i, k, m.n);
    }
  }

  /** Positions up to the back are in chunks of the chain, from the reader's on. */
  lemma InChain(m: Memory, i: nat)
    requires Shape(m) && m.front <= i <= |m.vals|
    ensures Low(m) <= Num(i, m.n) <= Num(|m.vals|, m.n) < |m.chain|
  {
    NumMonotone(m.front, i, m.n);
    NumMonotone(i, |m.vals|, m.n);
  }

  ghost predicate SameNext(m: Memory, m': Memory, k: Cid) {
    k in m.chunks && k in m'.chunks && m'.chunks[k].next == m.chunks[k].next
  }

  ghost predicate SamePrev(m: Memory, m': Memory, k: Cid) {
    k in m.chunks && k in m'.chunks && m'.chunks[k].prev == m.chunks[k].prev
  }

  ghost predicate SameValues(m: Memory, m': Memory, k: Cid) {
    k in m.chunks && k in m'.chunks && m'.chunks[k].values == m.chunks[k].values
  }

  /** Links survive whatever keeps those inside the live part of the chain. */
  lemma LinksFrame(m: Memory, m': Memory)
    requires Shape(m) && Placed(m) && Links(m) && Shape(m') && Placed(m')
    requires Low(m) <= Low(m') && m'.chain <= m.chain && m'.open == m.open && (m'.chain == m.chain || !m.open)
    requires forall j | Low(m') <= j < |m'.chain| - 1 :: SameNext(m, m', m.chain[j])
    requires forall j | Low(m') < j < |m'.chain| :: SamePrev(m, m', m.chain[j])
    ensures Links(m')
  {
    forall j | Low(m') <= j < |m'.chain| - 1
      ensures NextOk(m', j)
    {
      assert NextOk(m, j) && SameNext(m, m', m.chain[j]);
    }
    forall j | Low(m') <= j < |m'.chain| - (if m'.open then 2 else 1)
      ensures PrevOk(m', j)
    {
      assert PrevOk(m, j) && SamePrev(m, m', m.chain[j + 1]);
    }
  }

  /** Values survive whatever keeps the live part of the chain and its slots. */
  lemma ValuesFrame(m: Memory, m': Memory)
    requires Shape(m) && Placed(m) && Values(m) && Shape(m') && Placed(m')
    requires m'.n == m.n && m'.vals <= m.vals && m.front <= m'.front
    requires forall j | Low(m) <= j <= Num(|m.vals|, m.n) ::
      j < |m'.chain| && m'.chain[j] == m.chain[j] && SameValues(m, m', m.chain[j])
    ensures Values(m')
  {
    forall i | m'.front <= i < |m'.vals|
      ensures Holds(m', i, m'.vals[i])
    {
      InChain(m, i);
      assert Holds(m, i, m.vals[i]) && SameValues(m, m', m.chain[Num(i, m.n)]);
    }
  }

  lemma StorePlaces(m: Memory, p: Ptr, v: Item)
    requires Shape(m) && Placed(m) && !m.open && PointsTo(m, p, |m.vals|) && Num(|m.vals| + 1, m.n) < |m.chain|
    ensures InBounds(m, p) && Shape(Store(m, p, v)) && Placed(Store(m, p, v))
  {
    InChain(m, |m.vals|);
  }

  lemma StoreKeeps(m: Memory, p: Ptr, v: Item)
    requires MemoryOk(m) && !m.open && PointsTo(m, p, |m.vals|) && Num(|m.vals| + 1, m.n) < |m.chain|
    ensures InBounds(m, p) && MemoryOk(Store(m, p, v))
  {
    StorePlaces(m, p, v);
    var m' := Store(m, p, v);
    InChain(m, m.flushed);
    LinksFrame(m, m');
    forall i | m'.front <= i < |m'.vals|
      ensures Holds(m', i, m'.vals[i])
    {
      StoreHolds(m, p, v, i);
    }
  }

  lemma StoreHolds(m: Memory, p: Ptr, v: Item, i: nat)
    requires Shape(m) && Placed(m) && InBounds(m, p) && PointsTo(m, p, |m.vals|) && m.front <= i <= |m.vals|
    requires i < |m.vals| ==> Holds(m, i, m.vals[i])
    ensures Holds(Store(m, p, v), i, (m.vals + [v])[i])
  {
    InChain(m, i);
    InChain(m, |m.vals|);
    DistinctAddresses(m, i, |m.vals|);
  }

  lemma TakeSparePlaces(m: Memory)
    requires Shape(m) && Placed(m)
    ensures Shape(TakeSpare(m)) && Placed(TakeSpare(m))
  {
  }

  lemma TakeSpareKeeps(m: Memory)
    requires MemoryOk(m)
    ensures MemoryOk(TakeSpare(m))
  {
    TakeSparePlaces(m);
    InChain(m, |m.vals|);
    InChain(m, m.flushed);
    LinksFrame(m, TakeSpare(m));
    ValuesFrame(m, TakeSpare(m));
  }

  lemma AppendChunkPlaces(m: Memory, e: Cid, k: Cid)
    requires Shape(m) && Placed(m) && |m.chain| == Num(|m.vals|, m.n) + 1 && k != 0 && e in m.chunks
    requires (k in m.where && m.where[k] == WriterHand) || k !in m.chunks
    ensures Shape(AppendChunk(m, e, k)) && Placed(AppendChunk(m, e, k))
  {
    NumMonotone(m.front, |m.vals|, m.n);
  }

  lemma AppendChunkLinks(m: Memory, e: Cid, k: Cid)
    requires Shape(m) && Placed(m) && Links(m) && !m.open && |m.chain| == Num(|m.vals|, m.n) + 1
    requires Low(m) < |m.chain| && e == m.chain[|m.chain| - 1] && e in m.chunks && k != e
    requires k in m.chunks ==> m.where[k] == WriterHand
    requires Shape(AppendChunk(m, e, k)) && Placed(AppendChunk(m, e, k))
    ensures Links(AppendChunk(m, e, k))
  {
    var m' := AppendChunk(m, e, k);
    forall j | Low(m) <= j < |m.chain| - 1
      ensures NextOk(m', j)
    {
      assert NextOk(m, j) && m.where[m.chain[j]] == Live(j) && m.where[e] == Live(|m.chain| - 1);
    }
    forall j | Low(m) <= j < |m.chain| - 1
      ensures PrevOk(m', j)
    {
      assert PrevOk(m, j);
    }
    assert NextOk(m', |m.chain| - 1);
  }

  lemma AppendChunkKeeps(m: Memory, e: Cid, k: Cid)
    requires MemoryOk(m) && !m.open && e == m.chain[|m.chain| - 1] && |m.chain| == Num(|m.vals|, m.n) + 1 && k != 0
    requires (k in m.where && m.where[k] == WriterHand) || k !in m.chunks
    ensures e in m.chunks && MemoryOk(AppendChunk(m, e, k))
  {
    InChain(m, |m.vals|);
    InChain(m, m.flushed);
    AppendChunkPlaces(m, e, k);
    AppendChunkLinks(m, e, k);
    ValuesFrame(m, AppendChunk(m, e, k));
  }

  /** Rewriting the links of a chunk moves nothing and keeps every value. */
  lemma RelinkKeeps(m: Memory, k: Cid, chunk: Chunk)
    requires MemoryOk(m) && k in m.chunks && chunk.values == m.chunks[k].values
    ensures var m' := WithChunk(m, k, chunk); Shape(m') && Placed(m') && Values(m') && Handshake(m')
  {
    var m' := WithChunk(m, k, chunk);
    assert Placed(m');
    InChain(m, m.flushed);
    InChain(m, |m.vals|);
    ValuesFrame(m, m');
  }

  lemma SetPrevLinks(m: Memory, e: Cid, k: Cid)
    requires Shape(m) && Placed(m) && Links(m) && m.open && |m.chain| >= 2 && k in m.chunks
    requires k == m.chain[|m.chain| - 1] && e == m.chain[|m.chain| - 2] && Low(m) < |m.chain| - 1
    requires Shape(SetPrev(m, k, e)) && Placed(SetPrev(m, k, e))
    ensures Links(SetPrev(m, k, e))
  {
    var m' := SetPrev(m, k, e);
    forall j | Low(m) <= j < |m.chain| - 1
      ensures NextOk(m', j) && PrevOk(m', j)
    {
      assert NextOk(m, j) && m.where[m.chain[j + 1]] == Live(j + 1) && m.where[k] == Live(|m.chain| - 1);
      assert j < |m.chain| - 2 ==> PrevOk(m, j);
    }
  }

  lemma SetPrevKeeps(m: Memory, e: Cid, k: Cid)
    requires MemoryOk(m) && m.open && |m.chain| == Num(|m.vals|, m.n) + 2
    requires k == m.chain[|m.chain| - 1] && e == m.chain[|m.chain| - 2]
    ensures k in m.chunks && MemoryOk(SetPrev(m, k, e))
  {
    InChain(m, |m.vals|);
    RelinkKeeps(m, k, m.chunks[k].(prev := e));
    var m', w := SetPrev(m, k, e), WithChunk(m, k, m.chunks[k].(prev := e));
    assert Shape(m') && Placed(m') && Handshake(m');
    SetPrevLinks(m, e, k);
    ValuesFrame(w, m');
  }

  /** Taking back the last value; it must not be published yet. */
  lemma UnstoreKeeps(m: Memory)
    requires MemoryOk(m) && !m.open && m.flushed < |m.vals|
    ensures MemoryOk(m.(vals := m.vals[..|m.vals| - 1]))
    ensures Holds(m.(vals := m.vals[..|m.vals| - 1]), |m.vals| - 1, m.vals[|m.vals| - 1])
  {
    var m' := m.(vals := m.vals[..|m.vals| - 1]);
    NumMonotone(|m.vals| - 1, |m.vals|, m.n);
    assert Shape(m') && Placed(m') && Handshake(m');
    LinksFrame(m, m');
    InChain(m, |m.vals|);
    ValuesFrame(m, m');
    assert Holds(m, |m.vals| - 1, m.vals[|m.vals| - 1]);
  }

  lemma DropLastPlaces(m: Memory, k: Cid)
    requires Shape(m) && Placed(m) && !m.open && Num(|m.vals|, m.n) + 1 < |m.chain| && k == m.chain[|m.chain| - 1]
    ensures Shape(DropLast(m, k)) && Placed(DropLast(m, k))
  {
    NumMonotone(m.front, |m.vals|, m.n);
  }

  lemma DropLastKeeps(m: Memory, k: Cid)
    requires MemoryOk(m) && !m.open && Num(|m.vals|, m.n) + 1 < |m.chain| && k == m.chain[|m.chain| - 1]
    ensures MemoryOk(DropLast(m, k))
  {
    var m' := DropLast(m, k);
    DropLastPlaces(m, k);
    InChain(m, |m.vals|);
    InChain(m, m.flushed);
    LinksFrame(m, m');
    ValuesFrame(m, m');
  }

  lemma FreeAfterPlaces(m: Memory, e: Cid)
    requires Shape(m) && Placed(m) && e in m.chunks && m.where[e].Live?
    requires var d := m.chunks[e].next; d in m.where && m.where[d] == WriterHand
    ensures Shape(FreeAfter(m, e)) && Placed(FreeAfter(m, e))
  {
  }

  lemma FreeAfterKeeps(m: Memory, e: Cid)
    requires MemoryOk(m) && !m.open && e in m.chunks && e == m.chain[|m.chain| - 1]
    requires var d := m.chunks[e].next; d in m.where && m.where[d] == WriterHand
    ensures MemoryOk(FreeAfter(m, e))
  {
    var m' := FreeAfter(m, e);
    InChain(m, m.flushed);
    InChain(m, |m.vals|);
    FreeAfterPlaces(m, e);
    LinksFrame(m, m');
    ValuesFrame(m, m');
  }

  lemma PublishKeeps(m: Memory, p: Ptr, pos: nat)
    requires MemoryOk(m) && m.flushed <= pos <= |m.vals| && PointsTo(m, p, pos)
    ensures MemoryOk(Publish(m, p, pos))
  {
    var m' := Publish(m, p, pos);
    assert Shape(m') && Placed(m');
    LinksFrame(m, m');
    InChain(m, |m.vals|);
    ValuesFrame(m, m');
  }

  // ---------------------------------------------------------------- and so do the reader's

  lemma SleepKeeps(m: Memory)
    requires MemoryOk(m) && m.front == m.flushed
    ensures MemoryOk(m.(c := NULL))
  {
    var m' := m.(c := NULL);
    assert Shape(m') && Placed(m');
    LinksFrame(m, m');
    InChain(m, |m.vals|);
    ValuesFrame(m, m');
  }

  lemma ConsumeKeeps(m: Memory, begin: Ptr)
    requires MemoryOk(m) && PointsTo(m, begin, m.front) && m.front < m.flushed
    ensures MemoryOk(Consume(m, begin))
  {
    var m' := Consume(m, begin);
    InChain(m, m.front + 1);
    InChain(m, m.flushed);
    ConsumePlaces(m, begin);
    LinksFrame(m, m');
    ValuesFrame(m, m');
  }

  lemma ConsumePlaces(m: Memory, begin: Ptr)
    requires Shape(m) && Placed(m) && PointsTo(m, begin, m.front) && m.front < m.flushed
    ensures Shape(Consume(m, begin)) && Placed(Consume(m, begin))
  {
    NextSlot(m.front, m.n);
    InChain(m, m.front);
    InChain(m, m.front + 1);
    assert Low(Consume(m, begin)) == Low(m) + if begin.slot + 1 == m.n then 1 else 0;
    assert begin.chunk == m.chain[Low(m)];
  }

  /** After the last slot of a chunk the reader finds the next live chunk behind its link. */
  lemma ConsumeMoves(m: Memory, begin: Ptr)
    requires MemoryOk(m) && PointsTo(m, begin, m.front) && m.front < m.flushed
    ensures begin.chunk in m.chunks && Num(m.front + 1, m.n) < |m.chain|
    ensures begin.slot + 1 == m.n ==>
      && begin.chunk in m.where && Off(m.front + 1, m.n) == 0
      && m.chunks[begin.chunk].next == m.chain[Num(m.front + 1, m.n)]
    ensures begin.slot + 1 != m.n ==> Addr(m, m.front + 1) == Ptr(begin.chunk, begin.slot + 1)
  {
    NextSlot(m.front, m.n);
    InChain(m, m.front);
    InChain(m, m.front + 1);
    assert begin.slot + 1 == m.n ==> NextOk(m, Num(m.front, m.n));
  }

  lemma ClearPrevKeeps(m: Memory, k: Cid)
    requires MemoryOk(m) && Low(m) < |m.chain| && k == m.chain[Low(m)]
    ensures k in m.chunks && MemoryOk(WithChunk(m, k, m.chunks[k].(prev := 0)))
  {
    RelinkKeeps(m, k, m.chunks[k].(prev := 0));
    LinksFrame(m, WithChunk(m, k, m.chunks[k].(prev := 0)));
  }

  lemma SwapSparePlaces(m: Memory, o: Cid)
    requires Shape(m) && Placed(m) && Retired(m, o)
    ensures Shape(SwapSpare(m, o)) && Placed(SwapSpare(m, o))
    ensures m.spare != 0 ==> Retired(SwapSpare(m, o), m.spare)
  {
  }

  lemma SwapSpareKeeps(m: Memory, o: Cid)
    requires MemoryOk(m) && Retired(m, o)
    ensures MemoryOk(SwapSpare(m, o))
    ensures m.spare != 0 ==> Retired(SwapSpare(m, o), m.spare)
  {
    SwapSparePlaces(m, o);
    InChain(m, |m.vals|);
    InChain(m, m.flushed);
    LinksFrame(m, SwapSpare(m, o));
    ValuesFrame(m, SwapSpare(m, o));
  }

  lemma FreePlaces(m: Memory, k: Cid)
    requires Shape(m) && Placed(m) && Retired(m, k)
    ensures Shape(Free(m, k)) && Placed(Free(m, k))
  {
  }

  lemma FreeKeeps(m: Memory, k: Cid)
    requires MemoryOk(m) && Retired(m, k)
    ensures MemoryOk(Free(m, k))
  {
    FreePlaces(m, k);
    InChain(m, m.flushed);
    InChain(m, |m.vals|);
    LinksFrame(m, Free(m, k));
    ValuesFrame(m, Free(m, k));
  }

  // ---------------------------------------------------------------- one step of the writer

  lemma WriteKeepsMemory(m: Memory, t: Writer, v: Item, incomplete: bool, alloc: Cid)
    requires MemoryOk(m) && WriterOk(m, t) && t.at.WIdle?
    ensures WriterCan(m, t, Write(v, incomplete), alloc)
    ensures MemoryOk(WriterStep(m, t, Write(v, incomplete), alloc).0)
  {
    StoreKeeps(m, t.back, v);
  }

  lemma UnwriteKeepsMemory(m: Memory, t: Writer, alloc: Cid)
    requires MemoryOk(m) && WriterOk(m, t) && t.at.WIdle?
    ensures WriterCan(m, t, Unwrite, alloc) && MemoryOk(WriterStep(m, t, Unwrite, alloc).0)
  {
    InChain(m, |m.vals|);
    DistinctFromBack(m, t);
    if t.f != t.back {
      UnstoreKeeps(m);
    }
  }

  lemma FlushKeepsMemory(m: Memory, t: Writer, alloc: Cid)
    requires MemoryOk(m) && WriterOk(m, t) && t.at.WIdle?
    ensures WriterCan(m, t, Flush, alloc) && MemoryOk(WriterStep(m, t, Flush, alloc).0)
  {
    if t.w != t.f && m.c == t.w {
      PublishKeeps(m, t.f, t.fpos);
    }
  }

  lemma CallKeepsMemory(m: Memory, t: Writer, call: Call, alloc: Cid)
    requires MemoryOk(m) && WriterOk(m, t) && t.at.WIdle?
    ensures WriterCan(m, t, call, alloc) && MemoryOk(WriterStep(m, t, call, alloc).0)
  {
    match call
    case Write(v, incomplete) => WriteKeepsMemory(m, t, v, incomplete, alloc);
    case Unwrite => UnwriteKeepsMemory(m, t, alloc);
    case Flush => FlushKeepsMemory(m, t, alloc);
  }

  lemma WriterKeepsMemory(m: Memory, t: Writer, call: Call, alloc: Cid)
    requires MemoryOk(m) && WriterOk(m, t) && alloc != 0 && alloc !in m.chunks
    ensures WriterCan(m, t, call, alloc) && MemoryOk(WriterStep(m, t, call, alloc).0)
  {
    InChain(m, |m.vals|);
    match t.at
    case WIdle => CallKeepsMemory(m, t, call, alloc);
    case WFull(_) => TakeSpareKeeps(m);
    case WGot(_, sc) => AppendChunkKeeps(m, t.end.chunk, if sc == 0 then alloc else sc);
    case WLinked(_, k) => SetPrevKeeps(m, t.end.chunk, k);
    case WUnend(v) =>
      EndBehind(m, t);
      DropLastKeeps(m, t.end.chunk);
    case WFree(k, v) => FreeAfterKeeps(m, t.end.chunk);
    case WUnpushed(v) =>
    case WWake => PublishKeeps(m, t.f, t.fpos);
  }

  /** `f` differs from the address of the back exactly when there are incomplete items. */
  lemma DistinctFromBack(m: Memory, t: Writer)
    requires MemoryOk(m) && WriterOk(m, t)
    ensures t.f == t.back <==> t.fpos == |m.vals|
  {
    InChain(m, t.fpos);
    InChain(m, |m.vals|);
    DistinctAddresses(m, t.fpos, |m.vals|);
  }

  /** Leaving the first slot of the last chunk, `end` finds the back's chunk behind `prev`. */
  lemma EndBehind(m: Memory, t: Writer)
    requires MemoryOk(m) && WriterOk(m, t) && t.at.WUnend?
    ensures |m.chain| == Num(|m.vals| + 1, m.n) + 2 && Off(|m.vals| + 1, m.n) == m.n - 1
    ensures Num(|m.vals|, m.n) + 1 < |m.chain| && t.end.chunk == m.chain[|m.chain| - 1]
    ensures t.end.chunk in m.chunks && m.chunks[t.end.chunk].prev == m.chain[|m.chain| - 2]
    ensures m.chain[|m.chain| - 2] in m.chunks && m.chunks[m.chain[|m.chain| - 2]].next == t.end.chunk
  {
    NextSlot(|m.vals| + 1, m.n);
    NumMonotone(|m.vals|, |m.vals| + 1, m.n);
    InChain(m, |m.vals|);
    assert NextOk(m, |m.chain| - 2) && PrevOk(m, |m.chain| - 2);
  }

  lemma WriteFillsChunk(m: Memory, t: Writer, v: Item, incomplete: bool)
    requires Shape(m) && WriterOk(m, t) && t.at.WIdle? && InBounds(m, t.back) && t.end.slot + 1 == m.n
    requires Shape(Store(m, t.back, v))
    ensures var (m', t', _) := WriterStep(m, t, Write(v, incomplete), 0); WriterOk(m', t')
  {
    NextSlot(|m.vals| + 1, m.n);
  }

  lemma WriteKeepsOwn(m: Memory, t: Writer, v: Item, incomplete: bool)
    requires Shape(m) && WriterOk(m, t) && t.at.WIdle? && InBounds(m, t.back)
    requires Shape(Store(m, t.back, v))
    ensures var (m', t', _) := WriterStep(m, t, Write(v, incomplete), 0); WriterOk(m', t')
  {
    if t.end.slot + 1 == m.n {
      WriteFillsChunk(m, t, v, incomplete);
    } else {
      NextSlot(|m.vals| + 1, m.n);
    }
  }

  lemma UnwriteLeavesChunk(m: Memory, t: Writer)
    requires Shape(m) && WriterOk(m, t) && t.at.WIdle? && WriterCan(m, t, Unwrite, 0) && t.end.slot == 0
    requires Shape(WriterStep(m, t, Unwrite, 0).0) && t.fpos < |m.vals| && t.f != t.back
    requires Holds(m.(vals := m.vals[..|m.vals| - 1]), |m.vals| - 1, m.vals[|m.vals| - 1])
    requires PointsTo(m, WriterStep(m, t, Unwrite, 0).1.back, |m.vals| - 1)
    ensures var (m', t', _) := WriterStep(m, t, Unwrite, 0); WriterOk(m', t')
  {
  }

  lemma UnwriteKeepsOwn(m: Memory, t: Writer)
    requires Shape(m) && WriterOk(m, t) && t.at.WIdle? && WriterCan(m, t, Unwrite, 0)
    requires Shape(WriterStep(m, t, Unwrite, 0).0) && t.fpos < |m.vals| && t.f != t.back
    requires Holds(m.(vals := m.vals[..|m.vals| - 1]), |m.vals| - 1, m.vals[|m.vals| - 1])
    requires PointsTo(m, WriterStep(m, t, Unwrite, 0).1.back, |m.vals| - 1)
    ensures var (m', t', _) := WriterStep(m, t, Unwrite, 0); WriterOk(m', t')
  {
    if t.end.slot == 0 {
      UnwriteLeavesChunk(m, t);
    } else {
      NextSlot(|m.vals|, m.n);
    }
  }

  /** Leaving the first slot of its chunk, the back finds the previous chunk behind `prev`. */
  lemma BackBehind(m: Memory, t: Writer)
    requires MemoryOk(m) && PointsTo(m, t.back, |m.vals|) && !m.open && m.front < |m.vals|
    ensures Num(|m.vals| - 1, m.n) < |m.chain|
    ensures t.back.slot > 0 ==> Addr(m, |m.vals| - 1) == Ptr(t.back.chunk, t.back.slot - 1)
    ensures t.back.slot == 0 ==>
      t.back.chunk in m.chunks && Addr(m, |m.vals| - 1) == Ptr(m.chunks[t.back.chunk].prev, m.n - 1)
  {
    NextSlot(|m.vals| - 1, m.n);
    InChain(m, |m.vals| - 1);
    InChain(m, |m.vals|);
    assert t.back.slot == 0 ==> PrevOk(m, Num(|m.vals| - 1, m.n));
  }

  lemma FlushKeepsOwn(m: Memory, t: Writer)
    requires Shape(m) && Handshake(m) && WriterOk(m, t) && t.at.WIdle?
    ensures Shape(WriterStep(m, t, Flush, 0).0) && WriterOk(WriterStep(m, t, Flush, 0).0, WriterStep(m, t, Flush, 0).1)
  {
  }

  lemma LastHeld(m: Memory)
    requires Shape(m) && Placed(m) && Values(m) && m.front < |m.vals|
    ensures Holds(m.(vals := m.vals[..|m.vals| - 1]), |m.vals| - 1, m.vals[|m.vals| - 1])
  {
    assert Holds(m, |m.vals| - 1, m.vals[|m.vals| - 1]);
  }

  lemma BackStepsDown(m: Memory, t: Writer)
    requires MemoryOk(m) && WriterOk(m, t) && t.at.WIdle? && t.f != t.back && WriterCan(m, t, Unwrite, 0)
    ensures t.fpos < |m.vals| && PointsTo(m, WriterStep(m, t, Unwrite, 0).1.back, |m.vals| - 1)
  {
    DistinctFromBack(m, t);
    BackBehind(m, t);
  }

  lemma TakeBackKeepsOwn(m: Memory, t: Writer)
    requires MemoryOk(m) && WriterOk(m, t) && t.at.WIdle? && t.f != t.back && WriterCan(m, t, Unwrite, 0)
    requires Shape(WriterStep(m, t, Unwrite, 0).0)
    ensures WriterOk(WriterStep(m, t, Unwrite, 0).0, WriterStep(m, t, Unwrite, 0).1)
  {
    BackStepsDown(m, t);
    LastHeld(m);
    UnwriteKeepsOwn(m, t);
  }

  lemma CallKeepsOwn(m: Memory, t: Writer, call: Call, alloc: Cid)
    requires MemoryOk(m) && WriterOk(m, t) && t.at.WIdle? && WriterCan(m, t, call, alloc)
    requires Shape(WriterStep(m, t, call, alloc).0)
    ensures WriterOk(WriterStep(m, t, call, alloc).0, WriterStep(m, t, call, alloc).1)
  {
    match call
    case Write(v, incomplete) => WriteKeepsOwn(m, t, v, incomplete);
    case Unwrite =>
      if t.f != t.back {
        TakeBackKeepsOwn(m, t);
      }
    case Flush => FlushKeepsOwn(m, t);
  }

  lemma FullKeepsOwn(m: Memory, t: Writer, call: Call, alloc: Cid)
    requires Shape(m) && Placed(m) && Links(m) && WriterOk(m, t) && WriterCan(m, t, call, alloc) && t.at.WFull?
    requires Shape(WriterStep(m, t, call, alloc).0)
    ensures WriterOk(WriterStep(m, t, call, alloc).0, WriterStep(m, t, call, alloc).1)
  {
    InChain(m, |m.vals|);
    NextSlot(|m.vals|, m.n);
  }

  lemma GotKeepsOwn(m: Memory, t: Writer, call: Call, alloc: Cid)
    requires Shape(m) && Placed(m) && Links(m) && WriterOk(m, t) && WriterCan(m, t, call, alloc) && t.at.WGot?
    requires Shape(WriterStep(m, t, call, alloc).0)
    ensures WriterOk(WriterStep(m, t, call, alloc).0, WriterStep(m, t, call, alloc).1)
  {
    InChain(m, |m.vals|);
    NextSlot(|m.vals|, m.n);
  }

  lemma LinkedKeepsOwn(m: Memory, t: Writer, call: Call, alloc: Cid)
    requires Shape(m) && Placed(m) && Links(m) && WriterOk(m, t) && WriterCan(m, t, call, alloc) && t.at.WLinked?
    requires Shape(WriterStep(m, t, call, alloc).0)
    ensures WriterOk(WriterStep(m, t, call, alloc).0, WriterStep(m, t, call, alloc).1)
  {
    InChain(m, |m.vals|);
    NextSlot(|m.vals|, m.n);
    assert NextOk(m, Num(|m.vals|, m.n));
  }

  lemma GrowKeepsOwn(m: Memory, t: Writer, call: Call, alloc: Cid)
    requires MemoryOk(m) && WriterOk(m, t) && WriterCan(m, t, call, alloc)
    requires t.at.WFull? || t.at.WGot? || t.at.WLinked?
    requires Shape(WriterStep(m, t, call, alloc).0)
    ensures WriterOk(WriterStep(m, t, call, alloc).0, WriterStep(m, t, call, alloc).1)
  {
    if t.at.WFull? {
      FullKeepsOwn(m, t, call, alloc);
    } else if t.at.WGot? {
      GotKeepsOwn(m, t, call, alloc);
    } else {
      LinkedKeepsOwn(m, t, call, alloc);
    }
  }

  lemma UnendKeepsOwn(m: Memory, t: Writer)
    requires Shape(m) && WriterOk(m, t) && t.at.WUnend? && t.end.chunk in m.chunks
    requires Shape(DropLast(m, t.end.chunk)) && m.front <= t.wpos
    requires |m.chain| == Num(|m.vals| + 1, m.n) + 2 && Off(|m.vals| + 1, m.n) == m.n - 1
    requires m.chunks[t.end.chunk].prev == m.chain[|m.chain| - 2]
    requires m.chain[|m.chain| - 2] in m.chunks && m.chunks[m.chain[|m.chain| - 2]].next == t.end.chunk
    ensures var (m', t', _) := WriterStep(m, t, Flush, 0); WriterOk(m', t')
  {
    NumMonotone(|m.vals|, |m.vals| + 1, m.n);
    InChain(m, t.fpos);
    InChain(m, t.wpos);
  }

  lemma FreedMoves(m: Memory, t: Writer, call: Call, alloc: Cid)
    requires Shape(m) && WriterOk(m, t) && WriterCan(m, t, call, alloc) && t.at.WFree?
    requires Shape(WriterStep(m, t, call, alloc).0)
    requires m.chain[Num(|m.vals|, m.n)] != m.chunks[t.end.chunk].next
    ensures WriterOk(WriterStep(m, t, call, alloc).0, WriterStep(m, t, call, alloc).1)
  {
  }

  lemma FreedKeepsOwn(m: Memory, t: Writer, call: Call, alloc: Cid)
    requires Shape(m) && Placed(m) && WriterOk(m, t) && WriterCan(m, t, call, alloc) && t.at.WFree?
    requires Shape(WriterStep(m, t, call, alloc).0)
    ensures WriterOk(WriterStep(m, t, call, alloc).0, WriterStep(m, t, call, alloc).1)
  {
    InChain(m, |m.vals|);
    FreedMoves(m, t, call, alloc);
  }

  lemma UnpushedKeepsOwn(m: Memory, t: Writer, call: Call, alloc: Cid)
    requires Shape(m) && Placed(m) && WriterOk(m, t) && WriterCan(m, t, call, alloc) && t.at.WUnpushed?
    requires Shape(WriterStep(m, t, call, alloc).0)
    ensures WriterOk(WriterStep(m, t, call, alloc).0, WriterStep(m, t, call, alloc).1)
  {
    InChain(m, |m.vals|);
  }

  lemma WakeKeepsOwn(m: Memory, t: Writer, call: Call, alloc: Cid)
    requires Shape(m) && Placed(m) && WriterOk(m, t) && WriterCan(m, t, call, alloc) && t.at.WWake?
    requires Shape(WriterStep(m, t, call, alloc).0)
    ensures WriterOk(WriterStep(m, t, call, alloc).0, WriterStep(m, t, call, alloc).1)
  {
    InChain(m, |m.vals|);
  }

  lemma ShrinkKeepsOwn(m: Memory, t: Writer, call: Call, alloc: Cid)
    requires MemoryOk(m) && WriterOk(m, t) && WriterCan(m, t, call, alloc)
    requires t.at.WUnend? || t.at.WFree? || t.at.WUnpushed? || t.at.WWake?
    requires Shape(WriterStep(m, t, call, alloc).0)
    ensures WriterOk(WriterStep(m, t, call, alloc).0, WriterStep(m, t, call, alloc).1)
  {
    match t.at
    case WUnend(_) =>
      EndBehind(m, t);
      UnendKeepsOwn(m, t);
    case WFree(_, _) => FreedKeepsOwn(m, t, call, alloc);
    case WUnpushed(_) => UnpushedKeepsOwn(m, t, call, alloc);
    case WWake => WakeKeepsOwn(m, t, call, alloc);
  }

  /** All the reader looks at: published positions and the chunk it is retiring. */
  ghost predicate SameForReader(m: Memory, m': Memory)
    requires m.n > 0
  {
    && m'.n == m.n && m'.front == m.front && m.flushed <= m'.flushed
    && (forall j | 0 <= j <= Num(m.flushed, m.n) && j < |m.chain| :: j < |m'.chain| && m'.chain[j] == m.chain[j])
    && (forall o | Retired(m, o) && o in m.chunks :: Retired(m', o) && o in m'.chunks && m'.chunks[o] == m.chunks[o])
  }

  lemma ReaderFrame(m: Memory, m': Memory, u: Reader)
    requires Shape(m) && Placed(m) && Shape(m') && ReaderOk(m, u) && SameForReader(m, m')
    ensures ReaderOk(m', u)
  {
    NumMonotone(m.front, m.flushed, m.n);
    if u.r != NULL {
      NumMonotone(u.rpos, m.flushed, m.n);
    }
  }

  /** A call of the writer touches only the slot at the back ... */
  lemma CallSparesReader(m: Memory, t: Writer, call: Call, alloc: Cid)
    requires m.n > 0 && t.back.chunk in m.where && m.where[t.back.chunk].Live? && m.flushed <= t.fpos
    requires WriterCan(m, t, call, alloc) && t.at.WIdle?
    ensures SameForReader(m, WriterStep(m, t, call, alloc).0)
  {
  }

  /** ... growing the chain only the last chunk's link and a chunk in the writer's hand ... */
  lemma GrowSparesReader(m: Memory, t: Writer, call: Call, alloc: Cid)
    requires MemoryOk(m) && WriterOk(m, t) && WriterCan(m, t, call, alloc)
    requires t.at.WFull? || t.at.WGot? || t.at.WLinked?
    ensures SameForReader(m, WriterStep(m, t, call, alloc).0)
  {
    InChain(m, |m.vals|);
    assert m.where[t.end.chunk].Live?;
    match t.at
    case WGot(_, sc) => assert alloc in m.chunks || alloc !in m.where;
    case WLinked(_, k) => assert m.where[k].Live?;
    case _ =>
  }

  /** ... and shrinking it only what lies behind the published positions. */
  lemma ShrinkSparesReader(m: Memory, t: Writer, call: Call, alloc: Cid)
    requires m.n > 0 && t.end.chunk in m.where && m.where[t.end.chunk].Live? && m.flushed <= t.fpos
    requires t.at.WUnend? ==> Num(m.flushed, m.n) + 1 < |m.chain|
    requires WriterCan(m, t, call, alloc) && (t.at.WUnend? || t.at.WFree? || t.at.WUnpushed? || t.at.WWake?)
    requires t.at.WFree? ==> !Retired(m, m.chunks[t.end.chunk].next)
    ensures SameForReader(m, WriterStep(m, t, call, alloc).0)
  {
  }

  lemma EndIsLive(m: Memory, t: Writer)
    requires MemoryOk(m) && WriterOk(m, t) && (t.at.WUnend? || t.at.WFree? || t.at.WUnpushed? || t.at.WWake?)
    ensures t.end.chunk in m.where && m.where[t.end.chunk].Live?
    ensures t.at.WUnend? ==> Num(m.flushed, m.n) + 1 < |m.chain|
  {
    InChain(m, |m.vals|);
    InChain(m, m.flushed);
    assert m.where[m.chain[|m.chain| - 1]].Live?;
    if t.at.WUnend? {
      EndBehind(m, t);
    }
  }

  lemma WriterSparesReader(m: Memory, t: Writer, call: Call, alloc: Cid, u: Reader)
    requires MemoryOk(m) && WriterOk(m, t) && WriterCan(m, t, call, alloc) && ReaderOk(m, u)
    requires Shape(WriterStep(m, t, call, alloc).0)
    ensures ReaderOk(WriterStep(m, t, call, alloc).0, u)
  {
    var b := |m.vals|;
    InChain(m, b);
    if t.at.WIdle? {
      assert m.where[m.chain[Num(b, m.n)]].Live?;
      CallSparesReader(m, t, call, alloc);
    } else if t.at.WFull? || t.at.WGot? || t.at.WLinked? {
      GrowSparesReader(m, t, call, alloc);
    } else {
      EndIsLive(m, t);
      ShrinkSparesReader(m, t, call, alloc);
    }
    ReaderFrame(m, WriterStep(m, t, call, alloc).0, u);
  }

  // ---------------------------------------------------------------- one step of the reader

  /** The reader's comparisons of addresses are comparisons of positions. */
  lemma ReaderCompares(m: Memory, t: Reader)
    requires MemoryOk(m) && ReaderOk(m, t) && t.at.RIdle?
    ensures t.begin != NULL
    ensures t.r != NULL ==> (t.begin == t.r <==> m.front == t.rpos)
    ensures m.c != NULL ==> PointsTo(m, m.c, m.flushed) && (t.begin == m.c <==> m.front == m.flushed)
  {
    InChain(m, m.front);
    InChain(m, m.flushed);
    DistinctAddresses(m, m.front, m.flushed);
    if t.r != NULL {
      InChain(m, t.rpos);
      DistinctAddresses(m, m.front, t.rpos);
    }
  }

  lemma ReaderKeepsMemory(m: Memory, t: Reader, check: bool)
    requires MemoryOk(m) && ReaderOk(m, t)
    ensures ReaderCan(m, t) && MemoryOk(ReaderStep(m, t, check).0)
  {
    InChain(m, m.front);
    match t.at
    case RIdle =>
      ReaderCompares(m, t);
      if m.c == t.begin {
        SleepKeeps(m);
      }
    case RHave => ConsumeKeeps(m, t.begin);
    case RNext =>
    case RClear(o) => ClearPrevKeeps(m, t.begin.chunk);
    case RSpare(o) => SwapSpareKeeps(m, o);
    case RFree(cs) => FreeKeeps(m, cs);
  }

  lemma ReadKeepsOwn(m: Memory, t: Reader)
    requires Shape(m) && ReaderOk(m, t) && t.at.RHave? && InBounds(m, t.begin)
    requires Shape(Consume(m, t.begin)) && Num(m.front + 1, m.n) < |m.chain|
    requires t.begin.slot + 1 == m.n ==>
      Off(m.front + 1, m.n) == 0 && m.chunks[t.begin.chunk].next == m.chain[Num(m.front + 1, m.n)]
    requires t.begin.slot + 1 != m.n ==> Addr(m, m.front + 1) == Ptr(t.begin.chunk, t.begin.slot + 1)
    ensures ReaderOk(ReaderStep(m, t, false).0, ReaderStep(m, t, false).1)
  {
  }

  lemma IdleKeepsOwn(m: Memory, t: Reader, check: bool)
    requires MemoryOk(m) && ReaderOk(m, t) && ReaderCan(m, t) && t.at.RIdle?
    requires Shape(ReaderStep(m, t, check).0)
    ensures ReaderOk(ReaderStep(m, t, check).0, ReaderStep(m, t, check).1)
  {
    InChain(m, m.front);
    ReaderCompares(m, t);
  }

  lemma HaveKeepsOwn(m: Memory, t: Reader, check: bool)
    requires MemoryOk(m) && ReaderOk(m, t) && ReaderCan(m, t) && t.at.RHave?
    requires Shape(ReaderStep(m, t, check).0)
    ensures ReaderOk(ReaderStep(m, t, check).0, ReaderStep(m, t, check).1)
  {
    ConsumeMoves(m, t.begin);
    ReadKeepsOwn(m, t);
  }

  lemma NextKeepsOwn(m: Memory, t: Reader, check: bool)
    requires MemoryOk(m) && ReaderOk(m, t) && ReaderCan(m, t) && (t.at.RNext? || t.at.RClear?)
    requires Shape(ReaderStep(m, t, check).0)
    ensures ReaderOk(ReaderStep(m, t, check).0, ReaderStep(m, t, check).1)
  {
    InChain(m, m.front);
  }

  lemma SpareKeepsOwn(m: Memory, t: Reader, check: bool)
    requires MemoryOk(m) && ReaderOk(m, t) && ReaderCan(m, t) && (t.at.RSpare? || t.at.RFree?)
    requires Shape(ReaderStep(m, t, check).0)
    ensures ReaderOk(ReaderStep(m, t, check).0, ReaderStep(m, t, check).1)
  {
    InChain(m, m.front);
    if t.at.RSpare? {
      SwapSparePlaces(m, t.at.o);
    }
  }

  lemma ReaderKeepsOwn(m: Memory, t: Reader, check: bool)
    requires MemoryOk(m) && ReaderOk(m, t) && ReaderCan(m, t)
    requires Shape(ReaderStep(m, t, check).0)
    ensures ReaderOk(ReaderStep(m, t, check).0, ReaderStep(m, t, check).1)
  {
    match t.at
    case RIdle => IdleKeepsOwn(m, t, check);
    case RHave => HaveKeepsOwn(m, t, check);
    case RNext => NextKeepsOwn(m, t, check);
    case RClear(_) => NextKeepsOwn(m, t, check);
    case RSpare(_) => SpareKeepsOwn(m, t, check);
    case RFree(_) => SpareKeepsOwn(m, t, check);
  }

  /** A read hands out the value of the position it leaves. */
  lemma ReaderDelivers(m: Memory, t: Reader, check: bool)
    requires MemoryOk(m) && ReaderOk(m, t) && ReaderCan(m, t)
    ensures var (m', _, got) := ReaderStep(m, t, check);
      && m'.vals == m.vals && m.front <= m'.front <= |m.vals|
      && got == m.vals[m.front..m'.front]
  {
    if t.at.RHave? {
      InChain(m, m.front);
      assert Holds(m, m.front, m.vals[m.front]);
    }
  }

  /** All the writer looks at: the chain, the published position, and every chunk the reader does not hold. */
  ghost predicate SameForWriter(m: Memory, m': Memory) {
    && m'.n == m.n && m'.vals == m.vals && m'.chain == m.chain && m'.flushed == m.flushed && m'.open == m.open
    && (m'.c == m.c || m'.c == NULL)
    && (forall k | k in m.chunks && !Retired(m, k) ::
          k in m'.chunks && m'.chunks[k].values == m.chunks[k].values && m'.chunks[k].next == m.chunks[k].next)
    && (forall k | k in m.where && m.where[k] == WriterHand :: k in m'.where && m'.where[k] == WriterHand)
  }

  lemma MoveSameForWriter(m: Memory, t: Reader, check: bool)
    requires Shape(m) && Placed(m) && ReaderOk(m, t) && ReaderCan(m, t) && (t.at.RClear? || t.at.RSpare? || t.at.RFree?)
    ensures SameForWriter(m, ReaderStep(m, t, check).0)
  {
  }

  lemma ReaderSameForWriter(m: Memory, t: Reader, check: bool)
    requires Shape(m) && Placed(m) && ReaderOk(m, t) && ReaderCan(m, t)
    ensures SameForWriter(m, ReaderStep(m, t, check).0)
  {
    if t.at.RClear? || t.at.RSpare? || t.at.RFree? {
      MoveSameForWriter(m, t, check);
    } else {
      InChain(m, m.front);
    }
  }

  lemma WriterFrame(m: Memory, m': Memory, t: Writer)
    requires Shape(m) && Placed(m) && Shape(m') && WriterOk(m, t) && SameForWriter(m, m')
    ensures WriterOk(m', t)
  {
    InChain(m, |m.vals|);
    assert m.where[m.chain[Num(|m.vals|, m.n)]].Live?;
    assert m.where[m.chain[|m.chain| - 1]].Live?;
  }
}
