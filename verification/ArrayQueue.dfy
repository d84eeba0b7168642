/**
 * `ArrayLockFreeQueue`: a ring of `size` slots with a write index, a read index and the
 * index up to which slots are committed. Any number of threads enqueue and dequeue; every
 * load, store, compare-and-swap and counter update of the source is one step. Indices are
 * unbounded counters.
 */
module ArrayQueue {

  type Tid = nat
  type Item = int

  datatype Producer =
    | PIdle
    | PStart(item: Item)                         // top of the reservation loop
    | PWrite(item: Item, w: nat)                 // loaded the write index
    | PBoth(item: Item, w: nat, r: nat)          // ... and then the read index
    | PReserved(item: Item, w: nat)              // won index w, slot not written yet
    | PWritten(item: Item, w: nat)               // wrote the slot, not committed yet
    | PCommitted                                 // committed, counter not updated yet

  datatype Consumer =
    | CIdle
    | CStart                                     // top of the loop
    | CRead(r: nat)                              // loaded the read index
    | CBoth(r: nat, x: nat)                      // ... and then the maximum read index
    | CData(r: nat, item: Item)                  // ... and copied the slot
    | CTaken                                     // won index r, counter not updated yet

  /**
   * The shared fields, and the history: `log[i]` is the item of the enqueue that reserved
   * index `i`, `owner[i]` the producer that did, `out` what successful dequeues returned, in
   * the order they advanced the read index.
   */
  datatype Ring = Ring(slots: seq<Item>, w: nat, r: nat, x: nat, count: int,
                       log: seq<Item>, owner: seq<Tid>, out: seq<Item>)

  datatype State = State(q: Ring, producers: map<Tid, Producer>, consumers: map<Tid, Consumer>)

  datatype Action = Produce(p: Tid, item: Item) | Consume(c: Tid)

  function CountToIndex(n: nat, size: nat): nat
    requires size > 0
  {
    n % size
  }

  /** One step of a producer inside `enqueue`. */
  function ProducerStep(q: Ring, p: Tid, t: Producer, item: Item): (Ring, Producer)
    requires |q.slots| > 0
  {
    var size := |q.slots|;
    match t
    case PIdle => (q, PStart(item))
    case PStart(a) => (q, PWrite(a, q.w))
    case PWrite(a, w) => (q, PBoth(a, w, q.r))
    case PBoth(a, w, r) =>
      if CountToIndex(w + 1, size) == CountToIndex(r, size) then (q, PIdle)
      else if q.w == w then (q.(w := w + 1, log := q.log + [a], owner := q.owner + [p]), PReserved(a, w))
      else (q, PStart(a))
    case PReserved(a, w) => (q.(slots := q.slots[CountToIndex(w, size) := a]), PWritten(a, w))
    case PWritten(a, w) => if q.x == w then (q.(x := w + 1), PCommitted) else (q, t)
    case PCommitted => (q.(count := q.count + 1), PIdle)
  }

  /** One step of a consumer inside `dequeue`. */
  function ConsumerStep(q: Ring, t: Consumer): (Ring, Consumer)
    requires |q.slots| > 0
  {
    var size := |q.slots|;
    match t
    case CIdle => (q, CStart)
    case CStart => (q, CRead(q.r))
    case CRead(r) => (q, CBoth(r, q.x))
    case CBoth(r, x) =>
      if CountToIndex(r, size) == CountToIndex(x, size) then (q, CIdle)
      else (q, CData(r, q.slots[CountToIndex(r, size)]))
    case CData(r, a) =>
      if q.r == r then (q.(r := r + 1, out := q.out + [a]), CTaken)
      else (q, CStart)
    case CTaken => (q.(count := q.count - 1), CIdle)
  }

  predicate Enabled(s: State, a: Action) {
    |s.q.slots| > 0 &&
    match a
    case Produce(p, _) => p in s.producers
    case Consume(c) => c in s.consumers
  }

  function Do(s: State, a: Action): State
    requires Enabled(s, a)
  {
    match a
    case Produce(p, item) =>
      var (q, t) := ProducerStep(s.q, p, s.producers[p], item);
      s.(q := q, producers := s.producers[p := t])
    case Consume(c) =>
      var (q, t) := ConsumerStep(s.q, s.consumers[c]);
      s.(q := q, consumers := s.consumers[c := t])
  }

  ghost predicate Init(s: State) {
    && |s.q.slots| > 0 && s.q.w == s.q.r == s.q.x == 0 && s.q.count == 0
    && s.q.log == [] && s.q.owner == [] && s.q.out == []
    && (forall p | p in s.producers :: s.producers[p] == PIdle)
    && (forall c | c in s.consumers :: s.consumers[c] == CIdle)
  }

  ghost predicate Run(trace: seq<State>, acts: seq<Action>) {
    && |trace| == |acts| + 1 && Init(trace[0])
    && forall i {:trigger acts[i]} | 0 <= i < |acts| ::
         Enabled(trace[i], acts[i]) && trace[i + 1] == Do(trace[i], acts[i])
  }

  // ---------------------------------------------------------------- residues

  lemma MulBounds(k: int, n: nat)
    ensures k >= 1 ==> k * n >= n
    ensures k <= -1 ==> k * n <= -(n as int)
  {
  }

  /** Two counters less than `size` apart share a slot only when they are equal. */
  lemma SameSlot(a: nat, b: nat, size: nat)
    requires size > 0 && a <= b < a + size
    ensures CountToIndex(a, size) == CountToIndex(b, size) <==> a == b
  {
    if a % size == b % size {
      var k := b / size - a / size;
      assert a == size * (a / size) + a % size;
      assert b == size * (b / size) + b % size;
      assert b - a == k * size;
      MulBounds(k, size);
    }
  }

  /** The full test sees through one lap: `size` further on is the same slot. */
  lemma NextLap(a: nat, size: nat)
    requires size > 0
    ensures CountToIndex(a + size, size) == CountToIndex(a, size)
  {
    var k := (a + size) / size - a / size;
    assert a == size * (a / size) + a % size;
    assert a + size == size * ((a + size) / size) + (a + size) % size;
    var d := (a + size) % size - a % size;
    assert (1 - k) * size == d;
    MulBounds(1 - k, size);
  }

  // ---------------------------------------------------------------- invariant

  /** The three indices never cross, and the ring never holds more than `size - 1` reservations. */
  ghost predicate Indices(q: Ring) {
    && |q.slots| > 0 && q.r <= q.x <= q.w < q.r + |q.slots|
    && |q.log| == |q.owner| == q.w && |q.out| == q.r && q.out == q.log[..q.r]
  }

  /** Every committed, unread index has its own item in its slot. */
  ghost predicate Readable(q: Ring)
    requires Indices(q)
  {
    forall i | q.r <= i < q.x :: q.slots[CountToIndex(i, |q.slots|)] == q.log[i]
  }

  ghost predicate RingOk(q: Ring) {
    Indices(q) && Readable(q)
  }

  ghost predicate Owns(t: Producer, i: nat) {
    (t.PReserved? || t.PWritten?) && t.w == i
  }

  ghost predicate ProducerOk(q: Ring, p: Tid, t: Producer)
    requires Indices(q)
  {
    && (t.PWrite? || t.PBoth? ==> t.w <= q.w)
    && (t.PBoth? ==> t.r <= q.r && (q.w == t.w ==> t.r <= t.w < t.r + |q.slots|))
    && (t.PReserved? || t.PWritten? ==> q.x <= t.w < q.w && q.log[t.w] == t.item && q.owner[t.w] == p)
    && (t.PWritten? ==> q.slots[CountToIndex(t.w, |q.slots|)] == t.item)
  }

  ghost predicate ConsumerOk(q: Ring, t: Consumer)
    requires Indices(q)
  {
    && (t.CRead? ==> t.r <= q.r)
    && (t.CBoth? ==> t.r <= q.r && t.x <= q.x && t.r <= t.x)
    && (t.CData? ==> t.r <= q.r && (q.r == t.r ==> t.r < q.x && t.item == q.log[t.r]))
  }

  /** Every index between commit and reservation is owned by the producer that reserved it. */
  ghost predicate Owned(s: State)
    requires Indices(s.q)
  {
    forall i | s.q.x <= i < s.q.w :: s.q.owner[i] in s.producers && Owns(s.producers[s.q.owner[i]], i)
  }

  ghost predicate Inv(s: State) {
    && RingOk(s.q) && Owned(s)
    && (forall p | p in s.producers :: ProducerOk(s.q, p, s.producers[p]))
    && (forall c | c in s.consumers :: ConsumerOk(s.q, s.consumers[c]))
  }

  lemma InitInv(s: State)
    requires Init(s)
    ensures Inv(s)
  {
  }

  // ---------------------------------------------------------------- a producer's step

  lemma ProducerKeepsRing(q: Ring, p: Tid, t: Producer, item: Item)
    requires RingOk(q) && ProducerOk(q, p, t)
    ensures var (q', t') := ProducerStep(q, p, t, item); RingOk(q') && ProducerOk(q', p, t')
  {
    var size := |q.slots|;
    match t
    case PBoth(a, w, r) =>
      NextLap(r, size);
    case PReserved(a, w) =>
      forall i | q.r <= i < q.x
        ensures CountToIndex(i, size) != CountToIndex(w, size)
      {
        SameSlot(i, w, size);
      }
    case _ =>
  }

  lemma ProducerRely(q: Ring, p: Tid, t: Producer, item: Item, o: Tid, u: Producer)
    requires RingOk(q) && ProducerOk(q, p, t) && ProducerOk(q, o, u) && p != o
    requires RingOk(ProducerStep(q, p, t, item).0)
    ensures ProducerOk(ProducerStep(q, p, t, item).0, o, u)
  {
    if t.PReserved? && u.PWritten? {
      if t.w < u.w {
        SameSlot(t.w, u.w, |q.slots|);
      } else {
        SameSlot(u.w, t.w, |q.slots|);
      }
    }
  }

  lemma ProducerSparesConsumer(q: Ring, p: Tid, t: Producer, item: Item, u: Consumer)
    requires RingOk(q) && ProducerOk(q, p, t) && ConsumerOk(q, u)
    requires RingOk(ProducerStep(q, p, t, item).0)
    ensures ConsumerOk(ProducerStep(q, p, t, item).0, u)
  {
  }

  // ---------------------------------------------------------------- a consumer's step

  lemma ConsumerKeepsRing(q: Ring, t: Consumer)
    requires RingOk(q) && ConsumerOk(q, t)
    ensures var (q', t') := ConsumerStep(q, t); RingOk(q') && ConsumerOk(q', t')
  {
    match t
    case CBoth(r, x) =>
      if r == x {
        SameSlot(r, x, |q.slots|);
      }
    case CData(r, a) =>
      if q.r == r {
        assert q.log[..r + 1] == q.log[..r] + [q.log[r]];
      }
    case _ =>
  }

  lemma ConsumerSpares(q: Ring, t: Consumer, o: Tid, u: Producer)
    requires RingOk(q) && ConsumerOk(q, t) && ProducerOk(q, o, u)
    requires RingOk(ConsumerStep(q, t).0)
    ensures ProducerOk(ConsumerStep(q, t).0, o, u)
  {
  }

  lemma ConsumerRely(q: Ring, t: Consumer, u: Consumer)
    requires RingOk(q) && ConsumerOk(q, t) && ConsumerOk(q, u)
    requires RingOk(ConsumerStep(q, t).0)
    ensures ConsumerOk(ConsumerStep(q, t).0, u)
  {
  }

  // ---------------------------------------------------------------- whole runs

  lemma ProduceKeeps(s: State, p: Tid, item: Item)
    requires Inv(s) && Enabled(s, Produce(p, item))
    ensures Inv(Do(s, Produce(p, item)))
  {
    var t, s' := s.producers[p], Do(s, Produce(p, item));
    ProducerKeepsRing(s.q, p, t, item);
    forall o | o in s'.producers
      ensures ProducerOk(s'.q, o, s'.producers[o])
    {
      if o != p {
        ProducerRely(s.q, p, t, item, o, s.producers[o]);
      }
    }
    forall c | c in s'.consumers
      ensures ConsumerOk(s'.q, s'.consumers[c])
    {
      ProducerSparesConsumer(s.q, p, t, item, s.consumers[c]);
    }
  }

  lemma ConsumeKeeps(s: State, c: Tid)
    requires Inv(s) && Enabled(s, Consume(c))
    ensures Inv(Do(s, Consume(c)))
  {
    var t, s' := s.consumers[c], Do(s, Consume(c));
    ConsumerKeepsRing(s.q, t);
    forall o | o in s'.producers
      ensures ProducerOk(s'.q, o, s'.producers[o])
    {
      ConsumerSpares(s.q, t, o, s.producers[o]);
    }
    forall d | d in s'.consumers
      ensures ConsumerOk(s'.q, s'.consumers[d])
    {
      if d != c {
        ConsumerRely(s.q, t, s.consumers[d]);
      }
    }
  }

  lemma {:induction false} RunInv(trace: seq<State>, acts: seq<Action>, n: nat)
    requires Run(trace, acts) && n < |trace|
    ensures Inv(trace[n])
  {
    if n == 0 {
      InitInv(trace[0]);
    } else {
      RunInv(trace, acts, n - 1);
      match acts[n - 1]
      case Produce(p, item) => ProduceKeeps(trace[n - 1], p, item);
      case Consume(c) => ConsumeKeeps(trace[n - 1], c);
    }
  }

  /**
   * In every interleaving of any producers and consumers, the items returned by successful
   * dequeues, in the order they won their read index, are a prefix of the reservations: the
   * dequeue that wins index `i` returns the item of the enqueue that reserved `i`.
   */
  lemma DequeuesFollowReservations(trace: seq<State>, acts: seq<Action>, n: nat)
    requires Run(trace, acts) && n < |trace|
    ensures trace[n].q.out <= trace[n].q.log
    ensures forall i | 0 <= i < |trace[n].q.out| :: trace[n].q.out[i] == trace[n].q.log[i]
  {
    RunInv(trace, acts, n);
  }

  /** The index order, although the full test reads its two indices at different times. */
  lemma IndexOrder(trace: seq<State>, acts: seq<Action>, n: nat)
    requires Run(trace, acts) && n < |trace|
    ensures var q := trace[n].q; q.r <= q.x <= q.w < q.r + |q.slots|
  {
    RunInv(trace, acts, n);
  }

  /** Each index between commit and reservation has exactly one producer in charge of it. */
  lemma OneOwner(trace: seq<State>, acts: seq<Action>, n: nat, i: nat)
    requires Run(trace, acts) && n < |trace| && trace[n].q.x <= i < trace[n].q.w
    ensures exists p :: p in trace[n].producers && Owns(trace[n].producers[p], i)
    ensures forall p, o | p in trace[n].producers && o in trace[n].producers
                          && Owns(trace[n].producers[p], i) && Owns(trace[n].producers[o], i) :: p == o
  {
    RunInv(trace, acts, n);
    var s := trace[n];
    assert Owns(s.producers[s.q.owner[i]], i);
    forall p | p in s.producers && Owns(s.producers[p], i)
      ensures p == s.q.owner[i]
    {
      assert ProducerOk(s.q, p, s.producers[p]);
    }
  }

  /** No two owned or readable indices share a slot. */
  lemma SlotsApart(trace: seq<State>, acts: seq<Action>, n: nat, i: nat, j: nat)
    requires Run(trace, acts) && n < |trace| && trace[n].q.r <= i < j < trace[n].q.w
    ensures |trace[n].q.slots| > 0
    ensures CountToIndex(i, |trace[n].q.slots|) != CountToIndex(j, |trace[n].q.slots|)
  {
    RunInv(trace, acts, n);
    SameSlot(i, j, |trace[n].q.slots|);
  }

  // ---------------------------------------------------------------- the element counter

  /** Producers that committed but have not counted their item yet, and consumers likewise. */
  ghost function Adding(s: State): set<Tid> {
    set p | p in s.producers && s.producers[p].PCommitted?
  }

  ghost function Removing(s: State): set<Tid> {
    set c | c in s.consumers && s.consumers[c].CTaken?
  }

  /** The counter lags behind the indices by exactly the updates still due. */
  ghost predicate Counted(s: State) {
    s.q.count + |Adding(s)| - |Removing(s)| == s.q.x - s.q.r
  }

  function One(b: bool): int {
    if b then 1 else 0
  }

  lemma ProducerCounts(q: Ring, p: Tid, t: Producer, item: Item)
    requires |q.slots| > 0
    ensures var (q', t') := ProducerStep(q, p, t, item);
      q'.r == q.r && q'.count + One(t'.PCommitted?) - q'.x == q.count + One(t.PCommitted?) - q.x
  {
  }

  lemma ConsumerCounts(q: Ring, t: Consumer)
    requires |q.slots| > 0
    ensures var (q', t') := ConsumerStep(q, t);
      q'.x == q.x && q'.count - One(t'.CTaken?) + q'.r == q.count - One(t.CTaken?) + q.r
  {
  }

  lemma Without(x: set<Tid>, e: Tid)
    ensures |x - {e}| == |x| - One(e in x)
  {
    if e !in x {
      assert x - {e} == x;
    }
  }

  lemma AddingAfter(s: State, p: Tid, s': State)
    requires p in s.producers && p in s'.producers && s'.producers == s.producers[p := s'.producers[p]]
    ensures |Adding(s')| - One(s'.producers[p].PCommitted?) == |Adding(s)| - One(s.producers[p].PCommitted?)
  {
    assert Adding(s') - {p} == Adding(s) - {p};
    Without(Adding(s), p);
    Without(Adding(s'), p);
  }

  lemma RemovingAfter(s: State, c: Tid, s': State)
    requires c in s.consumers && c in s'.consumers && s'.consumers == s.consumers[c := s'.consumers[c]]
    ensures |Removing(s')| - One(s'.consumers[c].CTaken?) == |Removing(s)| - One(s.consumers[c].CTaken?)
  {
    assert Removing(s') - {c} == Removing(s) - {c};
    Without(Removing(s), c);
    Without(Removing(s'), c);
  }

  lemma CountStep(s: State, a: Action)
    requires Enabled(s, a) && Counted(s)
    ensures Counted(Do(s, a))
  {
    match a
    case Produce(p, item) =>
      ProducerCounts(s.q, p, s.producers[p], item);
      AddingAfter(s, p, Do(s, a));
      assert Removing(Do(s, a)) == Removing(s);
    case Consume(c) =>
      ConsumerCounts(s.q, s.consumers[c]);
      RemovingAfter(s, c, Do(s, a));
      assert Adding(Do(s, a)) == Adding(s);
  }

  lemma {:induction false} RunCounted(trace: seq<State>, acts: seq<Action>, n: nat)
    requires Run(trace, acts) && n < |trace|
    ensures Counted(trace[n])
  {
    if n == 0 {
      assert Adding(trace[0]) == {} && Removing(trace[0]) == {};
    } else {
      RunCounted(trace, acts, n - 1);
      CountStep(trace[n - 1], acts[n - 1]);
    }
  }

  /** With no operation under way the counter is the number of stored items. */
  lemma QuietCount(trace: seq<State>, acts: seq<Action>, n: nat)
    requires Run(trace, acts) && n < |trace|
    requires forall p | p in trace[n].producers :: trace[n].producers[p].PIdle?
    requires forall c | c in trace[n].consumers :: trace[n].consumers[c].CIdle?
    ensures trace[n].q.count == |trace[n].q.log| - |trace[n].q.out|
  {
    RunInv(trace, acts, n);
    RunCounted(trace, acts, n);
    var s := trace[n];
    assert Adding(s) == {} && Removing(s) == {};
    assert s.q.x < s.q.w ==> Owns(s.producers[s.q.owner[s.q.x]], s.q.x);
  }
}
