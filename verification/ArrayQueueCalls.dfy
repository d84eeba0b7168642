/**
 * What calls on the array queue answer: when an enqueue is refused and a dequeue finds nothing, what
 * a call leaves behind when others step in between, and that a thread left alone finishes its call.
 */
module ArrayQueueCalls {
  import opened ArrayQueue

  ghost predicate ByProducer(a: Action, p: Tid) {
    a.Produce? && a.p == p
  }

  ghost predicate ByConsumer(a: Action, c: Tid) {
    a.Consume? && a.c == c
  }

  /** Only its own steps move a thread; no step changes the number of slots. */
  lemma {:induction false} Untouched(trace: seq<State>, acts: seq<Action>, p: Tid, c: Tid, i: nat, n: nat)
    requires Run(trace, acts) && i <= n < |trace|
    ensures |trace[n].q.slots| == |trace[i].q.slots|
    ensures trace[n].producers.Keys == trace[i].producers.Keys && trace[n].consumers.Keys == trace[i].consumers.Keys
    ensures p in trace[i].producers && (forall k | i <= k < n :: !ByProducer(acts[k], p)) ==>
              trace[n].producers[p] == trace[i].producers[p]
    ensures c in trace[i].consumers && (forall k | i <= k < n :: !ByConsumer(acts[k], c)) ==>
              trace[n].consumers[c] == trace[i].consumers[c]
  {
    if n > i {
      Untouched(trace, acts, p, c, i, n - 1);
      assert Enabled(trace[n - 1], acts[n - 1]);
    }
  }

  /** Steps `i < k < m` are consecutive steps of producer `p`. */
  ghost predicate ThreeSteps(trace: seq<State>, acts: seq<Action>, p: Tid, i: nat, k: nat, m: nat) {
    && i < k < m < |acts| && |trace| == |acts| + 1 && p in trace[i].producers
    && ByProducer(acts[i], p) && ByProducer(acts[k], p) && ByProducer(acts[m], p)
    && (forall j | i < j < m && j != k :: !ByProducer(acts[j], p))
  }

  lemma AttemptLoads(trace: seq<State>, acts: seq<Action>, p: Tid, i: nat, k: nat, m: nat)
    requires Run(trace, acts) && ThreeSteps(trace, acts, p, i, k, m) && trace[i].producers[p].PStart?
    ensures p in trace[m].producers && |trace[m].q.slots| == |trace[k].q.slots|
    ensures trace[m].producers[p] == PBoth(trace[i].producers[p].item, trace[i].q.w, trace[k].q.r)
  {
    assert Enabled(trace[i], acts[i]) && Enabled(trace[k], acts[k]);
    Untouched(trace, acts, p, 0, i + 1, k);
    Untouched(trace, acts, p, 0, k, k + 1);
    Untouched(trace, acts, p, 0, k + 1, m);
  }

  /** Counters share a slot exactly when they are whole laps apart. */
  lemma {:induction false} LapsApart(a: nat, d: nat, size: nat)
    requires size > 0
    ensures CountToIndex(a + d, size) == CountToIndex(a, size) <==> d % size == 0
    decreases d
  {
    if d < size {
      SameSlot(a, a + d, size);
      SmallRemainder(d, size);
    } else {
      LapsApart(a, d - size, size);
      NextLap(a + (d - size), size);
      NextLap(d - size, size);
    }
  }

  lemma SmallRemainder(d: nat, size: nat)
    requires d < size
    ensures d % size == d
  {
  }

  lemma FullByResidues(w: nat, r: nat, size: nat)
    requires size > 0 && w < r + size
    ensures CountToIndex(w + 1, size) == CountToIndex(r, size)
            <==> if r <= w then w + 1 == r + size else (r - (w + 1)) % size == 0
  {
    if r <= w {
      NextLap(r, size);
      if w + 1 < r + size {
        SameSlot(r, w + 1, size);
      }
    } else {
      LapsApart(w + 1, r - (w + 1), size);
    }
  }

  /**
   * One turn of the loop of `enqueue`, whatever other threads do in between. If the read index is
   * still behind the loaded write index, the call is refused exactly when the loaded index is the
   * newest that fits; if no index was reserved between the two loads, that means exactly when the ring
   * then held one reservation less than it has slots. With a read index that has overtaken the loaded
   * write index it is refused, for no reason, exactly when the two are whole laps apart. Otherwise it
   * reserves the loaded index for its item, or starts over when another thread reserved it.
   */
  lemma EnqueueAttempt(trace: seq<State>, acts: seq<Action>, p: Tid, i: nat, k: nat, m: nat)
    requires Run(trace, acts) && ThreeSteps(trace, acts, p, i, k, m) && trace[i].producers[p].PStart?
    ensures p in trace[m + 1].producers && |trace[k].q.slots| > 0
    ensures var item, w, r, size := trace[i].producers[p].item, trace[i].q.w, |trace[k].q.out|, |trace[k].q.slots|;
      var refused := if r <= w then w + 1 == r + size else (r - (w + 1)) % size == 0;
      && (trace[m + 1].producers[p] == PIdle <==> refused)
      && (trace[k].q.w == w ==> (refused <==> |trace[k].q.log| - |trace[k].q.out| == size - 1))
      && (trace[m + 1].q.log == trace[m].q.log + [item] <==> !refused && trace[m].q.w == w)
      && (trace[m + 1].producers[p] == PStart(item) <==> !refused && trace[m].q.w != w)
  {
    AttemptLoads(trace, acts, p, i, k, m);
    RunInv(trace, acts, k);
    IndicesGrow(trace, acts, i, k);
    FullByResidues(trace[i].q.w, trace[k].q.r, |trace[k].q.slots|);
    assert Enabled(trace[m], acts[m]);
    var log, item := trace[m].q.log, trace[i].producers[p].item;
    assert |log + [item]| == |log| + 1;
  }

  lemma {:induction false} IndicesGrow(trace: seq<State>, acts: seq<Action>, i: nat, k: nat)
    requires Run(trace, acts) && i <= k < |trace|
    ensures trace[i].q.w <= trace[k].q.w && trace[i].q.r <= trace[k].q.r
  {
    if i < k {
      IndicesGrow(trace, acts, i, k - 1);
      assert Enabled(trace[k - 1], acts[k - 1]);
    }
  }

  /** Steps `i < k < m` are consecutive steps of consumer `c`. */
  ghost predicate ThreeReads(trace: seq<State>, acts: seq<Action>, c: Tid, i: nat, k: nat, m: nat) {
    && i < k < m < |acts| && |trace| == |acts| + 1 && c in trace[i].consumers
    && ByConsumer(acts[i], c) && ByConsumer(acts[k], c) && ByConsumer(acts[m], c)
    && (forall j | i < j < m && j != k :: !ByConsumer(acts[j], c))
  }

  /**
   * One turn of the loop of `dequeue`, whatever other threads do in between: it answers empty exactly
   * when the committed end it loaded is whole laps from the read index it loaded, and else copies that
   * slot. If no index was read between the two loads, it answers empty exactly when every committed
   * index had been read at the second.
   */
  lemma DequeueAttempt(trace: seq<State>, acts: seq<Action>, c: Tid, i: nat, k: nat, m: nat)
    requires Run(trace, acts) && ThreeReads(trace, acts, c, i, k, m) && trace[i].consumers[c].CStart?
    ensures c in trace[m + 1].consumers && |trace[k].q.slots| > 0 && |trace[i].q.out| <= trace[k].q.x
    ensures var r, x, size := |trace[i].q.out|, trace[k].q.x, |trace[k].q.slots|;
      && (trace[m + 1].consumers[c] == CIdle <==> (x - r) % size == 0)
      && ((x - r) % size != 0 ==> trace[m + 1].consumers[c].CData? && trace[m + 1].consumers[c].r == r)
      && (|trace[k].q.out| == r ==> ((x - r) % size == 0 <==> x == |trace[k].q.out|))
    ensures trace[m + 1].q.out == trace[m].q.out
  {
    ReadLoads(trace, acts, c, i, k, m);
    RunInv(trace, acts, i);
    RunInv(trace, acts, k);
    IndicesGrow(trace, acts, i, k);
    var r, x, size := trace[i].q.r, trace[k].q.x, |trace[k].q.slots|;
    LapsApart(r, x - r, size);
    if trace[k].q.r == r {
      SmallRemainder(x - r, size);
    }
    assert Enabled(trace[m], acts[m]);
  }

  lemma ReadLoads(trace: seq<State>, acts: seq<Action>, c: Tid, i: nat, k: nat, m: nat)
    requires Run(trace, acts) && ThreeReads(trace, acts, c, i, k, m) && trace[i].consumers[c].CStart?
    ensures c in trace[m].consumers && |trace[m].q.slots| == |trace[k].q.slots|
    ensures trace[m].consumers[c] == CBoth(trace[i].q.r, trace[k].q.x)
  {
    assert Enabled(trace[i], acts[i]) && Enabled(trace[k], acts[k]);
    Untouched(trace, acts, 0, c, i + 1, k);
    Untouched(trace, acts, 0, c, k, k + 1);
    Untouched(trace, acts, 0, c, k + 1, m);
  }

  // ---------------------------------------------------------------- whole calls among other threads

  /** What `b` has after `a`. */
  ghost function More(a: seq<Item>, b: seq<Item>): seq<Item> {
    if |a| <= |b| then b[|a|..] else []
  }

  /** The items for which steps of producer `p` from `i` to `n` reserved an index. */
  ghost function Reserved(trace: seq<State>, acts: seq<Action>, p: Tid, i: nat, n: nat): seq<Item>
    requires i <= n < |trace| && |trace| == |acts| + 1
  {
    if n == i then []
    else Reserved(trace, acts, p, i, n - 1)
         + if ByProducer(acts[n - 1], p) then More(trace[n - 1].q.log, trace[n].q.log) else []
  }

  /** Producer `p` is inside the call it began at step `i`, at least up to step `n`. */
  ghost predicate Enqueuing(trace: seq<State>, acts: seq<Action>, p: Tid, i: nat, n: nat) {
    && i < n < |trace| && |trace| == |acts| + 1 && ByProducer(acts[i], p)
    && p in trace[i].producers && trace[i].producers[p] == PIdle
    && (forall k | i < k <= n :: p in trace[k].producers && trace[k].producers[p] != PIdle)
  }

  /** Where producer `p`, enqueuing `item`, stands after having reserved for the items `got`. */
  ghost predicate Halfway(t: Producer, item: Item, got: seq<Item>) {
    && (t.PStart? || t.PWrite? || t.PBoth? ==> t.item == item && got == [])
    && (t.PReserved? || t.PWritten? ==> t.item == item)
    && (t.PReserved? || t.PWritten? || t.PCommitted? ==> got == [item])
  }

  lemma HalfwayStep(q: Ring, p: Tid, t: Producer, item: Item, any: Item, got: seq<Item>)
    requires |q.slots| > 0 && t != PIdle && Halfway(t, item, got)
    ensures var (q', t') := ProducerStep(q, p, t, any); Halfway(t', item, got + More(q.log, q'.log))
    ensures var (q', t') := ProducerStep(q, p, t, any);
            t' == PIdle ==> (t.PBoth? || t.PCommitted?) && More(q.log, q'.log) == []
  {
    assert More(q.log, q.log) == [] && got + [] == got;
    if t.PBoth? {
      assert More(q.log, q.log + [t.item]) == [t.item];
    }
  }

  lemma {:induction false} EnqueuePhase(trace: seq<State>, acts: seq<Action>, p: Tid, i: nat, n: nat)
    requires Run(trace, acts) && Enqueuing(trace, acts, p, i, n)
    ensures Halfway(trace[n].producers[p], acts[i].item, Reserved(trace, acts, p, i, n))
  {
    var s, a := trace[n - 1], acts[n - 1];
    assert Enabled(s, a);
    if n == i + 1 {
      assert Reserved(trace, acts, p, i, n) == Reserved(trace, acts, p, i, i) + More(s.q.log, s.q.log);
    } else {
      EnqueuePhase(trace, acts, p, i, n - 1);
      if ByProducer(a, p) {
        HalfwayStep(s.q, p, s.producers[p], acts[i].item, a.item, Reserved(trace, acts, p, i, n - 1));
      }
    }
  }

  /** A call of `enqueue` that returns has reserved one index, for its own item, or was refused and none. */
  lemma EnqueueCall(trace: seq<State>, acts: seq<Action>, p: Tid, i: nat, n: nat)
    requires Run(trace, acts) && n < |acts| && Enqueuing(trace, acts, p, i, n)
    requires p in trace[n + 1].producers && trace[n + 1].producers[p] == PIdle
    ensures trace[n].producers[p].PCommitted? || trace[n].producers[p].PBoth?
    ensures Reserved(trace, acts, p, i, n + 1) == if trace[n].producers[p].PCommitted? then [acts[i].item] else []
  {
    EnqueuePhase(trace, acts, p, i, n);
    assert Enabled(trace[n], acts[n]);
    HalfwayStep(trace[n].q, p, trace[n].producers[p], acts[i].item, acts[n].item, Reserved(trace, acts, p, i, n));
  }

  /** The items that steps of consumer `c` from `i` to `n` took. */
  ghost function Taken(trace: seq<State>, acts: seq<Action>, c: Tid, i: nat, n: nat): seq<Item>
    requires i <= n < |trace| && |trace| == |acts| + 1
  {
    if n == i then []
    else Taken(trace, acts, c, i, n - 1)
         + if ByConsumer(acts[n - 1], c) then More(trace[n - 1].q.out, trace[n].q.out) else []
  }

  ghost predicate Dequeuing(trace: seq<State>, acts: seq<Action>, c: Tid, i: nat, n: nat) {
    && i < n < |trace| && |trace| == |acts| + 1 && ByConsumer(acts[i], c)
    && c in trace[i].consumers && trace[i].consumers[c] == CIdle
    && (forall k | i < k <= n :: c in trace[k].consumers && trace[k].consumers[c] != CIdle)
  }

  lemma {:induction false} DequeuePhase(trace: seq<State>, acts: seq<Action>, c: Tid, i: nat, n: nat)
    requires Run(trace, acts) && Dequeuing(trace, acts, c, i, n)
    ensures |Taken(trace, acts, c, i, n)| == if trace[n].consumers[c].CTaken? then 1 else 0
  {
    assert Enabled(trace[n - 1], acts[n - 1]);
    if n == i + 1 {
      assert Taken(trace, acts, c, i, i) == [];
    } else {
      DequeuePhase(trace, acts, c, i, n - 1);
      assert Taken(trace, acts, c, i, n) == Taken(trace, acts, c, i, n - 1)
        + if ByConsumer(acts[n - 1], c) then More(trace[n - 1].q.out, trace[n].q.out) else [];
    }
  }

  /** A call of `dequeue` that returns took one item, or answered empty and took none. */
  lemma DequeueCall(trace: seq<State>, acts: seq<Action>, c: Tid, i: nat, n: nat)
    requires Run(trace, acts) && n < |acts| && Dequeuing(trace, acts, c, i, n)
    requires c in trace[n + 1].consumers && trace[n + 1].consumers[c] == CIdle
    ensures trace[n].consumers[c].CTaken? || trace[n].consumers[c].CBoth?
    ensures |Taken(trace, acts, c, i, n + 1)| == if trace[n].consumers[c].CTaken? then 1 else 0
  {
    DequeuePhase(trace, acts, c, i, n);
    assert Enabled(trace[n], acts[n]);
    assert More(trace[n].q.out, trace[n].q.out) == [];
  }

  // ---------------------------------------------------------------- a thread left alone

  /** Stepping alone from `t`, producer `p` returns for the first time after `n` steps, leaving `q'`. */
  ghost predicate EnqueueEnds(q: Ring, p: Tid, t: Producer, item: Item, n: nat, q': Ring)
    requires |q.slots| > 0
    decreases n
  {
    n > 0 &&
    var (q1, t1) := ProducerStep(q, p, t, item);
    if t1 == PIdle then n == 1 && q1 == q' else EnqueueEnds(q1, p, t1, item, n - 1, q')
  }

  /** The rest of an enqueue from its exchange on. */
  lemma ReservationEnds(q: Ring, p: Tid, item: Item, q': Ring)
    requires RingOk(q) && q.x == q.w && q.w - q.r < |q.slots| - 1
    requires q' == q.(w := q.w + 1, x := q.w + 1, count := q.count + 1, log := q.log + [item], owner := q.owner + [p],
                      slots := q.slots[CountToIndex(q.w, |q.slots|) := item])
    ensures EnqueueEnds(q, p, PBoth(item, q.w, q.r), item, 4, q')
  {
    FullByResidues(q.w, q.r, |q.slots|);
    var q1 := q.(w := q.w + 1, log := q.log + [item], owner := q.owner + [p]);
    var q2 := q1.(slots := q.slots[CountToIndex(q.w, |q.slots|) := item]);
    var q3 := q2.(x := q.w + 1);
    assert EnqueueEnds(q3, p, PCommitted, item, 1, q');
    assert EnqueueEnds(q2, p, PWritten(item, q.w), item, 2, q');
    assert EnqueueEnds(q1, p, PReserved(item, q.w), item, 3, q');
  }

  /**
   * Alone, with every earlier reservation committed, an enqueue returns after four steps, refused and
   * without effect, when the ring is full, and else after seven, its item readable behind all others.
   */
  lemma EnqueueReturns(q: Ring, p: Tid, item: Item)
    requires RingOk(q) && q.x == q.w
    ensures if q.w - q.r == |q.slots| - 1 then EnqueueEnds(q, p, PIdle, item, 4, q)
            else EnqueueEnds(q, p, PIdle, item, 7,
                             q.(w := q.w + 1, x := q.w + 1, count := q.count + 1, log := q.log + [item],
                                owner := q.owner + [p], slots := q.slots[CountToIndex(q.w, |q.slots|) := item]))
  {
    var q' := q.(w := q.w + 1, x := q.w + 1, count := q.count + 1, log := q.log + [item], owner := q.owner + [p],
                 slots := q.slots[CountToIndex(q.w, |q.slots|) := item]);
    if q.w - q.r == |q.slots| - 1 {
      FullByResidues(q.w, q.r, |q.slots|);
      assert EnqueueEnds(q, p, PBoth(item, q.w, q.r), item, 1, q);
      assert EnqueueEnds(q, p, PWrite(item, q.w), item, 2, q);
      assert EnqueueEnds(q, p, PStart(item), item, 3, q);
    } else {
      ReservationEnds(q, p, item, q');
      assert EnqueueEnds(q, p, PWrite(item, q.w), item, 5, q');
      assert EnqueueEnds(q, p, PStart(item), item, 6, q');
    }
  }

  /** Stepping alone from `t`, a consumer returns for the first time after `n` steps, leaving `q'`. */
  ghost predicate DequeueEnds(q: Ring, t: Consumer, n: nat, q': Ring)
    requires |q.slots| > 0
    decreases n
  {
    n > 0 &&
    var (q1, t1) := ConsumerStep(q, t);
    if t1 == CIdle then n == 1 && q1 == q' else DequeueEnds(q1, t1, n - 1, q')
  }

  /** Alone, a dequeue answers empty after four steps when all committed is read, and else takes the next item. */
  lemma DequeueReturns(q: Ring)
    requires RingOk(q)
    ensures if q.x == q.r then DequeueEnds(q, CIdle, 4, q)
            else DequeueEnds(q, CIdle, 6, q.(r := q.r + 1, out := q.out + [q.log[q.r]], count := q.count - 1))
  {
    SameSlot(q.r, q.x, |q.slots|);
    if q.x == q.r {
      assert DequeueEnds(q, CBoth(q.r, q.x), 1, q);
      assert DequeueEnds(q, CRead(q.r), 2, q);
      assert DequeueEnds(q, CStart, 3, q);
    } else {
      var q1 := q.(r := q.r + 1, out := q.out + [q.log[q.r]]);
      var q' := q1.(count := q.count - 1);
      assert DequeueEnds(q1, CTaken, 1, q');
      assert DequeueEnds(q, CData(q.r, q.log[q.r]), 2, q');
      assert DequeueEnds(q, CBoth(q.r, q.x), 3, q');
      assert DequeueEnds(q, CRead(q.r), 4, q');
      assert DequeueEnds(q, CStart, 5, q');
    }
  }
}
