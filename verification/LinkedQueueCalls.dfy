/**
 * What calls on the linked queue answer: an enqueue always adds its item, once; a dequeue hands out
 * one item or answers empty, and the latter exactly when it should; a thread left alone finishes its
 * call.
 */
module LinkedQueueCalls {
  import opened LinkedQueue

  ghost predicate ByProducer(a: Action, p: Tid) {
    a.Produce? && a.p == p
  }

  ghost predicate ByConsumer(a: Action, c: Tid) {
    a.Consume? && a.c == c
  }

  /** What `b` has after `a`. */
  ghost function More(a: seq<Item>, b: seq<Item>): seq<Item> {
    if |a| <= |b| then b[|a|..] else []
  }

  // ---------------------------------------------------------------- enqueue among other threads

  /** What steps of producer `p` from `i` to `n` put behind the tail. */
  ghost function Enqueued(trace: seq<State>, acts: seq<Action>, p: Tid, i: nat, n: nat): seq<Item>
    requires i <= n < |trace| && |trace| == |acts| + 1
  {
    if n == i then []
    else Enqueued(trace, acts, p, i, n - 1)
         + if ByProducer(acts[n - 1], p) then More(trace[n - 1].m.items, trace[n].m.items) else []
  }

  /** Producer `p` is inside the call it began at step `i`, at least up to step `n`. */
  ghost predicate Enqueuing(trace: seq<State>, acts: seq<Action>, p: Tid, i: nat, n: nat) {
    && i < n < |trace| && |trace| == |acts| + 1 && ByProducer(acts[i], p)
    && p in trace[i].producers && trace[i].producers[p] == PIdle
    && (forall k | i < k <= n :: p in trace[k].producers && trace[k].producers[p] != PIdle)
  }

  /** Where a producer enqueuing `item` stands after having put `got` behind the tail. */
  ghost predicate Halfway(t: Producer, item: Item, got: seq<Item>) {
    if t.PIdle? || t.PLink? then got == [item] else t.item == item && got == []
  }

  lemma HalfwayStep(m: Memory, p: Tid, t: Producer, item: Item, any: Item, weak: bool, got: seq<Item>)
    requires ProducerCan(m, t) && t != PIdle && Halfway(t, item, got)
    ensures var (m', t') := ProducerStep(m, p, t, any, weak); Halfway(t', item, got + More(m.items, m'.items))
    ensures var (m', t') := ProducerStep(m, p, t, any, weak);
            t' == PIdle ==> t.PLink? && t.pred.node in m'.cells && m'.cells[t.pred.node].next == t.idx
  {
    assert More(m.items, m.items) == [] && got + [] == got;
    if t.PTail? {
      assert More(m.items, m.items + [t.item]) == [t.item];
    }
  }

  lemma {:induction false} EnqueuePhase(trace: seq<State>, acts: seq<Action>, p: Tid, i: nat, n: nat)
    requires Steps(trace, acts) && Enqueuing(trace, acts, p, i, n)
    ensures Halfway(trace[n].producers[p], acts[i].item, Enqueued(trace, acts, p, i, n))
  {
    var s, a := trace[n - 1], acts[n - 1];
    assert Enabled(s, a);
    if n == i + 1 {
      assert Enqueued(trace, acts, p, i, n) == Enqueued(trace, acts, p, i, i) + More(s.m.items, s.m.items);
    } else {
      EnqueuePhase(trace, acts, p, i, n - 1);
      if ByProducer(a, p) {
        HalfwayStep(s.m, p, s.producers[p], acts[i].item, a.item, a.weak, Enqueued(trace, acts, p, i, n - 1));
      }
    }
  }

  /** A call of `enqueue` that returns has put its item behind the tail, once, and linked it there. */
  lemma EnqueueCall(trace: seq<State>, acts: seq<Action>, p: Tid, i: nat, n: nat)
    requires Run(trace, acts) && n < |acts| && Enqueuing(trace, acts, p, i, n)
    requires p in trace[n + 1].producers && trace[n + 1].producers[p] == PIdle
    ensures Enqueued(trace, acts, p, i, n + 1) == [acts[i].item]
    ensures var t := trace[n].producers[p];
            t.PLink? && t.pred.node in trace[n + 1].m.cells && trace[n + 1].m.cells[t.pred.node].next == t.idx
  {
    EnqueuePhase(trace, acts, p, i, n);
    var s, a := trace[n], acts[n];
    assert Enabled(s, a);
    HalfwayStep(s.m, p, s.producers[p], acts[i].item, a.item, a.weak, Enqueued(trace, acts, p, i, n));
  }

  // ---------------------------------------------------------------- dequeue among other threads

  /** What steps of consumer `c` from `i` to `n` handed out. */
  ghost function Dequeued(trace: seq<State>, acts: seq<Action>, c: Tid, i: nat, n: nat): seq<Item>
    requires i <= n < |trace| && |trace| == |acts| + 1
  {
    if n == i then []
    else Dequeued(trace, acts, c, i, n - 1)
         + if ByConsumer(acts[n - 1], c) then More(trace[n - 1].out, trace[n].out) else []
  }

  ghost predicate Dequeuing(trace: seq<State>, acts: seq<Action>, c: Tid, i: nat, n: nat) {
    && i < n < |trace| && |trace| == |acts| + 1 && ByConsumer(acts[i], c)
    && c in trace[i].consumers && trace[i].consumers[c] == CIdle
    && (forall k | i < k <= n :: c in trace[k].consumers && trace[k].consumers[c] != CIdle)
  }

  /** Has the consumer handed out its item? */
  ghost predicate Won(r: Consumer) {
    (r.CRelease? || r.CFree? || r.CStored?) && r.won
  }

  lemma WonStep(m: Memory, c: Tid, r: Consumer, weak: bool)
    requires ConsumerCan(m, r) && r != CIdle
    ensures var (m', r', got) := ConsumerStep(m, c, r, weak);
      && (r' != CIdle ==> |got| == (if Won(r') then 1 else 0) - (if Won(r) then 1 else 0))
      && (r' == CIdle ==> |got| == (if r.CNext? then 0 else 1) - (if Won(r) then 1 else 0))
  {
  }

  /** One step of any thread, seen by consumer `c` inside a call that has handed out `got`. */
  lemma WonMore(s: State, a: Action, c: Tid, got: seq<Item>)
    requires Enabled(s, a) && c in s.consumers && s.consumers[c] != CIdle
    requires |got| == if Won(s.consumers[c]) then 1 else 0
    ensures c in Do(s, a).consumers
    ensures var r, r' := s.consumers[c], Do(s, a).consumers[c];
      var now := got + if ByConsumer(a, c) then More(s.out, Do(s, a).out) else [];
      |now| == if r' == CIdle then if r.CNext? then 0 else 1 else if Won(r') then 1 else 0
  {
    if ByConsumer(a, c) {
      WonStep(s.m, c, s.consumers[c], a.weak);
    }
  }

  lemma {:induction false} DequeuePhase(trace: seq<State>, acts: seq<Action>, c: Tid, i: nat, n: nat)
    requires Steps(trace, acts) && Dequeuing(trace, acts, c, i, n)
    ensures |Dequeued(trace, acts, c, i, n)| == if Won(trace[n].consumers[c]) then 1 else 0
  {
    assert Enabled(trace[n - 1], acts[n - 1]);
    if n == i + 1 {
      DequeueBegins(trace[i], acts[i], c);
      assert Dequeued(trace, acts, c, i, i) == [];
    } else {
      DequeuePhase(trace, acts, c, i, n - 1);
      WonMore(trace[n - 1], acts[n - 1], c, Dequeued(trace, acts, c, i, n - 1));
    }
  }

  lemma DequeueBegins(s: State, a: Action, c: Tid)
    requires Enabled(s, a) && c in s.consumers && s.consumers[c] == CIdle && ByConsumer(a, c)
    ensures c in Do(s, a).consumers && !Won(Do(s, a).consumers[c]) && More(s.out, Do(s, a).out) == []
  {
  }

  /** A call of `try_dequeue` that returns handed out one item, or answered empty at once and handed out none. */
  lemma DequeueCall(trace: seq<State>, acts: seq<Action>, c: Tid, i: nat, n: nat)
    requires Run(trace, acts) && n < |acts| && Dequeuing(trace, acts, c, i, n)
    requires c in trace[n + 1].consumers && trace[n + 1].consumers[c] == CIdle
    ensures |Dequeued(trace, acts, c, i, n + 1)| == if trace[n].consumers[c].CNext? then 0 else 1
  {
    DequeuePhase(trace, acts, c, i, n);
    assert Enabled(trace[n], acts[n]);
    WonMore(trace[n], acts[n], c, Dequeued(trace, acts, c, i, n));
  }

  lemma {:induction false} Untouched(trace: seq<State>, acts: seq<Action>, c: Tid, i: nat, n: nat)
    requires Steps(trace, acts) && i <= n < |trace| && c in trace[i].consumers
    requires forall k | i <= k < n :: !ByConsumer(acts[k], c)
    ensures c in trace[n].consumers && trace[n].consumers[c] == trace[i].consumers[c]
  {
    if n > i {
      Untouched(trace, acts, c, i, n - 1);
      assert Enabled(trace[n - 1], acts[n - 1]);
    }
  }

  /** What the consumer does with the head and successor it loaded, the head being still the same. */
  lemma AnswerStep(m: Memory, c: Tid, r: Consumer, weak: bool)
    requires r.CNext? && r.raw == m.head
    ensures var r' := ConsumerStep(m, c, r, weak).1;
      if r.next == NULL then r' == (if m.head.consumed then CIdle else CClaimed(m.head.idx))
      else r' == if weak then CStart else CTaken(m.head.idx, m.head.consumed)
  {
  }

  /** Steps `k` and `n` are consecutive steps of consumer `c`, the first about to load the head's successor. */
  ghost predicate LoadAndNext(trace: seq<State>, acts: seq<Action>, c: Tid, k: nat, n: nat) {
    && k < n < |acts| && |trace| == |acts| + 1 && ByConsumer(acts[k], c) && ByConsumer(acts[n], c)
    && (forall j | k < j < n :: !ByConsumer(acts[j], c))
    && c in trace[k].consumers && trace[k].consumers[c].CHead?
  }

  /** The head a lone consumer loaded is still the head. */
  lemma HeadLoaded(trace: seq<State>, acts: seq<Action>, c: Tid, n: nat)
    requires Run(trace, acts) && Solo(trace[0], c) && n < |trace| && c in trace[n].consumers
    ensures trace[n].m.head.idx.node in trace[n].m.cells
    ensures var r := trace[n].consumers[c]; r.CHead? || r.CNext? ==> r.raw == trace[n].m.head
  {
    RunInv(trace, acts, c, n);
    assert At(trace[n].m, trace[n].m.chain[trace[n].m.front], Live(trace[n].m.front));
  }

  lemma Loaded(trace: seq<State>, acts: seq<Action>, c: Tid, k: nat, n: nat)
    requires Run(trace, acts) && Solo(trace[0], c) && LoadAndNext(trace, acts, c, k, n)
    ensures trace[k].m.head.idx.node in trace[k].m.cells && c in trace[n].consumers
    ensures trace[n].consumers[c] == CNext(trace[k].m.head, trace[k].m.cells[trace[k].m.head.idx.node].next)
    ensures trace[n].m.head == trace[k].m.head
  {
    HeadLoaded(trace, acts, c, k);
    assert Enabled(trace[k], acts[k]);
    Untouched(trace, acts, c, k + 1, n);
    HeadLoaded(trace, acts, c, n);
  }

  /**
   * With one consumer: steps `k` and `n` are its load of the head's successor and the step after it,
   * whatever producers do in between. It answers empty exactly when at the load the head was consumed
   * and had no successor; then all that was enqueued had been delivered, or all up to the head had and
   * the link after it was pending. Otherwise it claims the head's item or moves the head on, and starts
   * over only when a weak exchange fails.
   */
  lemma EmptyAnswer(trace: seq<State>, acts: seq<Action>, c: Tid, k: nat, n: nat)
    requires Run(trace, acts) && Solo(trace[0], c) && LoadAndNext(trace, acts, c, k, n)
    ensures c in trace[n + 1].consumers && trace[k].m.head.idx.node in trace[k].m.cells
    ensures var s, next, r := trace[k], trace[k].m.cells[trace[k].m.head.idx.node].next, trace[n + 1].consumers[c];
      && (r == CIdle <==> s.m.head.consumed && next == NULL)
      && (r == CIdle ==>
            || s.out == s.m.items
            || (Pending(s, s.m.front) && s.m.front < |s.m.items| && s.out == s.m.items[..s.m.front]))
      && (r.CClaimed? <==> !s.m.head.consumed && next == NULL)
      && (next != NULL ==> if acts[n].weak then r == CStart else r == CTaken(s.m.head.idx, s.m.head.consumed))
  {
    Loaded(trace, acts, c, k, n);
    assert Enabled(trace[n], acts[n]);
    AnswerStep(trace[n].m, c, trace[n].consumers[c], acts[n].weak);
    if trace[k].m.head.consumed && trace[k].m.cells[trace[k].m.head.idx.node].next == NULL {
      RunInv(trace, acts, c, k);
      EmptyLoad(trace[k], c);
    }
  }

  // ---------------------------------------------------------------- a consumer left alone

  /** The successor of the head, null where there is no node. */
  ghost function HeadNext(m: Memory): Idx {
    if m.head.idx.node in m.cells then m.cells[m.head.idx.node].next else NULL
  }

  /** How many items the rest of a call of a lone consumer hands out. */
  ghost function Due(m: Memory, r: Consumer): nat {
    var pending := if m.head.consumed && HeadNext(m) == NULL then 0 else 1;
    match r
    case CIdle => pending
    case CStart => pending
    case CHead(_) => pending
    case CNext(raw, next) => if raw.consumed && next == NULL then 0 else 1
    case CClaimed(_) => 1
    case CTaken(_, _) => 1
    case CRelease(_, won) => if won then 0 else pending
    case CFree(_, _, won) => if won then 0 else pending
    case CStored(_, _, won) => if won then 0 else pending
  }

  /** A bound on the steps left; a consumed head costs a second turn of the loop. */
  ghost function Left(m: Memory, r: Consumer): nat {
    var turn := if m.head.consumed then 14 else 7;
    match r
    case CIdle => turn
    case CStart => turn
    case CHead(_) => turn - 1
    case CNext(raw, _) => turn - 2
    case CClaimed(_) => 1
    case CTaken(_, consumed) => 4 + if consumed then turn else 0
    case CRelease(_, won) => 3 + if won then 0 else turn
    case CFree(_, free, won) => (if m.free == free then 2 else 4) + if won then 0 else turn
    case CStored(_, free, won) => (if m.free == free then 1 else 3) + if won then 0 else turn
  }

  lemma AloneSearches(m: Memory, c: Tid, r: Consumer)
    requires MemoryOk(m) && ReaderOk(m, c, r) && ConsumerCan(m, r) && (r.CIdle? || r.CStart? || r.CHead? || r.CNext?)
    ensures var (m', r', got) := ConsumerStep(m, c, r, false);
      && got == [] && (r' == CIdle ==> Due(m, r) == 0)
      && (r' != CIdle ==> Due(m', r') == Due(m, r) && Left(m', r') < Left(m, r))
  {
    assert At(m, m.chain[m.front], Live(m.front));
  }

  lemma AloneReleases(m: Memory, c: Tid, r: Consumer)
    requires MemoryOk(m) && ReaderOk(m, c, r) && ConsumerCan(m, r) && (r.CClaimed? || HoldsNode(r))
    ensures var (m', r', got) := ConsumerStep(m, c, r, false);
      && (r' == CIdle ==> |got| == Due(m, r))
      && (r' != CIdle ==> |got| + Due(m', r') == Due(m, r) && Left(m', r') < Left(m, r))
  {
    assert At(m, m.chain[m.front], Live(m.front));
  }

  /** A lone consumer about to step: the memory is sound and `d` items have been delivered. */
  ghost predicate Alone(m: Memory, c: Tid, r: Consumer, d: int) {
    MemoryOk(m) && ReaderOk(m, c, r) && d == Delivered(m, r) && 0 <= d <= |m.items|
  }

  lemma AloneStep(m: Memory, c: Tid, r: Consumer, d: int)
    requires Alone(m, c, r, d)
    ensures ConsumerCan(m, r)
    ensures var (m', r', got) := ConsumerStep(m, c, r, false);
      && Alone(m', c, r', d + |got|) && m'.items == m.items && m.items[..d] + got == m.items[..d + |got|]
      && if r' == CIdle then |got| == Due(m, r) else |got| + Due(m', r') == Due(m, r) && Left(m', r') < Left(m, r)
  {
    ConsumerKeepsMemory(m, c, r, false);
    ConsumerKeepsOwn(m, c, r, false);
    ConsumerDelivers(m, c, r, false);
    var (m', r', got) := ConsumerStep(m, c, r, false);
    assert |m.items[..d] + got| == d + |got|;
    if r.CClaimed? || HoldsNode(r) {
      AloneReleases(m, c, r);
    } else {
      AloneSearches(m, c, r);
    }
  }

  /** Where a lone consumer stands in its call: the memory, its own place and what it handed out. */
  datatype Call = Call(m: Memory, r: Consumer, got: seq<Item>)

  /** One more step of its own, without a weak failure; once it has returned it stays so. */
  ghost function NextAlone(c: Tid, k: Call): Call {
    if k.r == CIdle || !ConsumerCan(k.m, k.r) then k
    else
      var (m, r, more) := ConsumerStep(k.m, c, k.r, false);
      Call(m, r, k.got + more)
  }

  ghost function Iterate<S>(next: S -> S, s: S, n: nat): S {
    if n == 0 then s else next(Iterate(next, s, n - 1))
  }

  /** What a step keeps, any number of steps keeps. */
  lemma {:induction false} IterateKeeps<S(!new)>(next: S -> S, inv: (S, nat) -> bool, s: S, n: nat)
    requires inv(s, 0) && forall k, i: nat | inv(k, i) :: inv(next(k), i + 1)
    ensures inv(Iterate(next, s, n), n)
  {
    if n > 0 {
      IterateKeeps(next, inv, s, n - 1);
    }
  }

  ghost function FirstAlone(m: Memory, c: Tid): Call {
    var (m1, r1, got) := ConsumerStep(m, c, CIdle, false);
    Call(m1, r1, got)
  }

  /** A call of consumer `c` begun in `m`, `n` steps of its own after the first. */
  ghost function DequeueAlone(m: Memory, c: Tid, n: nat): Call {
    Iterate(k => NextAlone(c, k), FirstAlone(m, c), n)
  }

  /** The accounts of a call that began with `d` of `items` delivered and `due` items and `left` steps ahead. */
  ghost predicate Tally(items: seq<Item>, d: int, due: nat, left: nat, n: nat, k: Call) {
    && k.m.items == items && 0 <= d && d + |k.got| <= |items| && items[..d] + k.got == items[..d + |k.got|]
    && |k.got| + (if k.r == CIdle then 0 else Due(k.m, k.r)) == due
    && (k.r != CIdle ==> 0 < Left(k.m, k.r) && Left(k.m, k.r) + n < left)
  }

  lemma TallyStep(items: seq<Item>, d: int, due: nat, left: nat, n: nat, k: Call, k': Call, more: seq<Item>)
    requires Tally(items, d, due, left, n, k) && k.r != CIdle && k'.m.items == items && k'.got == k.got + more
    requires d + |k.got| + |more| <= |items| && items[..d + |k.got|] + more == items[..d + |k.got| + |more|]
    requires if k'.r == CIdle then |more| == Due(k.m, k.r)
             else |more| + Due(k'.m, k'.r) == Due(k.m, k.r) && Left(k'.m, k'.r) < Left(k.m, k.r)
    ensures Tally(items, d, due, left, n + 1, k')
  {
    JoinParts(items, d, k.got, more);
  }

  ghost predicate Going(items: seq<Item>, c: Tid, d: int, due: nat, left: nat, n: nat, k: Call) {
    Alone(k.m, c, k.r, d + |k.got|) && Tally(items, d, due, left, n, k)
  }

  lemma AloneFirst(m: Memory, c: Tid, d: int)
    requires Alone(m, c, CIdle, d)
    ensures Going(m.items, c, d, Due(m, CIdle), Left(m, CIdle), 0, FirstAlone(m, c))
  {
    AloneStep(m, c, CIdle, d);
  }

  lemma AloneMoves(c: Tid, k: Call, d: int) returns (k': Call, more: seq<Item>)
    requires Alone(k.m, c, k.r, d) && k.r != CIdle
    ensures k' == NextAlone(c, k) && k'.got == k.got + more && k'.m.items == k.m.items
    ensures Alone(k'.m, c, k'.r, d + |more|) && k.m.items[..d] + more == k.m.items[..d + |more|]
    ensures if k'.r == CIdle then |more| == Due(k.m, k.r)
            else |more| + Due(k'.m, k'.r) == Due(k.m, k.r) && Left(k'.m, k'.r) < Left(k.m, k.r)
  {
    AloneStep(k.m, c, k.r, d);
    k', more := NextAlone(c, k), ConsumerStep(k.m, c, k.r, false).2;
  }

  /** The accounts stay right when the parts do. */
  lemma GoingOn(items: seq<Item>, c: Tid, d: int, due: nat, left: nat, n: nat, k: Call, k': Call, more: seq<Item>)
    requires Tally(items, d, due, left, n, k) && k.r != CIdle && k'.m.items == items && k'.got == k.got + more
    requires Alone(k'.m, c, k'.r, d + |k.got| + |more|)
    requires items[..d + |k.got|] + more == items[..d + |k.got| + |more|]
    requires if k'.r == CIdle then |more| == Due(k.m, k.r)
             else |more| + Due(k'.m, k'.r) == Due(k.m, k.r) && Left(k'.m, k'.r) < Left(k.m, k.r)
    ensures Going(items, c, d, due, left, n + 1, k')
  {
    TallyStep(items, d, due, left, n, k, k', more);
  }

  lemma AloneNext(items: seq<Item>, c: Tid, d: int, due: nat, left: nat, n: nat, k: Call)
    requires Going(items, c, d, due, left, n, k)
    ensures Going(items, c, d, due, left, n + 1, NextAlone(c, k))
  {
    if k.r != CIdle {
      var k', more := AloneMoves(c, k, d + |k.got|);
      GoingOn(items, c, d, due, left, n, k, k', more);
    }
  }

  lemma AloneKeeps(items: seq<Item>, c: Tid, d: int, due: nat, left: nat, k: Call, n: nat)
    requires Going(items, c, d, due, left, 0, k)
    ensures Going(items, c, d, due, left, n, Iterate(j => NextAlone(c, j), k, n))
  {
    var inv := (j, i: nat) => Going(items, c, d, due, left, i, j);
    forall j, i: nat | inv(j, i)
      ensures inv(NextAlone(c, j), i + 1)
    {
      AloneNext(items, c, d, due, left, i, j);
    }
    IterateKeeps(j => NextAlone(c, j), inv, k, n);
  }

  lemma JoinParts(items: seq<Item>, d: nat, g: seq<Item>, rest: seq<Item>)
    requires d + |g| + |rest| <= |items|
    requires items[..d] + g == items[..d + |g|] && items[..d + |g|] + rest == items[..d + |g| + |rest|]
    ensures items[..d] + (g + rest) == items[..d + |g + rest|]
  {
    assert items[..d] + (g + rest) == (items[..d] + g) + rest;
  }

  /**
   * Alone and without weak failures, a dequeue has returned after fourteen steps. It answers empty
   * exactly when the head is consumed and has no successor, and else hands out the next item in order.
   */
  lemma DequeueReturns(s: State, c: Tid)
    requires Inv(s, c) && Reader(s, c) == CIdle
    ensures var k := DequeueAlone(s.m, c, 13);
      && k.r == CIdle && MemoryOk(k.m) && k.m.items == s.m.items
      && if s.m.head.consumed && HeadNext(s.m) == NULL then k.got == []
         else |s.out| < |s.m.items| && k.got == [s.m.items[|s.out|]]
  {
    var d := |s.out|;
    AloneFirst(s.m, c, d);
    AloneKeeps(s.m.items, c, d, Due(s.m, CIdle), Left(s.m, CIdle), FirstAlone(s.m, c), 13);
    var got := DequeueAlone(s.m, c, 13).got;
    if got != [] {
      assert (s.m.items[..d] + got)[d] == s.m.items[..d + |got|][d];
    }
  }

  // ---------------------------------------------------------------- a producer left alone

  datatype Making = Making(m: Memory, t: Producer)

  /** One more step of its own, without a weak failure; once it has returned it stays so. */
  ghost function NextMaking(p: Tid, k: Making): Making {
    if k.t == PIdle || !ProducerCan(k.m, k.t) then k
    else
      var (m, t) := ProducerStep(k.m, p, k.t, 0, false);
      Making(m, t)
  }

  /** A call of producer `p` begun in `m`, `n` steps of its own after the first. */
  ghost function EnqueueAlone(m: Memory, p: Tid, item: Item, n: nat): Making {
    Iterate(k => NextMaking(p, k), Making(m, WithFree(item, m.free)), n)
  }

  /** The steps still ahead of a producer whose loads are up to date. */
  ghost function Ahead(t: Producer): nat {
    match t
    case PIdle => 0
    case PLoaded(_, _) => 7
    case PNext(_, _, _) => 6
    case PAlloc(_) => 5
    case POwn(_, _) => 5
    case PCleared(_, _) => 4
    case PFresh(_, _) => 4
    case PReady(_, _) => 3
    case PTail(_, _, _) => 2
    case PLink(_, _) => 1
  }

  /** Which node it uses: the top of the free list `list` if there is one, else a new one. */
  ghost predicate Source(nodes: nat, list: seq<Idx>, k: Making) {
    if k.t.PLoaded? || k.t.PNext? then list != [] && k.m.list == list && k.m.nodes == nodes && k.t.free == k.m.free
    else if k.t.PAlloc? then list == [] && k.m.list == [] && k.m.nodes == nodes
    else if list == [] then k.m.list == [] && k.m.nodes == nodes + 1
    else k.m.list == list[..|list| - 1] && k.m.nodes == nodes
  }

  /** What it has done to a queue of nodes `chain` with items `items`. */
  ghost predicate Effect(chain: seq<Idx>, items: seq<Item>, item: Item, k: Making) {
    chain != [] &&
    if k.t.PIdle? || k.t.PLink? then
      && k.m.items == items + [item] && k.m.chain == chain + [k.m.tail]
      && (k.t.PLink? ==> k.t.pred == chain[|chain| - 1] && k.t.idx == k.m.tail)
      && (k.t.PIdle? ==>
            var last := chain[|chain| - 1]; last.node in k.m.cells && k.m.cells[last.node].next == k.m.tail)
    else
      k.t.item == item && k.m.items == items && k.m.chain == chain && (k.t.PTail? ==> k.t.tail == k.m.tail)
  }

  ghost predicate Held(p: Tid, k: Making) {
    MemoryOk(k.m) && ProducerOk(k.m, p, k.t)
  }

  lemma HeldStep(p: Tid, k: Making)
    requires Held(p, k) && k.t != PIdle
    ensures ProducerCan(k.m, k.t) && Held(p, NextMaking(p, k))
  {
    ProducerKeepsMemory(k.m, p, k.t, 0, false);
    ProducerKeepsOwn(k.m, p, k.t, 0, false);
  }

  lemma EffectStep(p: Tid, chain: seq<Idx>, items: seq<Item>, item: Item, k: Making)
    requires Effect(chain, items, item, k) && k.t != PIdle && ProducerCan(k.m, k.t)
    requires k.m.chain != [] && k.m.tail == k.m.chain[|k.m.chain| - 1]
    requires k.t.PNext? ==> k.m.free == k.t.free
    ensures var k' := NextMaking(p, k); Effect(chain, items, item, k') && Ahead(k'.t) < Ahead(k.t)
  {
  }

  lemma SourceStep(p: Tid, nodes: nat, list: seq<Idx>, k: Making)
    requires Source(nodes, list, k) && k.t != PIdle && ProducerCan(k.m, k.t) && (k.t.PTail? ==> k.t.tail == k.m.tail)
    ensures Source(nodes, list, NextMaking(p, k))
  {
  }

  ghost predicate Working(p: Tid, m: Memory, item: Item, k: Making, n: nat) {
    && Held(p, k) && Source(m.nodes, m.list, k) && Effect(m.chain, m.items, item, k)
    && (k.t != PIdle ==> Ahead(k.t) + n <= 7)
  }

  lemma WorkingStep(p: Tid, m: Memory, item: Item, k: Making, n: nat)
    requires Working(p, m, item, k, n)
    ensures Working(p, m, item, NextMaking(p, k), n + 1)
  {
    if k.t != PIdle {
      HeldStep(p, k);
      EffectStep(p, m.chain, m.items, item, k);
      SourceStep(p, m.nodes, m.list, k);
    }
  }

  lemma WorkingStarts(p: Tid, m: Memory, item: Item)
    requires MemoryOk(m)
    ensures Working(p, m, item, Making(m, WithFree(item, m.free)), 0)
  {
    if m.free != NULL {
      ListHeadIsCurrent(m, m.free);
    }
  }

  /**
   * Alone and without weak failures, an enqueue has returned after eight steps: its item is behind all
   * others, linked from the node that was last, in the node on top of the free list if there was one.
   */
  lemma EnqueueReturns(m: Memory, p: Tid, item: Item)
    requires MemoryOk(m)
    ensures var k := EnqueueAlone(m, p, item, 7);
      && k.t == PIdle && MemoryOk(k.m) && k.m.items == m.items + [item] && k.m.chain == m.chain + [k.m.tail]
      && m.tail.node in k.m.cells && k.m.cells[m.tail.node].next == k.m.tail
      && if m.list == [] then k.m.list == [] && k.m.nodes == m.nodes + 1
         else k.m.list == m.list[..|m.list| - 1] && k.m.nodes == m.nodes
  {
    var inv := (k, n: nat) => Working(p, m, item, k, n);
    WorkingStarts(p, m, item);
    forall k, n: nat | inv(k, n)
      ensures inv(NextMaking(p, k), n + 1)
    {
      WorkingStep(p, m, item, k, n);
    }
    IterateKeeps(k => NextMaking(p, k), inv, Making(m, WithFree(item, m.free)), 7);
    WorkingEnds(p, m, item, EnqueueAlone(m, p, item, 7));
  }

  lemma WorkingEnds(p: Tid, m: Memory, item: Item, k: Making)
    requires MemoryOk(m) && Working(p, m, item, k, 7)
    ensures k.t == PIdle && m.tail.node in k.m.cells && k.m.cells[m.tail.node].next == k.m.tail
  {
  }
}
