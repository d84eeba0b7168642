/**
 * Whole runs of the pipe: every interleaving of its writer and its reader, against a reference
 * model of what the writer's calls promise.
 */
module PipeRuns {
  import opened YPipe

  // ---------------------------------------------------------------- the reference model of the writer's side

  /**
   * What the calls promise: complete items in order, the incomplete ones after them, how many
   * complete ones were flushed, and the values un-written.
   */
  datatype Spec = Spec(done: seq<Item>, pending: seq<Item>, sent: nat, undone: seq<Item>)

  function SpecCall(p: Spec, call: Call): Spec {
    match call
    case Write(v, incomplete) =>
      if incomplete then p.(pending := p.pending + [v])
      else p.(done := p.done + p.pending + [v], pending := [])
    case Unwrite =>
      if p.pending == [] then p
      else p.(pending := p.pending[..|p.pending| - 1], undone := p.undone + [p.pending[|p.pending| - 1]])
    case Flush => p.(sent := |p.done|)
  }

  /** An un-write whose value was not handed back yet. */
  function Owed(at: WriterAt): seq<Item> {
    match at
    case WUnend(v) => [v]
    case WFree(_, v) => [v]
    case WUnpushed(v) => [v]
    case _ => []
  }

  ghost predicate Completing(at: WriterAt) {
    (at.WFull? || at.WGot? || at.WLinked?) && at.complete
  }

  /** The pipe holds exactly what the reference model says. */
  ghost predicate Matches(m: Memory, t: Writer, p: Spec, undone: seq<Item>) {
    && m.vals == p.done + p.pending
    && |p.done| == (if Completing(t.at) then |m.vals| else t.fpos)
    && p.sent == (if t.at.WWake? then t.fpos else m.flushed) && p.sent <= |p.done|
    && p.undone == undone + Owed(t.at)
  }

  lemma CallMatches(m: Memory, t: Writer, call: Call, alloc: Cid, p: Spec, undone: seq<Item>)
    requires WriterCan(m, t, call, alloc) && t.at.WIdle? && Matches(m, t, p, undone)
    requires t.f == t.back <==> t.fpos == |m.vals|
    requires t.w == t.f <==> t.wpos == t.fpos
    requires t.wpos == m.flushed
    ensures var (m', t', got) := WriterStep(m, t, call, alloc); Matches(m', t', SpecCall(p, call), undone + got)
  {
    var (m', t', got) := WriterStep(m, t, call, alloc);
    match call
    case Write(v, incomplete) =>
      assert m'.vals == p.done + (p.pending + [v]) == (p.done + p.pending + [v]) + [];
    case Unwrite =>
      if t.f != t.back {
        assert m'.vals == p.done + p.pending[..|p.pending| - 1];
      }
    case Flush =>
  }

  lemma StepMatches(m: Memory, t: Writer, call: Call, alloc: Cid, p: Spec, undone: seq<Item>)
    requires WriterCan(m, t, call, alloc) && !t.at.WIdle? && Matches(m, t, p, undone)
    requires Shape(m) && WriterOk(m, t)
    ensures var (m', t', got) := WriterStep(m, t, call, alloc); Matches(m', t', p, undone + got)
  {
    var (m', t', got) := WriterStep(m, t, call, alloc);
    assert Owed(t.at) == got + Owed(t'.at);
    assert undone + Owed(t.at) == (undone + got) + Owed(t'.at);
  }

  // ---------------------------------------------------------------- whole runs

  datatype State = State(m: Memory, w: Writer, r: Reader, spec: Spec, out: seq<Item>, undone: seq<Item>)

  datatype Action = WriterActs(call: Call, alloc: Cid) | ReaderActs(check: bool)

  ghost predicate Enabled(s: State, a: Action) {
    match a
    case WriterActs(call, alloc) => WriterCan(s.m, s.w, call, alloc) && alloc != 0 && alloc !in s.m.chunks
    case ReaderActs(_) => ReaderCan(s.m, s.r)
  }

  ghost function Do(s: State, a: Action): State
    requires Enabled(s, a)
  {
    match a
    case WriterActs(call, alloc) =>
      var (m, w, got) := WriterStep(s.m, s.w, call, alloc);
      s.(m := m, w := w, undone := s.undone + got, spec := if s.w.at.WIdle? then SpecCall(s.spec, call) else s.spec)
    case ReaderActs(check) =>
      var (m, r, got) := ReaderStep(s.m, s.r, check);
      s.(m := m, r := r, out := s.out + got)
  }

  /** The constructors: one pushed terminator, all pointers at it; with one-slot chunks a second chunk. */
  ghost predicate Init(s: State) {
    && s.m.n > 0 && s.m.spare == 0 && s.m.vals == [] && s.m.front == s.m.flushed == 0 && !s.m.open
    && |s.m.chain| == (if s.m.n == 1 then 2 else 1) && 0 !in s.m.chain
    && (s.m.n == 1 ==> s.m.chain[0] != s.m.chain[1])
    && s.m.chunks.Keys == s.m.where.Keys == (set k | k in s.m.chain)
    && (forall j | 0 <= j < |s.m.chain| ::
          s.m.where[s.m.chain[j]] == Live(j) && |s.m.chunks[s.m.chain[j]].values| == s.m.n)
    && (s.m.n == 1 ==> s.m.chunks[s.m.chain[0]].next == s.m.chain[1] && s.m.chunks[s.m.chain[1]].prev == s.m.chain[0])
    && s.m.c == s.w.back == s.w.w == s.w.f == s.r.begin == s.r.r == Ptr(s.m.chain[0], 0)
    && s.w.end == (if s.m.n == 1 then Ptr(s.m.chain[1], 0) else Ptr(s.m.chain[0], 1))
    && s.w.wpos == s.w.fpos == s.r.rpos == 0 && s.w.at == WIdle && s.r.at == RIdle
    && s.spec == Spec([], [], 0, []) && s.out == [] && s.undone == []
  }

  ghost predicate Inv(s: State) {
    && MemoryOk(s.m) && WriterOk(s.m, s.w) && ReaderOk(s.m, s.r)
    && Matches(s.m, s.w, s.spec, s.undone) && s.out == s.m.vals[..s.m.front]
  }

  lemma InitPlaced(s: State)
    requires Init(s)
    ensures Shape(s.m) && Low(s.m) == 0 && Placed(s.m)
  {
    assert Num(0, s.m.n) == 0;
  }

  lemma InitMemory(s: State)
    requires Init(s)
    ensures MemoryOk(s.m)
  {
    InitPlaced(s);
    assert Num(0, s.m.n) == 0 && Off(0, s.m.n) == 0;
    assert s.m.n == 1 ==> NextOk(s.m, 0) && PrevOk(s.m, 0);
  }

  lemma InitInv(s: State)
    requires Init(s)
    ensures Inv(s)
  {
    InitMemory(s);
    assert Num(0, s.m.n) == 0 && Off(0, s.m.n) == 0;
    assert Num(1, s.m.n) == (if s.m.n == 1 then 1 else 0) && Off(1, s.m.n) == (if s.m.n == 1 then 0 else 1);
  }

  lemma WriterActsKeeps(s: State, call: Call, alloc: Cid)
    requires Inv(s) && Enabled(s, WriterActs(call, alloc))
    ensures Inv(Do(s, WriterActs(call, alloc)))
  {
    var m, t := s.m, s.w;
    WriterKeepsMemory(m, t, call, alloc);
    WriterSparesReader(m, t, call, alloc, s.r);
    WriterKeepsFront(m, t, call, alloc);
    if t.at.WIdle? {
      CallKeepsOwn(m, t, call, alloc);
      DistinctFromBack(m, t);
      DistinctFlush(m, t);
      CallMatches(m, t, call, alloc, s.spec, s.undone);
    } else {
      if t.at.WFull? || t.at.WGot? || t.at.WLinked? {
        GrowKeepsOwn(m, t, call, alloc);
      } else {
        ShrinkKeepsOwn(m, t, call, alloc);
      }
      UnpushedValue(m, t);
      StepMatches(m, t, call, alloc, s.spec, s.undone);
    }
  }

  /** No step of the writer changes a value the reader has or will see. */
  lemma FrontStays(m: Memory, t: Writer, call: Call, alloc: Cid)
    requires m.front <= t.wpos <= t.fpos <= |m.vals| && (t.f == t.back <==> t.fpos == |m.vals|)
    requires WriterCan(m, t, call, alloc)
    ensures var m' := WriterStep(m, t, call, alloc).0;
      m'.front == m.front && m'.front <= |m'.vals| && m'.vals[..m.front] == m.vals[..m.front]
  {
  }

  lemma WriterKeepsFront(m: Memory, t: Writer, call: Call, alloc: Cid)
    requires MemoryOk(m) && WriterOk(m, t) && WriterCan(m, t, call, alloc)
    ensures var m' := WriterStep(m, t, call, alloc).0;
      m'.front == m.front && m'.front <= |m'.vals| && m'.vals[..m.front] == m.vals[..m.front]
  {
    DistinctFromBack(m, t);
    FrontStays(m, t, call, alloc);
  }

  lemma DistinctFlush(m: Memory, t: Writer)
    requires MemoryOk(m) && WriterOk(m, t)
    ensures t.w == t.f <==> t.wpos == t.fpos
  {
    InChain(m, t.fpos);
    InChain(m, t.wpos);
    DistinctAddresses(m, t.fpos, t.wpos);
  }

  lemma UnpushedValue(m: Memory, t: Writer)
    requires MemoryOk(m) && WriterOk(m, t)
    ensures t.at.WUnpushed? ==> InBounds(m, t.back) && m.chunks[t.back.chunk].values[t.back.slot] == t.at.v
  {
  }

  lemma ReaderSparesWriter(m: Memory, t: Reader, check: bool, u: Writer, p: Spec, undone: seq<Item>)
    requires MemoryOk(m) && ReaderOk(m, t) && ReaderCan(m, t) && WriterOk(m, u) && Matches(m, u, p, undone)
    requires Shape(ReaderStep(m, t, check).0)
    ensures WriterOk(ReaderStep(m, t, check).0, u) && Matches(ReaderStep(m, t, check).0, u, p, undone)
  {
    ReaderSameForWriter(m, t, check);
    WriterFrame(m, ReaderStep(m, t, check).0, u);
  }

  lemma ReaderActsKeeps(s: State, check: bool)
    requires Inv(s) && Enabled(s, ReaderActs(check))
    ensures Inv(Do(s, ReaderActs(check)))
  {
    var k := ReaderStep(s.m, s.r, check).0.front;
    ReaderKeepsMemory(s.m, s.r, check);
    ReaderKeepsOwn(s.m, s.r, check);
    ReaderSparesWriter(s.m, s.r, check, s.w, s.spec, s.undone);
    ReaderDelivers(s.m, s.r, check);
    JoinPrefix(s.m.vals, s.m.front, k);
  }

  lemma JoinPrefix(v: seq<Item>, i: nat, k: nat)
    requires i <= k <= |v|
    ensures v[..i] + v[i..k] == v[..k]
  {
  }

  ghost predicate Run(trace: seq<State>, acts: seq<Action>) {
    && |trace| == |acts| + 1 && Init(trace[0])
    && forall i {:trigger acts[i]} | 0 <= i < |acts| ::
         Enabled(trace[i], acts[i]) && trace[i + 1] == Do(trace[i], acts[i])
  }

  lemma {:induction false} RunInv(trace: seq<State>, acts: seq<Action>, n: nat)
    requires Run(trace, acts) && n < |trace|
    ensures Inv(trace[n])
  {
    if n == 0 {
      InitInv(trace[0]);
    } else {
      RunInv(trace, acts, n - 1);
      match acts[n - 1]
      case WriterActs(call, alloc) => WriterActsKeeps(trace[n - 1], call, alloc);
      case ReaderActs(check) => ReaderActsKeeps(trace[n - 1], check);
    }
  }

  /**
   * In every interleaving what was read is a prefix, in order, of the complete items that were
   * flushed: incomplete and un-written items are never seen.
   */
  lemma ReadsFollowFlushedWrites(trace: seq<State>, acts: seq<Action>, n: nat)
    requires Run(trace, acts) && n < |trace|
    ensures var s := trace[n];
      && s.spec.sent <= |s.spec.done| && s.out <= s.spec.done[..s.spec.sent]
      && s.undone <= s.spec.undone
  {
    RunInv(trace, acts, n);
  }

  /** The order of the positions behind the pointers. */
  lemma PositionOrder(trace: seq<State>, acts: seq<Action>, n: nat)
    requires Run(trace, acts) && n < |trace|
    ensures var s := trace[n];
      && s.m.front <= s.w.wpos <= s.w.fpos <= |s.m.vals|
      && (s.r.r != NULL ==> s.m.front <= s.r.rpos <= s.w.wpos)
  {
    RunInv(trace, acts, n);
  }

  lemma AddrNotNull(m: Memory, i: nat)
    requires Shape(m) && Placed(m) && m.front <= i <= |m.vals|
    ensures Num(i, m.n) < |m.chain| && Addr(m, i) != NULL
  {
    InChain(m, i);
  }

  /** The shared pointer as the writer sees it. */
  lemma Handshaking(m: Memory, t: Writer)
    requires Shape(m) && Handshake(m) && WriterOk(m, t)
    requires Num(m.flushed, m.n) < |m.chain| && Addr(m, m.flushed) != NULL
    ensures m.c == NULL || m.c == t.w
    ensures m.c == NULL ==> m.front == m.flushed
    ensures t.at.WWake? ==> m.c == NULL
    ensures t.at.WIdle? && t.w != t.f ==> (WriterStep(m, t, Flush, 0).1.at.WWake? <==> m.c == NULL)
  {
  }

  /**
   * The handshake: `c` is null or equals `w`; it is null only once the reader has read all that
   * was flushed; a flush with something to publish is refused exactly then, and `c` stays null
   * until that flush has set it.
   */
  lemma SleepWake(trace: seq<State>, acts: seq<Action>, n: nat)
    requires Run(trace, acts) && n < |trace|
    ensures var s := trace[n];
      && (s.m.c == NULL || s.m.c == s.w.w)
      && (s.m.c == NULL ==> |s.out| == s.m.flushed)
      && (s.w.at.WWake? ==> s.m.c == NULL)
      && (s.w.at.WIdle? && s.w.w != s.w.f ==> (WriterStep(s.m, s.w, Flush, 0).1.at.WWake? <==> s.m.c == NULL))
  {
    RunInv(trace, acts, n);
    AddrNotNull(trace[n].m, trace[n].m.flushed);
    Handshaking(trace[n].m, trace[n].w);
  }

  // ---------------------------------------------------------------- what the calls answer

  /** The first step of a read or a check, by positions. */
  lemma ReadStep(m: Memory, t: Reader, check: bool)
    requires MemoryOk(m) && ReaderOk(m, t) && t.at.RIdle?
    ensures var (m', t', got) := ReaderStep(m, t, check);
      && got == [] && t'.begin == t.begin
      && (t'.at.RHave? <==> !check && m.front < m.flushed) && (t'.at.RIdle? <==> !t'.at.RHave?)
      && (t'.r != NULL && t'.begin != t'.r <==> m.front < m.flushed)
      && m'.c == if m.front == m.flushed then NULL else m.c
  {
    ReaderCompares(m, t);
    AddrNotNull(m, m.flushed);
  }

  /**
   * A read or a check finds something exactly when not all that was flushed has been read, and finding
   * nothing leaves `c` null, which is how the writer learns that the reader sleeps. The answer of a check
   * is whether the prefetched end is now ahead of the front.
   */
  lemma ReadAnswers(trace: seq<State>, acts: seq<Action>, n: nat)
    requires Run(trace, acts) && n < |acts| && acts[n].ReaderActs? && trace[n].r.at.RIdle?
    ensures var s, s' := trace[n], trace[n + 1];
      && s'.out == s.out && s'.m.c == (if |s.out| == s.m.flushed then NULL else s.m.c)
      && (s'.r.at.RHave? <==> !acts[n].check && |s.out| != s.m.flushed) && (s'.r.at.RIdle? <==> !s'.r.at.RHave?)
      && (s'.r.r != NULL && s'.r.begin != s'.r.r <==> |s.out| != s.m.flushed)
  {
    RunInv(trace, acts, n);
    assert Enabled(trace[n], acts[n]);
    ReadStep(trace[n].m, trace[n].r, acts[n].check);
    assert trace[n].out + [] == trace[n].out;
  }

  /** A read that found something hands out the next flushed item. */
  lemma ReadHandsOut(trace: seq<State>, acts: seq<Action>, n: nat)
    requires Run(trace, acts) && n < |acts| && acts[n].ReaderActs? && trace[n].r.at.RHave?
    ensures var s := trace[n]; |s.out| < |s.spec.done| && trace[n + 1].out == s.out + [s.spec.done[|s.out|]]
  {
    RunInv(trace, acts, n);
    assert Enabled(trace[n], acts[n]);
    HaveValue(trace[n].m, trace[n].r);
  }

  lemma HaveValue(m: Memory, t: Reader)
    requires MemoryOk(m) && ReaderOk(m, t) && t.at.RHave?
    ensures m.front < m.flushed && InBounds(m, t.begin)
    ensures m.chunks[t.begin.chunk].values[t.begin.slot] == m.vals[m.front]
  {
    InChain(m, m.front);
    assert Holds(m, m.front, m.vals[m.front]);
  }

  ghost predicate BeginsFlush(s: State, a: Action) {
    a.WriterActs? && a.call.Flush? && s.w.at.WIdle?
  }

  lemma SleepStep(s: State, a: Action)
    requires Enabled(s, a) && s.m.c == NULL && !s.w.at.WWake? && !BeginsFlush(s, a)
    ensures Do(s, a).m.c == NULL && !Do(s, a).w.at.WWake?
  {
  }

  /** Once null, `c` stays null until the next flush begins. */
  lemma {:induction false} SleepsUntilFlush(trace: seq<State>, acts: seq<Action>, n: nat, m: nat)
    requires Run(trace, acts) && n <= m < |trace| && trace[n].m.c == NULL && !trace[n].w.at.WWake?
    requires forall k | n <= k < m :: !BeginsFlush(trace[k], acts[k])
    ensures trace[m].m.c == NULL && !trace[m].w.at.WWake?
  {
    if n < m {
      SleepsUntilFlush(trace, acts, n, m - 1);
      assert Enabled(trace[m - 1], acts[m - 1]);
      SleepStep(trace[m - 1], acts[m - 1]);
    }
  }

  /**
   * A flush publishes every complete item. With something to publish it answers true and is done at
   * once, or answers false after one more step, the latter exactly when `c` was null; with nothing to
   * publish it changes nothing.
   */
  lemma FlushAnswers(trace: seq<State>, acts: seq<Action>, n: nat)
    requires Run(trace, acts) && n < |acts| && BeginsFlush(trace[n], acts[n])
    ensures var s, s' := trace[n], trace[n + 1];
      && s'.spec.sent == |s'.spec.done| == |s.spec.done| && (s'.w.at.WIdle? || s'.w.at.WWake?)
      && (s'.w.at.WWake? <==> s.m.flushed < |s.spec.done| && s.m.c == NULL)
      && (s'.w.at.WIdle? ==> s'.m.flushed == |s.spec.done|)
      && (s.m.flushed == |s.spec.done| ==> s'.m == s.m)
  {
    RunInv(trace, acts, n);
    RunInv(trace, acts, n + 1);
    assert Enabled(trace[n], acts[n]);
    DistinctFlush(trace[n].m, trace[n].w);
    AddrNotNull(trace[n].m, trace[n].m.flushed);
    Handshaking(trace[n].m, trace[n].w);
  }

  /** The second step of a flush that answers false publishes what the first set out to. */
  lemma WakePublishes(trace: seq<State>, acts: seq<Action>, n: nat)
    requires Run(trace, acts) && n < |acts| && acts[n].WriterActs? && trace[n].w.at.WWake?
    ensures var s, s' := trace[n], trace[n + 1];
      s'.w.at.WIdle? && s'.m.flushed == s.spec.sent && s'.m.c == s.w.f && s'.m.c != NULL
  {
    RunInv(trace, acts, n);
    assert Enabled(trace[n], acts[n]);
    AddrNotNull(trace[n].m, trace[n].w.fpos);
  }

  /** After a read that found nothing, the next flush with something to publish answers false. */
  lemma SleeperIsWoken(trace: seq<State>, acts: seq<Action>, n: nat, m: nat)
    requires Run(trace, acts) && n < m < |acts| && acts[n].ReaderActs? && trace[n].r.at.RIdle?
    requires |trace[n].out| == trace[n].m.flushed && !trace[n].w.at.WWake?
    requires BeginsFlush(trace[m], acts[m]) && trace[m].m.flushed < |trace[m].spec.done|
    requires forall k | n < k < m :: !BeginsFlush(trace[k], acts[k])
    ensures trace[m + 1].w.at.WWake?
  {
    ReadAnswers(trace, acts, n);
    assert Enabled(trace[n], acts[n]);
    SleepsUntilFlush(trace, acts, n + 1, m);
    FlushAnswers(trace, acts, m);
  }

  /** The steps left of a call at the given place. */
  ghost function WriterLeft(at: WriterAt): nat {
    match at
    case WIdle => 0
    case WFull(_) => 3
    case WGot(_, _) => 2
    case WLinked(_, _) => 1
    case WUnend(_) => 3
    case WFree(_, _) => 2
    case WUnpushed(_) => 1
    case WWake => 1
  }

  ghost function ReaderLeft(at: ReaderAt): nat {
    match at
    case RIdle => 0
    case RHave => 5
    case RNext => 4
    case RClear(_) => 3
    case RSpare(_) => 2
    case RFree(_) => 1
  }

  /** Every step inside a call brings its thread nearer to the end of it, whatever the other thread does. */
  lemma CallsEnd(trace: seq<State>, acts: seq<Action>, n: nat)
    requires Run(trace, acts) && n < |acts|
    ensures var s, s' := trace[n], trace[n + 1];
      if acts[n].WriterActs? then s'.r == s.r && (s.w.at.WIdle? || WriterLeft(s'.w.at) < WriterLeft(s.w.at))
      else s'.w == s.w && (s.r.at.RIdle? || ReaderLeft(s'.r.at) < ReaderLeft(s.r.at))
  {
    assert Enabled(trace[n], acts[n]);
  }

  /** Live positions, from the front to the end, have pairwise different addresses. */
  lemma LiveAddressesDiffer(trace: seq<State>, acts: seq<Action>, n: nat, i: nat, k: nat)
    requires Run(trace, acts) && n < |trace| && trace[n].m.front <= i < k
    requires trace[n].m.n > 0 && Num(k, trace[n].m.n) < |trace[n].m.chain|
    ensures Num(i, trace[n].m.n) < |trace[n].m.chain| && Addr(trace[n].m, i) != Addr(trace[n].m, k)
  {
    RunInv(trace, acts, n);
    NumMonotone(i, k, trace[n].m.n);
    DistinctAddresses(trace[n].m, i, k);
  }

  lemma BackLink(m: Memory, t: Writer)
    requires MemoryOk(m) && WriterOk(m, t)
    ensures t.at.WIdle? && t.f != t.back && t.back.slot == 0 ==>
      && |m.vals| > 0 && Num(|m.vals| - 1, m.n) < |m.chain| && t.back.chunk in m.chunks
      && m.chunks[t.back.chunk].prev == m.chain[Num(|m.vals| - 1, m.n)] && m.chunks[t.back.chunk].prev in m.chunks
  {
    DistinctFromBack(m, t);
    if t.at.WIdle? && t.f != t.back {
      BackBehind(m, t);
      InChain(m, |m.vals| - 1);
    }
  }

  lemma EndLink(m: Memory, t: Writer)
    requires MemoryOk(m) && WriterOk(m, t)
    ensures t.at.WUnend? ==>
      && |m.chain| >= 2 && t.end.chunk == m.chain[|m.chain| - 1] && t.end.chunk in m.chunks
      && m.chunks[t.end.chunk].prev == m.chain[|m.chain| - 2] && m.chunks[t.end.chunk].prev in m.chunks
  {
    if t.at.WUnend? {
      EndBehind(m, t);
    }
  }

  /** Un-writing never follows a `prev` link that the reader has cleared. */
  lemma UnpushFollowsLiveLinks(trace: seq<State>, acts: seq<Action>, n: nat)
    requires Run(trace, acts) && n < |trace|
    ensures var s := trace[n];
      && (s.w.at.WIdle? && s.w.f != s.w.back && s.w.back.slot == 0 ==>
            && s.m.n > 0 && |s.m.vals| > 0 && Num(|s.m.vals| - 1, s.m.n) < |s.m.chain| && s.w.back.chunk in s.m.chunks
            && s.m.chunks[s.w.back.chunk].prev == s.m.chain[Num(|s.m.vals| - 1, s.m.n)]
            && s.m.chunks[s.w.back.chunk].prev in s.m.chunks)
      && (s.w.at.WUnend? ==>
            && |s.m.chain| >= 2 && s.w.end.chunk == s.m.chain[|s.m.chain| - 1] && s.w.end.chunk in s.m.chunks
            && s.m.chunks[s.w.end.chunk].prev == s.m.chain[|s.m.chain| - 2]
            && s.m.chunks[s.w.end.chunk].prev in s.m.chunks)
  {
    RunInv(trace, acts, n);
    BackLink(trace[n].m, trace[n].w);
    EndLink(trace[n].m, trace[n].w);
  }

  /** Both threads can always take their next step: nothing freed is ever touched. */
  lemma NoDanglingStep(trace: seq<State>, acts: seq<Action>, n: nat, call: Call, alloc: Cid)
    requires Run(trace, acts) && n < |trace| && alloc != 0 && alloc !in trace[n].m.chunks
    ensures WriterCan(trace[n].m, trace[n].w, call, alloc) && ReaderCan(trace[n].m, trace[n].r)
  {
    RunInv(trace, acts, n);
    WriterKeepsMemory(trace[n].m, trace[n].w, call, alloc);
    ReaderKeepsMemory(trace[n].m, trace[n].r, false);
  }
}
