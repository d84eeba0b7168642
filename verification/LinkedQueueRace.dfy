/**
 * Why the linked queue needs a single consumer: with two, one may read a node's item after
 * the other has recycled the node. The queue is first-in first-out in every run exactly
 * when at most one consumer takes part.
 */
module LinkedQueueRace {
  import opened LinkedQueue

  /** `s` is a state of some run with these threads. */
  ghost predicate Reachable(producers: set<Tid>, consumers: set<Tid>, s: State) {
    exists trace: seq<State>, acts: seq<Action> ::
      && Run(trace, acts) && trace[0].producers.Keys == producers && trace[0].consumers.Keys == consumers
      && trace[|acts|] == s
  }

  lemma Extend(producers: set<Tid>, consumers: set<Tid>, s: State, a: Action)
    requires Reachable(producers, consumers, s) && Enabled(s, a)
    ensures Reachable(producers, consumers, Do(s, a))
  {
    var trace: seq<State>, acts: seq<Action> :|
      && Run(trace, acts) && trace[0].producers.Keys == producers && trace[0].consumers.Keys == consumers
      && trace[|acts|] == s;
    var trace', acts' := trace + [Do(s, a)], acts + [a];
    assert Run(trace', acts') && trace'[|acts'|] == Do(s, a);
  }

  /** The threads of the race: one producer and two consumers among any others. */
  datatype Cast = Cast(ps: set<Tid>, cs: set<Tid>, p: Tid, c: Tid, d: Tid)

  /** Where the race stands; all other threads are idle. */
  datatype Point = Point(m: Memory, t: Producer, r: Consumer, q: Consumer, out: seq<Item>)

  ghost function StateAt(g: Cast, x: Point): State {
    State(x.m, (map i | i in g.ps :: PIdle)[g.p := x.t], (map i | i in g.cs :: CIdle)[g.c := x.r][g.d := x.q], x.out)
  }

  ghost predicate Met(g: Cast, x: Point) {
    g.p in g.ps && g.c in g.cs && g.d in g.cs && g.c != g.d && Reachable(g.ps, g.cs, StateAt(g, x))
  }

  lemma Start(g: Cast) returns (x: Point)
    requires g.p in g.ps && g.c in g.cs && g.d in g.cs && g.c != g.d
    ensures x == Point(EMPTY, PIdle, CIdle, CIdle, []) && Met(g, x)
  {
    x := Point(EMPTY, PIdle, CIdle, CIdle, []);
    var s := StateAt(g, x);
    assert Run([s], []) && s.producers.Keys == g.ps && s.consumers.Keys == g.cs && [s][0] == s;
  }

  datatype Move = Producer(item: Item) | First | Second

  ghost predicate Can(x: Point, v: Move) {
    match v
    case Producer(_) => ProducerCan(x.m, x.t)
    case First => ConsumerCan(x.m, x.r)
    case Second => ConsumerCan(x.m, x.q)
  }

  ghost function MoveTo(g: Cast, x: Point, v: Move): Point
    requires Can(x, v)
  {
    match v
    case Producer(item) => var (m, t) := ProducerStep(x.m, g.p, x.t, item, false); x.(m := m, t := t)
    case First => var (m, r, got) := ConsumerStep(x.m, g.c, x.r, false); x.(m := m, r := r, out := x.out + got)
    case Second => var (m, q, got) := ConsumerStep(x.m, g.d, x.q, false); x.(m := m, q := q, out := x.out + got)
  }

  lemma ProducerMeets(g: Cast, x: Point, item: Item)
    requires Met(g, x) && Can(x, Producer(item))
    ensures Met(g, MoveTo(g, x, Producer(item)))
  {
    Extend(g.ps, g.cs, StateAt(g, x), Produce(g.p, item, false));
    assert Do(StateAt(g, x), Produce(g.p, item, false)) == StateAt(g, MoveTo(g, x, Producer(item)));
  }

  lemma ConsumerMeets(g: Cast, x: Point, v: Move)
    requires Met(g, x) && Can(x, v) && !v.Producer?
    ensures Met(g, MoveTo(g, x, v))
  {
    var c := if v.First? then g.c else g.d;
    Extend(g.ps, g.cs, StateAt(g, x), Consume(c, false));
    assert Do(StateAt(g, x), Consume(c, false)) == StateAt(g, MoveTo(g, x, v));
  }

  lemma MoveMeets(g: Cast, x: Point, v: Move)
    requires Met(g, x) && Can(x, v)
    ensures Met(g, MoveTo(g, x, v))
  {
    if v.Producer? {
      ProducerMeets(g, x, v.item);
    } else {
      ConsumerMeets(g, x, v);
    }
  }

  /** The race moves from the first point to the last, one move of the script at a time. */
  ghost predicate Plays(g: Cast, xs: seq<Point>, script: seq<Move>) {
    && |xs| == |script| + 1
    && forall i | 0 <= i < |script| :: Can(xs[i], script[i]) && xs[i + 1] == MoveTo(g, xs[i], script[i])
  }

  lemma {:induction false} PlaysMeets(g: Cast, xs: seq<Point>, script: seq<Move>, n: nat)
    requires Plays(g, xs, script) && n < |xs| && Met(g, xs[0])
    ensures Met(g, xs[n])
  {
    if n > 0 {
      PlaysMeets(g, xs, script, n - 1);
      MoveMeets(g, xs[n - 1], script[n - 1]);
    }
  }

  /** The two nodes, the head, the free list and the enqueued items at a point of the race. */
  ghost predicate Looks(x: Point, one: Cell, two: Cell, head: Head, free: Idx, items: seq<Item>) {
    && 1 in x.m.cells && x.m.cells[1] == one && 2 in x.m.cells && x.m.cells[2] == two
    && x.m.head == head && x.m.free == free && x.m.items == items && x.out == []
  }

  /** The producer enqueues 1 in the new node 2. */
  lemma EnqueueOne(g: Cast) returns (xs: seq<Point>)
    ensures |xs| == 7 && Plays(g, xs, seq(6, _ => Producer(1)))
    ensures xs[0] == Point(EMPTY, PIdle, CIdle, CIdle, [])
    ensures Looks(xs[6], Cell(Idx(2, 0), None), Cell(NULL, Some(1)), Head(Idx(1, 0), true), NULL, [1])
    ensures xs[6].m.tail == Idx(2, 0) && xs[6].t == PIdle && xs[6].r == CIdle && xs[6].q == CIdle
  {
    var x0 := Point(EMPTY, PIdle, CIdle, CIdle, []);
    var x1 := MoveTo(g, x0, Producer(1));
    var x2 := MoveTo(g, x1, Producer(1));
    var x3 := MoveTo(g, x2, Producer(1));
    var x4 := MoveTo(g, x3, Producer(1));
    var x5 := MoveTo(g, x4, Producer(1));
    var x6 := MoveTo(g, x5, Producer(1));
    xs := [x0, x1, x2, x3, x4, x5, x6];
  }

  /** The first consumer moves the head to node 2 and frees node 1. */
  lemma FirstFrees(g: Cast, x0: Point) returns (xs: seq<Point>)
    requires Looks(x0, Cell(Idx(2, 0), None), Cell(NULL, Some(1)), Head(Idx(1, 0), true), NULL, [1]) && x0.r == CIdle
    ensures |xs| == 8 && Plays(g, xs, seq(7, _ => First))
    ensures xs[0] == x0
    ensures Looks(xs[7], Cell(NULL, None), Cell(NULL, Some(1)), Head(Idx(2, 0), false), Idx(1, 0), [1])
    ensures xs[7].r == CStart && xs[7].t == x0.t && xs[7].q == x0.q && xs[7].m.tail == x0.m.tail
  {
    var x1 := MoveTo(g, x0, First);
    var x2 := MoveTo(g, x1, First);
    var x3 := MoveTo(g, x2, First);
    var x4 := MoveTo(g, x3, First);
    var x5 := MoveTo(g, x4, First);
    var x6 := MoveTo(g, x5, First);
    var x7 := MoveTo(g, x6, First);
    xs := [x0, x1, x2, x3, x4, x5, x6, x7];
  }

  /** It claims node 2, without reading its item yet. */
  lemma FirstClaims(g: Cast, x0: Point) returns (xs: seq<Point>)
    requires Looks(x0, Cell(NULL, None), Cell(NULL, Some(1)), Head(Idx(2, 0), false), Idx(1, 0), [1]) && x0.r == CStart
    ensures |xs| == 4 && Plays(g, xs, seq(3, _ => First))
    ensures xs[0] == x0
    ensures Looks(xs[3], Cell(NULL, None), Cell(NULL, Some(1)), Head(Idx(2, 0), true), Idx(1, 0), [1])
    ensures xs[3].r == CClaimed(Idx(2, 0)) && xs[3].t == x0.t && xs[3].q == x0.q && xs[3].m.tail == x0.m.tail
  {
    var x1 := MoveTo(g, x0, First);
    var x2 := MoveTo(g, x1, First);
    var x3 := MoveTo(g, x2, First);
    xs := [x0, x1, x2, x3];
  }

  /** The producer enqueues 2 in the recycled node 1. */
  lemma EnqueueTwo(g: Cast, x0: Point) returns (xs: seq<Point>)
    requires Looks(x0, Cell(NULL, None), Cell(NULL, Some(1)), Head(Idx(2, 0), true), Idx(1, 0), [1])
    requires x0.t == PIdle && x0.m.tail == Idx(2, 0)
    ensures |xs| == 9 && Plays(g, xs, seq(8, _ => Producer(2)))
    ensures xs[0] == x0
    ensures Looks(xs[8], Cell(NULL, Some(2)), Cell(Idx(1, 1), Some(1)), Head(Idx(2, 0), true), NULL, [1, 2])
    ensures xs[8].t == PIdle && xs[8].r == x0.r && xs[8].q == x0.q
  {
    var x1 := MoveTo(g, x0, Producer(2));
    var x2 := MoveTo(g, x1, Producer(2));
    var x3 := MoveTo(g, x2, Producer(2));
    assert x3.t == POwn(2, Idx(1, 1)) && x3.m.free == NULL;
    var x4 := MoveTo(g, x3, Producer(2));
    var x5 := MoveTo(g, x4, Producer(2));
    var x6 := MoveTo(g, x5, Producer(2));
    assert x6.t == PTail(2, Idx(1, 1), Idx(2, 0));
    var x7 := MoveTo(g, x6, Producer(2));
    var x8 := MoveTo(g, x7, Producer(2));
    xs := [x0, x1, x2, x3, x4, x5, x6, x7, x8];
  }

  /** The second consumer moves the head past node 2 and frees it. */
  lemma SecondFrees(g: Cast, x0: Point) returns (xs: seq<Point>)
    requires Looks(x0, Cell(NULL, Some(2)), Cell(Idx(1, 1), Some(1)), Head(Idx(2, 0), true), NULL, [1, 2])
    requires x0.q == CIdle
    ensures |xs| == 8 && Plays(g, xs, seq(7, _ => Second))
    ensures xs[0] == x0
    ensures Looks(xs[7], Cell(NULL, Some(2)), Cell(NULL, Some(1)), Head(Idx(1, 1), false), Idx(2, 0), [1, 2])
    ensures xs[7].t == x0.t && xs[7].r == x0.r
  {
    var x1 := MoveTo(g, x0, Second);
    var x2 := MoveTo(g, x1, Second);
    var x3 := MoveTo(g, x2, Second);
    var x4 := MoveTo(g, x3, Second);
    var x5 := MoveTo(g, x4, Second);
    var x6 := MoveTo(g, x5, Second);
    var x7 := MoveTo(g, x6, Second);
    xs := [x0, x1, x2, x3, x4, x5, x6, x7];
  }

  /** The producer recycles node 2 and puts 3 into it ... */
  lemma OverwriteTwo(g: Cast, x0: Point) returns (xs: seq<Point>)
    requires Looks(x0, Cell(NULL, Some(2)), Cell(NULL, Some(1)), Head(Idx(1, 1), false), Idx(2, 0), [1, 2])
    requires x0.t == PIdle
    ensures |xs| == 6 && Plays(g, xs, seq(5, _ => Producer(3)))
    ensures xs[0] == x0
    ensures Looks(xs[5], Cell(NULL, Some(2)), Cell(NULL, Some(3)), Head(Idx(1, 1), false), NULL, [1, 2])
    ensures xs[5].r == x0.r
  {
    var x1 := MoveTo(g, x0, Producer(3));
    var x2 := MoveTo(g, x1, Producer(3));
    var x3 := MoveTo(g, x2, Producer(3));
    var x4 := MoveTo(g, x3, Producer(3));
    var x5 := MoveTo(g, x4, Producer(3));
    xs := [x0, x1, x2, x3, x4, x5];
  }

  /** ... and the first consumer now reads that 3: some run delivers what was not enqueued. */
  lemma TwoConsumersBreakFifo(g: Cast) returns (s: State)
    requires g.p in g.ps && g.c in g.cs && g.d in g.cs && g.c != g.d
    ensures Reachable(g.ps, g.cs, s) && s.m.items == [1, 2] && s.out == [3]
  {
    var x := Start(g);
    var xs := EnqueueOne(g);
    PlaysMeets(g, xs, seq(6, _ => Producer(1)), 6);
    var ys := FirstFrees(g, xs[6]);
    PlaysMeets(g, ys, seq(7, _ => First), 7);
    var zs := FirstClaims(g, ys[7]);
    PlaysMeets(g, zs, seq(3, _ => First), 3);
    var us := EnqueueTwo(g, zs[3]);
    PlaysMeets(g, us, seq(8, _ => Producer(2)), 8);
    s := RaceEnds(g, us[8]);
  }

  lemma RaceEnds(g: Cast, x: Point) returns (s: State)
    requires Met(g, x) && x.t == PIdle && x.r == CClaimed(Idx(2, 0)) && x.q == CIdle
    requires Looks(x, Cell(NULL, Some(2)), Cell(Idx(1, 1), Some(1)), Head(Idx(2, 0), true), NULL, [1, 2])
    ensures Reachable(g.ps, g.cs, s) && s.m.items == [1, 2] && s.out == [3]
  {
    var vs := SecondFrees(g, x);
    PlaysMeets(g, vs, seq(7, _ => Second), 7);
    var ws := OverwriteTwo(g, vs[7]);
    PlaysMeets(g, ws, seq(5, _ => Producer(3)), 5);
    MoveMeets(g, ws[5], First);
    s := StateAt(g, MoveTo(g, ws[5], First));
  }

  /** The queue is first-in first-out in every run if and only if at most one consumer takes part. */
  lemma FifoIffOneConsumer(producers: set<Tid>, consumers: set<Tid>)
    requires producers != {}
    ensures (forall s | Reachable(producers, consumers, s) :: s.out <= s.m.items) <==> |consumers| <= 1
  {
    if |consumers| <= 1 {
      var c: Tid := 0;
      if consumers != {} {
        c :| c in consumers;
        assert |consumers - {c}| == 0;
      }
      assert consumers <= {c};
      forall s | Reachable(producers, consumers, s)
        ensures s.out <= s.m.items
      {
        var trace: seq<State>, acts: seq<Action> :|
          && Run(trace, acts) && trace[0].producers.Keys == producers && trace[0].consumers.Keys == consumers
          && trace[|acts|] == s;
        FifoWithOneConsumer(trace, acts, c, |acts|);
      }
    } else {
      var p :| p in producers;
      var c :| c in consumers;
      assert |consumers - {c}| > 0;
      var d :| d in consumers - {c};
      var s := TwoConsumersBreakFifo(Cast(producers, consumers, p, c, d));
      assert s.out[0] != s.m.items[0];
    }
  }
}
