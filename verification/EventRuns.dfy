/**
 Whole runs of the event loop object: adding, cancelling and stepping in any order
 leave in its array what the map of pending timers says, and each step fires what
 is due in the map.
 */
module EventRuns {
  import opened Timevals
  import opened TimerHeap
  import opened TimerSweep
  import opened TimerTable
  import opened TimerRuns
  import opened EventLoop

  /** The timers whose callbacks an operation runs. */
  function Fired(s: State, op: Op): seq<Timer> {
    match op
    case AddOp(_) => []
    case CancelOp(_) => []
    case StepOp(T, script) => Sweep(Rebuild(s), 0, T, 0, script).fired
  }

  function FiredAll(s: State, ops: seq<Op>): (r: seq<seq<Timer>>)
    ensures |r| == |ops|
    decreases |ops|
  {
    if ops == [] then [] else [Fired(s, ops[0])] + FiredAll(Apply(s, ops[0]), ops[1..])
  }

  /** In a map: a step fires each entry that is due, once, and the other operations fire nothing. */
  ghost predicate FiresDue(b: Book, op: Op, fired: seq<Timer>) {
    match op
    case AddOp(_) => fired == []
    case CancelOp(_) => fired == []
    case StepOp(T, _) =>
      && |fired| == |TimerRuns.Due(b.table, T)|
      && forall t :: t in fired <==> t.id in TimerRuns.Due(b.table, T) && b.table[t.id] == t
  }

  ghost predicate AllFireDue(b: Book, ops: seq<Op>, fired: seq<seq<Timer>>)
    requires |fired| == |ops|
    decreases |ops|
  {
    ops == [] || (FiresDue(b, ops[0], fired[0]) && AllFireDue(Booked(b, ops[0]), ops[1..], fired[1..]))
  }

  lemma {:induction false} OneFiresDue(s: State, op: Op)
    requires Good(s) && Plain(s, op) && Booked(BookOf(s), op).tid < UINT_RANGE
    ensures FiresDue(BookOf(s), op, Fired(s, op))
  {
    if op.StepOp? {
      StepCounts(s, op.T, op.script);
      StepRefinesTable(s, op.T, op.script);
      FiredAreDue(All(s), op.T, Fired(s, op));
    }
  }

  lemma {:induction false} FiredAreDue(h: seq<Timer>, T: Timeval, fired: seq<Timer>)
    requires Distinct(h) && forall t :: t in fired <==> t in h && t.Key() <= T.Micros()
    ensures forall t :: t in fired <==> t.id in TimerRuns.Due(Table(h), T) && Table(h)[t.id] == t
  {
    forall t: Timer ensures t in fired <==> t.id in TimerRuns.Due(Table(h), T) && Table(h)[t.id] == t {
      if t.id in TimerRuns.Due(Table(h), T) && Table(h)[t.id] == t { assert t in h; }
    }
  }

  /** Over every run each step fires exactly what is due in the map. */
  lemma {:induction false} RunFiresDue(s: State, ops: seq<Op>)
    requires Good(s) && PlainRun(s, ops) && BookedAll(BookOf(s), ops).tid < UINT_RANGE
    ensures AllFireDue(BookOf(s), ops, FiredAll(s, ops))
    decreases |ops|
  {
    if ops != [] {
      BookGrows(Booked(BookOf(s), ops[0]), ops[1..]);
      OneFiresDue(s, ops[0]);
      OneBooked(s, ops[0]);
      RunFiresDue(Apply(s, ops[0]), ops[1..]);
      assert FiredAll(s, ops)[1..] == FiredAll(Apply(s, ops[0]), ops[1..]);
    }
  }

  /** One operation on the object. */
  method Operate(base: EvBase, op: Op) returns (fired: seq<Timer>)
    requires base.Valid() && !base.evStop && Plain(base.S(), op)
    modifies base, base.timers
    ensures base.Valid() && (base.timers == old(base.timers) || fresh(base.timers)) && !base.evStop
    ensures base.S() == Apply(old(base.S()), op) && fired == Fired(old(base.S()), op)
  {
    fired := [];
    match op
    case AddOp(r) =>
      var id := base.EvTimer(r.tv, r.cb);
    case CancelOp(id) =>
      var rv := base.EvTimerCancel(id);
    case StepOp(T, script) =>
      var rv, msec;
      rv, msec, fired := base.Step(Returned(T), script);
  }

  /** Operations one after the other: the object goes where the value model goes. */
  method OperateAll(base: EvBase, ops: seq<Op>) returns (fired: seq<seq<Timer>>)
    requires base.Valid() && !base.evStop && PlainRun(base.S(), ops)
    modifies base, base.timers
    ensures base.Valid() && (base.timers == old(base.timers) || fresh(base.timers)) && !base.evStop
    ensures base.S() == Run(old(base.S()), ops) && fired == FiredAll(old(base.S()), ops)
  {
    fired := [];
    ghost var end, all := Run(base.S(), ops), FiredAll(base.S(), ops);
    for i := 0 to |ops|
      invariant base.Valid() && (base.timers == old(base.timers) || fresh(base.timers)) && !base.evStop
      invariant PlainRun(base.S(), ops[i..])
      invariant Run(base.S(), ops[i..]) == end && fired + FiredAll(base.S(), ops[i..]) == all
    {
      assert ops[i..][1..] == ops[i + 1..];
      var f := Operate(base, ops[i]);
      fired := fired + [f];
    }
  }

  /**
   Any such run on an object in a good state, until the counter wraps: its array holds
   exactly the entries of the map that the same operations lead to, each step has fired
   exactly what was due in that map, and unless an unsafe cancel has lost the order its
   first ntimers slots are a heap.
   */
  method Serve(base: EvBase, ops: seq<Op>) returns (fired: seq<seq<Timer>>)
    requires base.Valid() && !base.evStop && Good(base.S()) && PlainRun(base.S(), ops)
    requires BookedAll(BookOf(base.S()), ops).tid < UINT_RANGE
    modifies base, base.timers
    ensures base.Valid() && (base.timers == old(base.timers) || fresh(base.timers)) && !base.evStop
    ensures Good(base.S()) && BookOf(base.S()) == old(BookedAll(BookOf(base.S()), ops))
    ensures |fired| == |ops| && AllFireDue(old(BookOf(base.S())), ops, fired)
    ensures old(OrderKnown(base.S(), ops, IsHeap(base.S().heap))) ==> IsHeap(base.timers[..base.ntimers])
  {
    RunRefinesTable(base.S(), ops);
    RunFiresDue(base.S(), ops);
    OrderHolds(base.S(), ops, IsHeap(base.S().heap));
    fired := OperateAll(base, ops);
  }

  /** A new event loop has no timers, and any run may start from there. */
  method ServeFromStart(ops: seq<Op>) returns (base: EvBase, fired: seq<seq<Timer>>)
    requires PlainRun(State([], [], 0), ops) && BookedAll(Book(map[], 0), ops).tid < UINT_RANGE
    ensures base.Valid() && Good(base.S()) && BookOf(base.S()) == BookedAll(Book(map[], 0), ops)
    ensures |fired| == |ops| && AllFireDue(Book(map[], 0), ops, fired)
    ensures OrderKnown(State([], [], 0), ops, true) ==> IsHeap(base.timers[..base.ntimers])
  {
    base := new EvBase();
    assert Table(All(base.S())) == map[];
    fired := Serve(base, ops);
  }
}
