/** Whole ticks, and whole runs of adding, cancelling and stepping. */
module TimerRuns {
  import opened Timevals
  import opened TimerHeap
  import opened TimerSweep
  import opened TimerTable

  ghost predicate NormalRequests(rs: seq<Request>) {
    forall i :: 0 <= i < |rs| ==> rs[i].tv.Normal()
  }

  /** Timers are normal, their ids distinct and handed out by the counter. */
  ghost predicate Good(s: State) {
    && Distinct(All(s)) && Normal(All(s))
    && s.tid < UINT_RANGE
    && forall i :: 0 <= i < |All(s)| ==> 1 <= All(s)[i].id <= s.tid
  }

  /** The timers a list of requests creates, numbered on from tid. */
  function News(tid: nat, rs: seq<Request>): (ts: seq<Timer>)
    ensures |ts| == |rs|
    ensures forall i :: 0 <= i < |ts| ==> ts[i] == Timer(tid + 1 + i, rs[i].tv, rs[i].cb)
  {
    seq(|rs|, i requires 0 <= i < |rs| => Timer(tid + 1 + i, rs[i].tv, rs[i].cb))
  }

  /** Until the counter wraps, requests append timers with consecutive ids. */
  lemma {:induction false} AddAllNews(s: State, rs: seq<Request>)
    requires s.tid + |rs| < UINT_RANGE
    ensures AddAll(s, rs) == State(s.heap, s.reserve + News(s.tid, rs), s.tid + |rs|)
    decreases |rs|
  {
    if rs == [] {
      assert s.reserve + News(s.tid, rs) == s.reserve;
    } else {
      var s' := Add(s, rs[0]);
      AddAllNews(s', rs[1..]);
      assert s'.reserve == s.reserve + [News(s.tid, rs)[0]];
      assert News(s.tid, rs)[1..] == News(s'.tid, rs[1..]);
    }
  }

  /** Adding timers keeps ids distinct and adds their entries to the table. */
  lemma {:induction false} AddAllGood(s: State, rs: seq<Request>)
    requires Good(s) && NormalRequests(rs) && s.tid + |rs| < UINT_RANGE
    ensures Good(AddAll(s, rs))
    ensures Distinct(News(s.tid, rs))
    ensures Table(All(AddAll(s, rs))) == Table(All(s)) + Table(News(s.tid, rs))
  {
    AddAllNews(s, rs);
    assert All(AddAll(s, rs)) == All(s) + News(s.tid, rs);
    TableConcat(All(s), News(s.tid, rs));
  }

  lemma {:induction false} TableConcat(a: seq<Timer>, b: seq<Timer>)
    requires Distinct(a) && Distinct(b)
    requires forall i, j :: 0 <= i < |a| && 0 <= j < |b| ==> a[i].id != b[j].id
    ensures Distinct(a + b) && Table(a + b) == Table(a) + Table(b)
  {
    var m, n, mn := Table(a), Table(b), Table(a + b);
    forall id | id in mn ensures id in m + n && (m + n)[id] == mn[id] {
      assert mn[id] in a || mn[id] in b;
    }
    forall id | id in m + n ensures id in mn {
      if id in n { assert n[id] in a + b; } else { assert m[id] in a + b; }
    }
  }

  lemma {:induction false} RebuildGood(s: State)
    requires Good(s)
    ensures Good(Rebuild(s)) && Table(All(Rebuild(s))) == Table(All(s)) && All(Rebuild(s)) == Rebuild(s).heap
    ensures forall t :: t in All(Rebuild(s)) <==> t in All(s)
  {
    RebuildTable(s);
    if s.reserve != [] {
      BuildMakesHeap(All(s));
    }
    SameMembers(All(s), All(Rebuild(s)));
    forall i | 0 <= i < |All(Rebuild(s))| ensures 1 <= All(Rebuild(s))[i].id <= s.tid {
      assert All(Rebuild(s))[i] in All(s);
    }
  }

  /** The heap after a sweep is good on its own. */
  lemma {:induction false} SweptGood(s: State, T: Timeval, r: Swept)
    requires Good(s) && Distinct(s.heap) && s.reserve == [] && T.Normal() && Exact(s.heap, 0, T, r)
    ensures Good(State(r.s.heap, [], s.tid))
    ensures Distinct(r.s.heap) && Table(r.s.heap) == Survivors(Table(s.heap), T)
  {
    assert All(s) == s.heap;
    SweepTable(s.heap, T, r);
    var h := r.s.heap;
    assert All(State(h, [], s.tid)) == h;
    forall i | 0 <= i < |h| ensures 1 <= h[i].id <= s.tid {
      assert h[i] in h;
      assert h[i].id in Table(s.heap);
      assert Table(s.heap)[h[i].id] in s.heap;
    }
  }

  /**
   One ev_step in which T elapses and no callback stops the loop, as an
   operation on the table: exactly the timers with at most T remaining fire,
   once each; every other is reduced by T once; timers added by callbacks are
   there with the times they were given.
   */
  lemma {:induction false} StepRefinesTable(s: State, T: Timeval, script: nat -> Reaction)
    requires Good(s) && T.Normal()
    requires forall k :: NormalRequests(script(k).adds)
    requires var r := Sweep(Rebuild(s), 0, T, 0, script);
             !r.stopped && s.tid + |Requested(script, 0, |r.fired|)| < UINT_RANGE
    ensures var r := Sweep(Rebuild(s), 0, T, 0, script);
            && Good(r.s)
            && Distinct(r.fired)
            && Distinct(News(s.tid, Requested(script, 0, |r.fired|)))
            && (forall t :: t in r.fired <==> t in All(s) && t.Key() <= T.Micros())
            && Table(All(r.s)) == Survivors(Table(All(s)), T) + Table(News(s.tid, Requested(script, 0, |r.fired|)))
  {
    var b := Rebuild(s);
    var r := Sweep(b, 0, T, 0, script);
    var reqs := Requested(script, 0, |r.fired|);
    RebuildGood(s);
    SweepExact(b, 0, T, 0, script);
    SweptGood(b, T, r);
    SweepTable(b.heap, T, r);
    FiredDistinct(b.heap, T, r);
    SweepAdds(b, 0, T, 0, script);
    RequestedNormal(script, 0, |r.fired|);
    AddAllIgnoresHeap(b, r.s.heap, reqs);
    assert r.s == AddAll(State(r.s.heap, [], s.tid), reqs);
    AddAllGood(State(r.s.heap, [], s.tid), reqs);
    assert All(State(r.s.heap, [], s.tid)) == r.s.heap;
  }

  lemma {:induction false} FiredDistinct(h: seq<Timer>, T: Timeval, r: Swept)
    requires Distinct(h) && Exact(h, 0, T, r)
    ensures Distinct(r.fired)
  {
    ExactMembers(h, T, r);
    var back := Restored(r.s.heap, T);
    PermutedTable(h, r.fired + back);
    forall i, j | 0 <= i < j < |r.fired| ensures r.fired[i].id != r.fired[j].id {
      assert (r.fired + back)[i] == r.fired[i] && (r.fired + back)[j] == r.fired[j];
    }
  }

  lemma {:induction false} RequestedNormal(script: nat -> Reaction, k: nat, n: nat)
    requires forall j :: NormalRequests(script(j).adds)
    ensures NormalRequests(Requested(script, k, n))
    decreases n
  {
    if n != 0 {
      RequestedNormal(script, k + 1, n - 1);
      var a, b := script(k).adds, Requested(script, k + 1, n - 1);
      assert NormalRequests(a);
      assert forall i :: 0 <= i < |a + b| ==> (a + b)[i] == if i < |a| then a[i] else b[i - |a|];
    }
  }

  // ---------- runs ----------

  datatype Op =
    | AddOp(r: Request)
    | CancelOp(id: nat)
    | StepOp(T: Timeval, script: nat -> Reaction)

  function Apply(s: State, op: Op): State {
    match op
    case AddOp(r) => Add(s, r)
    case CancelOp(id) => Cancel(s, id)
    case StepOp(T, script) => Sweep(Rebuild(s), 0, T, 0, script).s
  }

  function Run(s: State, ops: seq<Op>): State
    decreases |ops|
  {
    if ops == [] then s else Run(Apply(s, ops[0]), ops[1..])
  }

  /** Times are normal and no callback stops the loop. */
  ghost predicate Plain(s: State, op: Op) {
    match op
    case AddOp(r) => r.tv.Normal()
    case CancelOp(_) => true
    case StepOp(T, script) =>
      && T.Normal() && (forall k :: NormalRequests(script(k).adds))
      && !Sweep(Rebuild(s), 0, T, 0, script).stopped
  }

  ghost predicate PlainRun(s: State, ops: seq<Op>)
    decreases |ops|
  {
    ops == [] || (Plain(s, ops[0]) && PlainRun(Apply(s, ops[0]), ops[1..]))
  }

  /** Cancelling this id cannot leave a timer above an earlier one. */
  predicate SafeCancel(s: State, id: nat) {
    var i := Find(s.heap, id);
    id == 0 || i == |s.heap| || SafeToRemove(s.heap, i)
  }

  /**
   Whether the heap is known to be ordered after a run: an unsafe cancel loses
   the order, and the next step that finds new timers restores it.
   */
  predicate OrderKnown(s: State, ops: seq<Op>, known: bool)
    decreases |ops|
  {
    if ops == [] then known
    else
      var known' :=
        match ops[0]
        case AddOp(_) => known
        case CancelOp(id) => known && SafeCancel(s, id)
        case StepOp(_, _) => known || s.reserve != [];
      OrderKnown(Apply(s, ops[0]), ops[1..], known')
  }

  lemma {:induction false} NormalAll(s: State)
    ensures Normal(All(s)) <==> Normal(s.heap) && Normal(s.reserve)
  {
    if Normal(All(s)) {
      assert forall i :: 0 <= i < |s.heap| ==> s.heap[i] == All(s)[i];
      assert forall i :: 0 <= i < |s.reserve| ==> s.reserve[i] == All(s)[|s.heap| + i];
    }
  }

  lemma {:induction false} CancelNormal(s: State, id: nat)
    requires Normal(All(s))
    ensures Normal(All(Cancel(s, id)))
    ensures IsHeap(s.heap) && SafeCancel(s, id) ==> IsHeap(Cancel(s, id).heap)
  {
    NormalAll(s);
    NormalAll(Cancel(s, id));
    var i := Find(s.heap, id);
    if id != 0 && i < |s.heap| {
      RemovePermutes(s.heap, i);
      if IsHeap(s.heap) { RemoveKeepsHeapIff(s.heap, i); }
    }
  }

  lemma {:induction false} AddAllNormal(s: State, rs: seq<Request>)
    requires Normal(All(s)) && NormalRequests(rs)
    ensures Normal(All(AddAll(s, rs)))
    decreases |rs|
  {
    if rs != [] {
      assert All(Add(s, rs[0])) == All(s) + [Timer(NextId(s.tid), rs[0].tv, rs[0].cb)];
      AddAllNormal(Add(s, rs[0]), rs[1..]);
    }
  }

  /** A step leaves normal timers, and a heap if it started from one or found new timers. */
  lemma {:induction false} StepOrdered(s: State, T: Timeval, script: nat -> Reaction)
    requires Normal(All(s)) && Plain(s, StepOp(T, script))
    ensures Normal(All(Apply(s, StepOp(T, script))))
    ensures IsHeap(s.heap) || s.reserve != [] ==> IsHeap(Apply(s, StepOp(T, script)).heap)
  {
    var b := Rebuild(s);
    NormalAll(s);
    if s.reserve != [] { BuildMakesHeap(All(s)); }
    SweepExact(b, 0, T, 0, script);
    SweepAdds(b, 0, T, 0, script);
    var r := Sweep(b, 0, T, 0, script);
    var reqs := Requested(script, 0, |r.fired|);
    RequestedNormal(script, 0, |r.fired|);
    AddAllIgnoresHeap(b, r.s.heap, reqs);
    NormalAll(b.(heap := r.s.heap));
    AddAllNormal(b.(heap := r.s.heap), reqs);
    if IsHeap(b.heap) { SweepOfHeap(b, T, script); }
  }

  /** Over every run, the heap is ordered whenever it is known to be. */
  lemma {:induction false} OrderHolds(s: State, ops: seq<Op>, known: bool)
    requires Normal(All(s)) && PlainRun(s, ops) && (known ==> IsHeap(s.heap))
    ensures Normal(All(Run(s, ops)))
    ensures OrderKnown(s, ops, known) ==> IsHeap(Run(s, ops).heap)
    decreases |ops|
  {
    if ops != [] {
      var op := ops[0];
      var known' :=
        match op
        case AddOp(_) => known
        case CancelOp(id) => known && SafeCancel(s, id)
        case StepOp(_, _) => known || s.reserve != [];
      match op {
        case AddOp(r) => assert AddAll(s, [r]) == Add(s, r); AddAllNormal(s, [r]);
        case CancelOp(id) => CancelNormal(s, id);
        case StepOp(T, script) => StepOrdered(s, T, script);
      }
      OrderHolds(Apply(s, op), ops[1..], known');
    }
  }

  lemma {:induction false} FewerIds(a: seq<Timer>, b: seq<Timer>, id: nat, last: nat)
    requires Distinct(a) && Distinct(b) && Table(b) == Table(a) - {id}
    requires forall i :: 0 <= i < |a| ==> 1 <= a[i].id <= last
    ensures forall i :: 0 <= i < |b| ==> 1 <= b[i].id <= last
  {
    forall i | 0 <= i < |b| ensures 1 <= b[i].id <= last {
      assert b[i] in b;
      assert b[i].id in Table(a);
      assert Table(a)[b[i].id] in a;
    }
  }

  lemma {:induction false} NoIdZero(h: seq<Timer>)
    requires Distinct(h) && forall i :: 0 <= i < |h| ==> 1 <= h[i].id
    ensures Table(h) - {0} == Table(h)
  {
    forall id | id in Table(h) ensures id != 0 {
      assert Table(h)[id] in h;
    }
  }

  /** One cancel takes at most one entry out, and ids stay distinct. */
  lemma {:induction false} CancelGood(s: State, id: nat)
    requires Good(s)
    ensures Good(Cancel(s, id)) && Table(All(Cancel(s, id))) == Table(All(s)) - {id}
  {
    CancelIds(s, id);
    CancelNormal(s, id);
    FewerIds(All(s), All(Cancel(s, id)), id, s.tid);
  }

  lemma {:induction false} CancelIds(s: State, id: nat)
    requires Distinct(All(s)) && forall i :: 0 <= i < |All(s)| ==> 1 <= All(s)[i].id
    ensures Distinct(All(Cancel(s, id))) && Table(All(Cancel(s, id))) == Table(All(s)) - {id}
    ensures Cancel(s, id).tid == s.tid
  {
    if id == 0 { NoIdZero(All(s)); } else { CancelTable(s, id); }
  }

  // ---------- the table over whole runs ----------

  /** The timers as a map from id to timer, and the last id handed out. */
  datatype Book = Book(table: map<nat, Timer>, tid: nat)

  ghost function BookOf(s: State): Book
    requires Good(s)
  {
    Book(Table(All(s)), s.tid)
  }

  /** The entries that are due when T has elapsed. */
  ghost function Due(m: map<nat, Timer>, T: Timeval): set<nat> {
    set id | id in m && m[id].Key() <= T.Micros()
  }

  /**
   What an operation does to the map: each due entry leaves and runs one callback,
   the others lose T, and new ones come in.
   */
  ghost function Booked(b: Book, op: Op): Book {
    match op
    case AddOp(r) => Book(b.table[b.tid + 1 := Timer(b.tid + 1, r.tv, r.cb)], b.tid + 1)
    case CancelOp(id) => b.(table := b.table - {id})
    case StepOp(T, script) =>
      var reqs := Requested(script, 0, |Due(b.table, T)|);
      NewsDistinct(b.tid, reqs);
      Book(Survivors(b.table, T) + Table(News(b.tid, reqs)), b.tid + |reqs|)
  }

  ghost function BookedAll(b: Book, ops: seq<Op>): Book
    decreases |ops|
  {
    if ops == [] then b else BookedAll(Booked(b, ops[0]), ops[1..])
  }

  lemma {:induction false} NewsDistinct(tid: nat, rs: seq<Request>)
    ensures Distinct(News(tid, rs))
  {
  }

  lemma {:induction false} BookGrows(b: Book, ops: seq<Op>)
    ensures b.tid <= BookedAll(b, ops).tid
    decreases |ops|
  {
    if ops != [] { BookGrows(Booked(b, ops[0]), ops[1..]); }
  }

  lemma {:induction false} CountIds(h: seq<Timer>)
    requires Distinct(h)
    ensures |set t | t in h :: t.id| == |h|
  {
    if h != [] {
      var n := |h| - 1;
      CountIds(h[..n]);
      var before := set t | t in h[..n] :: t.id;
      assert h == h[..n] + [h[n]];
      assert h[n].id !in before;
      assert (set t | t in h :: t.id) == before + {h[n].id};
    }
  }

  /** As many timers fire as entries are due. */
  lemma {:induction false} FiredCount(h: seq<Timer>, fired: seq<Timer>, T: Timeval)
    requires Distinct(h) && Distinct(fired) && forall t :: t in fired <==> t in h && t.Key() <= T.Micros()
    ensures |fired| == |Due(Table(h), T)|
  {
    CountIds(fired);
    var ids := set t | t in fired :: t.id;
    forall id ensures id in ids <==> id in Due(Table(h), T) {
      if id in Due(Table(h), T) { assert Table(h)[id] in fired; }
    }
    assert ids == Due(Table(h), T);
  }

  /** The sweep of a step is over the rebuilt heap; it hands out ids for what its callbacks request. */
  lemma {:induction false} StepCounts(s: State, T: Timeval, script: nat -> Reaction)
    requires Good(s) && Plain(s, StepOp(T, script))
    ensures |Sweep(Rebuild(s), 0, T, 0, script).fired| == |Due(Table(All(s)), T)|
  {
    var b := Rebuild(s);
    var r := Sweep(b, 0, T, 0, script);
    RebuildGood(s);
    SweepExact(b, 0, T, 0, script);
    SweepTable(b.heap, T, r);
    FiredDistinct(b.heap, T, r);
    FiredCount(All(s), r.fired, T);
  }

  lemma {:induction false} StepBooked(s: State, T: Timeval, script: nat -> Reaction)
    requires Good(s) && Plain(s, StepOp(T, script)) && Booked(BookOf(s), StepOp(T, script)).tid < UINT_RANGE
    ensures var s' := Apply(s, StepOp(T, script)); Good(s') && BookOf(s') == Booked(BookOf(s), StepOp(T, script))
  {
    StepCounts(s, T, script);
    StepRefinesTable(s, T, script);
    StepTid(s, T, script);
  }

  lemma {:induction false} StepTid(s: State, T: Timeval, script: nat -> Reaction)
    requires Good(s) && Plain(s, StepOp(T, script))
    requires s.tid + |Requested(script, 0, |Sweep(Rebuild(s), 0, T, 0, script).fired|)| < UINT_RANGE
    ensures Apply(s, StepOp(T, script)).tid
            == s.tid + |Requested(script, 0, |Sweep(Rebuild(s), 0, T, 0, script).fired|)|
  {
    var b := Rebuild(s);
    var r := Sweep(b, 0, T, 0, script);
    var reqs := Requested(script, 0, |r.fired|);
    SweepAdds(b, 0, T, 0, script);
    AddAllNews(b, reqs);
  }

  lemma {:induction false} AddBooked(s: State, r: Request)
    requires Good(s) && r.tv.Normal() && s.tid + 1 < UINT_RANGE
    ensures Good(Add(s, r)) && BookOf(Add(s, r)) == Booked(BookOf(s), AddOp(r))
  {
    NextIdFresh(s);
    AddTable(s, r);
    assert AddAll(s, [r]) == Add(s, r);
    AddAllGood(s, [r]);
  }

  /** One operation. */
  lemma {:induction false} OneBooked(s: State, op: Op)
    requires Good(s) && Plain(s, op) && Booked(BookOf(s), op).tid < UINT_RANGE
    ensures Good(Apply(s, op)) && BookOf(Apply(s, op)) == Booked(BookOf(s), op)
  {
    match op
    case AddOp(r) => AddBooked(s, r);
    case CancelOp(id) => CancelGood(s, id);
    case StepOp(T, script) => StepBooked(s, T, script);
  }

  /**
   Every run of adding, cancelling and stepping refines the map, until the
   counter wraps: no timer is lost, doubled or changed by how heap and reserve
   arrange them, and ids stay distinct.
   */
  lemma {:induction false} RunRefinesTable(s: State, ops: seq<Op>)
    requires Good(s) && PlainRun(s, ops) && BookedAll(BookOf(s), ops).tid < UINT_RANGE
    ensures Good(Run(s, ops)) && BookOf(Run(s, ops)) == BookedAll(BookOf(s), ops)
    decreases |ops|
  {
    if ops != [] {
      BookGrows(Booked(BookOf(s), ops[0]), ops[1..]);
      OneBooked(s, ops[0]);
      RunRefinesTable(Apply(s, ops[0]), ops[1..]);
    }
  }
}
