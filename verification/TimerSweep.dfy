/** The timers of the event loop: heap and reserve, and what one ev_step does to them. */
module TimerSweep {
  import opened Timevals
  import opened TimerHeap

  const UINT_RANGE: nat := 0x1_0000_0000

  /** What a callback may ask for: timers to add, and whether it calls ev_break. */
  datatype Request = Request(tv: Timeval, cb: nat)
  datatype Reaction = Reaction(adds: seq<Request>, stop: bool)

  datatype State = State(heap: seq<Timer>, reserve: seq<Timer>, tid: nat)

  /** The next timer id: the counter wraps and skips zero. */
  function NextId(tid: nat): (id: nat)
    ensures 0 < id < UINT_RANGE
  {
    var id := (tid + 1) % UINT_RANGE;
    if id == 0 then 1 else id
  }

  /** ev_timer */
  function Add(s: State, r: Request): State {
    var id := NextId(s.tid);
    State(s.heap, s.reserve + [Timer(id, r.tv, r.cb)], id)
  }

  function AddAll(s: State, rs: seq<Request>): State
    decreases |rs|
  {
    if rs == [] then s else AddAll(Add(s, rs[0]), rs[1..])
  }

  /** timerheapify and the two assignments after it in ev_step. */
  function Rebuild(s: State): State {
    if s.reserve == [] then s else State(Build(s.heap + s.reserve), [], s.tid)
  }

  datatype Swept = Swept(s: State, fired: seq<Timer>, stopped: bool)

  /**
   The timer sweep from index i on. T has elapsed, k callbacks have run, and
   script(k) is what the next one does.
   */
  function Sweep(s: State, i: nat, T: Timeval, k: nat, script: nat -> Reaction): Swept
    decreases |s.heap| - i
  {
    if |s.heap| <= i then Swept(s, [], false)
    else
      var sub := s.heap[i].tv.Minus(T);
      if sub.Expired() then
        var s' := AddAll(s.(heap := Remove(s.heap, i)), script(k).adds);
        AddAllHeap(s.(heap := Remove(s.heap, i)), script(k).adds);
        if script(k).stop then Swept(s', [s.heap[i]], true)
        else
          var rest := Sweep(s', i, T, k + 1, script);
          rest.(fired := [s.heap[i]] + rest.fired)
      else
        Sweep(s.(heap := s.heap[i := s.heap[i].(tv := sub)]), i + 1, T, k, script)
  }

  lemma {:induction false} AddAllHeap(s: State, rs: seq<Request>)
    ensures AddAll(s, rs).heap == s.heap
    decreases |rs|
  {
    if rs != [] {
      AddAllHeap(Add(s, rs[0]), rs[1..]);
    }
  }

  // ---------- exact expiry, in whatever order the array is ----------

  /** The timers with T added back to what remains of them. */
  function Restored(h: seq<Timer>, T: Timeval): (r: seq<Timer>)
    ensures |r| == |h|
    ensures forall j :: 0 <= j < |r| ==> r[j] == h[j].(tv := h[j].tv.Plus(T))
  {
    seq(|h|, j requires 0 <= j < |h| => h[j].(tv := h[j].tv.Plus(T)))
  }

  /** The timers as they were at the start of the sweep: those before i have been reduced. */
  function Original(h: seq<Timer>, i: nat, T: Timeval): seq<Timer>
    requires i <= |h|
  {
    Restored(h[..i], T) + h[i..]
  }

  ghost predicate AllExpired(fired: seq<Timer>, T: Timeval) {
    forall j :: 0 <= j < |fired| ==> fired[j].Key() <= T.Micros()
  }

  /** Positive time remains for each of the first n. */
  ghost predicate AllRemain(h: seq<Timer>, n: nat) {
    forall j :: 0 <= j < |h| && j < n ==> 0 < h[j].Key()
  }

  lemma {:induction false} MultisetSplit<X>(s: seq<X>, i: nat)
    requires i <= |s|
    ensures multiset(s) == multiset(s[..i]) + multiset(s[i..])
  {
    assert s == s[..i] + s[i..];
  }

  lemma {:induction false} OriginalRemove(h: seq<Timer>, i: nat, T: Timeval)
    requires i < |h|
    ensures multiset(Original(h, i, T)) == multiset{h[i]} + multiset(Original(Remove(h, i), i, T))
  {
    var r := Remove(h, i);
    RemovePermutes(h, i);
    MultisetSplit(h, i);
    MultisetSplit(r, i);
    assert multiset(h[i..]) == multiset(r[i..]) + multiset{h[i]} by {
      assert multiset(h[i..]) == multiset(h) - multiset(h[..i]);
      assert multiset(r[i..]) == multiset(r) - multiset(h[..i]);
    }
  }

  lemma {:induction false} OriginalReduce(h: seq<Timer>, i: nat, T: Timeval)
    requires i < |h| && h[i].tv.Normal() && T.Normal()
    ensures Original(h[i := h[i].(tv := h[i].tv.Minus(T))], i + 1, T) == Original(h, i, T)
  {
    var w := h[i := h[i].(tv := h[i].tv.Minus(T))];
    MinusIsExact(h[i].tv, T);
    assert w[..i + 1] == h[..i] + [w[i]];
    assert Restored(w[..i + 1], T) == Restored(h[..i], T) + [h[i]];
    assert h[i..] == [h[i]] + h[i + 1..] && w[i + 1..] == h[i + 1..];
  }

  lemma {:induction false} SweepFire(s: State, i: nat, T: Timeval, k: nat, script: nat -> Reaction)
    requires i < |s.heap| && s.heap[i].tv.Minus(T).Expired() && !script(k).stop
    ensures var s' := AddAll(s.(heap := Remove(s.heap, i)), script(k).adds);
            var rest := Sweep(s', i, T, k + 1, script);
            s'.heap == Remove(s.heap, i)
            && Sweep(s, i, T, k, script) == rest.(fired := [s.heap[i]] + rest.fired)
  {
    AddAllHeap(s.(heap := Remove(s.heap, i)), script(k).adds);
  }

  /** What the sweep from i on achieves. */
  ghost predicate Exact(h: seq<Timer>, i: nat, T: Timeval, r: Swept)
    requires i <= |h|
  {
    && multiset(Original(h, i, T)) == multiset(r.fired) + multiset(Restored(r.s.heap, T))
    && AllExpired(r.fired, T)
    && AllRemain(r.s.heap, |r.s.heap|)
    && Normal(r.s.heap)
  }

  lemma {:induction false} ExactFire(h: seq<Timer>, i: nat, T: Timeval, rest: Swept)
    requires i < |h| && h[i].Key() <= T.Micros() && Exact(Remove(h, i), i, T, rest)
    ensures Exact(h, i, T, rest.(fired := [h[i]] + rest.fired))
  {
    OriginalRemove(h, i, T);
    assert multiset([h[i]] + rest.fired) == multiset{h[i]} + multiset(rest.fired);
  }

  lemma {:induction false} RemoveRemain(h: seq<Timer>, i: nat)
    requires i < |h| && AllRemain(h, i)
    ensures AllRemain(Remove(h, i), i)
  {
    RemovePermutes(h, i);
    assert forall j :: 0 <= j < i ==> Remove(h, i)[j] == Remove(h, i)[..i][j] == h[..i][j] == h[j];
  }

  /**
   Unless a callback stops the loop: fired timers and survivors, with T added
   back, are exactly the timers there were; all fired had at most T remaining
   and all survivors more.
   */
  lemma {:induction false} SweepExact(s: State, i: nat, T: Timeval, k: nat, script: nat -> Reaction)
    requires Normal(s.heap) && T.Normal() && i <= |s.heap| && AllRemain(s.heap, i)
    requires !Sweep(s, i, T, k, script).stopped
    ensures Exact(s.heap, i, T, Sweep(s, i, T, k, script))
    decreases |s.heap| - i
  {
    var h := s.heap;
    if i == |h| {
      assert h[..i] == h;
      assert Original(h, i, T) == Restored(h, T);
    } else {
      MinusIsExact(h[i].tv, T);
      var sub := h[i].tv.Minus(T);
      if sub.Expired() {
        var s' := AddAll(s.(heap := Remove(h, i)), script(k).adds);
        SweepFire(s, i, T, k, script);
        RemovePermutes(h, i);
        RemoveRemain(h, i);
        SweepExact(s', i, T, k + 1, script);
        ExactFire(h, i, T, Sweep(s', i, T, k + 1, script));
      } else {
        OriginalReduce(h, i, T);
        SweepExact(s.(heap := h[i := h[i].(tv := sub)]), i + 1, T, k, script);
      }
    }
  }

  /** All that the first n callbacks from the k-th on ask for. */
  function Requested(script: nat -> Reaction, k: nat, n: nat): seq<Request>
    decreases n
  {
    if n == 0 then [] else script(k).adds + Requested(script, k + 1, n - 1)
  }

  lemma {:induction false} AddAllSplit(s: State, a: seq<Request>, b: seq<Request>)
    ensures AddAll(s, a + b) == AddAll(AddAll(s, a), b)
    decreases |a|
  {
    if a == [] {
      assert a + b == b;
    } else {
      assert (a + b)[0] == a[0] && (a + b)[1..] == a[1..] + b;
      AddAllSplit(Add(s, a[0]), a[1..], b);
    }
  }

  lemma {:induction false} AddAllIgnoresHeap(s: State, h: seq<Timer>, rs: seq<Request>)
    ensures AddAll(s.(heap := h), rs) == AddAll(s, rs).(heap := h)
    decreases |rs|
  {
    if rs != [] {
      AddAllIgnoresHeap(Add(s, rs[0]), h, rs[1..]);
    }
  }

  /** The sweep leaves the reserve alone but for the timers the callbacks add, with the times they asked for. */
  lemma {:induction false} SweepAdds(s: State, i: nat, T: Timeval, k: nat, script: nat -> Reaction)
    ensures var r := Sweep(s, i, T, k, script);
            r.s == AddAll(s, Requested(script, k, |r.fired|)).(heap := r.s.heap)
    decreases |s.heap| - i
  {
    if i < |s.heap| {
      var sub := s.heap[i].tv.Minus(T);
      if sub.Expired() {
        var s' := AddAll(s.(heap := Remove(s.heap, i)), script(k).adds);
        AddAllHeap(s.(heap := Remove(s.heap, i)), script(k).adds);
        if !script(k).stop { SweepAdds(s', i, T, k + 1, script); }
        FiredAdds(s, Remove(s.heap, i), script, k, if script(k).stop then 0 else |Sweep(s', i, T, k + 1, script).fired|,
                  Sweep(s, i, T, k, script).s.heap);
      } else {
        var h' := s.heap[i := s.heap[i].(tv := sub)];
        SweepAdds(s.(heap := h'), i + 1, T, k, script);
        AddAllIgnoresHeap(s, h', Requested(script, k, |Sweep(s, i, T, k, script).fired|));
      }
    }
  }

  /** What a callback adds, and then what the later ones add. */
  lemma {:induction false} FiredAdds(s: State, h: seq<Timer>, script: nat -> Reaction, k: nat, n: nat, h': seq<Timer>)
    ensures var s' := AddAll(s.(heap := h), script(k).adds);
            && AddAll(s', Requested(script, k + 1, n)).(heap := h')
                 == AddAll(s, Requested(script, k, n + 1)).(heap := h')
            && (n == 0 ==> s'.(heap := h') == AddAll(s, Requested(script, k, 1)).(heap := h'))
  {
    var later := Requested(script, k + 1, n);
    AddAllIgnoresHeap(s, h, script(k).adds);
    AddAllIgnoresHeap(AddAll(s, script(k).adds), h, later);
    AddAllSplit(s, script(k).adds, later);
    assert Requested(script, k, n + 1) == script(k).adds + later;
    if n == 0 { assert later == [] && script(k).adds + [] == script(k).adds; }
  }

  // ---------- expiry from a heap ----------

  /** What the sweep does to a heap: pop the root while it is due, then reduce the rest. */
  function Pop(h: seq<Timer>, T: Timeval): (r: (seq<Timer>, seq<Timer>))
    decreases |h|
  {
    if h == [] || T.Micros() < h[0].Key() then (h, [])
    else
      var r := Pop(Remove(h, 0), T);
      (r.0, [h[0]] + r.1)
  }

  /** The timers from i on reduced by T. */
  function Reduced(h: seq<Timer>, i: nat, T: Timeval): (r: seq<Timer>)
    ensures |r| == |h|
    ensures forall j :: 0 <= j < |r| ==> r[j] == if i <= j then h[j].(tv := h[j].tv.Minus(T)) else h[j]
  {
    seq(|h|, j requires 0 <= j < |h| => if i <= j then h[j].(tv := h[j].tv.Minus(T)) else h[j])
  }

  /** With more than T remaining from i on, nothing fires and all are reduced. */
  lemma {:induction false} SweepQuiet(s: State, i: nat, T: Timeval, k: nat, script: nat -> Reaction)
    requires Normal(s.heap) && T.Normal()
    requires forall j :: i <= j < |s.heap| ==> T.Micros() < s.heap[j].Key()
    ensures Sweep(s, i, T, k, script) == Swept(s.(heap := Reduced(s.heap, i, T)), [], false)
    decreases |s.heap| - i
  {
    if i < |s.heap| {
      MinusIsExact(s.heap[i].tv, T);
      var w := s.heap[i := s.heap[i].(tv := s.heap[i].tv.Minus(T))];
      assert T.Micros() < s.heap[i].Key();
      SweepQuiet(s.(heap := w), i + 1, T, k, script);
      assert Reduced(w, i + 1, T) == Reduced(s.heap, i, T);
    } else {
      assert Reduced(s.heap, i, T) == s.heap;
    }
  }

  /** From a heap every expiry happens at the root. */
  lemma {:induction false} SweepIsPop(s: State, T: Timeval, k: nat, script: nat -> Reaction)
    requires Normal(s.heap) && T.Normal() && IsHeap(s.heap)
    requires !Sweep(s, 0, T, k, script).stopped
    ensures var r := Sweep(s, 0, T, k, script);
            var p := Pop(s.heap, T);
            r.fired == p.1 && r.s.heap == Reduced(p.0, 0, T) && IsHeap(p.0) && Normal(p.0)
    decreases |s.heap|
  {
    var h := s.heap;
    if h != [] {
      MinusIsExact(h[0].tv, T);
      if h[0].tv.Minus(T).Expired() {
        SweepFire(s, 0, T, k, script);
        RemovePermutes(h, 0);
        RemoveKeepsHeapIff(h, 0);
        SweepIsPop(AddAll(s.(heap := Remove(h, 0)), script(k).adds), T, k + 1, script);
      } else {
        forall j | 0 <= j < |h| ensures T.Micros() < h[j].Key() { RootIsMinimum(h, j); }
        SweepQuiet(s, 0, T, k, script);
      }
    }
  }

  /** The timers are in order of remaining time, and none has less than low. */
  ghost predicate InOrderFrom(low: int, fired: seq<Timer>) {
    && (forall a :: 0 <= a < |fired| ==> low <= fired[a].Key())
    && (forall a, b :: 0 <= a < b < |fired| ==> fired[a].Key() <= fired[b].Key())
  }

  lemma {:induction false} InOrderCons(low: int, t: Timer, next: int, fired: seq<Timer>)
    requires low <= t.Key() && (fired != [] ==> t.Key() <= next) && InOrderFrom(next, fired)
    ensures InOrderFrom(low, [t] + fired)
  {
    var all := [t] + fired;
    assert forall a :: 0 < a < |all| ==> all[a] == fired[a - 1];
  }

  /** Removing the root leaves nothing earlier than the root. */
  lemma {:induction false} NextRootNotEarlier(h: seq<Timer>)
    requires IsHeap(h) && 1 < |h|
    ensures h[0].Key() <= Remove(h, 0)[0].Key()
  {
    RemovePermutes(h, 0);
    assert Remove(h, 0)[0] in multiset(Remove(h, 0));
    assert Remove(h, 0)[0] in multiset(h);
    var c :| 0 <= c < |h| && h[c] == Remove(h, 0)[0];
    RootIsMinimum(h, c);
  }

  /** Popping fires in order of remaining time. */
  lemma {:induction false} PopInOrder(h: seq<Timer>, T: Timeval)
    requires Normal(h) && IsHeap(h)
    ensures InOrderFrom(if h == [] then 0 else h[0].Key(), Pop(h, T).1)
    decreases |h|
  {
    if h != [] && !(T.Micros() < h[0].Key()) {
      var r := Remove(h, 0);
      RemoveKeepsHeapIff(h, 0);
      RemovePermutes(h, 0);
      PopInOrder(r, T);
      if r != [] { NextRootNotEarlier(h); }
      InOrderCons(h[0].Key(), h[0], if r == [] then 0 else r[0].Key(), Pop(r, T).1);
    }
  }

  /** Reducing all by the same time keeps a heap a heap. */
  lemma {:induction false} ReducedHeap(h: seq<Timer>, T: Timeval)
    requires Normal(h) && T.Normal() && IsHeap(h)
    ensures IsHeap(Reduced(h, 0, T)) && Normal(Reduced(h, 0, T))
  {
    var r := Reduced(h, 0, T);
    forall c | 0 < c < |r| ensures Ordered(r, c) {
      MinusIsExact(h[c].tv, T);
      MinusIsExact(h[Parent(c)].tv, T);
      assert Ordered(h, c);
    }
    forall c | 0 <= c < |r| ensures r[c].tv.Normal() {
      MinusIsExact(h[c].tv, T);
    }
  }

  /** One sweep of a heap: firings in order of time remaining, and a heap afterwards. */
  lemma {:induction false} SweepOfHeap(s: State, T: Timeval, script: nat -> Reaction)
    requires Normal(s.heap) && T.Normal() && IsHeap(s.heap)
    requires !Sweep(s, 0, T, 0, script).stopped
    ensures var r := Sweep(s, 0, T, 0, script);
            && IsHeap(r.s.heap) && Normal(r.s.heap)
            && (s.heap != [] ==> InOrderFrom(s.heap[0].Key(), r.fired))
  {
    SweepIsPop(s, T, 0, script);
    ReducedHeap(Pop(s.heap, T).0, T);
    PopInOrder(s.heap, T);
  }

  /** In a heap the poll timeout covers the next timer due, and no timer by a millisecond or more. */
  lemma {:induction false} TimeoutCoversMinimum(h: seq<Timer>, j: nat)
    requires Normal(h) && IsHeap(h) && j < |h|
    ensures h[0].Key() <= h[0].tv.PollMsec() * 1000 < h[0].Key() + 1000
    ensures h[0].tv.PollMsec() * 1000 < h[j].Key() + 1000
  {
    PollRoundsUp(h[0].tv);
    RootIsMinimum(h, j);
  }
}
