/** struct evbase, as far as its timers go: one array holding the heap, a gap and the reserve. */
module EventLoop {
  import opened Common
  import opened Timevals
  import opened TimerHeap
  import opened TimerSweep
  import opened TimerTable

  /** What poll(2) did in a step: it timed out, returned after some time, or failed. */
  datatype Poll = TimedOut | Returned(elapsed: Timeval) | Failed

  class EvBase {
    var timers: array<Timer>
    var ntimers: nat
    var reserveFrom: nat
    var reserveTill: nat
    var tid: nat
    var evStop: bool

    ghost predicate Valid()
      reads this
    {
      ntimers <= reserveFrom <= reserveTill <= timers.Length
    }

    function S(): State
      requires Valid()
      reads this, timers
    {
      State(timers[..ntimers], timers[reserveFrom..reserveTill], tid)
    }

    constructor ()
      ensures Valid() && fresh(timers) && S() == State([], [], 0) && !evStop
    {
      timers := new Timer[0];
      ntimers, reserveFrom, reserveTill, tid, evStop := 0, 0, 0, 0, false;
    }

    /** recallocarray by eight more slots. */
    method Grow()
      requires Valid()
      modifies this`timers
      ensures Valid() && fresh(timers) && timers.Length == old(timers.Length) + 8 && S() == old(S())
    {
      var t := new Timer[timers.Length + 8](_ => Timer(0, Timeval(0, 0), 0));
      forall i | 0 <= i < timers.Length { t[i] := timers[i]; }
      timers := t;
    }

    /** The new timer goes to the end of the reserve. */
    method Append(t: Timer)
      requires Valid() && reserveTill < timers.Length
      modifies this`reserveTill, timers
      ensures Valid() && S() == old(S()).(reserve := old(S()).reserve + [t])
    {
      timers[reserveTill] := t;
      reserveTill := reserveTill + 1;
      assert timers[..ntimers] == old(timers[..ntimers]);
      assert timers[reserveFrom..reserveTill] == old(timers[reserveFrom..reserveTill]) + [t];
    }

    /** ev_timer: the new timer is added to the reserve, which may have to grow. */
    method EvTimer(tv: Timeval, cb: nat) returns (id: nat)
      requires Valid()
      modifies this`timers, this`reserveTill, this`tid, timers
      ensures Valid() && S() == Add(old(S()), Request(tv, cb)) && id == NextId(old(tid))
      ensures if old(reserveTill) < old(timers.Length) then timers == old(timers)
              else fresh(timers) && timers.Length == old(timers.Length) + 8
    {
      if reserveTill == timers.Length {
        Grow();
      }
      id := NextTid();
      Append(Timer(id, tv, cb));
    }

    /** The counter wraps and skips zero. */
    method NextTid() returns (id: nat)
      modifies this`tid
      ensures id == tid == NextId(old(tid))
    {
      tid := (tid + 1) % UINT_RANGE;
      if tid == 0 { tid := (tid + 1) % UINT_RANGE; }
      id := tid;
    }

    /** find_timer: the position of a pending timer, in the heap first. */
    method FindTimer(id: nat) returns (found: bool, pos: nat)
      requires Valid()
      ensures found == Pending(S(), id)
      ensures found ==>
                if Find(S().heap, id) < ntimers then pos == Find(S().heap, id)
                else pos == reserveFrom + Find(S().reserve, id)
    {
      found, pos := false, 0;
      if id == 0 { return; }
      while pos < ntimers
        invariant pos <= ntimers
        invariant forall j :: 0 <= j < pos ==> timers[j].id != id
      {
        if timers[pos].id == id {
          FindUnique(S().heap, id, pos);
          return true, pos;
        }
        pos := pos + 1;
      }
      FindNone(S().heap, id);
      pos := reserveFrom;
      while pos < reserveTill
        invariant reserveFrom <= pos <= reserveTill
        invariant forall j :: reserveFrom <= j < pos ==> timers[j].id != id
      {
        if timers[pos].id == id {
          FindUnique(S().reserve, id, pos - reserveFrom);
          return true, pos;
        }
        pos := pos + 1;
      }
      FindNone(S().reserve, id);
    }

    /** ev_timer_pending */
    method EvTimerPending(id: nat) returns (pending: bool)
      requires Valid()
      ensures pending == Pending(S(), id)
    {
      var pos;
      pending, pos := FindTimer(id);
    }

    /** The exchange of two timers through a temporary. */
    method SwapTimers(i: nat, s: nat)
      requires i < s < ntimers <= timers.Length
      modifies timers
      ensures timers[..ntimers] == Swap(old(timers[..ntimers]), i, s)
      ensures timers[ntimers..] == old(timers[ntimers..])
    {
      var tmp := timers[s];
      timers[s] := timers[i];
      timers[i] := tmp;
    }

    /** bubbledown */
    method BubbleDown(i0: nat)
      requires ntimers <= timers.Length
      modifies timers
      ensures timers[..ntimers] == SiftDown(old(timers[..ntimers]), i0)
      ensures timers[ntimers..] == old(timers[ntimers..])
    {
      var i := i0;
      ghost var h := timers[..ntimers];
      while true
        invariant timers[..ntimers] == h && SiftDown(h, i) == SiftDown(old(timers[..ntimers]), i0)
        invariant timers[ntimers..] == old(timers[ntimers..])
        decreases ntimers - i
      {
        var l, r := 2 * i + 1, 2 * i + 2;
        if ntimers <= l { return; }
        var s := r;
        if ntimers <= r || timers[l].tv.Before(timers[r].tv) { s := l; }
        assert s == SmallerChild(h, i) && timers[i] == h[i] && timers[s] == h[s];
        if timers[i].tv.Before(timers[s].tv) { return; }
        SwapTimers(i, s);
        h := Swap(h, i, s);
        i := s;
      }
    }

    /** bubbledown, seen from the reserve. */
    method SiftAt(i: nat)
      requires Valid()
      modifies timers
      ensures Valid() && S() == old(S()).(heap := SiftDown(old(S()).heap, i))
    {
      ghost var before := timers[..];
      BubbleDown(i);
      SliceOfTail(before, ntimers, reserveFrom, reserveTill);
      SliceOfTail(timers[..], ntimers, reserveFrom, reserveTill);
      assert timers[..][ntimers..] == before[ntimers..];
    }

    /** cancel_timer */
    method CancelTimer(i: nat)
      requires Valid() && i < ntimers
      modifies timers, this`ntimers
      ensures Valid() && ntimers == old(ntimers) - 1
      ensures S() == old(S()).(heap := Remove(old(S()).heap, i))
    {
      ghost var h := timers[..ntimers];
      ntimers := ntimers - 1;
      if i != ntimers {
        timers[i] := timers[ntimers];
        assert timers[..ntimers] == h[..ntimers][i := h[ntimers]];
        assert timers[reserveFrom..reserveTill] == old(S()).reserve;
        SiftAt(i);
      } else {
        assert timers[..ntimers] == h[..ntimers];
      }
    }

    /** ev_timer_cancel: 0 when there was such a timer, else -1. */
    method EvTimerCancel(id: nat) returns (rv: int)
      requires Valid()
      modifies timers, this`ntimers, this`reserveTill
      ensures Valid() && S() == Cancel(old(S()), id)
      ensures rv == if Pending(old(S()), id) then 0 else -1
    {
      var found, i := FindTimer(id);
      if !found {
        CancelAbsent(S(), id);
        return -1;
      }
      if i < ntimers {
        CancelTimer(i);
        return 0;
      }
      Unreserved(i);
      rv := 0;
    }

    /** The last timer of the reserve takes the place of the one at i. */
    method Unreserved(i: nat)
      requires Valid() && reserveFrom <= i < reserveTill
      modifies timers, this`reserveTill
      ensures Valid() && S() == old(S()).(reserve := Unreserve(old(S()).reserve, i - reserveFrom))
    {
      reserveTill := reserveTill - 1;
      if i != reserveTill {
        timers[i] := timers[reserveTill];
      }
      assert timers[..ntimers] == old(timers[..ntimers]);
      assert timers[reserveFrom..reserveTill] == Unreserve(old(S()).reserve, i - reserveFrom);
    }

    /** timerheapify with the two assignments that follow it in ev_step. */
    method Heapify()
      requires Valid()
      modifies timers, this`ntimers, this`reserveFrom, this`reserveTill
      ensures Valid() && S() == Rebuild(old(S()))
      ensures reserveFrom == reserveTill == ntimers
    {
      TimerHeapify();
      reserveFrom := ntimers;
      reserveTill := ntimers;
    }

    /**
     timerheapify: closes the gap and builds the heap, unless nothing was added.
     The heap may then reach past reserve_from, until ev_step resets the reserve.
     */
    method TimerHeapify()
      requires Valid()
      modifies timers, this`ntimers, this`reserveFrom, this`reserveTill
      ensures ntimers <= timers.Length && timers[..ntimers] == Rebuild(old(S())).heap
      ensures if old(reserveFrom == reserveTill) then
                && timers[..] == old(timers[..]) && ntimers == old(ntimers)
                && reserveFrom == old(reserveFrom) && reserveTill == old(reserveTill)
              else
                && ntimers == reserveTill == old(ntimers + (reserveTill - reserveFrom))
                && reserveFrom == old(ntimers)
    {
      var reserve := reserveTill - reserveFrom;
      if reserve == 0 { return; }
      CloseGap();
      ntimers := reserveTill;
      if ntimers < 2 { return; }
      BuildHeap();
    }

    /** memmove of n timers towards the front. */
    method MoveDown(to: nat, from: nat, n: nat)
      requires to <= from && from + n <= timers.Length
      modifies timers
      ensures timers[..to] == old(timers[..to])
      ensures timers[to..to + n] == old(timers[from..from + n])
    {
      forall k | 0 <= k < n { timers[to + k] := timers[from + k]; }
    }

    /** The reserve moves to the end of the heap. */
    method CloseGap()
      requires Valid()
      modifies timers, this`reserveFrom, this`reserveTill
      ensures Valid() && timers[..reserveTill] == old(S()).heap + old(S()).reserve
      ensures reserveFrom == ntimers && reserveTill == old(ntimers + (reserveTill - reserveFrom))
    {
      var gap := reserveFrom - ntimers;
      var reserve := reserveTill - reserveFrom;
      if gap != 0 {
        MoveDown(ntimers, reserveFrom, reserve);
        reserveFrom := reserveFrom - gap;
        reserveTill := reserveTill - gap;
      }
      assert timers[..reserveTill] == timers[..ntimers] + timers[ntimers..reserveTill];
    }

    /** The loop of timerheapify. */
    method BuildHeap()
      requires 2 <= ntimers <= timers.Length
      modifies timers
      ensures timers[..ntimers] == Build(old(timers[..ntimers]))
    {
      var i := ntimers / 2 - 1;
      ghost var h := timers[..ntimers];
      ghost var goal := Build(h);
      while true
        invariant 0 <= i && timers[..ntimers] == h && BuildsTo(h, i, goal)
        decreases i
      {
        BuildTurn(h, i, goal);
        BubbleDown(i);
        h := SiftDown(h, i);
        if i == 0 { break; }
        i := i - 1;
      }
    }

    /** A callback runs: it may add timers and stop the loop. */
    method RunCallback(reaction: Reaction)
      requires Valid()
      modifies this`timers, this`reserveTill, this`tid, this`evStop, timers
      ensures Valid() && (timers == old(timers) || fresh(timers))
      ensures S() == AddAll(old(S()), reaction.adds)
      ensures evStop == (old(evStop) || reaction.stop)
    {
      var j := 0;
      while j < |reaction.adds|
        invariant 0 <= j <= |reaction.adds|
        invariant Valid() && (timers == old(timers) || fresh(timers))
        invariant evStop == old(evStop)
        invariant AddAll(S(), reaction.adds[j..]) == AddAll(old(S()), reaction.adds)
      {
        var id := EvTimer(reaction.adds[j].tv, reaction.adds[j].cb);
        assert reaction.adds[j..][1..] == reaction.adds[j + 1..];
        j := j + 1;
      }
      if reaction.stop { evStop := true; }
    }

    /** A timer that is due is removed before its callback runs. */
    method Fire(i: nat, reaction: Reaction) returns (t: Timer)
      requires Valid() && i < ntimers && !evStop
      modifies this, timers
      ensures Valid() && (timers == old(timers) || fresh(timers))
      ensures t == old(S()).heap[i] && evStop == reaction.stop
      ensures S() == AddAll(old(S()).(heap := Remove(old(S()).heap, i)), reaction.adds)
      ensures S().heap == Remove(old(S()).heap, i)
    {
      t := timers[i];
      CancelTimer(i);
      AddAllHeap(S(), reaction.adds);
      RunCallback(reaction);
    }

    /** A timer that is not due keeps what is left of its time. */
    method Reduce(i: nat, sub: Timeval)
      requires Valid() && i < ntimers
      modifies timers
      ensures S() == var s := old(S()); s.(heap := s.heap[i := s.heap[i].(tv := sub)])
    {
      timers[i] := timers[i].(tv := sub);
      assert timers[..ntimers] == old(timers[..ntimers])[i := old(timers[i]).(tv := sub)];
    }

    /** One turn of the sweep: the timer fires, or keeps what is left of its time. */
    method Visit(i: nat, T: Timeval, reaction: Reaction) returns (t: Option<Timer>)
      requires Valid() && i < ntimers && !evStop
      modifies this, timers
      ensures Valid() && (timers == old(timers) || fresh(timers))
      ensures Visited(old(S()), i, T, reaction, S(), t, evStop)
    {
      var sub := timers[i].tv.Minus(T);
      if sub.Expired() {
        var fired := Fire(i, reaction);
        t := Some(fired);
      } else {
        Reduce(i, sub);
        t := None;
      }
    }

    /** The timer sweep of ev_step: fired lists the timers whose callbacks ran, in order. */
    method SweepTimers(T: Timeval, script: nat -> Reaction) returns (fired: seq<Timer>)
      requires Valid() && !evStop
      modifies this, timers
      ensures Valid() && (timers == old(timers) || fresh(timers))
      ensures Swept(S(), fired, evStop) == Sweep(old(S()), 0, T, 0, script)
    {
      fired := [];
      var i := 0;
      ghost var goal := Sweep(S(), 0, T, 0, script);
      SweepStart(S(), T, script);
      while i < ntimers && !evStop
        invariant Valid() && (timers == old(timers) || fresh(timers))
        invariant 0 <= i
        invariant SweepsOn(evStop, S(), i, T, fired, script, goal)
        decreases !evStop, ntimers - i
      {
        ghost var s := S();
        var t := Visit(i, T, script(|fired|));
        SweepTurn(s, i, T, fired, script, goal, S(), t, evStop);
        if t.Some? { fired := fired + [t.value]; } else { i := i + 1; }
      }
      if !evStop { SweepEnd(S(), i, T, fired, script, goal); }
    }

    /**
     The timer half of ev_step. msec is the timeout given to poll; when poll
     times out the elapsed time is that of the first timer.
     */
    method Step(poll: Poll, script: nat -> Reaction) returns (rv: int, msec: int, fired: seq<Timer>)
      requires Valid() && !evStop
      modifies this, timers
      ensures Valid() && (timers == old(timers) || fresh(timers))
      ensures var s := Rebuild(old(S()));
              && msec == (if s.heap == [] then -1 else s.heap[0].tv.PollMsec())
              && (poll.Failed? ==> rv == -1 && S() == s && fired == [])
              && (!poll.Failed? ==>
                    var T := if poll.Returned? then poll.elapsed
                             else if s.heap == [] then Timeval(0, 0) else s.heap[0].tv;
                    rv == 0 && Swept(S(), fired, evStop) == Sweep(s, 0, T, 0, script))
    {
      Heapify();
      msec, fired := -1, [];
      if 0 < ntimers { msec := timers[0].tv.PollMsec(); }
      if poll.Failed? { return -1, msec, []; }
      var T := if poll.Returned? then poll.elapsed else if ntimers == 0 then Timeval(0, 0) else timers[0].tv;
      fired := SweepTimers(T, script);
      rv := 0;
    }
  }

  ghost predicate BuildsTo(h: seq<Timer>, i: nat, goal: seq<Timer>) {
    BuildFrom(h, i) == goal
  }

  lemma {:induction false} BuildTurn(h: seq<Timer>, i: nat, goal: seq<Timer>)
    requires BuildsTo(h, i, goal)
    ensures if i == 0 then SiftDown(h, i) == goal else BuildsTo(SiftDown(h, i), i - 1, goal)
  {
  }

  /** From here on, the sweep completes what has fired so far to the goal. */
  ghost predicate SweepsTo(s: State, i: nat, T: Timeval, fired: seq<Timer>, script: nat -> Reaction, goal: Swept) {
    var rest := Sweep(s, i, T, |fired|, script);
    goal == Swept(rest.s, fired + rest.fired, rest.stopped)
  }

  lemma {:induction false} SweepStart(s: State, T: Timeval, script: nat -> Reaction)
    ensures SweepsTo(s, 0, T, [], script, Sweep(s, 0, T, 0, script))
  {
    assert [] + Sweep(s, 0, T, 0, script).fired == Sweep(s, 0, T, 0, script).fired;
  }

  lemma {:induction false} SweepEnd(s: State, i: nat, T: Timeval, fired: seq<Timer>, script: nat -> Reaction,
      goal: Swept)
    requires |s.heap| <= i && SweepsTo(s, i, T, fired, script, goal)
    ensures goal == Swept(s, fired, false)
  {
    assert fired + [] == fired;
  }

  /** The same, when a callback may have stopped it. */
  ghost predicate SweepsOn(stopped: bool, s: State, i: nat, T: Timeval, fired: seq<Timer>, script: nat -> Reaction,
      goal: Swept) {
    if stopped then goal == Swept(s, fired, true) else SweepsTo(s, i, T, fired, script, goal)
  }

  /** What one turn does to the timer at i: it fires, or keeps what is left of its time. */
  ghost predicate Visited(s: State, i: nat, T: Timeval, reaction: Reaction, s': State, t: Option<Timer>, stopped: bool)
    requires i < |s.heap|
  {
    var sub := s.heap[i].tv.Minus(T);
    if sub.Expired() then
      && t == Some(s.heap[i]) && stopped == reaction.stop
      && s' == AddAll(s.(heap := Remove(s.heap, i)), reaction.adds) && s'.heap == Remove(s.heap, i)
    else t == None && !stopped && s' == s.(heap := s.heap[i := s.heap[i].(tv := sub)])
  }

  /** One turn of the sweep on values. */
  lemma {:induction false} SweepTurn(s: State, i: nat, T: Timeval, fired: seq<Timer>, script: nat -> Reaction,
      goal: Swept, s': State, t: Option<Timer>, stopped: bool)
    requires i < |s.heap| && SweepsTo(s, i, T, fired, script, goal)
    requires Visited(s, i, T, script(|fired|), s', t, stopped)
    ensures SweepsOn(stopped, s', if t.Some? then i else i + 1, T,
                     if t.Some? then fired + [t.value] else fired, script, goal)
  {
    if t.Some? && !stopped {
      var rest := Sweep(s', i, T, |fired| + 1, script);
      assert fired + ([t.value] + rest.fired) == fired + [t.value] + rest.fired;
    }
  }

  lemma {:induction false} FindUnique(h: seq<Timer>, id: nat, i: nat)
    requires i < |h| && h[i].id == id && forall j :: 0 <= j < i ==> h[j].id != id
    ensures Find(h, id) == i
  {
  }

  lemma {:induction false} FindNone(h: seq<Timer>, id: nat)
    requires forall j :: 0 <= j < |h| ==> h[j].id != id
    ensures Find(h, id) == |h|
  {
  }

  lemma {:induction false} CancelAbsent(s: State, id: nat)
    requires !Pending(s, id)
    ensures Cancel(s, id) == s
  {
  }

  lemma {:induction false} SliceOfTail<X>(s: seq<X>, n: nat, from: nat, till: nat)
    requires n <= from <= till <= |s|
    ensures s[n..][from - n..till - n] == s[from..till]
  {
  }
}
