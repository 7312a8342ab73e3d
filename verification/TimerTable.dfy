/** Heap and reserve as a finite map from timer id to timer. */
module TimerTable {
  import opened Timevals
  import opened TimerHeap
  import opened TimerSweep

  ghost predicate Distinct(h: seq<Timer>) {
    forall i, j :: 0 <= i < j < |h| ==> h[i].id != h[j].id
  }

  ghost function Table(h: seq<Timer>): (m: map<nat, Timer>)
    requires Distinct(h)
    ensures forall t :: t in h ==> t.id in m && m[t.id] == t
    ensures forall id :: id in m ==> m[id].id == id && m[id] in h
  {
    map t | t in h :: t.id := t
  }

  function All(s: State): seq<Timer> {
    s.heap + s.reserve
  }

  /** Tables are equal when the timers are the same. */
  lemma {:induction false} SameTable(a: seq<Timer>, b: seq<Timer>)
    requires Distinct(a) && Distinct(b)
    requires forall t :: t in a <==> t in b
    ensures Table(a) == Table(b)
  {
    var m, n := Table(a), Table(b);
    forall id | id in m ensures id in n && n[id] == m[id] {
      assert m[id] in b;
    }
    forall id | id in n ensures id in m {
      assert n[id] in a;
    }
  }

  lemma {:induction false} Twice(h: seq<Timer>, i: nat, j: nat)
    requires i < j < |h| && h[i] == h[j]
    ensures 2 <= multiset(h)[h[i]]
  {
    MultisetSplit(h, j);
    assert h[i] in multiset(h[..j]) by { assert h[i] == h[..j][i]; }
    assert h[j] in multiset(h[j..]) by { assert h[j] == h[j..][0]; }
  }

  lemma {:induction false} Once(h: seq<Timer>, t: Timer)
    requires Distinct(h)
    ensures multiset(h)[t] <= 1
  {
    if h != [] {
      var n := |h| - 1;
      assert h == h[..n] + [h[n]];
      Once(h[..n], t);
      if t == h[n] {
        assert t !in h[..n];
      }
    }
  }

  /** Rearranging timers keeps ids distinct and the table the same. */
  lemma {:induction false} PermutedTable(a: seq<Timer>, b: seq<Timer>)
    requires Distinct(a) && multiset(a) == multiset(b)
    ensures Distinct(b) && Table(a) == Table(b)
  {
    SameMembers(a, b);
    forall i, j | 0 <= i < j < |b| ensures b[i].id != b[j].id {
      assert b[i] in a && b[j] in a;
      if b[i].id == b[j].id {
        Twice(b, i, j);
        Once(a, b[i]);
      }
    }
    SameTable(a, b);
  }

  lemma {:induction false} SameMembers(a: seq<Timer>, b: seq<Timer>)
    requires multiset(a) == multiset(b)
    ensures forall t :: t in a <==> t in b
  {
    assert forall t :: t in a <==> t in multiset(a);
    assert forall t :: t in b <==> t in multiset(b);
  }

  /** One timer more at the end is one entry more. */
  lemma {:induction false} TableSnoc(a: seq<Timer>, t: Timer)
    requires Distinct(a + [t])
    ensures Distinct(a) && t.id !in Table(a)
    ensures Table(a + [t]) == Table(a)[t.id := t]
  {
    var b := a + [t];
    forall i | 0 <= i < |a| ensures a[i].id != t.id {
      assert b[i] == a[i] && b[|a|] == t;
    }
    assert forall i :: 0 <= i < |a| ==> a[i] == b[i];
    var m, n := Table(a), Table(b);
    forall id | id in n ensures id in m[t.id := t] && n[id] == m[t.id := t][id] {
      assert n[id] in b;
    }
    forall id | id in m[t.id := t] ensures id in n {
      if id != t.id { assert m[id] in b; } else { assert t in b; }
    }
  }

  /** ev_timer adds one entry, when the next id is not in use. */
  lemma {:induction false} AddTable(s: State, r: Request)
    requires Distinct(All(s)) && NextId(s.tid) !in Table(All(s))
    ensures Distinct(All(Add(s, r)))
    ensures Table(All(Add(s, r))) == Table(All(s))[NextId(s.tid) := Timer(NextId(s.tid), r.tv, r.cb)]
  {
    var t := Timer(NextId(s.tid), r.tv, r.cb);
    assert All(Add(s, r)) == All(s) + [t];
    forall i | 0 <= i < |All(s)| ensures All(s)[i].id != t.id {
      assert All(s)[i] in All(s);
    }
    TableSnoc(All(s), t);
  }

  /** Ids handed out so far are the counter's range, as long as it has not wrapped. */
  ghost predicate BeforeWrap(s: State) {
    s.tid < UINT_RANGE - 1 && forall i :: 0 <= i < |All(s)| ==> 1 <= All(s)[i].id <= s.tid
  }

  lemma {:induction false} NextIdFresh(s: State)
    requires Distinct(All(s)) && BeforeWrap(s)
    ensures NextId(s.tid) !in Table(All(s))
    ensures forall i :: 0 <= i < |All(s)| ==> 1 <= All(s)[i].id <= NextId(s.tid)
  {
  }

  /** The first position of an id, or the length. */
  function Find(h: seq<Timer>, id: nat): (i: nat)
    ensures i <= |h| && (i < |h| ==> h[i].id == id) && forall j :: 0 <= j < i ==> h[j].id != id
  {
    if h == [] then 0 else if h[0].id == id then 0 else 1 + Find(h[1..], id)
  }

  /** ev_timer_pending */
  predicate Pending(s: State, id: nat) {
    id != 0 && (Find(s.heap, id) < |s.heap| || Find(s.reserve, id) < |s.reserve|)
  }

  /** Removal from the reserve: the last one takes the place. */
  function Unreserve(h: seq<Timer>, i: nat): seq<Timer>
    requires i < |h|
  {
    var n := |h| - 1;
    if i == n then h[..n] else h[..n][i := h[n]]
  }

  /** ev_timer_cancel */
  function Cancel(s: State, id: nat): State {
    if id == 0 then s
    else
      var i := Find(s.heap, id);
      if i < |s.heap| then s.(heap := Remove(s.heap, i))
      else
        var j := Find(s.reserve, id);
        if j < |s.reserve| then s.(reserve := Unreserve(s.reserve, j)) else s
  }

  lemma {:induction false} PendingIsInTable(s: State, id: nat)
    requires Distinct(All(s)) && id != 0
    ensures Pending(s, id) <==> id in Table(All(s))
  {
    var i, j := Find(s.heap, id), Find(s.reserve, id);
    if i < |s.heap| { assert s.heap[i] in All(s); }
    if j < |s.reserve| { assert s.reserve[j] in All(s); }
    if id in Table(All(s)) {
      var t := Table(All(s))[id];
      assert t in s.heap || t in s.reserve;
    }
  }

  lemma {:induction false} UnreservePermutes(h: seq<Timer>, i: nat)
    requires i < |h|
    ensures multiset(h) == multiset(Unreserve(h, i)) + multiset{h[i]}
  {
    var n := |h| - 1;
    assert h == h[..n] + [h[n]];
    if i != n {
      assert multiset(h[..n][i := h[n]]) == multiset(h[..n]) - multiset{h[i]} + multiset{h[n]};
    }
  }

  /** Cancelling takes exactly the one timer out. */
  lemma {:induction false} CancelPermutes(s: State, id: nat)
    requires Pending(s, id)
    ensures exists t: Timer ::
              t.id == id && t in All(s) && multiset(All(s)) == multiset(All(Cancel(s, id))) + multiset{t}
  {
    var i, j := Find(s.heap, id), Find(s.reserve, id);
    if i < |s.heap| {
      RemovePermutes(s.heap, i);
      assert s.heap[i] in All(s);
    } else {
      UnreservePermutes(s.reserve, j);
      assert s.reserve[j] in All(s);
    }
  }

  lemma {:induction false} MinusOne(a: seq<Timer>, b: seq<Timer>, t: Timer)
    requires Distinct(a) && t in a && multiset(a) == multiset(b) + multiset{t}
    ensures Distinct(b) && Table(b) == Table(a) - {t.id}
  {
    assert multiset(a) == multiset(b + [t]);
    PermutedTable(a, b + [t]);
    TableSnoc(b, t);
  }

  /** ev_timer_cancel removes one entry, or changes nothing when there is none. */
  lemma {:induction false} CancelTable(s: State, id: nat)
    requires Distinct(All(s)) && id != 0
    ensures Distinct(All(Cancel(s, id)))
    ensures Table(All(Cancel(s, id))) == Table(All(s)) - {id}
  {
    PendingIsInTable(s, id);
    if Pending(s, id) {
      CancelPermutes(s, id);
      var t: Timer :| t.id == id && t in All(s) && multiset(All(s)) == multiset(All(Cancel(s, id))) + multiset{t};
      MinusOne(All(s), All(Cancel(s, id)), t);
    } else {
      assert Cancel(s, id) == s;
    }
  }

  /** timerheapify changes the arrangement only. */
  lemma {:induction false} RebuildTable(s: State)
    requires Distinct(All(s)) && Normal(All(s))
    ensures Distinct(All(Rebuild(s))) && Table(All(Rebuild(s))) == Table(All(s))
    ensures s.reserve != [] ==> IsHeap(Rebuild(s).heap)
    ensures Normal(Rebuild(s).heap) && Rebuild(s).reserve == []
  {
    if s.reserve == [] {
      assert All(s) == s.heap;
    } else {
      BuildMakesHeap(All(s));
      assert All(Rebuild(s)) == Rebuild(s).heap;
    }
    PermutedTable(All(s), All(Rebuild(s)));
  }

  /** The entries that survive T, reduced by it. */
  ghost function Survivors(m: map<nat, Timer>, T: Timeval): map<nat, Timer> {
    map id | id in m && T.Micros() < m[id].Key() :: m[id].(tv := m[id].tv.Minus(T))
  }

  lemma {:induction false} ExactMembers(h: seq<Timer>, T: Timeval, r: Swept)
    requires Exact(h, 0, T, r)
    ensures multiset(h) == multiset(r.fired + Restored(r.s.heap, T))
    ensures forall t :: t in h <==> t in r.fired || t in Restored(r.s.heap, T)
  {
    assert Original(h, 0, T) == h;
    assert multiset(r.fired + Restored(r.s.heap, T)) == multiset(r.fired) + multiset(Restored(r.s.heap, T));
    SameMembers(h, r.fired + Restored(r.s.heap, T));
  }

  /** After the sweep of a whole tick the heap holds exactly the surviving entries. */
  lemma {:induction false} SweepTable(h: seq<Timer>, T: Timeval, r: Swept)
    requires Distinct(h) && Normal(h) && T.Normal() && Exact(h, 0, T, r)
    ensures Distinct(r.s.heap) && Table(r.s.heap) == Survivors(Table(h), T)
    ensures forall t :: t in r.fired <==> t in h && t.Key() <= T.Micros()
  {
    var back := Restored(r.s.heap, T);
    ExactMembers(h, T, r);
    PermutedTable(h, r.fired + back);
    RestoredDistinct(r.fired, back, r.s.heap);
    forall j | 0 <= j < |back|
      ensures back[j] in h && T.Micros() < back[j].Key() && back[j].tv.Minus(T) == r.s.heap[j].tv
    {
      assert back[j] in back;
      PlusMinus(r.s.heap[j].tv, T);
    }
    forall t | t in h && t.Key() <= T.Micros() ensures t in r.fired {
      if t in back { assert false; }
    }
    TableOfReduced(h, back, r.fired, r.s.heap, T);
  }

  lemma {:induction false} PlusMinus(a: Timeval, b: Timeval)
    requires a.Normal() && b.Normal()
    ensures a.Plus(b).Normal() && a.Plus(b).Minus(b) == a && a.Plus(b).Micros() == a.Micros() + b.Micros()
  {
  }

  lemma {:induction false} RestoredDistinct(fired: seq<Timer>, back: seq<Timer>, h: seq<Timer>)
    requires Distinct(fired + back) && |back| == |h| && forall j :: 0 <= j < |h| ==> back[j].id == h[j].id
    ensures Distinct(h)
  {
    forall i, j | 0 <= i < j < |h| ensures h[i].id != h[j].id {
      assert (fired + back)[|fired| + i] == back[i] && (fired + back)[|fired| + j] == back[j];
    }
  }

  lemma {:induction false} TableOfReduced(h: seq<Timer>, back: seq<Timer>, fired: seq<Timer>, h': seq<Timer>,
      T: Timeval)
    requires Distinct(h) && Distinct(h') && |back| == |h'| && AllExpired(fired, T)
    requires forall t :: t in h <==> t in fired || t in back
    requires forall j :: 0 <= j < |h'| ==>
               && back[j] in h && T.Micros() < back[j].Key() && back[j].id == h'[j].id
               && h'[j] == back[j].(tv := back[j].tv.Minus(T))
    ensures Table(h') == Survivors(Table(h), T)
  {
    var m, n := Table(h'), Survivors(Table(h), T);
    forall id | id in m ensures id in n && n[id] == m[id] {
      assert m[id] in h';
      var j :| 0 <= j < |h'| && h'[j] == m[id];
      assert Table(h)[id] == back[j];
    }
    forall id | id in n ensures id in m {
      var t := Table(h)[id];
      assert t in back;
      var j :| 0 <= j < |back| && back[j] == t;
      assert h'[j] in h';
    }
  }
}
