/** The binary heap of ev.c on sequences: sifting down, removing, building. */
module TimerHeap {
  import opened Common
  import opened Timevals

  datatype Timer = Timer(id: nat, tv: Timeval, cb: nat) {
    function Key(): int {
      tv.Micros()
    }
  }

  ghost predicate Normal(h: seq<Timer>) {
    forall i :: 0 <= i < |h| ==> h[i].tv.Normal()
  }

  function Parent(c: nat): nat
    requires 0 < c
  {
    (c - 1) / 2
  }

  ghost predicate Ordered(h: seq<Timer>, c: int)
    requires 0 < c < |h|
  {
    h[Parent(c)].Key() <= h[c].Key()
  }

  /** Every node from lo on is no later than its children. */
  ghost predicate HeapFrom(h: seq<Timer>, lo: int) {
    forall c :: 0 < c < |h| && lo <= Parent(c) ==> Ordered(h, c)
  }

  ghost predicate IsHeap(h: seq<Timer>) {
    HeapFrom(h, 0)
  }

  /** The child bubbledown compares with: the left one only if it is alone or strictly smaller. */
  function SmallerChild(h: seq<Timer>, i: nat): (s: nat)
    requires 2 * i + 1 < |h|
    ensures i < s < |h| && Parent(s) == i
  {
    var l, r := 2 * i + 1, 2 * i + 2;
    if |h| <= r || h[l].tv.Before(h[r].tv) then l else r
  }

  /** bubbledown */
  function SiftDown(h: seq<Timer>, i: nat): (r: seq<Timer>)
    ensures |r| == |h|
    decreases |h| - i
  {
    if |h| <= 2 * i + 1 then h
    else
      var s := SmallerChild(h, i);
      if h[i].tv.Before(h[s].tv) then h else SiftDown(Swap(h, i, s), s)
  }

  lemma {:induction false} SiftPermutes(h: seq<Timer>, i: nat)
    requires i <= |h|
    ensures multiset(SiftDown(h, i)) == multiset(h)
    ensures SiftDown(h, i)[..i] == h[..i]
    ensures Normal(h) ==> Normal(SiftDown(h, i))
    decreases |h| - i
  {
    if 2 * i + 1 < |h| {
      var s := SmallerChild(h, i);
      if !h[i].tv.Before(h[s].tv) {
        var w := Swap(h, i, s);
        SwapPermutes(h, i, s);
        SiftPermutes(w, s);
        assert SiftDown(h, i)[..i] == SiftDown(w, s)[..s][..i];
        assert w[..s][..i] == h[..i];
      }
    }
  }

  /** Everything from lo on is ordered, except that node i may be later than its children. */
  ghost predicate AlmostHeap(h: seq<Timer>, lo: nat, i: nat) {
    && (forall c :: 0 < c < |h| && lo <= Parent(c) && Parent(c) != i ==> Ordered(h, c))
    && (0 < i && lo <= Parent(i) ==>
          forall c :: 0 < c < |h| && Parent(c) == i ==> h[Parent(i)].Key() <= h[c].Key())
  }

  lemma {:induction false} SmallerIsSmaller(h: seq<Timer>, i: nat)
    requires Normal(h) && 2 * i + 1 < |h|
    ensures forall c :: 0 < c < |h| && Parent(c) == i ==> h[SmallerChild(h, i)].Key() <= h[c].Key()
  {
    var l, r := 2 * i + 1, 2 * i + 2;
    if r < |h| { BeforeIsLess(h[l].tv, h[r].tv); }
    forall c | 0 < c < |h| && Parent(c) == i ensures c == l || c == r {}
  }

  lemma {:induction false} SwapAlmostHeap(h: seq<Timer>, lo: nat, i: nat)
    requires Normal(h) && lo <= i && AlmostHeap(h, lo, i) && 2 * i + 1 < |h|
    requires h[SmallerChild(h, i)].Key() <= h[i].Key()
    ensures var s := SmallerChild(h, i); AlmostHeap(Swap(h, i, s), lo, s)
  {
    var s := SmallerChild(h, i);
    var w := Swap(h, i, s);
    SmallerIsSmaller(h, i);
    forall c | 0 < c < |w| && lo <= Parent(c) && Parent(c) != s ensures Ordered(w, c) {
      if Parent(c) == i {
        assert h[s].Key() <= h[c].Key();
      } else if c == i {
        assert Parent(s) == i;
      } else {
        assert Ordered(h, c);
      }
    }
    forall c | 0 < c < |w| && Parent(c) == s ensures w[Parent(s)].Key() <= w[c].Key() {
      assert Ordered(h, c);
    }
  }

  /** Sifting down repairs the one node that was out of order. */
  lemma {:induction false} SiftRepairs(h: seq<Timer>, lo: nat, i: nat)
    requires Normal(h) && lo <= i && AlmostHeap(h, lo, i)
    ensures HeapFrom(SiftDown(h, i), lo)
    decreases |h| - i
  {
    if |h| <= 2 * i + 1 {
      forall c | 0 < c < |h| && lo <= Parent(c) ensures Ordered(h, c) {}
    } else {
      var s := SmallerChild(h, i);
      BeforeIsLess(h[i].tv, h[s].tv);
      SmallerIsSmaller(h, i);
      if h[i].tv.Before(h[s].tv) {
        forall c | 0 < c < |h| && lo <= Parent(c) ensures Ordered(h, c) {
          if Parent(c) == i { assert h[s].Key() <= h[c].Key(); }
        }
      } else {
        SwapAlmostHeap(h, lo, i);
        SiftPermutes(Swap(h, i, s), 0);
        assert Normal(Swap(h, i, s));
        SiftRepairs(Swap(h, i, s), lo, s);
      }
    }
  }

  /** cancel_timer: the last timer takes the place of the one removed and is sifted down, never up. */
  function Remove(h: seq<Timer>, i: nat): (r: seq<Timer>)
    requires i < |h|
    ensures |r| == |h| - 1
  {
    var n := |h| - 1;
    if i == n then h[..n] else SiftDown(h[..n][i := h[n]], i)
  }

  lemma {:induction false} TakeLastOut(h: seq<Timer>, i: nat)
    requires i < |h|
    ensures var n := |h| - 1;
            multiset(h) == multiset(if i == n then h[..n] else h[..n][i := h[n]]) + multiset{h[i]}
  {
    var n := |h| - 1;
    assert h == h[..n] + [h[n]];
    if i != n {
      assert multiset(h[..n][i := h[n]]) == multiset(h[..n]) - multiset{h[i]} + multiset{h[n]};
    }
  }

  lemma {:induction false} RemovePermutes(h: seq<Timer>, i: nat)
    requires i < |h|
    ensures multiset(h) == multiset(Remove(h, i)) + multiset{h[i]}
    ensures Remove(h, i)[..i] == h[..i]
    ensures Normal(h) ==> Normal(Remove(h, i))
  {
    var n := |h| - 1;
    TakeLastOut(h, i);
    if i != n {
      var w := h[..n][i := h[n]];
      SiftPermutes(w, i);
      assert w[..i] == h[..i];
    }
  }

  /** In a heap the root is the minimum. */
  lemma {:induction false} RootIsMinimum(h: seq<Timer>, c: nat)
    requires IsHeap(h) && c < |h|
    ensures h[0].Key() <= h[c].Key()
    decreases c
  {
    if c != 0 {
      assert Ordered(h, c);
      RootIsMinimum(h, Parent(c));
    }
  }

  lemma {:induction false} SiftTopNotLater(h: seq<Timer>, i: nat)
    requires Normal(h) && i < |h|
    ensures SiftDown(h, i)[i].Key() <= h[i].Key()
  {
    if 2 * i + 1 < |h| {
      var s := SmallerChild(h, i);
      BeforeIsLess(h[i].tv, h[s].tv);
      if !h[i].tv.Before(h[s].tv) {
        var w := Swap(h, i, s);
        SiftPermutes(w, s);
        assert SiftDown(h, i)[i] == SiftDown(w, s)[..s][i] == w[..s][i] == h[s];
      }
    }
  }

  /** Whether the timer that takes the place of i may stay below the parent of i. */
  predicate SafeToRemove(h: seq<Timer>, i: nat)
    requires i < |h|
  {
    i == 0 || i == |h| - 1 || h[Parent(i)].Key() <= h[|h| - 1].Key()
  }

  lemma {:induction false} RemoveReplaced(h: seq<Timer>, i: nat)
    requires IsHeap(h) && i < |h| - 1
    requires i == 0 || h[Parent(i)].Key() <= h[|h| - 1].Key()
    ensures AlmostHeap(h[..|h| - 1][i := h[|h| - 1]], 0, i)
  {
    var w := h[..|h| - 1][i := h[|h| - 1]];
    forall c | 0 < c < |w| && Parent(c) != i ensures Ordered(w, c) {
      assert Ordered(h, c);
    }
    if 0 < i {
      forall c | 0 < c < |w| && Parent(c) == i ensures w[Parent(i)].Key() <= w[c].Key() {
        assert Ordered(h, c) && Ordered(h, i);
      }
    }
  }

  lemma {:induction false} RemoveLast(h: seq<Timer>)
    requires IsHeap(h) && h != []
    ensures IsHeap(Remove(h, |h| - 1))
  {
    var n, w := |h| - 1, h[..|h| - 1];
    forall c | 0 < c < n ensures Ordered(w, c) {
      assert Ordered(h, c);
    }
  }

  lemma {:induction false} RemoveSafe(h: seq<Timer>, i: nat)
    requires Normal(h) && IsHeap(h) && i < |h| - 1 && SafeToRemove(h, i)
    ensures IsHeap(Remove(h, i))
  {
    RemoveReplaced(h, i);
    SiftRepairs(h[..|h| - 1][i := h[|h| - 1]], 0, i);
  }

  /** What stands above i and at i after the removal. */
  lemma {:induction false} RemoveKeepsParent(h: seq<Timer>, i: nat)
    requires Normal(h) && 0 < i < |h| - 1
    ensures var r := Remove(h, i);
            |r| == |h| - 1 && r[Parent(i)] == h[Parent(i)] && r[i].Key() <= h[|h| - 1].Key()
  {
    var w := h[..|h| - 1][i := h[|h| - 1]];
    SiftPermutes(w, i);
    SiftTopNotLater(w, i);
    assert Remove(h, i)[Parent(i)] == Remove(h, i)[..i][Parent(i)] == w[..i][Parent(i)];
  }

  lemma {:induction false} RemoveUnsafe(h: seq<Timer>, i: nat)
    requires Normal(h) && i < |h| && !SafeToRemove(h, i)
    ensures !IsHeap(Remove(h, i))
  {
    RemoveKeepsParent(h, i);
    assert !Ordered(Remove(h, i), i);
  }

  /**
   Cancelling keeps the heap exactly when the last timer may stand below the
   parent of the cancelled one: cancel_timer sifts down but never up.
   */
  lemma {:induction false} RemoveKeepsHeapIff(h: seq<Timer>, i: nat)
    requires Normal(h) && IsHeap(h) && i < |h|
    ensures IsHeap(Remove(h, i)) <==> SafeToRemove(h, i)
  {
    if i == |h| - 1 {
      RemoveLast(h);
    } else if SafeToRemove(h, i) {
      RemoveSafe(h, i);
    } else {
      RemoveUnsafe(h, i);
    }
  }

  /** A timer with a remaining time in seconds. */
  function Due(sec: nat): Timer {
    Timer(sec, Timeval(sec, 0), 0)
  }

  /** The heap of the example, after the cancel, and after each of the two removals. */
  const EXAMPLE := [Due(1), Due(10), Due(3), Due(11), Due(12), Due(5), Due(4)]
  const CANCELLED := [Due(1), Due(10), Due(3), Due(4), Due(12), Due(5)]
  const FIRST_GONE := [Due(3), Due(10), Due(5), Due(4), Due(12)]
  const BOTH_GONE := [Due(5), Due(10), Due(12), Due(4)]

  lemma {:induction false} ExampleCancel()
    ensures Remove(EXAMPLE, 3) == CANCELLED
  {
    assert EXAMPLE[..6][3 := EXAMPLE[6]] == CANCELLED;
  }

  lemma {:induction false} ExampleFirst()
    ensures Remove(CANCELLED, 0) == FIRST_GONE
  {
    var b := [Due(5), Due(10), Due(3), Due(4), Due(12)];
    assert CANCELLED[..5][0 := CANCELLED[5]] == b && Swap(b, 0, 2) == FIRST_GONE;
    assert SiftDown(b, 0) == SiftDown(FIRST_GONE, 2) == FIRST_GONE;
  }

  lemma {:induction false} ExampleSecond()
    ensures Remove(FIRST_GONE, 0) == BOTH_GONE
  {
    var c := [Due(12), Due(10), Due(5), Due(4)];
    assert FIRST_GONE[..4][0 := FIRST_GONE[4]] == c && Swap(c, 0, 2) == BOTH_GONE;
    assert SiftDown(c, 0) == SiftDown(BOTH_GONE, 2) == BOTH_GONE;
  }

  /**
   A cancel inside the heap can hide the minimum: with 1, 10, 3, 11, 12, 5, 4
   seconds to go, cancelling 11 and then removing 1 and 3 leaves 5 at the root
   while 4 is pending.
   */
  lemma {:induction false} InteriorCancelHidesMinimum()
    ensures IsHeap(EXAMPLE) && EXAMPLE[3] == Due(11) && !IsHeap(Remove(EXAMPLE, 3))
    ensures var cancelled := Remove(EXAMPLE, 3);
            && cancelled[0] == Due(1) && Remove(cancelled, 0)[0] == Due(3)
            && var r := Remove(Remove(cancelled, 0), 0); r[0] == Due(5) && Due(4) in r
  {
    ExampleCancel();
    ExampleFirst();
    ExampleSecond();
    assert CANCELLED[3] == Due(4) && Parent(3) == 1 && !Ordered(CANCELLED, 3);
    assert BOTH_GONE[3] == Due(4);
  }

  /** The loop of timerheapify: sift down at i, i - 1, ..., 0. */
  function BuildFrom(h: seq<Timer>, i: nat): (r: seq<Timer>)
    ensures |r| == |h|
    decreases i
  {
    var w := SiftDown(h, i);
    if i == 0 then w else BuildFrom(w, i - 1)
  }

  function Build(h: seq<Timer>): (r: seq<Timer>)
    ensures |r| == |h|
  {
    if |h| < 2 then h else BuildFrom(h, |h| / 2 - 1)
  }

  lemma {:induction false} BuildStep(h: seq<Timer>, i: nat)
    requires Normal(h) && i <= |h| && HeapFrom(h, i + 1)
    ensures var r := SiftDown(h, i); |r| == |h| && HeapFrom(r, i) && Normal(r) && multiset(r) == multiset(h)
  {
    assert AlmostHeap(h, i, i);
    SiftRepairs(h, i, i);
    SiftPermutes(h, i);
  }

  lemma {:induction false} BuildFromHeap(h: seq<Timer>, i: nat)
    requires Normal(h) && i <= |h| && HeapFrom(h, i + 1)
    ensures IsHeap(BuildFrom(h, i)) && Normal(BuildFrom(h, i))
    ensures multiset(BuildFrom(h, i)) == multiset(h)
    decreases i
  {
    BuildStep(h, i);
    if i != 0 {
      BuildFromHeap(SiftDown(h, i), i - 1);
    }
  }

  /** Whatever the order before, building makes a heap of the same timers. */
  lemma {:induction false} BuildMakesHeap(h: seq<Timer>)
    requires Normal(h)
    ensures IsHeap(Build(h)) && Normal(Build(h))
    ensures multiset(Build(h)) == multiset(h)
  {
    if 2 <= |h| {
      BuildFromHeap(h, |h| / 2 - 1);
    }
  }
}
