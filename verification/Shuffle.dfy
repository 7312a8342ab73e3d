/** playlist_shuffle: an in-place shuffle whose every draw excludes the slot itself. */
module Shuffle {
  import opened Common

  /** arc4random_uniform: some number below n. */
  function Uniform(draw: nat, n: nat): (r: nat)
    requires 0 < n
    ensures r < n
    ensures draw < n ==> r == draw
  {
    draw % n
  }

  /** The loop from slot i down to start: each slot is exchanged with one drawn below it. */
  function ShuffleFrom<T>(s: seq<T>, start: nat, i: int, draw: nat -> nat): (r: seq<T>)
    requires i < |s|
    ensures |r| == |s|
    decreases i
  {
    if i <= start then s
    else ShuffleFrom(Swap(s, i, start + Uniform(draw(i), i - start)), start, i - 1, draw)
  }

  /** playlist_shuffle on the songs and the position. */
  function ShuffleAll<T>(songs: seq<T>, off: int, all: bool, draw: nat -> nat): (r: (seq<T>, int))
    requires -1 <= off < |songs|
    ensures |r.0| == |songs|
  {
    if |songs| == 0 then (songs, off)
    else
      var first := if off >= 0 && !all then off else 0;
      var s := if off >= 0 then Swap(songs, off, first) else songs;
      var off' := if off >= 0 then first else off;
      var start := if off >= 0 then first + 1 else first;
      (ShuffleFrom(s, start, |songs| - 1, draw), off')
  }

  // ---------- the rearrangement as a list of slots ----------

  function Identity(n: nat): (p: seq<nat>)
    ensures |p| == n && forall x :: 0 <= x < n ==> p[x] == x
  {
    seq(n, x => x)
  }

  /** The songs taken in the order p says. */
  function Arranged<T>(s: seq<T>, p: seq<nat>): (r: seq<T>)
    requires forall x :: 0 <= x < |p| ==> p[x] < |s|
    ensures |r| == |p| && forall x :: 0 <= x < |p| ==> r[x] == s[p[x]]
  {
    seq(|p|, x requires 0 <= x < |p| => s[p[x]])
  }

  ghost predicate IntoRange(p: seq<nat>, n: nat) {
    forall x :: 0 <= x < |p| ==> p[x] < n
  }

  /** What the loop does to the slots themselves. */
  function Slots(n: nat, start: nat, i: int, draw: nat -> nat): seq<nat>
    requires i < n
  {
    ShuffleFrom(Identity(n), start, i, draw)
  }

  lemma {:induction false} ShuffleInto(p: seq<nat>, start: nat, i: int, draw: nat -> nat, n: nat)
    requires i < |p| && IntoRange(p, n)
    ensures IntoRange(ShuffleFrom(p, start, i, draw), n)
    decreases i
  {
    if start < i {
      ShuffleInto(Swap(p, i, start + Uniform(draw(i), i - start)), start, i - 1, draw, n);
    }
  }

  /** Shuffling an arrangement is arranging by the shuffle. */
  lemma {:induction false} ShuffleArranged<T>(s: seq<T>, p: seq<nat>, start: nat, i: int, draw: nat -> nat)
    requires i < |p| && IntoRange(p, |s|)
    ensures IntoRange(ShuffleFrom(p, start, i, draw), |s|)
    ensures ShuffleFrom(Arranged(s, p), start, i, draw) == Arranged(s, ShuffleFrom(p, start, i, draw))
    decreases i
  {
    ShuffleInto(p, start, i, draw, |s|);
    if start < i {
      var j := start + Uniform(draw(i), i - start);
      assert Arranged(s, Swap(p, i, j)) == Swap(Arranged(s, p), i, j);
      ShuffleArranged(s, Swap(p, i, j), start, i - 1, draw);
    }
  }

  /** Shuffling moves each song where the same shuffle moves its slot. */
  lemma {:induction false} ShuffleBySlots<T>(s: seq<T>, start: nat, i: int, draw: nat -> nat)
    requires i < |s|
    ensures var p := Slots(|s|, start, i, draw);
            IntoRange(p, |s|) && ShuffleFrom(s, start, i, draw) == Arranged(s, p)
  {
    assert Arranged(s, Identity(|s|)) == s;
    ShuffleArranged(s, Identity(|s|), start, i, draw);
  }

  // ---------- one cycle ----------

  /** The cycle lists slots lo to hi, each once, and slot cycle[t] receives what was in cycle[t + 1]. */
  ghost predicate IsCycle(p: seq<nat>, lo: nat, hi: int, cycle: seq<nat>) {
    && hi < |p|
    && |cycle| == hi - lo + 1
    && (forall t :: 0 <= t < |cycle| ==> lo <= cycle[t] <= hi)
    && (forall t, u :: 0 <= t < u < |cycle| ==> cycle[t] != cycle[u])
    && (forall t :: 0 <= t < |cycle| ==> p[cycle[t]] == cycle[if t + 1 == |cycle| then 0 else t + 1])
    && (forall x :: lo <= x <= hi ==> x in cycle)
    && (forall x :: 0 <= x < |p| && (x < lo || hi < x) ==> p[x] == x)
  }

  /** Exchanging slots i and j first, and rearranging by p after. */
  function Exchanged(p: seq<nat>, i: nat, j: nat): (r: seq<nat>)
    ensures |r| == |p|
    ensures forall x :: 0 <= x < |p| ==> r[x] == if p[x] == i then j else if p[x] == j then i else p[x]
  {
    seq(|p|, x requires 0 <= x < |p| => if p[x] == i then j else if p[x] == j then i else p[x])
  }

  lemma {:induction false} SlotsStep(n: nat, start: nat, i: nat, draw: nat -> nat)
    requires start < i < n
    ensures Slots(n, start, i, draw) == Exchanged(Slots(n, start, i - 1, draw), i, start + Uniform(draw(i), i - start))
  {
    var j := start + Uniform(draw(i), i - start);
    assert Slots(n, start, i, draw) == ShuffleFrom(Swap(Identity(n), i, j), start, i - 1, draw);
    SlotsExchanged(n, start, i, draw, j);
  }

  /** Exchanging two slots before the loop. */
  lemma {:induction false} SlotsExchanged(n: nat, start: nat, i: nat, draw: nat -> nat, j: nat)
    requires start < i < n && j < n
    ensures ShuffleFrom(Swap(Identity(n), i, j), start, i - 1, draw) == Exchanged(Slots(n, start, i - 1, draw), i, j)
  {
    var first := Swap(Identity(n), i, j);
    ShuffleBySlots(first, start, i - 1, draw);
    ArrangeSwapped(n, Slots(n, start, i - 1, draw), i, j);
  }

  lemma {:induction false} ArrangeSwapped(n: nat, p: seq<nat>, a: nat, b: nat)
    requires IntoRange(p, n) && a < n && b < n
    ensures Arranged(Swap(Identity(n), a, b), p) == Exchanged(p, a, b)
  {
    forall x | 0 <= x < |p| ensures Arranged(Swap(Identity(n), a, b), p)[x] == Exchanged(p, a, b)[x] {
      assert p[x] < n;
    }
  }

  /** The cycle with a fresh slot inserted before the one at position at. */
  function Inserted(cycle: seq<nat>, at: nat, slot: nat): (longer: seq<nat>)
    requires at < |cycle|
    ensures |longer| == |cycle| + 1
    ensures forall t :: 0 <= t < |longer| ==>
              longer[t] == if t < at then cycle[t] else if t == at then slot else cycle[t - 1]
  {
    cycle[..at] + [slot] + cycle[at..]
  }

  lemma {:induction false} InsertedDistinct(p: seq<nat>, lo: nat, hi: nat, cycle: seq<nat>, at: nat)
    requires 0 < hi && IsCycle(p, lo, hi - 1, cycle) && at < |cycle|
    ensures var longer := Inserted(cycle, at, hi);
            && (forall t, u :: 0 <= t < u < |longer| ==> longer[t] != longer[u])
            && (forall x :: lo <= x <= hi ==> x in longer)
  {
    var longer := Inserted(cycle, at, hi);
    forall t, u | 0 <= t < u < |longer| ensures longer[t] != longer[u] {
      var t', u' := if t < at then t else t - 1, if u < at then u else u - 1;
      if t != at && u != at { assert cycle[t'] != cycle[u']; }
    }
    forall x | lo <= x <= hi ensures x in longer {
      if x == hi { assert longer[at] == hi; }
      else {
        assert x in cycle;
        var t :| 0 <= t < |cycle| && cycle[t] == x;
        assert longer[if t < at then t else t + 1] == x;
      }
    }
  }

  /** The slots outside stay. */
  lemma {:induction false} ExchangedOutside(p: seq<nat>, lo: nat, hi: nat, cycle: seq<nat>, j: nat)
    requires lo <= j < hi < |p| && IsCycle(p, lo, hi - 1, cycle)
    ensures forall x :: 0 <= x < |p| && (x < lo || hi < x) ==> Exchanged(p, hi, j)[x] == x
  {
  }

  /** Exchanging a fresh slot hi with j, a slot of the cycle, inserts hi before j. */
  lemma {:induction false} InsertIntoCycle(p: seq<nat>, lo: nat, hi: nat, cycle: seq<nat>, j: nat)
      returns (longer: seq<nat>)
    requires lo <= j < hi < |p| && IsCycle(p, lo, hi - 1, cycle)
    ensures IsCycle(Exchanged(p, hi, j), lo, hi, longer)
  {
    assert j in cycle;
    var at :| 0 <= at < |cycle| && cycle[at] == j;
    longer := Inserted(cycle, at, hi);
    InsertedDistinct(p, lo, hi, cycle, at);
    ExchangedOutside(p, lo, hi, cycle, j);
    forall t | 0 <= t < |longer|
      ensures Exchanged(p, hi, j)[longer[t]] == longer[if t + 1 == |longer| then 0 else t + 1]
    {
      NextInCycle(p, lo, hi, cycle, j, at, longer, t);
    }
  }

  lemma {:induction false} NextInCycle(p: seq<nat>, lo: nat, hi: nat, cycle: seq<nat>, j: nat, at: nat,
      longer: seq<nat>, t: nat)
    requires lo <= j < hi < |p| && IsCycle(p, lo, hi - 1, cycle)
    requires at < |cycle| && cycle[at] == j && longer == Inserted(cycle, at, hi) && t < |longer|
    ensures longer[t] < |p|
    ensures Exchanged(p, hi, j)[longer[t]] == longer[if t + 1 == |longer| then 0 else t + 1]
  {
    if t == at {
      assert p[hi] == hi;
      assert longer[at + 1] == cycle[at];
    } else {
      var u := if t < at then t else t - 1;
      assert longer[t] == cycle[u];
      var v := if u + 1 == |cycle| then 0 else u + 1;
      assert p[cycle[u]] == cycle[v];
      if v == at {
        assert cycle[v] == j;
      } else {
        assert cycle[v] != cycle[at] by { if v < at { } else { } }
      }
    }
  }

  /** The loop rearranges slots start to i in one single cycle and leaves the others alone. */
  lemma {:induction false} SlotsCycle(n: nat, start: nat, i: int, draw: nat -> nat) returns (cycle: seq<nat>)
    requires start <= i < n
    ensures IsCycle(Slots(n, start, i, draw), start, i, cycle)
    decreases i
  {
    if i == start {
      cycle := [start];
    } else {
      var shorter := SlotsCycle(n, start, i - 1, draw);
      SlotsStep(n, start, i, draw);
      var j := start + Uniform(draw(i), i - start);
      cycle := InsertIntoCycle(Slots(n, start, i - 1, draw), start, i, shorter, j);
    }
  }

  /** In a cycle of two or more slots, none keeps its entry. */
  lemma {:induction false} CycleMovesAll(p: seq<nat>, lo: nat, hi: nat, cycle: seq<nat>, x: nat)
    requires lo < hi && IsCycle(p, lo, hi, cycle) && lo <= x <= hi
    ensures p[x] != x
  {
    assert x in cycle;
    var t :| 0 <= t < |cycle| && cycle[t] == x;
    var u := if t + 1 == |cycle| then 0 else t + 1;
    assert p[cycle[t]] == cycle[u];
    if t < u { assert cycle[t] != cycle[u]; } else { assert cycle[u] != cycle[t]; }
  }

  lemma {:induction false} ShufflePermutes<T>(s: seq<T>, start: nat, i: int, draw: nat -> nat)
    requires i < |s|
    ensures multiset(ShuffleFrom(s, start, i, draw)) == multiset(s)
    decreases i
  {
    if start < i {
      var j := start + Uniform(draw(i), i - start);
      SwapPermutes(s, i, j);
      ShufflePermutes(Swap(s, i, j), start, i - 1, draw);
    }
  }

  /** The first slot that is shuffled. */
  function StartSlot(off: int, all: bool): nat
    requires -1 <= off
  {
    if off < 0 then 0 else if all then 1 else off + 1
  }

  /** The songs once the current one has been moved to the place where it stays. */
  function Based<T>(songs: seq<T>, off: int, all: bool): (r: seq<T>)
    requires -1 <= off < |songs|
    ensures |r| == |songs|
  {
    if 0 <= off then Swap(songs, off, if all then 0 else off) else songs
  }

  lemma {:induction false} ShuffleAllIs<T>(songs: seq<T>, off: int, all: bool, draw: nat -> nat)
    requires -1 <= off < |songs|
    ensures ShuffleAll(songs, off, all, draw)
         == (ShuffleFrom(Based(songs, off, all), StartSlot(off, all), |songs| - 1, draw),
             if off < 0 then -1 else if all then 0 else off)
  {
  }

  /** The slots behind the position move in one cycle, so none of them keeps its entry; the others stay. */
  lemma {:induction false} SlotsAreCyclic(n: nat, start: nat, draw: nat -> nat) returns (cycle: seq<nat>)
    requires start <= n
    ensures var p := Slots(n, start, n - 1, draw);
            && IntoRange(p, n)
            && (forall x :: 0 <= x < start ==> p[x] == x)
            && (start < n ==> IsCycle(p, start, n - 1, cycle))
            && (start + 1 < n ==> forall x :: start <= x < n ==> p[x] != x)
  {
    var p := Slots(n, start, n - 1, draw);
    ShuffleInto(Identity(n), start, n - 1, draw, n);
    cycle := [];
    if start < n {
      cycle := SlotsCycle(n, start, n - 1, draw);
      if start + 1 < n {
        forall x | start <= x < n ensures p[x] != x { CycleMovesAll(p, start, n - 1, cycle, x); }
      }
    }
  }

  /** Slots that stay keep the songs in front. */
  lemma {:induction false} ArrangedPrefix<T>(s: seq<T>, p: seq<nat>, n: nat)
    requires |p| == |s| && IntoRange(p, |s|) && n <= |p|
    requires forall x :: 0 <= x < n ==> p[x] == x
    ensures Arranged(s, p)[..n] == s[..n]
  {
  }

  lemma {:induction false} BasedPrefix<T>(songs: seq<T>, off: int, all: bool)
    requires -1 <= off < |songs|
    ensures var base := Based(songs, off, all);
            && StartSlot(off, all) <= |songs|
            && (0 <= off ==> base[if all then 0 else off] == songs[off])
            && (!all ==> base == songs && StartSlot(off, all) == off + 1)
            && multiset(base) == multiset(songs)
  {
    if 0 <= off { SwapPermutes(songs, off, if all then 0 else off); }
  }

  /**
   For all draws: the songs are permuted, the song at the position stays the
   one at the (possibly new) position, and without the flag all songs up to it
   stay.
   */
  lemma {:induction false} ShuffleKeepsCurrent<T>(songs: seq<T>, off: int, all: bool, draw: nat -> nat)
    requires -1 <= off < |songs|
    ensures var (r, off') := ShuffleAll(songs, off, all, draw);
            && multiset(r) == multiset(songs)
            && off' == (if off < 0 then -1 else if all then 0 else off)
            && (0 <= off ==> r[off'] == songs[off])
            && (!all ==> r[..off + 1] == songs[..off + 1])
  {
    var start, base := StartSlot(off, all), Based(songs, off, all);
    ShuffleAllIs(songs, off, all, draw);
    BasedPrefix(songs, off, all);
    ShuffledKeepsPrefix(base, start, draw);
    if 0 <= off {
      PrefixAt(ShuffleFrom(base, start, |songs| - 1, draw), base, start, if all then 0 else off);
    }
  }

  /** The loop permutes the slots and leaves those below start alone. */
  lemma {:induction false} ShuffledKeepsPrefix<T>(s: seq<T>, start: nat, draw: nat -> nat)
    requires start <= |s|
    ensures var r := ShuffleFrom(s, start, |s| - 1, draw);
            multiset(r) == multiset(s) && r[..start] == s[..start]
  {
    var n := |s|;
    ShufflePermutes(s, start, n - 1, draw);
    ShuffleBySlots(s, start, n - 1, draw);
    var cycle := SlotsAreCyclic(n, start, draw);
    ArrangedPrefix(s, Slots(n, start, n - 1, draw), start);
  }

  lemma {:induction false} PrefixAt<T>(a: seq<T>, b: seq<T>, n: nat, i: nat)
    requires i < n <= |a| && n <= |b| && a[..n] == b[..n]
    ensures a[i] == b[i]
  {
    assert a[..n][i] == b[..n][i];
  }

  /**
   For all draws: the slots behind the position exchange their songs in one
   single cycle, so with two or more of them none keeps its entry.
   */
  lemma {:induction false} ShuffleIsCyclic<T>(songs: seq<T>, off: int, all: bool, draw: nat -> nat)
      returns (p: seq<nat>, cycle: seq<nat>)
    requires -1 <= off < |songs|
    ensures var start := StartSlot(off, all);
            && |p| == |songs| && IntoRange(p, |songs|)
            && ShuffleAll(songs, off, all, draw).0 == Arranged(Based(songs, off, all), p)
            && (start < |songs| ==> IsCycle(p, start, |songs| - 1, cycle))
            && (start + 1 < |songs| ==> forall x :: start <= x < |songs| ==> p[x] != x)
  {
    var n, start := |songs|, StartSlot(off, all);
    ShuffleAllIs(songs, off, all, draw);
    ShuffleBySlots(Based(songs, off, all), start, n - 1, draw);
    p := Slots(n, start, n - 1, draw);
    cycle := SlotsAreCyclic(n, start, draw);
  }

  // ---------- the draws decide ----------

  ghost predicate AllDistinct<T>(s: seq<T>) {
    forall x, y :: 0 <= x < y < |s| ==> s[x] != s[y]
  }

  /** The draws for the slots from i down to start are as arc4random_uniform gives them. */
  ghost predicate InBounds(draw: nat -> nat, start: nat, i: int) {
    forall k: nat :: start < k <= i ==> draw(k) < k - start
  }

  /** The slots above i are done with. */
  lemma {:induction false} AboveStays<T>(s: seq<T>, start: nat, i: int, draw: nat -> nat, x: nat)
    requires i < x < |s|
    ensures ShuffleFrom(s, start, i, draw)[x] == s[x]
    decreases i
  {
    if start < i { AboveStays(Swap(s, i, start + Uniform(draw(i), i - start)), start, i - 1, draw, x); }
  }

  /** The slot i ends with what it drew. */
  lemma {:induction false} DrawnHere<T>(s: seq<T>, start: nat, i: nat, draw: nat -> nat)
    requires start < i < |s| && draw(i) < i - start
    ensures ShuffleFrom(s, start, i, draw)[i] == s[start + draw(i)]
    ensures ShuffleFrom(s, start, i, draw) == ShuffleFrom(Swap(s, i, start + draw(i)), start, i - 1, draw)
  {
    AboveStays(Swap(s, i, start + draw(i)), start, i - 1, draw, i);
  }

  lemma {:induction false} SameSlot<T>(s: seq<T>, j: nat, k: nat)
    requires AllDistinct(s) && j < |s| && k < |s| && s[j] == s[k]
    ensures j == k
  {
  }

  lemma {:induction false} SwapDistinct<T>(s: seq<T>, i: nat, j: nat)
    requires i < |s| && j < |s| && AllDistinct(s)
    ensures AllDistinct(Swap(s, i, j))
  {
  }

  /**
   Different draws give different arrangements of different songs: as many arrangements
   are equally likely as there are draws, and no draw is wasted.
   */
  lemma {:induction false} DrawsDecide<T>(s: seq<T>, start: nat, i: nat, draw: nat -> nat, draw': nat -> nat, k: nat)
    requires i < |s| && AllDistinct(s) && InBounds(draw, start, i) && InBounds(draw', start, i)
    requires ShuffleFrom(s, start, i, draw) == ShuffleFrom(s, start, i, draw') && start < k <= i
    ensures draw(k) == draw'(k)
    decreases i
  {
    var j := start + draw(i);
    DrawnHere(s, start, i, draw);
    DrawnHere(s, start, i, draw');
    SameSlot(s, j, start + draw'(i));
    if k < i {
      SwapDistinct(s, i, j);
      DrawsDecide(Swap(s, i, j), start, i - 1, draw, draw', k);
    }
  }
}
