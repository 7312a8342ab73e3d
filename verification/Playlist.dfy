/** playlist.c and the playing loops of amused.c on values. */
module Playlist {
  import opened Common

  datatype PlayState = Stopped | Playing | Paused

  /** The playing queue and its position; off is -1 when there is none. */
  datatype Queue = Queue(
    songs: seq<string>,
    off: int,
    current: Option<string>,
    state: PlayState,
    repeatOne: bool,
    repeatAll: bool,
    consume: bool
  ) {
    /** The position is in range, and something is current unless stopped. */
    predicate Valid() {
      && -1 <= off < |songs|
      && (state != Stopped ==> current.Some?)
    }

    predicate InRange() {
      -1 <= off < |songs|
    }
  }

  /** playlist_advance */
  function Advance(q: Queue): (r: (Queue, Option<string>))
    requires q.InRange()
    ensures r.0.InRange() && (r.1.Some? ==> r.0.off >= 0 && r.0.songs[r.0.off] == r.1.value)
  {
    if |q.songs| == 0 then (q.(state := Stopped), None)
    else
      var off := q.off + 1;
      if off == |q.songs| && !q.repeatAll then (q.(state := Stopped, off := -1, current := None), None)
      else
        var off' := if off == |q.songs| then 0 else off;
        (q.(off := off', current := Some(q.songs[off']), state := Playing), Some(q.songs[off']))
  }

  /** playlist_previous */
  function Previous(q: Queue): (r: (Queue, Option<string>))
    requires q.InRange()
    ensures r.0.InRange() && (r.1.Some? ==> r.0.off >= 0 && r.0.songs[r.0.off] == r.1.value)
  {
    if |q.songs| == 0 then (q.(state := Stopped), None)
    else
      var off := q.off - 1;
      if off < 0 && !q.repeatAll then (q.(state := Stopped, off := -1, current := None), None)
      else
        var off' := if off < 0 then |q.songs| - 1 else off;
        (q.(off := off', current := Some(q.songs[off']), state := Playing), Some(q.songs[off']))
  }

  /** playlist_dropcurrent */
  function DropCurrent(q: Queue): (r: Queue)
    requires q.InRange()
    ensures r.InRange() && (q.off != -1 ==> |r.songs| == |q.songs| - 1)
  {
    if q.off == -1 || |q.songs| == 0 then q
    else q.(songs := q.songs[..q.off] + q.songs[q.off + 1..], current := None, off := q.off - 1)
  }

  /** playlist_truncate */
  function Truncate(q: Queue): Queue {
    q.(songs := [], off := -1)
  }

  /** The first position of a song, or the length. */
  function IndexOf(songs: seq<string>, song: string): (i: nat)
    ensures i <= |songs| && (i < |songs| ==> songs[i] == song) && song !in songs[..i]
  {
    if songs == [] then 0
    else if songs[0] == song then 0
    else
      var i := 1 + IndexOf(songs[1..], song);
      assert songs[..i] == [songs[0]] + songs[1..][..i - 1];
      i
  }

  /** Where playlist_swap goes in the new list: the offset given, else the current song, else nowhere. */
  function SwapOffset(q: Queue, songs: seq<string>, off: int): int {
    if 0 <= off < |songs| then off
    else if q.current.Some? && IndexOf(songs, q.current.value) < |songs| then IndexOf(songs, q.current.value)
    else -1
  }

  /** playlist_swap */
  function SwapIn(q: Queue, songs: seq<string>, off: int): (r: Queue)
    ensures r.InRange()
  {
    var off' := SwapOffset(q, songs, off);
    var q' := q.(songs := songs, off := off');
    if q.state == Stopped
    then q'.(current := if off' == -1 then None else Some(songs[off']))
    else q'
  }

  /** The first song that satisfies a condition, or the length. */
  function First(songs: seq<string>, ok: string -> bool): (i: nat)
    ensures i <= |songs| && (i < |songs| ==> ok(songs[i])) && forall j :: 0 <= j < i ==> !ok(songs[j])
  {
    if songs == [] then 0 else if ok(songs[0]) then 0 else 1 + First(songs[1..], ok)
  }

  /** playlist_jump, for the songs that contain the argument */
  function Jump(q: Queue, matches: string -> bool): (r: (Queue, Option<string>))
    requires q.InRange()
    ensures r.0.InRange()
  {
    var i := First(q.songs, matches);
    if i == |q.songs| then (q, None)
    else (q.(state := Playing, off := i, current := Some(q.songs[i])), Some(q.songs[i]))
  }

  // ---------- the playing loops; ok says which paths open as regular files ----------

  /** main_playlist_advance; the flag tells whether a song was sent to the player. */
  function PlayAdvance(q: Queue, ok: string -> bool): (r: (Queue, bool))
    requires q.InRange()
    ensures r.0.InRange() && (r.1 ==> r.0.state == Playing && r.0.current.Some?) && (!r.1 ==> r.0.state == Stopped)
    decreases |q.songs|
  {
    var (q', song) := Advance(q);
    if song.None? then (q', false)
    else if ok(song.value) then (q', true)
    else PlayAdvance(DropCurrent(q'), ok)
  }

  /** main_playlist_previous */
  function PlayPrevious(q: Queue, ok: string -> bool): (r: (Queue, bool))
    requires q.InRange()
    ensures r.0.InRange() && (r.1 ==> r.0.state == Playing && r.0.current.Some?) && (!r.1 ==> r.0.state == Stopped)
    decreases |q.songs|
  {
    var (q', song) := Previous(q);
    if song.None? then (q', false)
    else if ok(song.value) then (q', true)
    else PlayPrevious(DropCurrent(q'), ok)
  }

  /** main_playlist_resume */
  function PlayResume(q: Queue, ok: string -> bool): (r: (Queue, bool))
    requires q.InRange()
    ensures r.0.InRange() && (r.1 ==> r.0.state == Playing && r.0.current.Some?) && (!r.1 ==> r.0.state == Stopped)
  {
    if q.current.None? then PlayAdvance(q, ok)
    else if ok(q.current.value) then (q.(state := Playing), true)
    else PlayAdvance(DropCurrent(q), ok)
  }

  // ---------- what advancing means ----------

  /**
   The outcome of advancing, by looking at the list once: the first playable
   song after the position, or from the start when repeating, with exactly the
   unplayable songs on the way removed; or nothing, and the player is stopped.
   */
  function AdvanceTo(q: Queue, ok: string -> bool): (Queue, bool)
    requires q.InRange()
  {
    AdvanceOver(q, q.songs[..q.off + 1], q.songs[q.off + 1..], ok)
  }

  /** The same with the list given in two parts, up to the position and after it. */
  function AdvanceOver(q: Queue, before: seq<string>, after: seq<string>, ok: string -> bool): (Queue, bool) {
    var k := First(after, ok);
    var m := First(before, ok);
    if k < |after| then
      (q.(songs := before + after[k..], off := |before|, current := Some(after[k]), state := Playing), true)
    else if q.repeatAll && m < |before| then
      (q.(songs := before[m..], off := 0, current := Some(before[m]), state := Playing), true)
    else
      (q.(songs := if q.repeatAll then [] else before, off := -1, state := Stopped,
          current := if before == [] && after == [] then q.current else None), false)
  }

  lemma {:induction false} DropNext(q: Queue, i: nat)
    requires q.InRange() && i < |q.songs|
    ensures var d := DropCurrent(q.(off := i));
            && d.songs == q.songs[..i] + q.songs[i + 1..] && d.off == i - 1
            && d.songs[..i] == q.songs[..i] && d.songs[i..] == q.songs[i + 1..]
  {
  }

  /** main_playlist_advance does exactly that. */
  lemma {:induction false} AdvanceFindsNextPlayable(q: Queue, ok: string -> bool)
    requires q.InRange()
    ensures PlayAdvance(q, ok) == AdvanceTo(q, ok)
    decreases |q.songs|
  {
    var (q', song) := Advance(q);
    if song.Some? && !ok(song.value) {
      AdvanceFindsNextPlayable(DropCurrent(q'), ok);
      if q.off + 1 < |q.songs| {
        AfterSkip(q, ok);
      } else {
        WrapSkip(q, ok);
      }
    } else {
      AdvanceAtOnce(q, ok);
    }
  }

  lemma {:induction false} OverNext(q: Queue, before: seq<string>, after: seq<string>, ok: string -> bool)
    requires after != [] && ok(after[0])
    ensures AdvanceOver(q, before, after, ok) ==
            (q.(songs := before + after, off := |before|, current := Some(after[0]), state := Playing), true)
  {
    assert after[0..] == after;
  }

  lemma {:induction false} OverWrap(q: Queue, before: seq<string>, ok: string -> bool)
    requires q.repeatAll && before != [] && ok(before[0])
    ensures AdvanceOver(q, before, [], ok) ==
            (q.(songs := before, off := 0, current := Some(before[0]), state := Playing), true)
  {
    assert before[0..] == before;
  }

  lemma {:induction false} OverNone(q: Queue, before: seq<string>, ok: string -> bool)
    requires before == [] || !q.repeatAll
    ensures AdvanceOver(q, before, [], ok) ==
            (q.(songs := before, off := -1, state := Stopped,
                current := if before == [] then q.current else None), false)
  {
    var none: seq<string> := [];
    assert First(none, ok) == 0;
  }

  lemma {:induction false} Cut(songs: seq<string>, n: nat)
    requires n <= |songs|
    ensures songs[..n] + songs[n..] == songs
    ensures n == |songs| ==> songs[..n] == songs && songs[n..] == []
    ensures n < |songs| ==> songs[n..] != [] && songs[n..][0] == songs[n]
  {
  }

  /** The next song is playable, or there is none. */
  lemma {:induction false} AdvanceAtOnce(q: Queue, ok: string -> bool)
    requires q.InRange()
    requires var song := Advance(q).1; song.Some? ==> ok(song.value)
    ensures (Advance(q).0, Advance(q).1.Some?) == AdvanceTo(q, ok)
  {
    Cut(q.songs, q.off + 1);
    if q.off + 1 < |q.songs| {
      OverNext(q, q.songs[..q.off + 1], q.songs[q.off + 1..], ok);
    } else if q.repeatAll && q.songs != [] {
      OverWrap(q, q.songs, ok);
    } else {
      OverNone(q, q.songs, ok);
    }
  }

  /** Dropping the song advanced to. */
  lemma {:induction false} AfterDrop(q: Queue)
    requires q.InRange() && q.off + 1 < |q.songs|
    ensures var d := DropCurrent(Advance(q).0);
            var songs := q.songs[..q.off + 1] + q.songs[q.off + 2..];
            && d == q.(songs := songs, current := None, state := Playing)
            && songs[..q.off + 1] == q.songs[..q.off + 1]
            && songs[q.off + 1..] == q.songs[q.off + 1..][1..]
  {
    DropNext(q, q.off + 1);
  }

  /** The next song is unplayable: dropping it leaves the same place to go. */
  lemma {:induction false} AfterSkip(q: Queue, ok: string -> bool)
    requires q.InRange() && q.off + 1 < |q.songs| && !ok(q.songs[q.off + 1])
    ensures AdvanceTo(q, ok) == AdvanceTo(DropCurrent(Advance(q).0), ok)
  {
    AfterDrop(q);
    var before, after := q.songs[..q.off + 1], q.songs[q.off + 1..];
    OverSkip(q, before, after, ok);
  }

  /** Skipping an unplayable song that comes next. */
  lemma {:induction false} OverSkip(q: Queue, before: seq<string>, after: seq<string>, ok: string -> bool)
    requires after != [] && !ok(after[0])
    ensures forall songs: seq<string> ::
              AdvanceOver(q.(songs := songs, current := None, state := Playing), before, after[1..], ok)
                == AdvanceOver(q, before, after, ok)
  {
    var k := First(after[1..], ok);
    assert First(after, ok) == k + 1;
    if k < |after[1..]| {
      assert after[k + 1..] == after[1..][k..];
    }
  }

  /** Advancing from before the first song: the first playable one, or nothing is left. */
  function AdvanceFromStart(q: Queue, songs: seq<string>, ok: string -> bool): (Queue, bool) {
    var k := First(songs, ok);
    if k < |songs| then
      (q.(songs := songs[k..], off := 0, current := Some(songs[k]), state := Playing), true)
    else
      (q.(songs := [], off := -1, state := Stopped, current := None), false)
  }

  lemma {:induction false} FromStart(q: Queue, ok: string -> bool)
    requires q.off == -1 && q.repeatAll && (q.songs == [] ==> q.current == None)
    ensures AdvanceTo(q, ok) == AdvanceFromStart(q, q.songs, ok)
  {
    assert q.songs[..0] == [] && q.songs[0..] == q.songs;
    var k := First(q.songs, ok);
    assert [] + q.songs[k..] == q.songs[k..];
  }

  lemma {:induction false} FromEnd(q: Queue, ok: string -> bool)
    requires q.InRange() && q.repeatAll && q.songs != [] && q.off + 1 == |q.songs|
    ensures AdvanceTo(q, ok) == AdvanceFromStart(q, q.songs, ok)
  {
    assert q.songs[..|q.songs|] == q.songs && q.songs[|q.songs|..] == [];
  }

  lemma {:induction false} FirstSkip(q: Queue, songs: seq<string>, ok: string -> bool)
    requires songs != [] && !ok(songs[0])
    ensures AdvanceFromStart(q, songs, ok) == AdvanceFromStart(q, songs[1..], ok)
  {
    var k := First(songs[1..], ok);
    assert First(songs, ok) == k + 1;
    assert songs[1..][k..] == songs[k + 1..];
  }

  /** Dropping the song advanced to from the end of the list. */
  lemma {:induction false} WrapDrop(q: Queue)
    requires q.InRange() && q.repeatAll && q.songs != [] && q.off + 1 == |q.songs|
    ensures DropCurrent(Advance(q).0) == q.(songs := q.songs[1..], off := -1, current := None, state := Playing)
  {
    DropNext(q, 0);
  }

  /** At the end of the list with an unplayable first song: the search goes on behind it. */
  lemma {:induction false} WrapSkip(q: Queue, ok: string -> bool)
    requires q.InRange() && q.repeatAll && q.songs != [] && q.off + 1 == |q.songs| && !ok(q.songs[0])
    ensures AdvanceTo(q, ok) == AdvanceTo(DropCurrent(Advance(q).0), ok)
  {
    WrapDrop(q);
    FromEnd(q, ok);
    FirstSkip(q, q.songs, ok);
    FromStart(q.(songs := q.songs[1..], off := -1, current := None, state := Playing), ok);
  }

  predicate SomeOpens(songs: seq<string>, ok: string -> bool) {
    songs != [] && (ok(songs[0]) || SomeOpens(songs[1..], ok))
  }

  lemma {:induction false} SomeOpensIff(songs: seq<string>, ok: string -> bool)
    ensures SomeOpens(songs, ok) <==> First(songs, ok) < |songs|
  {
    if songs != [] { SomeOpensIff(songs[1..], ok); }
  }

  lemma {:induction false} SomeOpensAppend(a: seq<string>, b: seq<string>, ok: string -> bool)
    ensures SomeOpens(a + b, ok) <==> SomeOpens(a, ok) || SomeOpens(b, ok)
  {
    if a == [] {
      assert a + b == b;
    } else {
      assert (a + b)[0] == a[0] && (a + b)[1..] == a[1..] + b;
      SomeOpensAppend(a[1..], b, ok);
    }
  }

  /** Some song behind the position opens, or any song when repeating. */
  predicate HasNext(q: Queue, ok: string -> bool)
    requires q.InRange()
  {
    SomeOpens(if q.repeatAll then q.songs else q.songs[q.off + 1..], ok)
  }

  /** main_playlist_advance finds a song exactly when there is one to find. */
  lemma {:induction false} AdvanceFindsIff(q: Queue, ok: string -> bool)
    requires q.InRange()
    ensures PlayAdvance(q, ok).1 <==> HasNext(q, ok)
  {
    var before, after := q.songs[..q.off + 1], q.songs[q.off + 1..];
    AdvanceFindsNextPlayable(q, ok);
    SomeOpensIff(before, ok);
    SomeOpensIff(after, ok);
    SomeOpensAppend(before, after, ok);
    Cut(q.songs, q.off + 1);
  }

  // ---------- what going back means ----------

  /** The last song that satisfies a condition, or -1. */
  function Last(songs: seq<string>, ok: string -> bool): (i: int)
    ensures -1 <= i < |songs| && (0 <= i ==> ok(songs[i])) && forall j :: i < j < |songs| ==> !ok(songs[j])
  {
    if songs == [] then -1
    else if ok(songs[|songs| - 1]) then |songs| - 1
    else Last(songs[..|songs| - 1], ok)
  }

  /** Looking at every other song, from p down. */
  function EveryOther(songs: seq<string>, p: int, ok: string -> bool): (i: int)
    requires p < |songs|
    ensures -1 <= i && (0 <= i ==> i <= p)
    decreases p + 2
  {
    if p < 0 then -1 else if ok(songs[p]) then p else EveryOther(songs, p - 2, ok)
  }

  lemma {:induction false} EveryOtherPrefix(a: seq<string>, b: seq<string>, p: int, ok: string -> bool)
    requires p < |a| && p < |b| && forall i :: 0 <= i <= p ==> a[i] == b[i]
    ensures EveryOther(a, p, ok) == EveryOther(b, p, ok)
    decreases p + 2
  {
    if 0 <= p { EveryOtherPrefix(a, b, p - 2, ok); }
  }

  /** main_playlist_previous with the song at p to try next. */
  function LookAt(q: Queue, p: nat, ok: string -> bool): (Queue, bool)
    requires q.InRange() && p < |q.songs|
  {
    var c := q.(off := p, current := Some(q.songs[p]), state := Playing);
    if ok(q.songs[p]) then (c, true) else PlayPrevious(DropCurrent(c), ok)
  }

  /** The song to try first: the one before the position, or the last one. */
  function Before(songs: seq<string>, off: int): int {
    if 0 < off then off - 1 else |songs| - 1
  }

  lemma {:induction false} PreviousLooks(q: Queue, ok: string -> bool)
    requires q.InRange() && q.songs != [] && (0 < q.off || q.repeatAll)
    ensures PlayPrevious(q, ok) == LookAt(q, Before(q.songs, q.off), ok)
  {
    var p := Before(q.songs, q.off);
    assert Previous(q) == (q.(off := p, current := Some(q.songs[p]), state := Playing), Some(q.songs[p]));
  }

  function Drop(songs: seq<string>, p: nat): (r: seq<string>)
    requires p < |songs|
    ensures |r| == |songs| - 1
  {
    songs[..p] + songs[p + 1..]
  }

  /** One song of a round: it is dropped, and the one before it is next to be stepped over. */
  lemma {:induction false} RoundDrops(q: Queue, p: nat, ok: string -> bool) returns (d: Queue)
    requires q.InRange() && p < |q.songs| && !ok(q.songs[p])
    ensures d == q.(songs := Drop(q.songs, p), off := p - 1, current := None, state := Playing) && d.InRange()
    ensures LookAt(q, p, ok) == PlayPrevious(d, ok)
  {
    d := DropCurrent(q.(off := p, current := Some(q.songs[p]), state := Playing));
  }

  /** The list after a round from p down that found e, or none: what was looked at above e has been dropped. */
  function RoundLeaves(songs: seq<string>, e: int, p: int): (r: seq<string>)
    requires -1 <= e && p < |songs|
    ensures |r| <= |songs| && (e < p ==> |r| < |songs|)
    decreases p - e
  {
    if p <= e then songs else RoundLeaves(Drop(songs, p), e, p - 2)
  }

  /** A round in which nothing looked at opens drops all of that and comes to the front of the list. */
  lemma {:induction false} RoundEnds(q: Queue, p: nat, ok: string -> bool) returns (d: Queue)
    requires q.InRange() && p < |q.songs| && EveryOther(q.songs, p, ok) == -1
    ensures d.InRange() && d.off <= 0 && d.songs == RoundLeaves(q.songs, -1, p)
    ensures d == q.(songs := d.songs, off := d.off, current := None, state := Playing)
    ensures LookAt(q, p, ok) == PlayPrevious(d, ok)
    decreases p
  {
    d := RoundDrops(q, p, ok);
    if 1 < p {
      EveryOtherPrefix(d.songs, q.songs, p - 2, ok);
      PreviousLooks(d, ok);
      d := RoundEnds(d, p - 2, ok);
    }
  }

  /** The songs stepped over on the way down from p by twos, until e. */
  function Skipped(songs: seq<string>, e: int, p: int): (r: seq<string>)
    requires -1 <= e <= p < |songs|
    ensures e < 0 ==> p == 2 * |r| || p + 1 == 2 * |r|
    decreases p - e
  {
    if p <= e + 1 then [] else Skipped(songs, e, p - 2) + [songs[p - 1]]
  }

  lemma {:induction false} SkippedPrefix(a: seq<string>, b: seq<string>, e: int, p: int)
    requires -1 <= e <= p < |a| && p < |b| && forall i :: 0 <= i <= p ==> a[i] == b[i]
    ensures Skipped(a, e, p) == Skipped(b, e, p)
    decreases p - e
  {
    if e + 1 < p { SkippedPrefix(a, b, e, p - 2); }
  }

  /** Seen at once: what lies up to e, what was stepped over, and what lies behind p. */
  function LeftAtOnce(songs: seq<string>, e: int, p: int): seq<string>
    requires -1 <= e <= p < |songs|
  {
    songs[..e + 1] + Skipped(songs, e, p) + songs[p + 1..]
  }

  lemma {:induction false} RoundLeavesIs(songs: seq<string>, e: int, p: int, k: nat)
    requires -1 <= e <= p < |songs| && (0 <= e ==> p == e + 2 * k)
    ensures RoundLeaves(songs, e, p) == LeftAtOnce(songs, e, p)
    decreases p - e
  {
    if p == e {
      LeavesNone(songs, e);
    } else if p == e + 1 {
      LeavesOne(songs);
    } else {
      RoundLeavesIs(Drop(songs, p), e, p - 2, if k == 0 then 0 else k - 1);
      LeavesStep(songs, e, p);
    }
  }

  lemma {:induction false} LeavesNone(songs: seq<string>, e: int)
    requires -1 <= e < |songs|
    ensures LeftAtOnce(songs, e, e) == songs
  {
  }

  lemma {:induction false} LeavesOne(songs: seq<string>)
    requires songs != []
    ensures LeftAtOnce(songs, -1, 0) == Drop(songs, 0)
  {
  }

  /** One song more has been dropped, and one more stepped over. */
  lemma {:induction false} LeavesStep(songs: seq<string>, e: int, p: nat)
    requires -1 <= e <= p - 2 && p < |songs|
    ensures LeftAtOnce(Drop(songs, p), e, p - 2) == LeftAtOnce(songs, e, p)
  {
    SkippedPrefix(Drop(songs, p), songs, e, p - 2);
    DropParts(songs, e, p);
    RegroupFour(songs[..e + 1], Skipped(songs, e, p - 2), [songs[p - 1]], songs[p + 1..]);
  }

  lemma {:induction false} DropParts(songs: seq<string>, e: int, p: nat)
    requires -1 <= e < p - 1 && p < |songs|
    ensures var d := Drop(songs, p);
            d[..e + 1] == songs[..e + 1] && d[p - 1..] == [songs[p - 1]] + songs[p + 1..]
  {
  }

  lemma {:induction false} RegroupFour<T>(a: seq<T>, b: seq<T>, c: seq<T>, d: seq<T>)
    ensures a + b + (c + d) == a + (b + c) + d
  {
  }

  /** How a search ends: the list, the position and the song, if there is one. */
  datatype Look = Look(songs: seq<string>, off: int, current: Option<string>)

  /** The queue and the flag of main_playlist_previous then. */
  function Finish(q: Queue, l: Look): (Queue, bool) {
    (q.(songs := l.songs, off := l.off, current := l.current, state := if l.current.Some? then Playing else Stopped),
     l.current.Some?)
  }

  lemma {:induction false} FinishAlike(q: Queue, d: Queue, l: Look)
    requires d == q.(songs := d.songs, off := d.off, current := d.current, state := d.state)
    ensures Finish(d, l) == Finish(q, l)
  {
  }

  /** Looking at every other song from p down; repeating, then from the end of what is left, round after round. */
  function LookBack(songs: seq<string>, p: int, repeat: bool, ok: string -> bool): Look
    requires -1 <= p < |songs|
    decreases |songs|
  {
    var e := EveryOther(songs, p, ok);
    var rest := RoundLeaves(songs, e, p);
    if 0 <= e then Look(rest, e, Some(songs[e]))
    else if p < 0 || !repeat || rest == [] then Look(rest, -1, None)
    else LookBack(rest, |rest| - 1, repeat, ok)
  }

  lemma {:induction false} LookBackFinds(songs: seq<string>, p: nat, repeat: bool, ok: string -> bool)
    requires p < |songs| && 0 <= EveryOther(songs, p, ok)
    ensures var e := EveryOther(songs, p, ok);
            LookBack(songs, p, repeat, ok) == Look(RoundLeaves(songs, e, p), e, Some(songs[e]))
  {
  }

  lemma {:induction false} LookBackFails(songs: seq<string>, p: nat, repeat: bool, ok: string -> bool)
    requires p < |songs| && EveryOther(songs, p, ok) == -1
    ensures var rest := RoundLeaves(songs, -1, p);
            LookBack(songs, p, repeat, ok) ==
            if !repeat || rest == [] then Look(rest, -1, None) else LookBack(rest, |rest| - 1, repeat, ok)
  {
  }

  /** The rest of a round, after the song at p. */
  lemma {:induction false} RoundGoesOn(songs: seq<string>, p: nat, ok: string -> bool)
    requires p < |songs| && !ok(songs[p]) && 0 <= EveryOther(songs, p, ok)
    ensures var d, e := Drop(songs, p), EveryOther(songs, p, ok);
            && 1 < p && EveryOther(d, p - 2, ok) == e && d[e] == songs[e]
            && RoundLeaves(songs, e, p) == RoundLeaves(d, e, p - 2)
  {
    EveryOtherPrefix(Drop(songs, p), songs, p - 2, ok);
  }

  /** A round that finds a song. */
  lemma {:induction false} FoundInRound(q: Queue, p: nat, ok: string -> bool)
    requires q.InRange() && p < |q.songs| && 0 <= EveryOther(q.songs, p, ok)
    ensures var e := EveryOther(q.songs, p, ok);
            LookAt(q, p, ok) == Finish(q, Look(RoundLeaves(q.songs, e, p), e, Some(q.songs[e])))
    decreases p
  {
    if !ok(q.songs[p]) {
      RoundGoesOn(q.songs, p, ok);
      var c := RoundDrops(q, p, ok);
      PreviousLooks(c, ok);
      FoundInRound(c, p - 2, ok);
    }
  }

  /** At the front of the list without a song to go back to. */
  lemma {:induction false} PreviousStops(q: Queue, ok: string -> bool)
    requires q.InRange() && q.off <= 0 && (!q.repeatAll || q.songs == [])
    ensures PlayPrevious(q, ok)
         == (q.(off := -1, state := Stopped, current := if q.songs == [] then q.current else None), false)
  {
    assert Previous(q).1 == None;
  }

  /** After a round in which nothing opens: that is the end, or the next one begins. */
  lemma {:induction false} NextRound(q: Queue, p: nat, ok: string -> bool) returns (d: Queue)
    requires q.InRange() && p < |q.songs| && EveryOther(q.songs, p, ok) == -1
    ensures d.InRange() && d.songs == RoundLeaves(q.songs, -1, p)
    ensures d == q.(songs := d.songs, off := d.off, current := None, state := Playing)
    ensures if !q.repeatAll || d.songs == [] then LookAt(q, p, ok) == Finish(q, Look(d.songs, -1, None))
            else LookAt(q, p, ok) == LookAt(d, |d.songs| - 1, ok)
  {
    d := RoundEnds(q, p, ok);
    if !q.repeatAll || d.songs == [] { PreviousStops(d, ok); } else { PreviousLooks(d, ok); }
  }

  lemma {:induction false} LookAtLooksBack(q: Queue, p: nat, ok: string -> bool, l: Look)
    requires q.InRange() && p < |q.songs| && l == LookBack(q.songs, p, q.repeatAll, ok)
    ensures LookAt(q, p, ok) == Finish(q, l)
    decreases |q.songs|
  {
    if 0 <= EveryOther(q.songs, p, ok) {
      FoundInRound(q, p, ok);
      LookBackFinds(q.songs, p, q.repeatAll, ok);
    } else {
      var d := NextRound(q, p, ok);
      LookBackFails(q.songs, p, q.repeatAll, ok);
      if q.repeatAll && d.songs != [] {
        LookAtLooksBack(d, |d.songs| - 1, ok, l);
        FinishAlike(q, d, l);
      }
    }
  }

  /** The outcome of going back, on the list alone. */
  function PreviousTo(q: Queue, ok: string -> bool): (Queue, bool)
    requires q.InRange()
  {
    if q.songs == [] then (q.(state := Stopped), false)
    else if q.off <= 0 && !q.repeatAll then (q.(state := Stopped, off := -1, current := None), false)
    else Finish(q, LookBack(q.songs, Before(q.songs, q.off), q.repeatAll, ok))
  }

  /** main_playlist_previous does exactly that, in both modes. */
  lemma {:induction false} PreviousLooksBack(q: Queue, ok: string -> bool)
    requires q.InRange()
    ensures PlayPrevious(q, ok) == PreviousTo(q, ok)
  {
    if q.songs == [] || (q.off <= 0 && !q.repeatAll) {
      PreviousStops(q, ok);
    } else {
      PreviousLooks(q, ok);
      var p := Before(q.songs, q.off);
      LookAtLooksBack(q, p, ok, LookBack(q.songs, p, q.repeatAll, ok));
    }
  }

  /** In both modes it ends at the first song that opens among every other one before the position. */
  lemma {:induction false} PreviousLooksAtEveryOther(q: Queue, ok: string -> bool)
    requires q.InRange() && 0 <= q.off
    ensures var e := EveryOther(q.songs, q.off - 1, ok);
            && (0 <= e ==> var r := PlayPrevious(q, ok); r.1 && r.0.off == e && r.0.current == Some(q.songs[e]))
            && (e == -1 && !q.repeatAll ==> PlayPrevious(q, ok).0.off == -1)
  {
    PreviousLooksBack(q, ok);
    if 0 < q.off {
      if 0 <= EveryOther(q.songs, q.off - 1, ok) {
        LookBackFinds(q.songs, q.off - 1, q.repeatAll, ok);
      } else {
        LookBackFails(q.songs, q.off - 1, q.repeatAll, ok);
      }
    }
  }

  /** So it finds a song whenever there is one to find. */
  lemma {:induction false} PreviousFindsSomeIff(q: Queue, ok: string -> bool)
    requires q.InRange() && q.repeatAll
    ensures PlayPrevious(q, ok).1 <==> 0 <= Last(q.songs, ok)
    decreases |q.songs|
  {
    var (q', song) := Previous(q);
    if song.Some? && !ok(song.value) {
      var d := DropCurrent(q');
      PreviousFindsSomeIff(d, ok);
      LastDropped(q.songs, q'.off, ok);
    } else if song.Some? {
      assert ok(q.songs[q'.off]);
    }
  }

  lemma {:induction false} LastDropped(songs: seq<string>, p: nat, ok: string -> bool)
    requires p < |songs| && !ok(songs[p])
    ensures 0 <= Last(songs[..p] + songs[p + 1..], ok) <==> 0 <= Last(songs, ok)
  {
    var d := songs[..p] + songs[p + 1..];
    var i, j := Last(songs, ok), Last(d, ok);
    if 0 <= i { assert ok(d[if i < p then i else i - 1]); }
    if 0 <= j { assert ok(songs[if j < p then j else j + 1]); }
  }

  lemma {:induction false} EveryOtherBehind(front: seq<string>, songs: seq<string>, p: int, ok: string -> bool)
    requires p < |songs| && 0 <= EveryOther(songs, p, ok)
    ensures EveryOther(front + songs, |front| + p, ok) == |front| + EveryOther(songs, p, ok)
    decreases p + 2
  {
    if 0 <= p && !ok(songs[p]) { EveryOtherBehind(front, songs, p - 2, ok); }
  }

  lemma {:induction false} FindsBehind(front: seq<string>, after: seq<string>, ok: string -> bool)
    requires after != [] && 0 <= EveryOther(after, |after| - 1, ok)
    ensures var w := EveryOther(after, |after| - 1, ok);
            var l := LookBack(front + after, |front + after| - 1, true, ok);
            l.off == |front| + w && l.current == Some(after[w])
  {
    EveryOtherBehind(front, after, |after| - 1, ok);
    LookBackFinds(front + after, |front + after| - 1, true, ok);
  }

  lemma {:induction false} RoundLeavesBehind(before: seq<string>, after: seq<string>)
    requires before != []
    ensures RoundLeaves(before + after, -1, |before| - 1) == Skipped(before, -1, |before| - 1) + after
  {
    RoundLeavesIs(before + after, -1, |before| - 1, 0);
    SkippedPrefix(before, before + after, -1, |before| - 1);
    assert (before + after)[|before|..] == after;
    assert [] + Skipped(before, -1, |before| - 1) == Skipped(before, -1, |before| - 1);
  }

  /** The first round drops what it looked at, and the next one begins at the end of what is left. */
  lemma {:induction false} SecondRound(before: seq<string>, after: seq<string>, ok: string -> bool)
    requires before != [] && after != [] && EveryOther(before, |before| - 1, ok) == -1
    ensures var rest := Skipped(before, -1, |before| - 1) + after;
            LookBack(before + after, |before| - 1, true, ok) == LookBack(rest, |rest| - 1, true, ok)
  {
    EveryOtherPrefix(before, before + after, |before| - 1, ok);
    LookBackFails(before + after, |before| - 1, true, ok);
    RoundLeavesBehind(before, after);
  }

  /** A search that ends at the w-th of the songs after, when left are before them. */
  predicate EndsBehind(l: Look, left: nat, after: seq<string>, w: int) {
    0 <= w < |after| && l.off == left + w && l.current == Some(after[w])
  }

  lemma {:induction false} WrapsAtOnce(songs: seq<string>, ok: string -> bool, l: Look)
    requires songs != [] && 0 <= EveryOther(songs, |songs| - 1, ok)
    requires l == LookBack(songs, |songs| - 1, true, ok)
    ensures EndsBehind(l, 0, songs, EveryOther(songs, |songs| - 1, ok))
  {
    LookBackFinds(songs, |songs| - 1, true, ok);
  }

  /** When none of those before the position opens, the search goes on from the end, and half of those are gone. */
  lemma {:induction false} WrapsLater(before: seq<string>, after: seq<string>, ok: string -> bool, l: Look)
    requires before != [] && EveryOther(before, |before| - 1, ok) == -1
    requires after != [] && 0 <= EveryOther(after, |after| - 1, ok)
    requires l == LookBack(before + after, |before| - 1, true, ok)
    ensures EndsBehind(l, |Skipped(before, -1, |before| - 1)|, after, EveryOther(after, |after| - 1, ok))
  {
    FindsBehind(Skipped(before, -1, |before| - 1), after, ok);
    SecondRound(before, after, ok);
  }

  lemma {:induction false} PreviousRepeats(q: Queue, ok: string -> bool) returns (l: Look)
    requires q.InRange() && q.repeatAll && q.songs != []
    ensures l == LookBack(q.songs, Before(q.songs, q.off), true, ok)
    ensures PlayPrevious(q, ok) == Finish(q, l)
  {
    PreviousLooksBack(q, ok);
    l := LookBack(q.songs, Before(q.songs, q.off), true, ok);
  }

  /** And so does main_playlist_previous, repeating. */
  lemma {:induction false} PreviousWraps(q: Queue, before: seq<string>, after: seq<string>, ok: string -> bool)
    requires q.InRange() && q.repeatAll && q.songs == before + after && q.off == |before|
    requires EveryOther(before, |before| - 1, ok) == -1 && 0 <= EveryOther(after, |after| - 1, ok)
    ensures var w := EveryOther(after, |after| - 1, ok);
            var r := PlayPrevious(q, ok).0;
            r.off == |Skipped(before, -1, |before| - 1)| + w && r.current == Some(after[w])
  {
    var l := PreviousRepeats(q, ok);
    WrapsSomewhere(q.songs, before, after, ok, l);
  }

  lemma {:induction false} NothingBefore(songs: seq<string>, before: seq<string>, after: seq<string>)
    requires songs == before + after && before == []
    ensures songs == after
  {
  }

  lemma {:induction false} WrapsSomewhere(songs: seq<string>, before: seq<string>, after: seq<string>,
      ok: string -> bool, l: Look)
    requires songs == before + after && after != []
    requires EveryOther(before, |before| - 1, ok) == -1 && 0 <= EveryOther(after, |after| - 1, ok)
    requires l == LookBack(songs, Before(songs, |before|), true, ok)
    ensures EndsBehind(l, |Skipped(before, -1, |before| - 1)|, after, EveryOther(after, |after| - 1, ok))
  {
    if before == [] {
      NothingBefore(songs, before, after);
      WrapsAtOnce(after, ok, l);
    } else {
      WrapsLater(before, after, ok, l);
    }
  }

  lemma {:induction false} LastAt(songs: seq<string>, p: nat, ok: string -> bool)
    requires p < |songs|
    ensures Last(songs[..p + 1], ok) == if ok(songs[p]) then p else Last(songs[..p], ok)
  {
    assert songs[..p + 1][..p] == songs[..p];
  }

  lemma {:induction false} EveryOtherIsLastIff(songs: seq<string>, p: nat, ok: string -> bool)
    requires p < |songs|
    ensures var last := Last(songs[..p + 1], ok);
            EveryOther(songs, p, ok) == last <==> last == -1 || (p - last) % 2 == 0
  {
    LastAt(songs, p, ok);
    if !ok(songs[p]) && 0 < p {
      LastAt(songs, p - 1, ok);
      if 1 < p { EveryOtherIsLastIff(songs, p - 2, ok); }
    }
  }

  /**
   main_playlist_previous ends at the nearest playable song before the position
   exactly when there is none or that song is an odd number of songs away, in both
   modes, unless the list repeats and no song looked at before the position opens.
   Then it does what a search from the end of what is left does.
   */
  lemma {:induction false} PreviousFindsNearestIff(q: Queue, ok: string -> bool)
    requires q.InRange() && 0 <= q.off
    ensures var nearest := Last(q.songs[..q.off], ok);
            var rest := RoundLeaves(q.songs, -1, q.off - 1);
            if q.repeatAll && EveryOther(q.songs, q.off - 1, ok) == -1
            then PlayPrevious(q, ok) == Finish(q, LookBack(rest, |rest| - 1, true, ok))
            else PlayPrevious(q, ok).0.off == nearest <==> nearest == -1 || (q.off - nearest) % 2 == 1
  {
    if q.repeatAll && EveryOther(q.songs, q.off - 1, ok) == -1 {
      PreviousFromEnd(q, ok);
    } else {
      PreviousLooksAtEveryOther(q, ok);
      EveryOtherFindsLastIff(q.songs, q.off, ok);
    }
  }

  lemma {:induction false} PreviousFromEnd(q: Queue, ok: string -> bool)
    requires q.InRange() && 0 <= q.off && q.repeatAll && EveryOther(q.songs, q.off - 1, ok) == -1
    ensures var rest := RoundLeaves(q.songs, -1, q.off - 1);
            PlayPrevious(q, ok) == Finish(q, LookBack(rest, |rest| - 1, true, ok))
  {
    PreviousLooksBack(q, ok);
    FromEndTo(q, ok);
  }

  lemma {:induction false} FromEndTo(q: Queue, ok: string -> bool)
    requires q.InRange() && 0 <= q.off && q.repeatAll && EveryOther(q.songs, q.off - 1, ok) == -1
    ensures var rest := RoundLeaves(q.songs, -1, q.off - 1);
            PreviousTo(q, ok) == Finish(q, LookBack(rest, |rest| - 1, true, ok))
  {
    if 0 < q.off {
      LookBackFails(q.songs, q.off - 1, true, ok);
    }
  }

  /** In both modes a nearest playable song an odd number of songs away is found. */
  lemma {:induction false} PreviousFindsOdd(q: Queue, ok: string -> bool)
    requires q.InRange() && 0 <= q.off
    requires var nearest := Last(q.songs[..q.off], ok); 0 <= nearest && (q.off - nearest) % 2 == 1
    ensures var r := PlayPrevious(q, ok); r.1 && r.0.off == Last(q.songs[..q.off], ok)
  {
    PreviousLooksAtEveryOther(q, ok);
    EveryOtherFindsLastIff(q.songs, q.off, ok);
  }

  /**
   Repeating, with nothing playable before the position: it ends at the playable
   song nearest to the end exactly when that is an odd number of songs before it,
   if any song looked at on the way back to the position opens.
   */
  lemma {:induction false} PreviousWrapsToNearestIff(q: Queue, before: seq<string>, after: seq<string>,
      ok: string -> bool)
    requires q.InRange() && q.repeatAll && q.songs == before + after && q.off == |before|
    requires Last(before, ok) == -1 && 0 <= EveryOther(after, |after| - 1, ok)
    ensures var nearest := Last(after, ok);
            PlayPrevious(q, ok).0.off == |Skipped(before, -1, |before| - 1)| + nearest <==>
              (|after| - nearest) % 2 == 1
  {
    EveryOtherBelowLast(before, |before| - 1, ok);
    PreviousWraps(q, before, after, ok);
    FromEndIff(after, ok);
  }

  lemma {:induction false} FromEndIff(songs: seq<string>, ok: string -> bool)
    requires 0 <= EveryOther(songs, |songs| - 1, ok)
    ensures EveryOther(songs, |songs| - 1, ok) == Last(songs, ok) <==> (|songs| - Last(songs, ok)) % 2 == 1
  {
    assert songs[..|songs|] == songs;
    EveryOtherFindsLastIff(songs, |songs|, ok);
    EveryOtherBelowLast(songs, |songs| - 1, ok);
  }

  lemma {:induction false} EveryOtherBelowLast(songs: seq<string>, p: int, ok: string -> bool)
    requires p < |songs|
    ensures EveryOther(songs, p, ok) <= Last(songs, ok)
    decreases p + 2
  {
    if 0 <= p {
      if ok(songs[p]) { assert !(Last(songs, ok) < p); } else { EveryOtherBelowLast(songs, p - 2, ok); }
    }
  }

  lemma {:induction false} EveryOtherFindsLastIff(songs: seq<string>, off: nat, ok: string -> bool)
    requires off <= |songs|
    ensures var last := Last(songs[..off], ok);
            EveryOther(songs, off - 1, ok) == last <==> last == -1 || (off - last) % 2 == 1
  {
    if 0 < off {
      EveryOtherIsLastIff(songs, off - 1, ok);
      Parity(off - Last(songs[..off], ok));
    }
  }

  lemma {:induction false} Parity(d: int)
    ensures (d - 1) % 2 == 0 <==> d % 2 == 1
  {
  }

  /**
   The third of three songs plays, the second does not open: going back skips the
   first, which does. It stops, or with repeat all comes back to the third.
   */
  lemma {:induction false} PreviousSkips(q: Queue, ok: string -> bool)
    requires q.songs == ["x", "y", "z"] && q.off == 2 && ok("x") && !ok("y") && ok("z")
    ensures !q.repeatAll ==> PlayPrevious(q, ok).0.off == -1
    ensures q.repeatAll ==> PlayPrevious(q, ok).0.current == Some("z")
  {
    PreviousLooksAtEveryOther(q, ok);
    if q.repeatAll {
      PreviousWraps(q, ["x", "y"], ["z"], ok);
    }
  }
}
