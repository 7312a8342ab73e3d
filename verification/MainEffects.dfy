/**
 What each request of a client and each message of the player leads to: which song is
 current, what the list is and what goes to the player, by looking at the list once,
 and what that means over whole runs of ends of tracks.
 */
module MainEffects {
  import opened Common
  import opened Playlist
  import opened Daemon
  import Shuffle

  /** The new queue and what has been sent; the lock, the staged list and the connections stay. */
  ghost predicate LeadsTo(m: Main, q: Queue, cmds: seq<Cmd>, m': Main) {
    m'.q == q && m'.sent == m.sent + cmds && m'.tx == m.tx && m'.staged == m.staged && m'.conns == m.conns
  }

  function PlayIf(found: bool): seq<Cmd> {
    if found then [Play] else []
  }

  /** The song at the position goes, and the first behind it that opens is next; with none there it is just the next. */
  function SkipTo(q: Queue, ok: string -> bool): (Queue, bool)
    requires q.InRange()
  {
    if q.off == -1 then AdvanceTo(q, ok)
    else AdvanceOver(q.(current := None), q.songs[..q.off], q.songs[q.off + 1..], ok)
  }

  lemma {:induction false} DropAdvances(q: Queue, ok: string -> bool)
    requires q.InRange()
    ensures PlayAdvance(DropCurrent(q), ok) == SkipTo(q, ok)
  {
    AdvanceFindsNextPlayable(DropCurrent(q), ok);
    if q.off != -1 {
      DropParts(q);
      SameOver(DropCurrent(q), q, q.songs[..q.off], q.songs[q.off + 1..], ok);
    }
  }

  lemma {:induction false} DropParts(q: Queue)
    requires q.InRange() && q.off != -1
    ensures var d := DropCurrent(q);
            && d.off + 1 == q.off && d == q.(songs := d.songs, off := d.off, current := None)
            && d.songs[..q.off] == q.songs[..q.off] && d.songs[q.off..] == q.songs[q.off + 1..]
  {
  }

  lemma {:induction false} SameOver(d: Queue, q: Queue, before: seq<string>, after: seq<string>, ok: string -> bool)
    requires d == q.(songs := d.songs, off := d.off, current := None)
    ensures AdvanceOver(d, before, after, ok) == AdvanceOver(q.(current := None), before, after, ok)
  {
  }

  /** The current song starts if it opens, and goes if it does not; with none it is just the next. */
  function ResumeTo(q: Queue, ok: string -> bool): (Queue, bool)
    requires q.InRange()
  {
    if q.current.None? then AdvanceTo(q, ok)
    else if ok(q.current.value) then (q.(state := Playing), true)
    else SkipTo(q, ok)
  }

  lemma {:induction false} ResumeLeads(q: Queue, ok: string -> bool)
    requires q.InRange()
    ensures PlayResume(q, ok) == ResumeTo(q, ok)
  {
    AdvanceFindsNextPlayable(q, ok);
    DropAdvances(q, ok);
  }

  // ---------- messages of the player ----------

  /** The end of a track repeats it. */
  predicate Repeats(q: Queue, ok: string -> bool) {
    q.repeatOne && q.current.Some? && ok(q.current.value)
  }

  /** At the end of a track: the same song again, the next one, or the next one with this one gone. */
  lemma {:induction false} EndOfTrack(m: Main, env: Env)
    requires m.q.InRange()
    ensures var m', ok := HandlePlayer(m, Eof, env), env.ok;
            if Repeats(m.q, ok) then LeadsTo(m, m.q.(state := Playing), [Play], m')
            else if m.q.repeatOne || m.q.consume then LeadsTo(m, SkipTo(m.q, ok).0, PlayIf(SkipTo(m.q, ok).1), m')
            else LeadsTo(m, AdvanceTo(m.q, ok).0, PlayIf(AdvanceTo(m.q, ok).1), m')
  {
    AdvanceFindsNextPlayable(m.q, env.ok);
    DropAdvances(m.q, env.ok);
  }

  /** A track that failed goes, whatever the modes; a report changes nothing. */
  lemma {:induction false} TrackFailed(m: Main, env: Env)
    requires m.q.InRange()
    ensures LeadsTo(m, SkipTo(m.q, env.ok).0, PlayIf(SkipTo(m.q, env.ok).1), HandlePlayer(m, Error, env))
    ensures HandlePlayer(m, Meta, env) == m
  {
    DropAdvances(m.q, env.ok);
  }

  // ---------- requests that start, hold or stop a song ----------

  /** Next and previous stop the player, and start the song found. */
  lemma {:induction false} NextAndPrevious(m: Main, fd: int, env: Env)
    requires m.q.InRange()
    ensures var next, prev := AdvanceTo(m.q, env.ok), PreviousTo(m.q, env.ok);
            && LeadsTo(m, next.0, [Stop] + PlayIf(next.1), HandleClient(m, fd, CtlNext, env).0)
            && LeadsTo(m, prev.0, [Stop] + PlayIf(prev.1), HandleClient(m, fd, CtlPrev, env).0)
            && HandleClient(m, fd, CtlNext, env).1 == HandleClient(m, fd, CtlPrev, env).1 == []
  {
    AdvanceFindsNextPlayable(m.q, env.ok);
    PreviousLooksBack(m.q, env.ok);
    AppendAssoc(m.sent, [Stop], PlayIf(AdvanceTo(m.q, env.ok).1));
    AppendAssoc(m.sent, [Stop], PlayIf(PreviousTo(m.q, env.ok).1));
  }

  /** Play, toggle, pause and stop, in each state; songs, position and current song stay unless something is resumed. */
  lemma {:induction false} PlayAndPause(m: Main, fd: int, env: Env)
    requires m.q.InRange()
    ensures var r := ResumeTo(m.q, env.ok);
            var playing, paused, stopped := m.q.(state := Playing), m.q.(state := Paused), m.q.(state := Stopped);
            var play, toggle := HandleClient(m, fd, CtlPlay, env), HandleClient(m, fd, CtlToggle, env);
            var pause, stop := HandleClient(m, fd, CtlPause, env), HandleClient(m, fd, CtlStop, env);
            && play.1 == toggle.1 == pause.1 == stop.1 == []
            && (m.q.state == Stopped ==>
                  LeadsTo(m, r.0, PlayIf(r.1), play.0) && toggle.0 == play.0 && pause.0 == m && stop.0 == m)
            && (m.q.state == Playing ==>
                  && play.0 == m && LeadsTo(m, paused, [Pause], toggle.0)
                  && pause.0 == toggle.0 && LeadsTo(m, stopped, [Stop], stop.0))
            && (m.q.state == Paused ==>
                  && LeadsTo(m, playing, [Resume], play.0) && toggle.0 == play.0
                  && pause.0 == m && LeadsTo(m, stopped, [Stop], stop.0))
  {
    ResumeLeads(m.q, env.ok);
  }

  /** Seeking starts what play would start, and always reaches the player. */
  lemma {:induction false} SeekLeads(m: Main, fd: int, env: Env)
    requires m.q.InRange()
    ensures var r := ResumeTo(m.q, env.ok);
            var (m', replies) := HandleClient(m, fd, CtlSeek(true), env);
            && replies == [] && HandleClient(m, fd, CtlSeek(false), env) == (m, [Err("wrong size")])
            && if m.q.state == Stopped then LeadsTo(m, r.0, PlayIf(r.1) + [Seek], m')
               else LeadsTo(m, m.q.(state := Playing), [Seek], m')
  {
    if m.q.state == Stopped {
      ResumeLeads(m.q, env.ok);
      AppendAssoc(m.sent, PlayIf(ResumeTo(m.q, env.ok).1), [Seek]);
    }
  }

  /** A song that matches becomes current; one that does not open goes, with an error, and the next one starts. */
  lemma {:induction false} JumpLeads(m: Main, fd: int, path: string, env: Env)
    requires m.q.InRange()
    ensures var k := First(m.q.songs, env.matches);
            var (m', replies) := HandleClient(m, fd, CtlJump(Path(path)), env);
            if k == |m.q.songs| then m' == m && replies == [Err("not found")]
            else
              var there := m.q.(off := k, current := Some(m.q.songs[k]), state := Playing);
              if env.ok(m.q.songs[k]) then
                LeadsTo(m, there, [Stop, Play], m') &&
                replies == [StatusOf(Some(m.q.songs[k]), Playing, m.q.repeatOne, m.q.repeatAll, m.q.consume)]
              else
                LeadsTo(m, SkipTo(there, env.ok).0, [Stop] + PlayIf(SkipTo(there, env.ok).1), m') &&
                replies == [Err("can't play")]
  {
    var k := First(m.q.songs, env.matches);
    if k < |m.q.songs| {
      var there := m.q.(off := k, current := Some(m.q.songs[k]), state := Playing);
      DropAdvances(there, env.ok);
      AppendAssoc(m.sent, [Stop], PlayIf(SkipTo(there, env.ok).1));
      AppendAssoc(m.sent, [Stop], [Play]);
      assert [Stop] + [Play] == [Stop, Play];
    }
  }

  // ---------- requests about the list and the modes ----------

  /** One switch: left, turned over, or set. */
  predicate Switched(before: bool, arg: int, after: bool) {
    if arg == MODE_UNDEF then after == before
    else if arg == MODE_TOGGLE then after == !before
    else after <==> arg != 0
  }

  /** The three switches; nothing else, and a request of the wrong size does nothing. */
  lemma {:induction false} ModeLeads(m: Main, fd: int, mode: Mode, env: Env)
    requires m.q.InRange()
    ensures var (m', replies) := HandleClient(m, fd, CtlMode(Some(mode)), env);
            && LeadsTo(m, m'.q, [], m') && replies == []
            && m'.q.songs == m.q.songs && m'.q.off == m.q.off && m'.q.current == m.q.current
            && m'.q.state == m.q.state
            && Switched(m.q.repeatOne, mode.repeatOne, m'.q.repeatOne)
            && Switched(m.q.repeatAll, mode.repeatAll, m'.q.repeatAll)
            && Switched(m.q.consume, mode.consume, m'.q.consume)
    ensures HandleClient(m, fd, CtlMode(None), env) == (m, [])
  {
    assert m.sent + [] == m.sent;
  }

  /** The list is gone and there is no position, while what plays goes on playing. */
  lemma {:induction false} FlushLeads(m: Main, fd: int, env: Env)
    requires m.q.InRange()
    ensures var (m', replies) := HandleClient(m, fd, CtlFlush, env);
            LeadsTo(m, m.q.(songs := m'.q.songs, off := m'.q.off), [], m') && m'.q.songs == [] && m'.q.off == -1
            && replies == []
  {
    assert m.sent + [] == m.sent;
  }

  /** Outside a transaction a path goes to the end of the list, and the position stays. */
  lemma {:induction false} AddLeads(m: Main, fd: int, path: string, env: Env)
    requires m.q.InRange() && m.tx == NO_TX
    ensures var (m', replies) := HandleClient(m, fd, CtlAdd(Path(path)), env);
            && LeadsTo(m, m.q.(songs := m.q.songs + [path]), [], m') && replies == [AddOk(path)]
            && HandleClient(m, fd, CtlAdd(WrongSize), env) == (m, [Err("data size mismatch")])
            && HandleClient(m, fd, CtlAdd(NotTerminated), env) == (m, [Err("malformed data")])
  {
    assert m.sent + [] == m.sent;
  }

  /** The owner of a transaction stages its paths behind each other, and the list stays. */
  lemma {:induction false} StageLeads(m: Main, fd: int, path: string, env: Env)
    requires m.q.InRange() && m.tx == fd && fd != NO_TX
    ensures var (m', replies) := HandleClient(m, fd, CtlAdd(Path(path)), env);
            replies == [AddOk(path)] && m' == m.(staged := m.staged + [path])
    ensures HandleClient(m, fd, CtlCommit(None), env) == (m, [Err("wrong size")])
    ensures HandleClient(m, fd, CtlShuffle(None), env) == (m, [Err("wrong size")])
  {
  }

  /** A transaction begins only when there is none, and is then the one of that connection. */
  lemma {:induction false} BeginLeads(m: Main, fd: int, env: Env)
    requires m.q.InRange()
    ensures HandleClient(m, fd, CtlBegin, env) ==
            if m.tx == NO_TX then (m.(tx := fd), [BeginOk]) else (m, [Err("locked")])
    ensures HandleClient(m, fd, CtlMonitor, env) == HandleClient(m, fd, CtlUnknown, env) == (m, [])
  {
  }

  /** The position a new list is entered at: the one asked for, else the first of the current song, else none. */
  predicate Enters(q: Queue, songs: seq<string>, off: int, at: int) {
    && -1 <= at < |songs|
    && (0 <= off < |songs| ==> at == off)
    && (!(0 <= off < |songs|) ==>
          if at == -1 then q.current.None? || q.current.value !in songs
          else Some(songs[at]) == q.current && songs[at] !in songs[..at])
  }

  /** A commit: the staged songs are the list; while a song plays or is held it stays the current one. */
  lemma {:induction false} CommitLeads(m: Main, fd: int, off: int, env: Env)
    requires m.q.InRange() && m.tx == fd
    ensures var (m', replies) := HandleClient(m, fd, CtlCommit(Some(off)), env);
            && replies == [CommitOk] && m'.sent == m.sent && m'.conns == m.conns
            && m'.tx == NO_TX && m'.staged == [] && m'.q.songs == m.staged
            && Enters(m.q, m.staged, off, m'.q.off)
            && m'.q.current == (if m.q.state != Stopped then m.q.current
                                else if m'.q.off == -1 then None else Some(m.staged[m'.q.off]))
            && m'.q == m.q.(songs := m'.q.songs, off := m'.q.off, current := m'.q.current)
  {
    if m.q.current.Some? && IndexOf(m.staged, m.q.current.value) == |m.staged| {
      assert m.staged[..|m.staged|] == m.staged;
    }
  }

  /** A shuffle rearranges the songs, keeps the one at the position and sends nothing; what plays goes on playing. */
  lemma {:induction false} ShuffleLeads(m: Main, fd: int, all: bool, env: Env)
    requires m.q.InRange() && (m.tx == NO_TX || m.tx == fd)
    ensures var (m', replies) := HandleClient(m, fd, CtlShuffle(Some(all)), env);
            && replies == [] && LeadsTo(m, m.q.(songs := m'.q.songs, off := m'.q.off), [], m')
            && multiset(m'.q.songs) == multiset(m.q.songs)
            && m'.q.off == (if m.q.off < 0 then -1 else if all then 0 else m.q.off)
            && (0 <= m.q.off ==> m'.q.songs[m'.q.off] == m.q.songs[m.q.off])
            && (!all ==> m'.q.songs[..m.q.off + 1] == m.q.songs[..m.q.off + 1])
  {
    Shuffle.ShuffleKeepsCurrent(m.q.songs, m.q.off, all, env.draw);
    assert m.sent + [] == m.sent;
  }

  /** Show and status tell the queue as it is, and change nothing. */
  lemma {:induction false} ShowAndStatus(m: Main, fd: int, env: Env)
    requires m.q.InRange()
    ensures var (m', replies) := HandleClient(m, fd, CtlShow, env);
            && m' == m && |replies| == |m.q.songs| + 1 && replies[|m.q.songs|] == ShowEnd
            && forall i :: 0 <= i < |m.q.songs| ==> replies[i] == ShowSong(m.q.songs[i], i == m.q.off)
    ensures HandleClient(m, fd, CtlStatus, env) ==
            (m, [StatusOf(m.q.current, m.q.state, m.q.repeatOne, m.q.repeatAll, m.q.consume)])
  {
    var listing := Listing(m.q.songs, m.q.off);
    assert HandleClient(m, fd, CtlShow, env) == (m, listing);
  }

  // ---------- what one request undoes of another ----------

  /** The songs of the list all open. */
  ghost predicate AllOpen(songs: seq<string>, ok: string -> bool) {
    forall i :: 0 <= i < |songs| ==> ok(songs[i])
  }

  /** While everything opens, the next song is the one behind the position, and the first behind the last. */
  lemma {:induction false} NextOpens(q: Queue, ok: string -> bool)
    requires q.InRange() && q.songs != [] && AllOpen(q.songs, ok)
    ensures var to := if q.off + 1 < |q.songs| then q.off + 1 else 0;
            if q.off + 1 < |q.songs| || q.repeatAll
            then AdvanceTo(q, ok) == (q.(off := to, current := Some(q.songs[to]), state := Playing), true)
            else AdvanceTo(q, ok) == (q.(off := -1, current := None, state := Stopped), false)
  {
    AdvanceAtOnce(q, ok);
  }

  /** And the one before it is where previous goes. */
  lemma {:induction false} PreviousOpens(q: Queue, ok: string -> bool)
    requires q.InRange() && q.songs != [] && AllOpen(q.songs, ok)
    ensures var to := if 0 < q.off then q.off - 1 else |q.songs| - 1;
            if 0 < q.off || q.repeatAll
            then PreviousTo(q, ok) == (q.(off := to, current := Some(q.songs[to]), state := Playing), true)
            else PreviousTo(q, ok) == (q.(off := -1, current := None, state := Stopped), false)
  {
    PreviousLooksBack(q, ok);
    assert Previous(q).1.Some? ==> ok(Previous(q).1.value);
  }

  /** Previous undoes next while everything opens, unless next ran off the end of the list. */
  lemma {:induction false} PreviousUndoesNext(m: Main, fd: int, env: Env)
    requires m.q.InRange() && 0 <= m.q.off && AllOpen(m.q.songs, env.ok)
    requires m.q.off + 1 < |m.q.songs| || m.q.repeatAll
    requires m.q.current == Some(m.q.songs[m.q.off]) && m.q.state == Playing
    ensures HandleClient(HandleClient(m, fd, CtlNext, env).0, fd, CtlPrev, env).0.q == m.q
  {
    var m1 := HandleClient(m, fd, CtlNext, env).0;
    NextAndPrevious(m, fd, env);
    NextOpens(m.q, env.ok);
    NextAndPrevious(m1, fd, env);
    PreviousOpens(m1.q, env.ok);
  }

  /** Stop and then play comes back to the song that was current. */
  lemma {:induction false} PlayAfterStop(m: Main, fd: int, env: Env)
    requires m.q.Valid() && m.q.state != Stopped && env.ok(m.q.current.value)
    ensures var stopped := HandleClient(m, fd, CtlStop, env).0;
            LeadsTo(m, m.q.(state := Playing), [Stop, Play], HandleClient(stopped, fd, CtlPlay, env).0)
  {
    var stopped := HandleClient(m, fd, CtlStop, env).0;
    PlayAndPause(m, fd, env);
    PlayAndPause(stopped, fd, env);
    AppendAssoc(m.sent, [Stop], [Play]);
    assert [Stop] + [Play] == [Stop, Play];
  }

  // ---------- runs of tracks that play to their end ----------

  /** Main after n tracks have played to their end, with nothing else happening. */
  function AfterEnds(m: Main, env: Env, n: nat): (r: Main)
    requires m.q.InRange()
    ensures r.q.InRange()
  {
    if n == 0 then m else HandlePlayer(AfterEnds(m, env, n - 1), Eof, env)
  }

  /** As many PLAYs. */
  function Plays(n: nat): (r: seq<Cmd>)
    ensures |r| == n && forall i :: 0 <= i < n ==> r[i] == Play
  {
    seq(n, i => Play)
  }

  lemma {:induction false} OneMorePlay(sent: seq<Cmd>, n: nat)
    ensures sent + Plays(n) + [Play] == sent + Plays(n + 1)
  {
    assert Plays(n) + [Play] == Plays(n + 1);
    AppendAssoc(sent, Plays(n), [Play]);
  }

  lemma {:induction false} SmallMultiple(d: int, size: nat)
    requires -(size as int) < d * size < size
    ensures d == 0
  {
  }

  lemma {:induction false} Remainder(x: nat, k: nat, size: nat, r: nat)
    requires r < size && x == k * size + r
    ensures x % size == r
  {
    var k', r' := x / size, x % size;
    assert x == k' * size + r';
    assert (k' - k) * size == r - r';
    SmallMultiple(k' - k, size);
  }

  /** One step round the list. */
  lemma {:induction false} RoundStep(x: nat, size: nat)
    requires 0 < size
    ensures (x + 1) % size == if x % size + 1 < size then x % size + 1 else 0
  {
    var k, at := x / size, x % size;
    assert x == k * size + at;
    if at + 1 < size {
      Remainder(x + 1, k, size, at + 1);
    } else {
      assert (k + 1) * size == k * size + size;
      Remainder(x + 1, k + 1, size, 0);
    }
  }

  /** One more end, round the list. */
  lemma {:induction false} RoundOnce(q: Queue, before: Main, env: Env, to: nat)
    requires q.InRange() && AllOpen(q.songs, env.ok) && q.repeatAll && !q.repeatOne && !q.consume
    requires before.q == q.(off := before.q.off, current := before.q.current, state := before.q.state)
    requires 0 <= before.q.off < |q.songs|
    requires to == if before.q.off + 1 < |q.songs| then before.q.off + 1 else 0
    ensures LeadsTo(before, q.(off := to, current := Some(q.songs[to]), state := Playing), [Play],
                    HandlePlayer(before, Eof, env))
  {
    EndOfTrack(before, env);
    NextOpens(before.q, env.ok);
  }

  /**
   Repeating all, while everything opens: after n ends the position has moved n songs on,
   round the list, the list is the same, and each end has started one track.
   */
  lemma {:induction false} RepeatAllGoesRound(m: Main, env: Env, n: nat)
    requires m.q.InRange() && 0 <= m.q.off && AllOpen(m.q.songs, env.ok) && 0 < n
    requires m.q.repeatAll && !m.q.repeatOne && !m.q.consume
    ensures var at := (m.q.off + n) % |m.q.songs|;
            LeadsTo(m, m.q.(off := at, current := Some(m.q.songs[at]), state := Playing), Plays(n),
                    AfterEnds(m, env, n))
  {
    var before := AfterEnds(m, env, n - 1);
    if n == 1 {
      assert Plays(0) == [] && m.sent + [] == m.sent;
      Remainder(m.q.off, 0, |m.q.songs|, m.q.off);
    } else {
      RepeatAllGoesRound(m, env, n - 1);
    }
    RoundStep(m.q.off + n - 1, |m.q.songs|);
    RoundOnce(m.q, before, env, (m.q.off + n) % |m.q.songs|);
    OneMorePlay(m.sent, n - 1);
  }

  /** The list without the n songs from the position on. */
  function Consumed(q: Queue, n: nat): seq<string>
    requires 0 <= q.off && q.off + n <= |q.songs|
  {
    q.songs[..q.off] + q.songs[q.off + n..]
  }

  /** Consuming, while everything opens: the song at the position goes, and the one behind it takes its place. */
  lemma {:induction false} SkipOpens(q: Queue, ok: string -> bool)
    requires q.InRange() && 0 <= q.off < |q.songs| - 1 && AllOpen(q.songs, ok)
    ensures SkipTo(q, ok) ==
            (q.(songs := Consumed(q, 1), current := Some(q.songs[q.off + 1]), state := Playing), true)
  {
    var after := q.songs[q.off + 1..];
    assert after[0] == q.songs[q.off + 1];
    OverNext(q.(current := None), q.songs[..q.off], after, ok);
  }

  lemma {:induction false} ConsumedMore(q: Queue, d: Queue, n: nat)
    requires 0 <= q.off && q.off + n < |q.songs| && d.songs == Consumed(q, n) && d.off == q.off
    ensures q.off < |d.songs| && d.songs[q.off] == q.songs[q.off + n] && Consumed(d, 1) == Consumed(q, n + 1)
    ensures q.off + n + 1 < |q.songs| ==> q.off < |d.songs| - 1 && d.songs[q.off + 1] == q.songs[q.off + n + 1]
  {
  }

  lemma {:induction false} ConsumedOpen(q: Queue, n: nat, ok: string -> bool)
    requires 0 <= q.off && q.off + n <= |q.songs| && AllOpen(q.songs, ok)
    ensures AllOpen(Consumed(q, n), ok)
  {
  }

  /** One more end, consuming. */
  lemma {:induction false} ConsumeOnce(q: Queue, before: Main, env: Env, n: nat)
    requires q.InRange() && 0 <= q.off && q.off + n + 1 < |q.songs| && AllOpen(q.songs, env.ok)
    requires q.consume && !q.repeatOne && q.state == Playing
    requires before.q == q.(songs := Consumed(q, n), current := Some(q.songs[q.off + n]))
    ensures LeadsTo(before, q.(songs := Consumed(q, n + 1), current := Some(q.songs[q.off + n + 1])), [Play],
                    HandlePlayer(before, Eof, env))
  {
    ConsumedOpen(q, n, env.ok);
    ConsumedMore(q, before.q, n);
    EndOfTrack(before, env);
    SkipOpens(before.q, env.ok);
  }

  lemma {:induction false} NoneConsumed(m: Main)
    requires m.q.InRange() && 0 <= m.q.off
    ensures Consumed(m.q, 0) == m.q.songs && m.sent + Plays(0) == m.sent
  {
  }

  /**
   Consuming, while everything opens: after n ends exactly the n songs from the position on
   are gone, and the one behind them plays. Each of them has been played once.
   */
  lemma {:induction false} ConsumePlaysOnce(m: Main, env: Env, n: nat)
    requires m.q.InRange() && 0 <= m.q.off && m.q.off + n < |m.q.songs| && AllOpen(m.q.songs, env.ok)
    requires m.q.consume && !m.q.repeatOne && m.q.state == Playing && m.q.current == Some(m.q.songs[m.q.off])
    ensures LeadsTo(m, m.q.(songs := Consumed(m.q, n), current := Some(m.q.songs[m.q.off + n])), Plays(n),
                    AfterEnds(m, env, n))
  {
    if n == 0 {
      NoneConsumed(m);
    } else {
      ConsumePlaysOnce(m, env, n - 1);
      ConsumeOnce(m.q, AfterEnds(m, env, n - 1), env, n - 1);
      OneMorePlay(m.sent, n - 1);
    }
  }

  /** Repeating one song that opens: nothing but PLAY after PLAY. */
  lemma {:induction false} RepeatOneStays(m: Main, env: Env, n: nat)
    requires m.q.InRange() && Repeats(m.q, env.ok) && m.q.state == Playing
    ensures LeadsTo(m, m.q, Plays(n), AfterEnds(m, env, n))
  {
    if n == 0 {
      assert m.sent + Plays(0) == m.sent;
    } else {
      RepeatOneStays(m, env, n - 1);
      EndOfTrack(AfterEnds(m, env, n - 1), env);
      OneMorePlay(m.sent, n - 1);
    }
  }
}
