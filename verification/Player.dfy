/**
 player.c: the player process, over every sequence of messages from main, every
 outcome of poll and every decoder that stops once play says so.
 */
module Player {
  import opened Common
  import opened Daemon
  import opened System

  /** Why the process is over, if it is. */
  datatype Life = Alive | PipeClosed | AlreadyEnqueued | NoDescriptor | AudioBroken | CutShort

  /** What player_dispatch returns. */
  datatype Ret = NoMessage | Got(cmd: Control)

  /** One poll in the playing loop: is there something to read, and how the audio device stands. */
  datatype Poll = Poll(readable: bool, audio: Audio)
  datatype Audio = Busy | Writable(n: nat) | HangUp(again: bool)

  /** A track as the decoder sees it: the chunks it passes to play, and whether it fails at the end. */
  datatype Track = Unreadable | Decoded(chunks: seq<seq<byte>>, failed: bool)

  /** In how many of these polls there was something to read. */
  function Readables(polls: seq<Poll>): nat {
    if polls == [] then 0 else (if polls[0].readable then 1 else 0) + Readables(polls[1..])
  }

  /** How much the audio device was ready for in these polls. */
  function Room(polls: seq<Poll>): nat {
    if polls == [] then 0 else (if polls[0].audio.Writable? then polls[0].audio.n else 0) + Room(polls[1..])
  }

  /** Where the player stands: the polls to come, how many messages it has taken and how much it has written. */
  datatype Mark = Mark(polls: seq<Poll>, taken: nat, written: nat)

  /**
   Between two moments a message has been taken for each poll that found one to read, and
   no more written than the device was ready for.
   */
  ghost predicate Paced(m: Mark, n: Mark) {
    && |n.polls| <= |m.polls| && n.polls == m.polls[|m.polls| - |n.polls|..]
    && m.taken <= n.taken && m.written <= n.written
    && var used := m.polls[..|m.polls| - |n.polls|];
       Readables(used) <= n.taken - m.taken && n.written - m.written <= Room(used)
  }

  lemma {:induction false} PolledAppend(a: seq<Poll>, b: seq<Poll>)
    ensures Readables(a + b) == Readables(a) + Readables(b) && Room(a + b) == Room(a) + Room(b)
  {
    if a == [] {
      assert a + b == b;
    } else {
      assert (a + b)[0] == a[0] && (a + b)[1..] == a[1..] + b;
      PolledAppend(a[1..], b);
    }
  }

  lemma {:induction false} PacedOn(a: Mark, b: Mark, c: Mark)
    requires Paced(a, b) && Paced(b, c)
    ensures Paced(a, c)
  {
    var first, second := a.polls[..|a.polls| - |b.polls|], b.polls[..|b.polls| - |c.polls|];
    assert a.polls[..|a.polls| - |c.polls|] == first + second;
    PolledAppend(first, second);
  }

  lemma {:induction false} PacedOne(m: Mark, n: Mark)
    requires m.polls != [] && n.polls == m.polls[1..] && m.taken <= n.taken && m.written <= n.written
    requires m.polls[0].readable ==> m.taken < n.taken
    requires n.written - m.written <= if m.polls[0].audio.Writable? then m.polls[0].audio.n else 0
    ensures Paced(m, n)
  {
    var used := m.polls[..1];
    assert used[0] == m.polls[0] && used[1..] == [];
  }

  /** Messages taken before without a poll do no harm. */
  lemma {:induction false} PacedMore(m: Mark, m': Mark, n: Mark)
    requires Paced(m', n) && m'.polls == m.polls && m.taken <= m'.taken && m'.written == m.written
    ensures Paced(m, n)
  {
  }

  lemma {:induction false} PacedNone(m: Mark)
    ensures Paced(m, m)
  {
    assert m.polls[..0] == [];
  }

  /** A track that has been taken up: what of it has reached the audio device, and whether main stopped it. */
  datatype Played = Played(track: Track, heard: seq<byte>, stopped: bool)

  /** All of it has been heard unless it was stopped, and nothing of one that cannot be read. */
  predicate Sensible(p: Played) {
    match p.track
    case Unreadable => p.heard == [] && !p.stopped
    case Decoded(chunks, _) => p.heard <= Flatten(chunks) && (p.stopped <==> p.heard != Flatten(chunks))
  }

  /** The first tracks, in order, each taken up sensibly. */
  ghost predicate Logged(tracks: seq<Track>, log: seq<Played>) {
    |log| <= |tracks| && forall i :: 0 <= i < |log| ==> log[i].track == tracks[i] && Sensible(log[i])
  }

  lemma {:induction false} LoggedSnoc(tracks: seq<Track>, log: seq<Played>, p: Played)
    requires Logged(tracks, log) && |log| < |tracks| && p.track == tracks[|log|] && Sensible(p)
    ensures Logged(tracks, log + [p])
  {
  }

  /** What main hears of it: nothing of one it stopped, else an error or the end. */
  function ReportOf(p: Played): seq<PlayerMsg> {
    if p.stopped then [] else if p.track.Unreadable? || p.track.failed then [Error] else [Eof]
  }

  function Reports(log: seq<Played>): seq<PlayerMsg> {
    if log == [] then [] else Reports(log[..|log| - 1]) + ReportOf(log[|log| - 1])
  }

  function Sounded(log: seq<Played>): seq<byte> {
    if log == [] then [] else Sounded(log[..|log| - 1]) + log[|log| - 1].heard
  }

  /** Of tracks that main lets play, it hears of each: the end of those that came to it, an error for the others. */
  lemma {:induction false} ReportsOfAll(log: seq<Played>)
    requires forall i :: 0 <= i < |log| ==> Sensible(log[i]) && !log[i].stopped
    ensures |Reports(log)| == |log|
    ensures forall i :: 0 <= i < |log| ==>
              (Reports(log)[i] == Eof <==> log[i].track.Decoded? && !log[i].track.failed)
              && Reports(log)[i] in {Eof, Error}
  {
    if log != [] { ReportsOfAll(log[..|log| - 1]); }
  }

  lemma {:induction false} PlayedSnoc(outbox: seq<PlayerMsg>, device: seq<byte>, log: seq<Played>, p: Played)
    ensures outbox + Reports(log + [p]) == outbox + Reports(log) + ReportOf(p)
    ensures device + Sounded(log + [p]) == device + Sounded(log) + p.heard
  {
    assert (log + [p])[..|log|] == log;
    AppendAssoc(outbox, Reports(log), ReportOf(p));
    AppendAssoc(device, Sounded(log), p.heard);
  }

  /** What the player does towards main: it takes a message, or the sounding track is over. */
  datatype Act = Took(msg: ToPlayer) | Over(failed: bool)

  function After(doing: Doing, act: Act): Doing {
    match act
    case Took(msg) => React(doing, msg)
    case Over(_) => Idle
  }

  function AfterAll(doing: Doing, acts: seq<Act>): Doing {
    if acts == [] then doing else After(AfterAll(doing, acts[..|acts| - 1]), acts[|acts| - 1])
  }

  /** A track can be over only while it sounds. */
  ghost predicate Legal(acts: seq<Act>) {
    acts == [] ||
    var before, last := acts[..|acts| - 1], acts[|acts| - 1];
    Legal(before) && (last.Over? ==> AfterAll(Idle, before).Sounding?)
  }

  function Taken(acts: seq<Act>): seq<ToPlayer> {
    if acts == [] then []
    else
      var last := acts[|acts| - 1];
      Taken(acts[..|acts| - 1]) + if last.Took? then [last.msg] else []
  }

  /** The end of every track that was over while it sounded, with its number. */
  function Ends(acts: seq<Act>): seq<ToMain> {
    if acts == [] then []
    else
      var before, last := acts[..|acts| - 1], acts[|acts| - 1];
      var doing := AfterAll(Idle, before);
      Ends(before) + if last.Over? && doing.Sounding? then [Ended(doing.track, last.failed)] else []
  }

  /** The messages the player really sends: they carry no number. */
  function Replies(acts: seq<Act>): seq<PlayerMsg> {
    if acts == [] then []
    else
      var last := acts[|acts| - 1];
      Replies(acts[..|acts| - 1]) + if last.Over? then [if last.failed then Error else Eof] else []
  }

  lemma {:induction false} SentAreEnds(acts: seq<Act>)
    requires Legal(acts)
    ensures |Replies(acts)| == |Ends(acts)|
    ensures forall i :: 0 <= i < |Ends(acts)| ==> Ends(acts)[i].Ended? && PlayerMsgOf(Ends(acts)[i]) == Replies(acts)[i]
  {
    if acts != [] {
      SentAreEnds(acts[..|acts| - 1]);
    }
  }

  lemma {:induction false} Snoc(acts: seq<Act>, act: Act)
    requires act.Over? ==> AfterAll(Idle, acts).Sounding?
    ensures AfterAll(Idle, acts + [act]) == After(AfterAll(Idle, acts), act)
    ensures Legal(acts) ==> Legal(acts + [act])
    ensures Taken(acts + [act]) == Taken(acts) + if act.Took? then [act.msg] else []
    ensures Replies(acts + [act]) == Replies(acts) + if act.Over? then [if act.failed then Error else Eof] else []
  {
    var longer := acts + [act];
    assert longer[..|longer| - 1] == acts && longer[|longer| - 1] == act;
  }

  /** Taking the first message of the queue. */
  lemma {:induction false} TookKeeps(acts: seq<Act>, queue: seq<ToPlayer>, later: seq<ToPlayer>, script: seq<ToPlayer>)
    requires queue != [] && Legal(acts) && Taken(acts) + queue + later == script
    ensures var acts' := acts + [Took(queue[0])];
            && AfterAll(Idle, acts') == React(AfterAll(Idle, acts), queue[0])
            && Legal(acts')
            && Taken(acts') == Taken(acts) + [queue[0]]
            && Taken(acts') + queue[1..] + later == script
            && Replies(acts') == Replies(acts)
  {
    Snoc(acts, Took(queue[0]));
    assert [queue[0]] + queue[1..] == queue;
  }

  /** No PLAY among the messages is one of these tracks. */
  ghost predicate NoneLost(msgs: seq<ToPlayer>, lost: set<nat>) {
    forall i :: 0 <= i < |msgs| && msgs[i].StartTrack? ==> msgs[i].track !in lost
  }

  class Player {
    const lost: set<nat>         // the tracks whose PLAY comes without its descriptor
    var nextfd: int              // the track enqueued, -1 when there is none
    var queue: seq<ToPlayer>     // messages read and not yet taken
    var wire: seq<seq<ToPlayer>> // the complete messages each further read brings; then the pipe is closed
    var polls: seq<Poll>         // the outcomes of the polls to come
    var device: seq<byte>        // what the audio device has been given
    var outbox: seq<PlayerMsg>   // the ends of tracks sent to main
    var life: Life
    ghost var acts: seq<Act>     // what has been done so far
    ghost var script: seq<ToPlayer> // everything main ever sends

    ghost predicate Valid()
      reads this
    {
      && -1 <= nextfd
      && Legal(acts)
      && Taken(acts) + queue + Flatten(wire) == script
      && outbox == Replies(acts)
      && NoneLost(Taken(acts), lost)
      && (life == NoDescriptor ==> queue != [] && queue[0].StartTrack? && queue[0].track in lost)
    }

    ghost function Now(): Doing
      reads this
    {
      AfterAll(Idle, acts)
    }

    ghost function Here(): Mark
      reads this
    {
      Mark(polls, |Taken(acts)|, |device|)
    }

    /** Nothing is enqueued and a track sounds. */
    ghost predicate Sounds()
      reads this
    {
      nextfd == -1 && Now().Sounding?
    }

    /** What the main loop relies on: idle, or the enqueued track is the one that has to sound. */
    ghost predicate Between()
      reads this
    {
      if nextfd < 0 then Now() == Idle else Now() == Sounding(nextfd)
    }

    constructor (wire: seq<seq<ToPlayer>>, polls: seq<Poll>, lost: set<nat>)
      ensures Valid() && Between() && life == Alive && acts == [] && outbox == [] && device == []
      ensures this.wire == wire && this.polls == polls && this.lost == lost && script == Flatten(wire)
    {
      this.lost := lost;
      nextfd, queue, outbox, device, life, acts := -1, [], [], [], Alive, [];
      this.wire, this.polls, script := wire, polls, Flatten(wire);
    }

    /**
     The reading half of player_dispatch: afterwards a message is there, or it may
     not wait, or the pipe is closed.
     */
    method Fetch(wait: bool)
      requires Valid() && life == Alive
      modifies `queue, `wire, `life
      ensures Valid()
      ensures queue + Flatten(wire) == old(queue + Flatten(wire))
      ensures life == PipeClosed ==> wait && queue + Flatten(wire) == []
      ensures life == Alive || life == PipeClosed
      ensures if wait then life == Alive ==> queue != [] else life == Alive && queue == old(queue)
    {
      while queue == []
        invariant Valid() && life == Alive && queue + Flatten(wire) == old(queue + Flatten(wire))
        invariant !wait ==> queue == old(queue)
        decreases |wire|
      {
        if !wait { return; }
        if wire == [] { life := PipeClosed; return; }
        TakeRead(Taken(acts), wire);
        TakeRead([], wire);
        queue, wire := wire[0], wire[1..];
        assert [] + queue == queue;
      }
    }

    /** The other half: the first message. */
    method Take() returns (ret: Ret, ghost msg: ToPlayer)
      requires Valid() && life == Alive && queue != []
      modifies `nextfd, `queue, `life, `acts
      ensures Valid()
      ensures msg == old(queue[0])
      ensures if msg.StartTrack? && old(nextfd) != -1 then life == AlreadyEnqueued
              else if msg.StartTrack? && msg.track in lost then life == NoDescriptor
              else
                && life == Alive && acts == old(acts) + [Took(msg)]
                && Now() == React(old(Now()), msg) && Taken(acts) == Taken(old(acts)) + [msg]
                && (match msg
                    case StartTrack(track) => ret == Got(Stop) && nextfd == track
                    case Other(cmd) => ret == Got(cmd) && nextfd == old(nextfd))
    {
      msg := queue[0];
      match queue[0] {
        case StartTrack(track) =>
          if nextfd != -1 { life, ret := AlreadyEnqueued, NoMessage; return; }
          if track in lost { life, ret := NoDescriptor, NoMessage; return; }
          nextfd := track;
          ret := Got(Stop);
        case Other(cmd) =>
          ret := Got(cmd);
      }
      TookKeeps(acts, queue, Flatten(wire), script);
      acts, queue := acts + [Took(msg)], queue[1..];
    }

    /**
     player_dispatch: one message, the oldest, if one is there or it may wait for one; else
     none. Waiting ends without a message only when the pipe is closed.
     */
    method Dispatch(wait: bool) returns (ret: Ret, ghost msg: ToPlayer)
      requires Valid() && life == Alive
      modifies `nextfd, `queue, `wire, `life, `acts
      ensures Valid()
      ensures life in {Alive, PipeClosed, AlreadyEnqueued, NoDescriptor}
              && (life == AlreadyEnqueued ==> old(nextfd) != -1)
      ensures life == PipeClosed ==> wait && old(queue + Flatten(wire)) == []
      ensures life == Alive ==> (ret == NoMessage <==> !wait && old(queue) == [])
      ensures life == Alive && ret == NoMessage ==> acts == old(acts) && nextfd == old(nextfd)
      ensures life == Alive && ret.Got? ==>
                && old(queue + Flatten(wire)) != [] && msg == old(queue + Flatten(wire))[0]
                && Now() == React(old(Now()), msg) && Taken(acts) == Taken(old(acts)) + [msg]
                && (match msg
                    case StartTrack(track) => ret.cmd == Stop && nextfd == track && old(nextfd) == -1
                    case Other(cmd) => ret.cmd == cmd && nextfd == old(nextfd))
    {
      ret, msg := NoMessage, Other(Stop);
      Fetch(wait);
      if life == Alive && queue != [] {
        assert queue[0] == (queue + Flatten(wire))[0];
        ret, msg := Take();
      }
    }

    /** player_pause: hold until the next message. */
    method Pause() returns (resumed: bool)
      requires Valid() && life == Alive && nextfd == -1 && Now().Held?
      modifies `nextfd, `queue, `wire, `life, `acts
      ensures Valid()
      ensures life in {Alive, PipeClosed, NoDescriptor}
      ensures life == Alive && resumed ==> nextfd == -1 && Now() == Sounding(old(Now()).track)
      ensures life == Alive && !resumed ==> Between()
      ensures life == Alive ==> |Taken(acts)| == |Taken(old(acts))| + 1
    {
      ghost var msg;
      var ret;
      ret, msg := Dispatch(true);
      resumed := ret == Got(Resume) || ret == Got(Seek);
    }

    /**
     player_shouldstop: whether the decoder has to give up. A message that is there, or that
     may be waited for, is taken, and a second one if the first is a pause.
     */
    method ShouldStop(wait: bool) returns (stop: bool)
      requires Valid() && life == Alive && Sounds()
      modifies `nextfd, `queue, `wire, `life, `acts
      ensures Valid()
      ensures life in {Alive, PipeClosed, NoDescriptor}
      ensures life == Alive && !stop ==> Sounds() && Now() == old(Now())
      ensures life == Alive && stop ==> Between()
      ensures life == Alive ==>
                var taken := |Taken(acts)| - |Taken(old(acts))|;
                if wait || old(queue) != [] then 1 <= taken <= 2 else taken == 0 && !stop
    {
      ghost var msg;
      var ret;
      ret, msg := Dispatch(wait);
      if life != Alive { return false; }
      if ret == Got(Cmd.Pause) {
        var resumed := Pause();
        return !resumed;
      }
      return ret == Got(Stop);
    }

    /** One round of play: a message if there is one, and then as much of the buffer as the device is ready for. */
    method PlayRound(buf: seq<byte>) returns (more: bool, w: nat)
      requires Valid() && life == Alive && Sounds() && buf != [] && polls != []
      modifies `nextfd, `queue, `wire, `life, `acts, `polls, `device
      ensures Valid() && polls == old(polls)[1..]
      ensures life != AlreadyEnqueued && (life == AudioBroken ==> old(polls)[0].audio == HangUp(false))
      ensures life == Alive && more ==> Sounds() && Now() == old(Now()) && old(polls)[0].audio != HangUp(false)
      ensures life == Alive && !more ==> Between()
      ensures w <= |buf| && device == old(device) + buf[..w]
      ensures life == Alive ==> Paced(old(Here()), Here())
      ensures life == Alive ==>
                && w == (if more && old(polls)[0].audio.Writable?
                         then if old(polls)[0].audio.n < |buf| then old(polls)[0].audio.n else |buf| else 0)
                && var taken := |Taken(acts)| - |Taken(old(acts))|;
                   if old(polls)[0].readable || old(queue) != [] then 1 <= taken <= 2 else taken == 0 && more
    {
      var poll := polls[0];
      polls, more, w := polls[1..], false, 0;
      assert device + buf[..0] == device;
      var stop := ShouldStop(poll.readable);
      if life != Alive { return; }
      if stop { PacedOne(old(Here()), Here()); return; }
      match poll.audio {
        case HangUp(again) => if !again { life := AudioBroken; return; }
        case Writable(n) =>
          w := if n < |buf| then n else |buf|;
          device := device + buf[..w];
        case Busy =>
      }
      PacedOne(old(Here()), Here());
      more := true;
    }

    /**
     play: pass a chunk to the audio device, taking at most one message a round. It says
     that there is more to come exactly when all of the chunk has gone to the device.
     */
    method Play(chunk: seq<byte>) returns (more: bool)
      requires Valid() && life == Alive && Sounds()
      modifies `nextfd, `queue, `wire, `life, `acts, `polls, `device
      ensures Valid()
      ensures life != AlreadyEnqueued
      ensures life == Alive && more ==> Sounds() && Now() == old(Now())
      ensures life == Alive && !more ==> Between()
      ensures old(device) <= device <= old(device) + chunk
      ensures life == Alive ==> (more <==> device == old(device) + chunk)
      ensures life == Alive ==> Paced(old(Here()), Here())
    {
      var done: nat := 0;
      PacedNone(Here());
      PartWritten(device, chunk, 0);
      while done != |chunk|
        invariant Valid() && life == Alive && Sounds() && Now() == old(Now())
        invariant done <= |chunk| && device == old(device) + chunk[..done]
        invariant Paced(old(Here()), Here())
        decreases |polls|
      {
        PartWritten(old(device), chunk, done);
        if polls == [] { life := CutShort; return false; }
        ghost var before := Here();
        var w;
        more, w := PlayRound(chunk[done..]);
        WrittenOn(old(device), chunk, done, w);
        done := done + w;
        PartWritten(old(device), chunk, done);
        if life != Alive { return false; }
        PacedOn(old(Here()), before, Here());
        if !more { return false; }
      }
      PartWritten(old(device), chunk, done);
      return true;
    }

    /** A decoder: the chunks go to play one after the other, until it says that there is no more to come. */
    method PlayChunks(chunks: seq<seq<byte>>) returns (all: bool)
      requires Valid() && life == Alive && Sounds()
      modifies `nextfd, `queue, `wire, `life, `acts, `polls, `device
      ensures Valid() && life != AlreadyEnqueued && old(device) <= device
      ensures life == Alive && all ==> Sounds() && Now() == old(Now())
      ensures life == Alive && !all ==> Between()
      ensures life == Alive ==> Paced(old(Here()), Here())
      ensures life == Alive ==>
                device <= old(device) + Flatten(chunks) && (all <==> device == old(device) + Flatten(chunks))
    {
      PacedNone(Here());
      assert device + Flatten(chunks[..0]) == device;
      for i := 0 to |chunks|
        invariant Valid() && life == Alive && Sounds() && Now() == old(Now())
        invariant device == old(device) + Flatten(chunks[..i])
        invariant Paced(old(Here()), Here())
      {
        ghost var before, written := Here(), device;
        var more := Play(chunks[i]);
        if life != Alive { return false; }
        PacedOn(old(Here()), before, Here());
        if !more {
          ChunkStopped(old(device), chunks, i, written, device);
          return false;
        }
        ChunkDone(old(device), chunks, i, written);
      }
      assert chunks[..|chunks|] == chunks;
      return true;
    }

    /**
     player_playnext, with the decoder as it calls play: -1 for a track that cannot be read
     or fails at its end, 0 for one that comes to its end, 1 for one that was stopped.
     */
    method PlayNext(track: Track) returns (r: int)
      requires Valid() && life == Alive && Between() && nextfd != -1
      modifies `nextfd, `queue, `wire, `life, `acts, `polls, `device
      ensures Valid()
      ensures life != AlreadyEnqueued
      ensures life == Alive && r == 1 ==> Between()
      ensures life == Alive && r != 1 ==> Sounds() && Now() == old(Now())
      ensures old(device) <= device
      ensures life == Alive ==> Paced(old(Here()), Here())
      ensures life == Alive ==>
                match track
                case Unreadable => r == -1 && device == old(device)
                case Decoded(chunks, failed) =>
                  && device <= old(device) + Flatten(chunks)
                  && (r != 1 <==> device == old(device) + Flatten(chunks))
                  && (r != 1 ==> r == if failed then -1 else 0)
    {
      nextfd := -1;
      PacedNone(Here());
      if track.Unreadable? { return -1; }
      var all := PlayChunks(track.chunks);
      if life != Alive || !all { return 1; }
      return if track.failed then -1 else 0;
    }

    /** player_senderr and player_sendeof */
    method SendEnd(failed: bool)
      requires Valid() && life == Alive && Sounds()
      modifies `outbox, `acts
      ensures Valid() && Between()
      ensures outbox == old(outbox) + [if failed then Error else Eof]
      ensures acts == old(acts) + [Over(failed)]
    {
      Snoc(acts, Over(failed));
      outbox := outbox + [if failed then Error else Eof];
      acts := acts + [Over(failed)];
    }

    /** Waiting for a track: a PLAY never finds one already enqueued. */
    method Await()
      requires Valid() && life == Alive && Between()
      modifies `nextfd, `queue, `wire, `life, `acts
      ensures Valid() && life != AlreadyEnqueued
      ensures life == Alive ==> Between() && nextfd != -1 && |Taken(old(acts))| <= |Taken(acts)|
    {
      while nextfd == -1
        invariant Valid() && life == Alive && Between()
        invariant |Taken(old(acts))| <= |Taken(acts)|
        decreases |script| - |Taken(acts)|
      {
        ghost var msg;
        var ret;
        ret, msg := Dispatch(true);
        if life != Alive { return; }
      }
    }

    /** One round of the main loop. */
    method Round(track: Track) returns (played: Played)
      requires Valid() && life == Alive && Between()
      modifies `nextfd, `queue, `wire, `life, `acts, `polls, `device, `outbox
      ensures Valid() && life != AlreadyEnqueued
      ensures life != Alive ==> outbox == old(outbox) && old(device) <= device
      ensures life == Alive ==> Paced(old(Here()), Here())
      ensures life == Alive ==>
                && Between() && played.track == track && Sensible(played)
                && outbox == old(outbox) + ReportOf(played) && device == old(device) + played.heard
    {
      var from := |device|;
      played := Played(track, [], true);
      Await();
      if life != Alive { return; }
      ghost var waited := Here();
      var r := PlayNext(track);
      if life != Alive { return; }
      PacedMore(old(Here()), waited, Here());
      HeardIs(old(device), device, track);
      played := Played(track, device[from..], r == 1);
      if r == -1 { SendEnd(true); }
      if r == 0 { SendEnd(false); }
      assert outbox == old(outbox) + ReportOf(played);
    }

    /**
     The main loop of the player, for as long as there are tracks. For each track taken up
     main is told exactly of an error or of its end, in order, and of none that it stopped.
     */
    method Run(tracks: seq<Track>) returns (log: seq<Played>)
      requires Valid() && life == Alive && Between()
      modifies `nextfd, `queue, `wire, `life, `acts, `polls, `device, `outbox
      ensures Valid()
      ensures life != AlreadyEnqueued
      ensures life == Alive ==> Between()
      ensures Logged(tracks, log)
      ensures outbox == old(outbox) + Reports(log)
      ensures old(device) + Sounded(log) <= device
      ensures life == Alive ==> |log| == |tracks| && device == old(device) + Sounded(log)
      ensures life == Alive ==> Paced(old(Here()), Here())
    {
      log := [];
      PacedNone(Here());
      assert outbox + [] == outbox && device + [] == device;
      for i := 0 to |tracks|
        invariant Valid() && life == Alive && Between()
        invariant |log| == i && Logged(tracks, log)
        invariant outbox == old(outbox) + Reports(log) && device == old(device) + Sounded(log)
        invariant Paced(old(Here()), Here())
      {
        ghost var before := Here();
        var played := Round(tracks[i]);
        if life != Alive { return; }
        PacedOn(old(Here()), before, Here());
        PlayedSnoc(old(outbox), old(device), log, played);
        LoggedSnoc(tracks, log, played);
        log := log + [played];
      }
    }
  }

  /** More of the chunk has been written. */
  lemma {:induction false} WrittenOn(device: seq<byte>, chunk: seq<byte>, done: nat, w: nat)
    requires done + w <= |chunk|
    ensures device + chunk[..done] + chunk[done..][..w] == device + chunk[..done + w]
  {
  }

  lemma {:induction false} PartWritten(device: seq<byte>, chunk: seq<byte>, done: nat)
    requires done <= |chunk|
    ensures device <= device + chunk[..done] <= device + chunk
    ensures done == 0 ==> device + chunk[..done] == device
    ensures device + chunk[..done] == device + chunk <==> done == |chunk|
  {
  }

  /** One more chunk has been written. */
  lemma {:induction false} ChunkDone(device: seq<byte>, chunks: seq<seq<byte>>, i: nat, written: seq<byte>)
    requires i < |chunks| && written == device + Flatten(chunks[..i])
    ensures written + chunks[i] == device + Flatten(chunks[..i + 1])
  {
    assert chunks[..i + 1] == chunks[..i] + [chunks[i]];
    FlattenAppend(chunks[..i], [chunks[i]]);
    FlattenOne(chunks[i]);
    AppendAssoc(device, Flatten(chunks[..i]), chunks[i]);
  }

  /** Stopped in the middle of a chunk: that is not all. */
  lemma {:induction false} ChunkStopped(device: seq<byte>, chunks: seq<seq<byte>>, i: nat, written: seq<byte>,
      now: seq<byte>)
    requires i < |chunks| && written == device + Flatten(chunks[..i])
    requires now <= written + chunks[i] && now != written + chunks[i]
    ensures now <= device + Flatten(chunks) && now != device + Flatten(chunks)
  {
    ChunkDone(device, chunks, i, written);
    var front, rest := chunks[..i + 1], chunks[i + 1..];
    assert chunks == front + rest;
    FlattenAppend(front, rest);
    AppendAssoc(device, Flatten(front), Flatten(rest));
  }

  /** What is behind the earlier bytes is a part of the track, and all of it if everything has come. */
  lemma {:induction false} HeardIs(before: seq<byte>, device: seq<byte>, track: Track)
    requires before <= device
    ensures before + device[|before|..] == device
    ensures track.Decoded? && device <= before + Flatten(track.chunks) ==>
              && device[|before|..] <= Flatten(track.chunks)
              && (device[|before|..] == Flatten(track.chunks) <==> device == before + Flatten(track.chunks))
  {
  }

  lemma {:induction false} TakeRead<T>(a: seq<T>, wire: seq<seq<T>>)
    requires wire != []
    ensures a + wire[0] + Flatten(wire[1..]) == a + [] + Flatten(wire)
  {
  }

  // ---------- the player of the whole system ----------

  /** What a step of the system adds to the channel to the player. */
  ghost function Wrote(s: Sys, step: Step): seq<ToPlayer>
    requires s.main.q.InRange()
  {
    if step.PlayerReceives? then [] else Next(s, step).toPlayer[|s.toPlayer|..]
  }

  /** Everything main has sent by the end of a run. */
  ghost function SentBy(s: Sys, steps: seq<Step>): seq<ToPlayer>
    requires s.main.q.InRange()
  {
    if steps == [] then s.toPlayer
    else
      var before, step := steps[..|steps| - 1], steps[|steps| - 1];
      SentBy(s, before) + Wrote(System.Run(s, before), step)
  }

  /** What a step adds to the channel to main. */
  function Told(s: Sys, step: Step): seq<ToMain> {
    match step
    case TrackEnds(failed) => if s.mode.Sounding? then [Ended(s.mode.track, failed)] else []
    case PlayerReports => [Report]
    case _ => []
  }

  /** Everything the player has told main by the end of a run. */
  ghost function ToldBy(s: Sys, steps: seq<Step>): seq<ToMain>
    requires s.main.q.InRange()
  {
    if steps == [] then s.toMain
    else
      var before, step := steps[..|steps| - 1], steps[|steps| - 1];
      ToldBy(s, before) + Told(System.Run(s, before), step)
  }

  /** The ends of tracks among the messages to main. */
  function EndsIn(msgs: seq<ToMain>): seq<ToMain> {
    if msgs == [] then []
    else
      var last := msgs[|msgs| - 1];
      EndsIn(msgs[..|msgs| - 1]) + if last.Ended? then [last] else []
  }

  /**
   A run of the system with exactly these acts of the player somewhere between
   the steps of main and the clients; no message is taken before main sent it.
   */
  ghost predicate Interleaves(s: Sys, steps: seq<Step>, acts: seq<Act>)
    requires s.main.q.InRange()
    decreases |steps|
  {
    if steps == [] then acts == []
    else
      var before := steps[..|steps| - 1];
      match steps[|steps| - 1]
      case PlayerReceives =>
        acts != [] && acts[|acts| - 1].Took? && Taken(acts) <= SentBy(s, before)
        && Interleaves(s, before, acts[..|acts| - 1])
      case TrackEnds(failed) =>
        acts != [] && acts[|acts| - 1] == Over(failed) && Interleaves(s, before, acts[..|acts| - 1])
      case _ => Interleaves(s, before, acts)
  }

  lemma {:induction false} OthersStep(s: Sys, step: Step)
    requires s.main.q.InRange() && !step.PlayerReceives? && !step.TrackEnds?
    ensures var s' := Next(s, step);
            s'.mode == s.mode && |s.toPlayer| <= |s'.toPlayer| && s'.toPlayer == s.toPlayer + Wrote(s, step)
  {
  }

  lemma {:induction false} OverStep(s: Sys, failed: bool)
    requires s.main.q.InRange()
    ensures var s' := Next(s, TrackEnds(failed)); s'.toPlayer == s.toPlayer && Wrote(s, TrackEnds(failed)) == []
  {
  }

  /** The player of the system has taken the same messages, and is doing the same. */
  lemma {:induction false} SystemFollows(s: Sys, steps: seq<Step>, acts: seq<Act>)
    requires s.main.q.InRange() && s.mode == Idle
    requires Legal(acts) && Interleaves(s, steps, acts)
    ensures System.Run(s, steps).mode == AfterAll(Idle, acts)
    ensures SentBy(s, steps) == Taken(acts) + System.Run(s, steps).toPlayer
    decreases |steps|
  {
    if steps != [] {
      var before, step := steps[..|steps| - 1], steps[|steps| - 1];
      assert steps == before + [step];
      System.RunSnoc(s, before, step);
      if step.PlayerReceives? || step.TrackEnds? {
        SystemFollows(s, before, acts[..|acts| - 1]);
        ActFollows(System.Run(s, before), SentBy(s, before), step, acts);
      } else {
        SystemFollows(s, before, acts);
        OthersStep(System.Run(s, before), step);
        AppendAssoc(Taken(acts), System.Run(s, before).toPlayer, Wrote(System.Run(s, before), step));
      }
    }
  }

  /** The player's own step. */
  lemma {:induction false} ActFollows(r: Sys, sent: seq<ToPlayer>, step: Step, acts: seq<Act>)
    requires r.main.q.InRange() && acts != [] && Legal(acts)
    requires var before, last := acts[..|acts| - 1], acts[|acts| - 1];
             && r.mode == AfterAll(Idle, before) && sent == Taken(before) + r.toPlayer
             && ((step == PlayerReceives && last.Took? && Taken(acts) <= sent)
                  || (last.Over? && step == TrackEnds(last.failed)))
    ensures Next(r, step).mode == AfterAll(Idle, acts)
    ensures sent + Wrote(r, step) == Taken(acts) + Next(r, step).toPlayer
  {
    var before, last := acts[..|acts| - 1], acts[|acts| - 1];
    assert sent + [] == sent;
    if last.Took? {
      TakesFirst(Taken(before), last.msg, r.toPlayer);
    } else {
      OverStep(r, last.failed);
      assert Taken(before) + [] == Taken(before);
    }
  }

  lemma {:induction false} TakesFirst(taken: seq<ToPlayer>, msg: ToPlayer, channel: seq<ToPlayer>)
    requires taken + [msg] <= taken + channel
    ensures channel != [] && channel[0] == msg
    ensures taken + channel == taken + [msg] + channel[1..]
  {
    assert (taken + [msg])[|taken|] == (taken + channel)[|taken|];
  }

  lemma {:induction false} EndsInSnoc(msgs: seq<ToMain>, msg: ToMain)
    ensures EndsIn(msgs + [msg]) == EndsIn(msgs) + if msg.Ended? then [msg] else []
  {
    assert (msgs + [msg])[..|msgs|] == msgs;
  }

  /** It has reported the same ends of tracks, in the same order. */
  lemma {:induction false} SystemReports(s: Sys, steps: seq<Step>, acts: seq<Act>)
    requires s.main.q.InRange() && s.mode == Idle
    requires Legal(acts) && Interleaves(s, steps, acts)
    ensures EndsIn(ToldBy(s, steps)) == EndsIn(s.toMain) + Ends(acts)
    decreases |steps|
  {
    if steps == [] {
      assert EndsIn(s.toMain) + [] == EndsIn(s.toMain);
    } else {
      var before, step := steps[..|steps| - 1], steps[|steps| - 1];
      if step.PlayerReceives? || step.TrackEnds? {
        SystemReports(s, before, acts[..|acts| - 1]);
        SystemFollows(s, before, acts[..|acts| - 1]);
        ActReports(System.Run(s, before), ToldBy(s, before), EndsIn(s.toMain), step, acts);
      } else {
        SystemReports(s, before, acts);
        OtherReports(System.Run(s, before), ToldBy(s, before), step);
      }
    }
  }

  /** The player's own step reports the end of a track, or nothing. */
  lemma {:induction false} ActReports(r: Sys, told: seq<ToMain>, start: seq<ToMain>, step: Step, acts: seq<Act>)
    requires acts != [] && Legal(acts)
    requires var before, last := acts[..|acts| - 1], acts[|acts| - 1];
             && r.mode == AfterAll(Idle, before) && EndsIn(told) == start + Ends(before)
             && ((step == PlayerReceives && last.Took?) || (last.Over? && step == TrackEnds(last.failed)))
    ensures EndsIn(told + Told(r, step)) == start + Ends(acts)
  {
    var before, last := acts[..|acts| - 1], acts[|acts| - 1];
    if last.Took? {
      assert told + [] == told && Ends(before) + [] == Ends(before);
    } else {
      var ended := Ended(r.mode.track, last.failed);
      EndsInSnoc(told, ended);
      AppendAssoc(start, Ends(before), [ended]);
    }
  }

  /** The other steps report no end. */
  lemma {:induction false} OtherReports(r: Sys, told: seq<ToMain>, step: Step)
    requires !step.PlayerReceives? && !step.TrackEnds?
    ensures EndsIn(told + Told(r, step)) == EndsIn(told)
  {
    if step.PlayerReports? {
      EndsInSnoc(told, Report);
      assert EndsIn(told) + [] == EndsIn(told);
    } else {
      assert told + [] == told;
    }
  }

  lemma {:induction false} HearsOne(told: seq<ToMain>, heard: seq<ToMain>, channel: seq<ToMain>)
    requires told == heard + channel && channel != []
    ensures told + [] == heard + [channel[0]] + channel[1..]
  {
  }

  /** Main hears what it was told in order: what it has not heard yet is the end of it. */
  lemma {:induction false} MainHears(s: Sys, steps: seq<Step>) returns (heard: seq<ToMain>)
    requires s.main.q.InRange()
    ensures ToldBy(s, steps) == heard + System.Run(s, steps).toMain
    decreases |steps|
  {
    if steps == [] {
      heard := [];
    } else {
      var before, step := steps[..|steps| - 1], steps[|steps| - 1];
      var r := System.Run(s, before);
      assert steps == before + [step];
      System.RunSnoc(s, before, step);
      heard := MainHears(s, before);
      if step.MainReceives? && r.toMain != [] {
        HearsOne(ToldBy(s, before), heard, r.toMain);
        heard := heard + [r.toMain[0]];
      } else {
        ToldStep(r, step);
        AppendAssoc(heard, r.toMain, Told(r, step));
      }
    }
  }

  lemma {:induction false} ToldStep(s: Sys, step: Step)
    requires s.main.q.InRange() && (step.MainReceives? ==> s.toMain == [])
    ensures Next(s, step).toMain == s.toMain + Told(s, step)
  {
    assert s.toMain + [] == s.toMain;
  }

  /**
   A player object in any state it can reach, between whatever main and its
   clients do meanwhile: it is the player of that run of the system, with the
   same messages still to take, and the ends of tracks it has sent are those main
   has heard and those on the way to main.
   */
  lemma {:induction false} PlayerIsTheSystemsPlayer(p: Player, steps: seq<Step>) returns (heard: seq<ToMain>)
    requires p.Valid() && Interleaves(BEGIN, steps, p.acts) && SentBy(BEGIN, steps) == p.script
    ensures var s := System.Run(BEGIN, steps);
            && s.mode == p.Now()
            && s.toPlayer == p.queue + Flatten(p.wire)
            && ToldBy(BEGIN, steps) == heard + s.toMain
            && |EndsIn(heard + s.toMain)| == |p.outbox|
            && forall i :: 0 <= i < |p.outbox| ==> p.outbox[i] == PlayerMsgOf(EndsIn(heard + s.toMain)[i])
  {
    heard := MainHears(BEGIN, steps);
    SystemFollows(BEGIN, steps, p.acts);
    SystemReports(BEGIN, steps, p.acts);
    SentAreEnds(p.acts);
    AppendAssoc(Taken(p.acts), p.queue, Flatten(p.wire));
    SamePrefix(Taken(p.acts), System.Run(BEGIN, steps).toPlayer, p.queue + Flatten(p.wire));
    assert EndsIn(ToldBy(BEGIN, steps)) == Ends(p.acts);
  }

  /**
   A player object with nothing left to take, in a timely run with nothing left to
   hear: main's state is what the object is doing.
   */
  lemma {:induction false} MainAgreesWithPlayer(p: Player, steps: seq<Step>)
    requires p.Valid() && Interleaves(BEGIN, steps, p.acts) && SentBy(BEGIN, steps) == p.script
    requires TimelyRun(BEGIN, steps)
    requires p.queue == [] && Flatten(p.wire) == [] && System.Run(BEGIN, steps).toMain == []
    ensures View(p.Now()) == System.Run(BEGIN, steps).main.q.state
  {
    var heard := PlayerIsTheSystemsPlayer(p, steps);
    MainAndPlayerAgree(steps);
  }

  lemma {:induction false} SamePrefix<T>(a: seq<T>, b: seq<T>, c: seq<T>)
    requires a + b == a + c
    ensures b == c
  {
    assert (a + b)[|a|..] == b && (a + c)[|a|..] == c;
  }
}
