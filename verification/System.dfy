/**
 Clients, main and player as one state machine over two FIFO channels. Every
 PLAY gets a number, and the player's end-of-track messages carry the number
 of the track they are about, so that stale ones can be told apart.
 */
module System {
  import opened Common
  import opened Playlist
  import opened Daemon

  /** The commands that start no track. */
  type Control = c: Cmd | c != Play witness Stop

  /** A message to the player; track numbers the PLAYs from one on. */
  datatype ToPlayer = StartTrack(track: nat) | Other(cmd: Control)

  /** A message to main: position reports, or the end of a track. */
  datatype ToMain = Report | Ended(track: nat, failed: bool)

  /** What the player is doing. */
  datatype Doing = Idle | Sounding(track: nat) | Held(track: nat)

  /** How the player takes one message in each mode. */
  function React(mode: Doing, msg: ToPlayer): Doing {
    match msg
    case StartTrack(track) => Sounding(track)
    case Other(cmd) =>
      match mode
      case Idle => Idle
      case Sounding(track) => if cmd == Stop then Idle else if cmd == Pause then Held(track) else mode
      case Held(track) => if cmd == Resume || cmd == Seek then Sounding(track) else Idle
  }

  function ReactAll(mode: Doing, msgs: seq<ToPlayer>): Doing
    decreases |msgs|
  {
    if msgs == [] then mode else ReactAll(React(mode, msgs[0]), msgs[1..])
  }

  /** The mode main's state claims. */
  function View(mode: Doing): PlayState {
    match mode
    case Idle => Stopped
    case Sounding(_) => Playing
    case Held(_) => Paused
  }

  /** Numbering the PLAYs among the commands main sends. */
  function Number(track: nat, cmds: seq<Cmd>): (seq<ToPlayer>, nat)
    decreases |cmds|
  {
    if cmds == [] then ([], track)
    else if cmds[0] == Play then
      var r := Number(track + 1, cmds[1..]);
      ([StartTrack(track + 1)] + r.0, r.1)
    else
      var r := Number(track, cmds[1..]);
      ([Other(cmds[0])] + r.0, r.1)
  }

  datatype Sys = Sys(main: Main, toPlayer: seq<ToPlayer>, toMain: seq<ToMain>, mode: Doing, last: nat)

  datatype Step =
    | Outside(e: Event)        // a client connects, closes or asks for something
    | MainReceives(env: Env)   // main handles the oldest message of the player
    | PlayerReceives           // the player handles the oldest message of main
    | TrackEnds(failed: bool)  // the sounding track is over
    | PlayerReports

  /** What main sends while handling something goes into the channel, numbered. */
  function Sent(s: Sys, m: Main): Sys {
    var r := Number(s.last, m.sent);
    s.(main := m.(sent := []), toPlayer := s.toPlayer + r.0, last := r.1)
  }

  function PlayerMsgOf(msg: ToMain): PlayerMsg {
    if msg.Report? then Meta else if msg.failed then Error else Eof
  }

  function Next(s: Sys, step: Step): Sys
    requires s.main.q.InRange()
  {
    match step
    case Outside(e) => if e.FromPlayer? then s else Sent(s, Handle(s.main.(sent := []), e))
    case MainReceives(env) =>
      if s.toMain == [] then s
      else Sent(s.(toMain := s.toMain[1..]), HandlePlayer(s.main.(sent := []), PlayerMsgOf(s.toMain[0]), env))
    case PlayerReceives =>
      if s.toPlayer == [] then s
      else s.(mode := React(s.mode, s.toPlayer[0]), toPlayer := s.toPlayer[1..])
    case TrackEnds(failed) =>
      if s.mode.Sounding? then s.(mode := Idle, toMain := s.toMain + [Ended(s.mode.track, failed)]) else s
    case PlayerReports => s.(toMain := s.toMain + [Report])
  }

  const BEGIN := Sys(START, [], [], Idle, 0)

  // ---------- what main sends agrees with the state it takes on ----------

  /** The same reactions without track numbers. */
  function Obey(state: PlayState, cmd: Cmd): PlayState {
    match cmd
    case Play => Playing
    case Stop => Stopped
    case Pause => if state == Playing then Paused else Stopped
    case Resume => if state == Stopped then Stopped else Playing
    case Seek => if state == Stopped then Stopped else Playing
  }

  function ObeyAll(state: PlayState, cmds: seq<Cmd>): PlayState
    decreases |cmds|
  {
    if cmds == [] then state else ObeyAll(Obey(state, cmds[0]), cmds[1..])
  }

  /** Whatever a client asks for, a player in main's old state ends in main's new state. */
  lemma {:induction false} ClientAgrees(m: Main, e: Event)
    requires Inv(m) && m.sent == [] && !e.FromPlayer?
    ensures ObeyAll(m.q.state, Handle(m, e).sent) == Handle(m, e).q.state
  {
    if e.Client? && e.fd in m.conns {
      ClientSends(m, e.fd, e.req, e.env);
      ShortAgrees(m.q.state, Handle(m, e).sent, Handle(m, e).q.state);
    } else {
      assert Handle(m, e).sent == [] && Handle(m, e).q == m.q;
    }
  }

  lemma {:induction false} ObeyTwo(state: PlayState, a: Cmd, b: Cmd)
    ensures ObeyAll(state, []) == state
    ensures ObeyAll(state, [a]) == Obey(state, a)
    ensures ObeyAll(state, [a, b]) == Obey(Obey(state, a), b)
  {
    assert [a][1..] == [] && [a, b][1..] == [b];
    assert ObeyAll(Obey(state, a), [b]) == Obey(Obey(state, a), b);
  }

  /** The commands are at most two, and they take a player from one state to the other. */
  ghost predicate Short(before: PlayState, cmds: seq<Cmd>, after: PlayState) {
    || (cmds == [] && before == after)
    || (|cmds| == 1 && cmds == [cmds[0]] && Obey(before, cmds[0]) == after)
    || (|cmds| == 2 && cmds == [cmds[0], cmds[1]] && Obey(Obey(before, cmds[0]), cmds[1]) == after)
  }

  lemma {:induction false} ShortAgrees(before: PlayState, cmds: seq<Cmd>, after: PlayState)
    requires Short(before, cmds, after)
    ensures ObeyAll(before, cmds) == after
  {
    if |cmds| == 1 { ObeyTwo(before, cmds[0], Play); }
    if |cmds| == 2 { ObeyTwo(before, cmds[0], cmds[1]); }
  }

  lemma {:induction false} JumpSends(m: Main, fd: int, req: Req, env: Env)
    requires m.q.InRange() && m.sent == [] && req.CtlJump?
    ensures var m' := HandleClient(m, fd, req, env).0; Short(m.q.state, m'.sent, m'.q.state)
  {
  }

  lemma {:induction false} SeekSends(m: Main, fd: int, req: Req, env: Env)
    requires m.q.InRange() && m.sent == [] && req.CtlSeek?
    ensures var m' := HandleClient(m, fd, req, env).0; Short(m.q.state, m'.sent, m'.q.state)
  {
  }

  /** The requests about the list and the transaction send nothing. */
  predicate IsQuiet(req: Req) {
    || req.CtlFlush? || req.CtlShow? || req.CtlStatus? || req.CtlMode? || req.CtlBegin? || req.CtlAdd?
    || req.CtlCommit? || req.CtlMonitor? || req.CtlShuffle? || req.CtlUnknown?
  }

  lemma {:induction false} QuietSends(m: Main, fd: int, req: Req, env: Env)
    requires m.q.InRange() && m.sent == [] && IsQuiet(req)
    ensures var m' := HandleClient(m, fd, req, env).0; Short(m.q.state, m'.sent, m'.q.state)
  {
  }

  lemma {:induction false} OtherSends(m: Main, fd: int, req: Req, env: Env)
    requires m.q.InRange() && m.sent == [] && !req.CtlJump? && !req.CtlSeek? && !IsQuiet(req)
    ensures var m' := HandleClient(m, fd, req, env).0; Short(m.q.state, m'.sent, m'.q.state)
  {
  }

  lemma {:induction false} ClientSends(m: Main, fd: int, req: Req, env: Env)
    requires m.q.InRange() && m.sent == []
    ensures var m' := HandleClient(m, fd, req, env).0; Short(m.q.state, m'.sent, m'.q.state)
  {
    if IsQuiet(req) { QuietSends(m, fd, req, env); }
    else if req.CtlJump? { JumpSends(m, fd, req, env); }
    else if req.CtlSeek? { SeekSends(m, fd, req, env); }
    else { OtherSends(m, fd, req, env); }
  }

  // ---------- channels ----------

  lemma {:induction false} ReactAppend(mode: Doing, a: seq<ToPlayer>, b: seq<ToPlayer>)
    ensures ReactAll(mode, a + b) == ReactAll(ReactAll(mode, a), b)
    decreases |a|
  {
    if a == [] {
      assert a + b == b;
    } else {
      assert (a + b)[0] == a[0] && (a + b)[1..] == a[1..] + b;
      ReactAppend(React(mode, a[0]), a[1..], b);
    }
  }

  /** The tracks of the PLAYs in a channel. */
  function Starts(msgs: seq<ToPlayer>): seq<nat> {
    if msgs == [] then []
    else if msgs[0].StartTrack? then [msgs[0].track] + Starts(msgs[1..])
    else Starts(msgs[1..])
  }

  lemma {:induction false} StartsAppend(a: seq<ToPlayer>, b: seq<ToPlayer>)
    ensures Starts(a + b) == Starts(a) + Starts(b)
  {
    if a == [] {
      assert a + b == b;
    } else {
      assert (a + b)[0] == a[0] && (a + b)[1..] == a[1..] + b;
      StartsAppend(a[1..], b);
    }
  }

  /** Numbered commands do what the commands do, and end in the last track started. */
  lemma {:induction false} NumberReacts(track: nat, cmds: seq<Cmd>, mode: Doing)
    requires mode.Sounding? || mode.Held? ==> mode.track == track
    ensures var (msgs, track') := Number(track, cmds);
            var mode' := ReactAll(mode, msgs);
            && track <= track'
            && View(mode') == ObeyAll(View(mode), cmds)
            && (mode'.Sounding? || mode'.Held? ==> mode'.track == track')
            && Starts(msgs) == seq(track' - track, i => track + 1 + i)
    decreases |cmds|
  {
    if cmds != [] {
      var (msgs, track') := Number(track, cmds);
      var t := if cmds[0] == Play then track + 1 else track;
      assert msgs[1..] == Number(t, cmds[1..]).0;
      NumberReacts(t, cmds[1..], React(mode, msgs[0]));
    }
  }

  // ---------- the invariant ----------

  /** The tracks of the PLAYs still under way are the latest ones, in order. */
  ghost predicate Consecutive(starts: seq<nat>, last: nat) {
    && |starts| <= last
    && forall i :: 0 <= i < |starts| ==> starts[i] == last - |starts| + 1 + i
  }

  /** The latest track the player has been told to start. */
  function Reached(s: Sys): int {
    s.last - |Starts(s.toPlayer)|
  }

  ghost predicate TracksInOrder(s: Sys) {
    && Consecutive(Starts(s.toPlayer), s.last)
    && (s.mode != Idle ==> s.mode.track == Reached(s))
    && (forall i :: 0 <= i < |s.toMain| && s.toMain[i].Ended? ==> s.toMain[i].track <= Reached(s))
    && (forall i :: 0 <= i < |s.toMain| && s.toMain[i].Ended? && s.toMain[i].track == Reached(s) ==> s.mode == Idle)
  }

  /** The end of the latest track is on its way to main. */
  ghost predicate EndPending(s: Sys) {
    exists i :: 0 <= i < |s.toMain| && s.toMain[i].Ended? && s.toMain[i].track == s.last
  }

  /** What the player will do once it has taken all messages under way. */
  function Upcoming(s: Sys): Doing {
    ReactAll(s.mode, s.toPlayer)
  }

  ghost predicate SysInv(s: Sys) {
    && Inv(s.main) && s.main.sent == []
    && TracksInOrder(s)
    && (!EndPending(s) ==> View(Upcoming(s)) == s.main.q.state)
  }

  /** A PLAY makes what came before it irrelevant. */
  lemma {:induction false} StartForgets(a: Doing, b: Doing, msgs: seq<ToPlayer>)
    requires Starts(msgs) != []
    ensures ReactAll(a, msgs) == ReactAll(b, msgs)
    decreases |msgs|
  {
    if !msgs[0].StartTrack? {
      StartForgets(React(a, msgs[0]), React(b, msgs[0]), msgs[1..]);
    }
  }

  lemma {:induction false} IdleStays(msgs: seq<ToPlayer>)
    requires Starts(msgs) == []
    ensures ReactAll(Idle, msgs) == Idle
  {
    if msgs != [] {
      IdleStays(msgs[1..]);
    }
  }

  lemma {:induction false} PlayForgets(a: PlayState, b: PlayState, cmds: seq<Cmd>)
    requires Play in cmds
    ensures ObeyAll(a, cmds) == ObeyAll(b, cmds)
    decreases |cmds|
  {
    if cmds[0] != Play {
      PlayForgets(Obey(a, cmds[0]), Obey(b, cmds[0]), cmds[1..]);
    }
  }

  lemma {:induction false} NumberCounts(track: nat, cmds: seq<Cmd>)
    ensures Number(track, cmds).1 >= track
    ensures Number(track, cmds).1 == track <==> Play !in cmds
    decreases |cmds|
  {
    if cmds != [] {
      NumberCounts(if cmds[0] == Play then track + 1 else track, cmds[1..]);
    }
  }

  /** The upcoming mode, if not idle, is about the latest track. */
  lemma {:induction false} UpcomingTrack(mode: Doing, msgs: seq<ToPlayer>, last: nat)
    requires Consecutive(Starts(msgs), last)
    requires mode != Idle ==> mode.track == last - |Starts(msgs)|
    ensures ReactAll(mode, msgs) != Idle ==> ReactAll(mode, msgs).track == last
    decreases |msgs|
  {
    if msgs != [] {
      if msgs[0].StartTrack? {
        assert Starts(msgs)[0] == msgs[0].track;
        assert Starts(msgs)[1..] == Starts(msgs[1..]);
        assert forall i :: 0 <= i < |Starts(msgs[1..])| ==> Starts(msgs[1..])[i] == Starts(msgs)[i + 1];
      }
      UpcomingTrack(React(mode, msgs[0]), msgs[1..], last);
    }
  }

  /** Main handles something: where the invariant is kept, given what it sends and the state it takes on. */
  lemma {:induction false} SentKeepsTracks(s: Sys, m: Main)
    requires TracksInOrder(s) && Inv(m)
    ensures var s' := Sent(s, m);
            && TracksInOrder(s') && Reached(s') == Reached(s) && s.last <= s'.last
            && (s'.last == s.last <==> Play !in m.sent)
            && (Upcoming(s) != Idle ==> Upcoming(s).track == s.last)
            && View(Upcoming(s')) == ObeyAll(View(Upcoming(s)), m.sent)
  {
    var (msgs, last') := Number(s.last, m.sent);
    UpcomingTrack(s.mode, s.toPlayer, s.last);
    NumberReacts(s.last, m.sent, Upcoming(s));
    NumberCounts(s.last, m.sent);
    StartsAppend(s.toPlayer, msgs);
    ReactAppend(s.mode, s.toPlayer, msgs);
  }

  /** With the end of the latest track under way the player is idle and stays so. */
  lemma {:induction false} PendingIsIdle(s: Sys)
    requires TracksInOrder(s) && EndPending(s)
    ensures Starts(s.toPlayer) == [] && s.mode == Idle && Upcoming(s) == Idle
  {
    var i :| 0 <= i < |s.toMain| && s.toMain[i].Ended? && s.toMain[i].track == s.last;
    IdleStays(s.toPlayer);
  }

  lemma {:induction false} OutsideKeeps(s: Sys, e: Event)
    requires SysInv(s) && !e.FromPlayer?
    ensures SysInv(Next(s, Outside(e)))
  {
    var m := Handle(s.main, e);
    assert s.main.(sent := []) == s.main;
    HandleKeepsInv(s.main, e);
    ClientAgrees(s.main, e);
    SentKeepsTracks(s, m);
    var s' := Sent(s, m);
    if !EndPending(s') {
      if EndPending(s) {
        PendingIsIdle(s);
        assert Play in m.sent;
        PlayForgets(Stopped, s.main.q.state, m.sent);
      }
    }
  }

  /** At the end of a track there is something to play: said of the queue and of which files open. */
  predicate FindsAnother(q: Queue, failed: bool, ok: string -> bool)
    requires q.InRange()
  {
    || (!failed && q.repeatOne && q.current.Some? && ok(q.current.value))
    || HasNext(if failed || q.repeatOne || q.consume then DropCurrent(q) else q, ok)
  }

  lemma {:induction false} AdvanceSends(m: Main, q: Queue, ok: string -> bool)
    requires q.InRange() && m.sent == []
    ensures var m' := Started(m, PlayAdvance(q, ok));
            if HasNext(q, ok) then m'.sent == [Play] && m'.q.state == Playing
            else m'.sent == [] && m'.q.state == Stopped
  {
    AdvanceFindsIff(q, ok);
    assert [] + [Play] == [Play];
  }

  /** That is when main starts another track; otherwise it stops and sends nothing. */
  lemma {:induction false} EndPlaysIff(m: Main, failed: bool, env: Env)
    requires m.q.InRange() && m.sent == []
    ensures var m' := HandlePlayer(m, if failed then Error else Eof, env);
            if FindsAnother(m.q, failed, env.ok) then m'.sent == [Play] && m'.q.state == Playing
            else m'.sent == [] && m'.q.state == Stopped
  {
    if !failed && m.q.repeatOne && m.q.current.Some? && env.ok(m.q.current.value) {
      assert [] + [Play] == [Play];
    } else {
      AdvanceSends(m, if failed || m.q.repeatOne || m.q.consume then DropCurrent(m.q) else m.q, env.ok);
    }
  }

  /** If it is the end of a track that main handles, then of the latest one, or there is another one to play. */
  ghost predicate Timely(s: Sys, step: Step)
    requires s.main.q.InRange()
  {
    step.MainReceives? && s.toMain != [] && s.toMain[0].Ended? ==>
      || s.toMain[0].track == s.last
      || FindsAnother(s.main.q, s.toMain[0].failed, step.env.ok)
  }

  lemma {:induction false} Received(s: Sys)
    requires TracksInOrder(s) && s.toMain != []
    ensures TracksInOrder(s.(toMain := s.toMain[1..]))
    ensures EndPending(s.(toMain := s.toMain[1..])) ==> EndPending(s)
    ensures EndPending(s) ==>
              EndPending(s.(toMain := s.toMain[1..])) || (s.toMain[0].Ended? && s.toMain[0].track == s.last)
  {
    var tail := s.toMain[1..];
    assert forall i :: 0 <= i < |tail| ==> tail[i] == s.toMain[i + 1];
    if EndPending(s) {
      var i :| 0 <= i < |s.toMain| && s.toMain[i].Ended? && s.toMain[i].track == s.last;
      if i != 0 { assert tail[i - 1] == s.toMain[i]; }
    }
  }

  lemma {:induction false} MainReceivesKeeps(s: Sys, env: Env)
    requires SysInv(s) && Timely(s, MainReceives(env))
    ensures SysInv(Next(s, MainReceives(env)))
  {
    if s.toMain != [] {
      var msg := s.toMain[0];
      var rest := s.(toMain := s.toMain[1..]);
      assert s.main.(sent := []) == s.main;
      var m := HandlePlayer(s.main, PlayerMsgOf(msg), env);
      HandleKeepsInv(s.main, FromPlayer(PlayerMsgOf(msg), env));
      Received(s);
      SentKeepsTracks(rest, m);
      if msg.Ended? {
        EndPlaysIff(s.main, msg.failed, env);
        EndedAgrees(s, rest, m);
      }
    }
  }

  /** After the end of a track: main plays on, or it has stopped and so will the player. */
  lemma {:induction false} EndedAgrees(s: Sys, rest: Sys, m: Main)
    requires TracksInOrder(s) && s.toMain != [] && s.toMain[0].Ended? && rest == s.(toMain := s.toMain[1..])
    requires (m.sent == [Play] && m.q.state == Playing) || (m.sent == [] && m.q.state == Stopped)
    requires s.toMain[0].track == s.last || Play in m.sent
    ensures ObeyAll(View(Upcoming(rest)), m.sent) == m.q.state
  {
    if m.sent == [Play] {
      ObeyTwo(View(Upcoming(rest)), Play, Play);
    } else {
      assert EndPending(s);
      PendingIsIdle(s);
    }
  }

  lemma {:induction false} PlayerReceivesKeeps(s: Sys)
    requires SysInv(s)
    ensures SysInv(Next(s, PlayerReceives))
  {
    if s.toPlayer != [] {
      var head, tail := s.toPlayer[0], s.toPlayer[1..];
      if head.StartTrack? {
        assert Starts(s.toPlayer)[0] == head.track && Starts(s.toPlayer)[1..] == Starts(tail);
        assert forall i :: 0 <= i < |Starts(tail)| ==> Starts(tail)[i] == Starts(s.toPlayer)[i + 1];
      }
    }
  }

  lemma {:induction false} TrackEndsKeeps(s: Sys, failed: bool)
    requires SysInv(s)
    ensures SysInv(Next(s, TrackEnds(failed)))
  {
    if s.mode.Sounding? {
      var s' := Next(s, TrackEnds(failed));
      if Starts(s.toPlayer) == [] {
        assert s'.toMain[|s.toMain|].track == s.last;
      } else {
        StartForgets(s.mode, Idle, s.toPlayer);
        if EndPending(s) { PendingIsIdle(s); }
      }
    }
  }

  lemma {:induction false} ReportKeeps(s: Sys)
    requires SysInv(s)
    ensures SysInv(Next(s, PlayerReports))
  {
    var s' := Next(s, PlayerReports);
    if EndPending(s) {
      var i :| 0 <= i < |s.toMain| && s.toMain[i].Ended? && s.toMain[i].track == s.last;
      assert s'.toMain[i] == s.toMain[i];
    }
  }

  lemma {:induction false} NextKeeps(s: Sys, step: Step)
    requires SysInv(s) && Timely(s, step)
    ensures SysInv(Next(s, step))
  {
    match step
    case Outside(e) => if !e.FromPlayer? { OutsideKeeps(s, e); }
    case MainReceives(env) => MainReceivesKeeps(s, env);
    case PlayerReceives => PlayerReceivesKeeps(s);
    case TrackEnds(failed) => TrackEndsKeeps(s, failed);
    case PlayerReports => ReportKeeps(s);
  }

  /** Main's position stays in range whatever happens, so every run is defined. */
  lemma {:induction false} NextInRange(s: Sys, step: Step)
    requires s.main.q.InRange()
    ensures Next(s, step).main.q.InRange()
  {
  }

  ghost function Run(s: Sys, steps: seq<Step>): (r: Sys)
    requires s.main.q.InRange()
    ensures r.main.q.InRange()
    decreases |steps|
  {
    if steps == [] then s
    else
      NextInRange(s, steps[0]);
      Run(Next(s, steps[0]), steps[1..])
  }

  /** Every step of the run is timely. */
  ghost predicate TimelyRun(s: Sys, steps: seq<Step>)
    requires s.main.q.InRange()
    decreases |steps|
  {
    if steps == [] then true
    else if !Timely(s, steps[0]) then false
    else
      NextInRange(s, steps[0]);
      TimelyRun(Next(s, steps[0]), steps[1..])
  }

  lemma {:induction false} RunSnoc(s: Sys, steps: seq<Step>, step: Step)
    requires s.main.q.InRange()
    ensures Run(s, steps + [step]) == Next(Run(s, steps), step)
    decreases |steps|
  {
    if steps == [] {
      assert steps + [step] == [step];
      NextInRange(s, step);
      assert Run(s, [step]) == Run(Next(s, step), [step][1..]);
    } else {
      NextInRange(s, steps[0]);
      assert (steps + [step])[0] == steps[0] && (steps + [step])[1..] == steps[1..] + [step];
      RunSnoc(Next(s, steps[0]), steps[1..], step);
    }
  }

  lemma {:induction false} RunKeeps(s: Sys, steps: seq<Step>)
    requires SysInv(s) && TimelyRun(s, steps)
    ensures SysInv(Run(s, steps))
    decreases |steps|
  {
    if steps != [] {
      NextKeeps(s, steps[0]);
      RunKeeps(Next(s, steps[0]), steps[1..]);
    }
  }

  lemma {:induction false} BeginInv()
    ensures SysInv(BEGIN)
  {
  }

  /** Whenever both channels are empty, main's state is what the player is really doing. */
  ghost predicate Agrees(s: Sys) {
    s.toPlayer == [] && s.toMain == [] ==> View(s.mode) == s.main.q.state
  }

  /** From a state that keeps the invariant the two agree in every timely run. */
  lemma {:induction false} AgreeFrom(s: Sys, steps: seq<Step>)
    requires SysInv(s) && TimelyRun(s, steps)
    ensures Agrees(Run(s, steps))
  {
    RunKeeps(s, steps);
  }

  /**
   Main and player agree in every interleaving in which each end of a track that
   main handles is about the latest track, or finds main with another one to play.
   */
  lemma {:induction false} MainAndPlayerAgree(steps: seq<Step>)
    requires TimelyRun(BEGIN, steps)
    ensures Agrees(Run(BEGIN, steps))
  {
    BeginInv();
    AgreeFrom(BEGIN, steps);
  }

  // ---------- the end of an older track that finds nothing to play ----------

  /** The player is going to be idle when main says so already, or is about to hear it. */
  lemma {:induction false} UpcomingIdleIff(s: Sys)
    requires SysInv(s)
    ensures Upcoming(s) == Idle <==> s.main.q.state == Stopped || EndPending(s)
  {
    if EndPending(s) { PendingIsIdle(s); }
  }

  /** Main stops; nothing else changes. */
  lemma {:induction false} StaleEndStops(s: Sys, env: Env)
    requires SysInv(s) && !Timely(s, MainReceives(env))
    ensures var s' := Next(s, MainReceives(env));
            && s' == s.(main := s'.main, toMain := s.toMain[1..])
            && s'.main.q.state == Stopped && s'.main.sent == []
            && (SysInv(s') <==> Upcoming(s) == Idle)
  {
    var msg := s.toMain[0];
    var rest := s.(toMain := s.toMain[1..]);
    assert s.main.(sent := []) == s.main;
    var m := HandlePlayer(s.main, PlayerMsgOf(msg), env);
    HandleKeepsInv(s.main, FromPlayer(PlayerMsgOf(msg), env));
    EndPlaysIff(s.main, msg.failed, env);
    Received(s);
    SentKeepsTracks(rest, m);
    if EndPending(Next(s, MainReceives(env))) { PendingIsIdle(s); }
  }

  /** Both sides only take what is under way, and no file opens. */
  ghost predicate Quiet(step: Step) {
    step.PlayerReceives? || (step.MainReceives? && forall path :: !step.env.ok(path))
  }

  ghost predicate AllQuiet(steps: seq<Step>) {
    forall i :: 0 <= i < |steps| ==> Quiet(steps[i])
  }

  lemma {:induction false} NoneOpens(songs: seq<string>, ok: string -> bool)
    requires forall path :: !ok(path)
    ensures !SomeOpens(songs, ok)
  {
    if songs != [] { NoneOpens(songs[1..], ok); }
  }

  lemma {:induction false} FindsNone(q: Queue, failed: bool, ok: string -> bool)
    requires q.InRange() && forall path :: !ok(path)
    ensures !FindsAnother(q, failed, ok)
  {
    var d := if failed || q.repeatOne || q.consume then DropCurrent(q) else q;
    NoneOpens(if d.repeatAll then d.songs else d.songs[d.off + 1..], ok);
  }

  /** Main takes a message and nothing opens: it stays as it was, or it stops. */
  lemma {:induction false} QuietReceive(s: Sys, env: Env)
    requires s.main.q.InRange() && s.main.q.state == Stopped && s.main.sent == []
    requires s.toMain != [] && forall path :: !env.ok(path)
    ensures var s' := Next(s, MainReceives(env));
            && s' == s.(main := s'.main, toMain := s.toMain[1..])
            && s'.main.q.state == Stopped && s'.main.sent == []
  {
    assert s.main.(sent := []) == s.main && s.toPlayer + [] == s.toPlayer;
    if s.toMain[0].Ended? {
      FindsNone(s.main.q, s.toMain[0].failed, env.ok);
      EndPlaysIff(s.main, s.toMain[0].failed, env);
    }
  }

  lemma {:induction false} QuietKeepsStopped(s: Sys, step: Step)
    requires s.main.q.InRange() && s.main.q.state == Stopped && s.main.sent == [] && Quiet(step)
    ensures var s' := Next(s, step);
            s'.main.q.InRange() && s'.main.q.state == Stopped && s'.main.sent == [] && Upcoming(s') == Upcoming(s)
  {
    if step.MainReceives? && s.toMain != [] { QuietReceive(s, step.env); }
  }

  lemma {:induction false} QuietRunKeepsStopped(s: Sys, steps: seq<Step>)
    requires s.main.q.InRange() && s.main.q.state == Stopped && s.main.sent == [] && AllQuiet(steps)
    ensures var s' := Run(s, steps); s'.main.q.state == Stopped && Upcoming(s') == Upcoming(s)
    decreases |steps|
  {
    if steps != [] {
      assert Quiet(steps[0]);
      QuietKeepsStopped(s, steps[0]);
      assert forall i :: 0 <= i < |steps[1..]| ==> Quiet(steps[1..][i]) by {
        assert forall i :: 0 <= i < |steps[1..]| ==> steps[1..][i] == steps[i + 1];
      }
      QuietRunKeepsStopped(Next(s, steps[0]), steps[1..]);
    }
  }

  const NOTHING_OPENS := Env(_ => false, _ => false, _ => 0)

  /** Everything under way can be taken in that way. */
  lemma {:induction false} QuietDrains(s: Sys) returns (steps: seq<Step>)
    requires s.main.q.InRange() && s.main.q.state == Stopped && s.main.sent == []
    ensures AllQuiet(steps) && Run(s, steps).toPlayer == [] && Run(s, steps).toMain == []
    decreases |s.toPlayer| + |s.toMain|
  {
    steps := [];
    if s.toPlayer != [] || s.toMain != [] {
      var step := if s.toPlayer != [] then PlayerReceives else MainReceives(NOTHING_OPENS);
      QuietKeepsStopped(s, step);
      QuietShrinks(s, step);
      var more := QuietDrains(Next(s, step));
      steps := [step] + more;
      assert steps[1..] == more;
    }
  }

  lemma {:induction false} QuietShrinks(s: Sys, step: Step)
    requires s.main.q.InRange() && s.main.q.state == Stopped && s.main.sent == []
    requires step == if s.toPlayer != [] then PlayerReceives else MainReceives(NOTHING_OPENS)
    requires s.toPlayer != [] || s.toMain != []
    ensures |Next(s, step).toPlayer| + |Next(s, step).toMain| < |s.toPlayer| + |s.toMain|
  {
    if s.toPlayer == [] { QuietReceive(s, NOTHING_OPENS); }
  }

  /** However the rest is taken in, what shows at the end is decided by what the player was going to do. */
  lemma {:induction false} StaleEndShowsIff(s: Sys, env: Env, steps: seq<Step>)
    requires SysInv(s) && !Timely(s, MainReceives(env)) && AllQuiet(steps)
    ensures var s' := Run(Next(s, MainReceives(env)), steps);
            s'.toPlayer == [] && s'.toMain == [] ==>
              (View(s'.mode) == s'.main.q.state <==> s.main.q.state == Stopped || EndPending(s))
  {
    StaleEndStops(s, env);
    UpcomingIdleIff(s);
    QuietRunKeepsStopped(Next(s, MainReceives(env)), steps);
  }

  /**
   The remaining case, exactly. If main was stopped already, or the end of the
   latest track is on its way too, the two go on to agree in every timely run.
   If not, there is a run that empties both channels and leaves them apart.
   */
  lemma {:induction false} StaleEndBreaksAgreementIff(s: Sys, env: Env) returns (steps: seq<Step>)
    requires SysInv(s) && !Timely(s, MainReceives(env))
    ensures var s' := Next(s, MainReceives(env));
            s.main.q.state == Stopped || EndPending(s) ==>
              SysInv(s') && forall more :: TimelyRun(s', more) ==> Agrees(Run(s', more))
    ensures Agrees(Run(Next(s, MainReceives(env)), steps)) <==> s.main.q.state == Stopped || EndPending(s)
  {
    var s' := Next(s, MainReceives(env));
    StaleEndStops(s, env);
    UpcomingIdleIff(s);
    if SysInv(s') {
      forall more | TimelyRun(s', more) ensures Agrees(Run(s', more)) {
        AgreeFrom(s', more);
      }
    }
    steps := QuietDrains(s');
    StaleEndShowsIff(s, env, steps);
  }

  // ---------- a run in which a stale end breaks the agreement ----------

  const OPENS := Env(_ => true, _ => true, _ => 0)

  /** A client asks for something. */
  function Ask(req: Req): Step {
    Outside(Client(3, req, OPENS))
  }

  const ONE_SONG := Main(Queue(["/a"], -1, None, Stopped, false, false, false), NO_TX, [], [3], [])

  /** A client connects, switches repeat all off and adds a song. */
  lemma {:induction false} OneSong()
    ensures Run(BEGIN, [Outside(Accept(3)), Ask(CtlMode(Some(Mode(MODE_UNDEF, 0, MODE_UNDEF)))),
            Ask(CtlAdd(Path("/a")))])
         == Sys(ONE_SONG, [], [], Idle, 0)
  {
    var s1 := Next(BEGIN, Outside(Accept(3)));
    assert s1 == BEGIN.(main := START.(conns := [3]));
    var mode := Ask(CtlMode(Some(Mode(MODE_UNDEF, 0, MODE_UNDEF))));
    var s2 := Next(s1, mode);
    assert s2 == BEGIN.(main := ONE_SONG.(q := ONE_SONG.q.(songs := [])));
    var add := Ask(CtlAdd(Path("/a")));
    assert Next(s2, add) == Sys(ONE_SONG, [], [], Idle, 0);
    RunSnoc(BEGIN, [], Outside(Accept(3)));
    RunSnoc(BEGIN, [Outside(Accept(3))], mode);
    RunSnoc(BEGIN, [Outside(Accept(3)), mode], add);
    assert [Outside(Accept(3))] + [mode] == [Outside(Accept(3)), mode];
    assert [Outside(Accept(3)), mode] + [add] == [Outside(Accept(3)), mode, add];
    assert [] + [Outside(Accept(3))] == [Outside(Accept(3))];
  }

  const ONE_PLAYING := ONE_SONG.(q := ONE_SONG.q.(off := 0, current := Some("/a"), state := Playing))

  const NONE_PLAYING := ONE_SONG.(q := ONE_SONG.q.(off := -1, current := None, state := Stopped))

  /** It plays the song; the track ends, and before main hears of it the client jumps to the song again. */
  lemma {:induction false} EndedAndJumped(s: Sys)
    requires s == Sys(ONE_SONG, [], [], Idle, 0)
    ensures Next(s, Ask(CtlPlay)) == Sys(ONE_PLAYING, [StartTrack(1)], [], Idle, 1)
    ensures var s1 := Sys(ONE_PLAYING, [StartTrack(1)], [], Idle, 1);
            Next(s1, PlayerReceives) == Sys(ONE_PLAYING, [], [], Sounding(1), 1)
    ensures var s2 := Sys(ONE_PLAYING, [], [], Sounding(1), 1);
            Next(s2, TrackEnds(false)) == Sys(ONE_PLAYING, [], [Ended(1, false)], Idle, 1)
    ensures var s3 := Sys(ONE_PLAYING, [], [Ended(1, false)], Idle, 1);
            Next(s3, Ask(CtlJump(Path("a"))))
              == Sys(ONE_PLAYING, [Other(Stop), StartTrack(2)], [Ended(1, false)], Idle, 2)
  {
    var play := Handle(ONE_SONG, Client(3, CtlPlay, OPENS));
    assert play == ONE_PLAYING.(sent := [Play]);
    NumberOne(0);
    var jump := Handle(ONE_PLAYING, Client(3, CtlJump(Path("a")), OPENS));
    assert jump == ONE_PLAYING.(sent := [Stop, Play]);
    NumberTwo(1);
    assert ONE_SONG.(sent := []) == ONE_SONG && ONE_PLAYING.(sent := []) == ONE_PLAYING;
  }

  lemma {:induction false} NumberOne(track: nat)
    ensures Number(track, [Play]) == ([StartTrack(track + 1)], track + 1)
  {
    var none: seq<Cmd> := [];
    var sent: seq<ToPlayer> := [StartTrack(track + 1)];
    assert [Play][1..] == none && Number(track + 1, none) == ([], track + 1);
    assert sent + [] == sent;
  }

  lemma {:induction false} NumberTwo(track: nat)
    ensures Number(track, [Stop, Play]) == ([Other(Stop), StartTrack(track + 1)], track + 1)
  {
    var stop: seq<ToPlayer> := [Other(Stop)];
    assert [Stop, Play][1..] == [Play];
    NumberOne(track);
    assert stop + [StartTrack(track + 1)] == [Other(Stop), StartTrack(track + 1)];
  }

  /** Main takes the end of the first track for that of the second, and the player starts the second. */
  lemma {:induction false} StaleEndTaken(s: Sys)
    requires s == Sys(ONE_PLAYING, [Other(Stop), StartTrack(2)], [Ended(1, false)], Idle, 2)
    ensures Next(s, MainReceives(OPENS)) == Sys(NONE_PLAYING, [Other(Stop), StartTrack(2)], [], Idle, 2)
    ensures var s1 := Sys(NONE_PLAYING, [Other(Stop), StartTrack(2)], [], Idle, 2);
            Next(s1, PlayerReceives) == Sys(NONE_PLAYING, [StartTrack(2)], [], Idle, 2)
    ensures var s2 := Sys(NONE_PLAYING, [StartTrack(2)], [], Idle, 2);
            Next(s2, PlayerReceives) == Sys(NONE_PLAYING, [], [], Sounding(2), 2)
  {
    assert ONE_PLAYING.(sent := []) == ONE_PLAYING;
    assert HandlePlayer(ONE_PLAYING, Eof, OPENS) == NONE_PLAYING;
    assert Number(2, []) == ([], 2);
  }

  /**
   Such a run from the start: it ends with both channels empty, main stopped and
   the player playing.
   */
  lemma {:induction false} StaleEndExample() returns (steps: seq<Step>)
    ensures Run(BEGIN, steps) == Sys(NONE_PLAYING, [], [], Sounding(2), 2)
    ensures View(Sounding(2)) != NONE_PLAYING.q.state
  {
    steps := [Outside(Accept(3)), Ask(CtlMode(Some(Mode(MODE_UNDEF, 0, MODE_UNDEF)))), Ask(CtlAdd(Path("/a")))];
    OneSong();
    EndedAndJumped(Sys(ONE_SONG, [], [], Idle, 0));
    StaleEndTaken(Sys(ONE_PLAYING, [Other(Stop), StartTrack(2)], [Ended(1, false)], Idle, 2));
    steps := Then(steps, Ask(CtlPlay));
    steps := Then(steps, PlayerReceives);
    steps := Then(steps, TrackEnds(false));
    steps := Then(steps, Ask(CtlJump(Path("a"))));
    steps := Then(steps, MainReceives(OPENS));
    steps := Then(steps, PlayerReceives);
    steps := Then(steps, PlayerReceives);
  }

  lemma {:induction false} Then(steps: seq<Step>, step: Step) returns (more: seq<Step>)
    ensures Run(BEGIN, more) == Next(Run(BEGIN, steps), step)
  {
    more := steps + [step];
    RunSnoc(BEGIN, steps, step);
  }
}
