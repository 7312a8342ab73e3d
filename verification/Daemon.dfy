/**
 The main process on values: what each client request and each message of the
 player does to the playing queue, the staged list, the lock and the replies.
 */
module Daemon {
  import opened Common
  import opened Playlist
  import Shuffle

  /** The messages main sends to the player. */
  datatype Cmd = Play | Resume | Pause | Stop | Seek

  /** A path argument as it arrives in a message. */
  datatype PathArg = WrongSize | NotTerminated | Path(path: string)

  /** Client requests; an argument of the wrong size is None. */
  datatype Req =
    | CtlPlay | CtlToggle | CtlPause | CtlStop | CtlFlush | CtlShow | CtlStatus | CtlNext | CtlPrev
    | CtlJump(arg: PathArg)
    | CtlMode(mode: Option<Mode>)
    | CtlBegin | CtlAdd(arg: PathArg) | CtlCommit(off: Option<int>)
    | CtlMonitor
    | CtlSeek(wellFormed: bool)
    | CtlShuffle(all: Option<bool>)
    | CtlUnknown

  /** The three switches of a mode request: on, off, undefined or toggle. */
  datatype Mode = Mode(repeatOne: int, repeatAll: int, consume: int)

  const MODE_UNDEF := -1
  const MODE_TOGGLE := -2

  datatype Reply =
    | Err(text: string)
    | BeginOk | CommitOk
    | AddOk(path: string)
    | ShowSong(path: string, playing: bool) | ShowEnd
    | StatusOf(current: Option<string>, state: PlayState, repeatOne: bool, repeatAll: bool, consume: bool)

  /** What the environment decides while a message is handled. */
  datatype Env = Env(
    ok: string -> bool,            // which paths open as regular files
    matches: string -> bool,       // which songs contain the argument of a jump
    draw: nat -> nat               // the random numbers of a shuffle
  )

  const NO_TX := -1

  datatype Main = Main(
    q: Queue,
    tx: int,                 // the connection that holds the lock
    staged: seq<string>,     // the songs added in the transaction
    conns: seq<int>,         // the open connections, by descriptor
    sent: seq<Cmd>           // what has been sent to the player, in order
  )

  function NewMode(val: bool, newval: int): bool {
    if newval == MODE_UNDEF then val else if newval == MODE_TOGGLE then !val else newval != 0
  }

  function Send(m: Main, cmds: seq<Cmd>): Main {
    m.(sent := m.sent + cmds)
  }

  /** A playing loop has run: the queue it left, and PLAY for the song it found. */
  function Started(m: Main, r: (Queue, bool)): Main {
    m.(q := r.0, sent := m.sent + if r.1 then [Play] else [])
  }

  /** main_playlist_jump */
  function DoJump(m: Main, arg: PathArg, env: Env): (r: (Main, seq<Reply>))
    requires m.q.InRange()
    ensures r.0.q.InRange()
  {
    if arg.WrongSize? then (m, [Err("wrong size")])
    else if arg.NotTerminated? then (m, [Err("data corrupted")])
    else
      var (q, song) := Jump(m.q, env.matches);
      if song.None? then (m, [Err("not found")])
      else
        var m1 := Send(m.(q := q), [Stop]);
        if env.ok(song.value) then
          var m2 := Started(m1, (q.(state := Playing), true));
          (m2, [Status(m2.q)])
        else
          (Started(m1, PlayAdvance(DropCurrent(q), env.ok)), [Err("can't play")])
  }

  /** main_send_status */
  function Status(q: Queue): Reply {
    StatusOf(q.current, q.state, q.repeatOne, q.repeatAll, q.consume)
  }

  /** main_send_playlist: the songs in order, the one at the position marked, then the end. */
  function Listing(songs: seq<string>, off: int): (r: seq<Reply>)
    ensures |r| == |songs| + 1
    ensures forall i :: 0 <= i < |songs| ==> r[i] == ShowSong(songs[i], i == off)
    ensures r[|songs|] == ShowEnd
  {
    seq(|songs|, i requires 0 <= i < |songs| => ShowSong(songs[i], i == off)) + [ShowEnd]
  }

  /** main_seek */
  function DoSeek(m: Main, env: Env): (r: Main)
    requires m.q.InRange()
    ensures r.q.InRange()
  {
    var m1 :=
      match m.q.state
      case Stopped => Started(m, PlayResume(m.q, env.ok))
      case Playing => m
      case Paused => m.(q := m.q.(state := Playing));
    Send(m1, [Seek])
  }

  /** main_enqueue: into the staged list in a transaction, else into the queue. */
  function DoAdd(m: Main, arg: PathArg): (r: (Main, seq<Reply>))
    requires m.q.InRange()
    ensures r.0.q.InRange()
  {
    match arg
    case WrongSize => (m, [Err("data size mismatch")])
    case NotTerminated => (m, [Err("malformed data")])
    case Path(path) =>
      if m.tx != NO_TX then (m.(staged := m.staged + [path]), [AddOk(path)])
      else (m.(q := m.q.(songs := m.q.songs + [path])), [AddOk(path)])
  }

  /** control_dispatch_imsg, for one request of an open connection. */
  function HandleClient(m: Main, fd: int, req: Req, env: Env): (r: (Main, seq<Reply>))
    requires m.q.InRange()
    ensures r.0.q.InRange()
  {
    match req
    case CtlPlay =>
      (match m.q.state
       case Stopped => (Started(m, PlayResume(m.q, env.ok)), [])
       case Playing => (m, [])
       case Paused => (Send(m.(q := m.q.(state := Playing)), [Resume]), []))
    case CtlToggle =>
      (match m.q.state
       case Stopped => (Started(m, PlayResume(m.q, env.ok)), [])
       case Playing => (Send(m.(q := m.q.(state := Paused)), [Pause]), [])
       case Paused => (Send(m.(q := m.q.(state := Playing)), [Resume]), []))
    case CtlPause =>
      if m.q.state != Playing then (m, []) else (Send(m.(q := m.q.(state := Paused)), [Pause]), [])
    case CtlStop =>
      if m.q.state == Stopped then (m, []) else (Send(m.(q := m.q.(state := Stopped)), [Stop]), [])
    case CtlFlush => (m.(q := Truncate(m.q)), [])
    case CtlShow => (m, Listing(m.q.songs, m.q.off))
    case CtlStatus => (m, [Status(m.q)])
    case CtlNext => (Started(Send(m, [Stop]), PlayAdvance(m.q, env.ok)), [])
    case CtlPrev => (Started(Send(m, [Stop]), PlayPrevious(m.q, env.ok)), [])
    case CtlJump(arg) => DoJump(m, arg, env)
    case CtlMode(mode) =>
      if mode.None? then (m, [])
      else (m.(q := m.q.(consume := NewMode(m.q.consume, mode.value.consume),
                         repeatAll := NewMode(m.q.repeatAll, mode.value.repeatAll),
                         repeatOne := NewMode(m.q.repeatOne, mode.value.repeatOne))), [])
    case CtlBegin =>
      if m.tx != NO_TX then (m, [Err("locked")]) else (m.(tx := fd), [BeginOk])
    case CtlAdd(arg) =>
      if m.tx != NO_TX && m.tx != fd then (m, [Err("locked")]) else DoAdd(m, arg)
    case CtlCommit(off) =>
      if m.tx != fd then (m, [Err("locked")])
      else if off.None? then (m, [Err("wrong size")])
      else (m.(q := SwapIn(m.q, m.staged, off.value), staged := [], tx := NO_TX), [CommitOk])
    case CtlMonitor => (m, [])
    case CtlSeek(wellFormed) =>
      if !wellFormed then (m, [Err("wrong size")]) else (DoSeek(m, env), [])
    case CtlShuffle(all) =>
      if m.tx != NO_TX && m.tx != fd then (m, [Err("locked")])
      else if all.None? then (m, [Err("wrong size")])
      else
        var (songs, off) := Shuffle.ShuffleAll(m.q.songs, m.q.off, all.value, env.draw);
        Shuffle.ShuffleKeepsCurrent(m.q.songs, m.q.off, all.value, env.draw);
        (m.(q := m.q.(songs := songs, off := off)), [])
    case CtlUnknown => (m, [])
  }

  /** The messages the player sends to main. */
  datatype PlayerMsg = Meta | Eof | Error

  /** main_dispatch_player, for one message. */
  function HandlePlayer(m: Main, msg: PlayerMsg, env: Env): (r: Main)
    requires m.q.InRange()
    ensures r.q.InRange()
  {
    match msg
    case Meta => m
    case Error => Started(m, PlayAdvance(DropCurrent(m.q), env.ok))
    case Eof =>
      if m.q.repeatOne && m.q.current.Some? && env.ok(m.q.current.value) then
        Started(m, (m.q.(state := Playing), true))
      else
        var q := if m.q.repeatOne || m.q.consume then DropCurrent(m.q) else m.q;
        Started(m, PlayAdvance(q, env.ok))
  }

  /** control_accept: the kernel returns a descriptor that is not in use. */
  function HandleAccept(m: Main, fd: int): Main {
    if fd < 0 || fd in m.conns then m else m.(conns := m.conns + [fd])
  }

  /** The connections without the first one on a descriptor. */
  function Without(conns: seq<int>, fd: int): seq<int> {
    if conns == [] then [] else if conns[0] == fd then conns[1..] else [conns[0]] + Without(conns[1..], fd)
  }

  /** control_close: a transaction of this connection is aborted. */
  function HandleClose(m: Main, fd: int): Main {
    if fd !in m.conns then m
    else
      var m1 := if m.tx != NO_TX && fd == m.tx then m.(staged := [], tx := NO_TX) else m;
      m1.(conns := Without(m1.conns, fd))
  }

  datatype Event =
    | Accept(fd: int)
    | Close(fd: int)
    | Client(fd: int, req: Req, env: Env)
    | FromPlayer(msg: PlayerMsg, env: Env)

  /** One event of the main loop; requests of unknown connections are dropped. */
  function Handle(m: Main, e: Event): (r: Main)
    requires m.q.InRange()
    ensures r.q.InRange()
  {
    match e
    case Accept(fd) => HandleAccept(m, fd)
    case Close(fd) => HandleClose(m, fd)
    case Client(fd, req, env) => if fd in m.conns then HandleClient(m, fd, req, env).0 else m
    case FromPlayer(msg, env) => HandlePlayer(m, msg, env)
  }

  const START := Main(Queue([], -1, None, Stopped, false, true, false), NO_TX, [], [], [])

  ghost predicate NoDuplicates(s: seq<int>) {
    forall i, j :: 0 <= i < j < |s| ==> s[i] != s[j]
  }

  /** What holds between events. */
  ghost predicate Inv(m: Main) {
    && m.q.Valid()
    && NoDuplicates(m.conns) && (forall fd :: fd in m.conns ==> 0 <= fd)
    && (m.tx == NO_TX ==> m.staged == [])
    && (m.tx != NO_TX ==> m.tx in m.conns)
  }

  lemma {:induction false} WithoutMembers(conns: seq<int>, fd: int)
    requires NoDuplicates(conns)
    ensures NoDuplicates(Without(conns, fd))
    ensures forall x :: x in Without(conns, fd) <==> x in conns && x != fd
  {
    if conns != [] {
      var tail := conns[1..];
      assert forall i :: 0 <= i < |tail| ==> tail[i] == conns[i + 1];
      WithoutMembers(tail, fd);
      assert conns[0] !in tail;
      var w := Without(tail, fd);
      assert conns[0] !in w;
      forall i, j | 0 <= i < j < |[conns[0]] + w| ensures ([conns[0]] + w)[i] != ([conns[0]] + w)[j] {
        assert ([conns[0]] + w)[j] == w[j - 1];
        if i != 0 { assert ([conns[0]] + w)[i] == w[i - 1]; }
      }
    }
  }

  lemma {:induction false} ClientKeepsInv(m: Main, fd: int, req: Req, env: Env)
    requires Inv(m) && fd in m.conns
    ensures Inv(HandleClient(m, fd, req, env).0)
  {
  }

  lemma {:induction false} HandleKeepsInv(m: Main, e: Event)
    requires Inv(m)
    ensures Inv(Handle(m, e))
  {
    match e
    case Accept(fd) =>
    case Close(fd) =>
      if fd in m.conns { WithoutMembers(m.conns, fd); }
    case Client(fd, req, env) =>
      if fd in m.conns { ClientKeepsInv(m, fd, req, env); }
    case FromPlayer(msg, env) =>
  }

  ghost function Run(m: Main, events: seq<Event>): (r: Main)
    requires Inv(m)
    ensures Inv(r)
    decreases |events|
  {
    if events == [] then m
    else
      HandleKeepsInv(m, events[0]);
      Run(Handle(m, events[0]), events[1..])
  }
}
