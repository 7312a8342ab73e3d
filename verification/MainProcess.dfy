/** amused.c and control.c: the main process, handling one message after another. */
module MainProcess {
  import opened Common
  import opened Playlist
  import opened Daemon
  import opened SongList
  import opened Deck

  class MainProcess {
    const deck: Deck
    const staged: SongList   // control_state.play
    var tx: int              // control_state.tx
    var conns: seq<int>      // ctl_conns
    var sent: seq<Cmd>       // what has been sent to the player

    ghost predicate Valid()
      reads this, deck, deck.list, staged
    {
      && deck.Valid() && staged.Valid()
      && staged != deck.list && staged.songs != deck.list.songs
    }

    /** The value this object stands for. */
    ghost function M(): Main
      requires Valid()
      reads this, deck, deck.list, deck.list.songs, staged, staged.songs
    {
      Main(deck.Q(), tx, staged.Contents(), conns, sent)
    }

    /** All that a method may change. */
    ghost function Frame(): set<object>
      reads this, deck, deck.list, staged
    {
      {this, deck, deck.list, deck.list.songs, staged, staged.songs}
    }

    /** The arrays are the old ones or new ones. */
    twostate predicate SameArrays()
      reads this, deck, deck.list, staged
    {
      && (deck.list.songs == old(deck.list.songs) || deck.list.songs == old(staged.songs) || fresh(deck.list.songs))
      && (staged.songs == old(staged.songs) || fresh(staged.songs))
    }

    constructor ()
      ensures Valid() && fresh(Frame() - {this}) && M() == START
    {
      deck := new Deck();
      staged := new SongList();
      tx, conns, sent := NO_TX, [], [];
    }

    /** main_send_player */
    method SendPlayer(cmd: Cmd)
      modifies this`sent
      ensures sent == old(sent) + [cmd]
    {
      sent := sent + [cmd];
    }

    /** main_play_song; ok says whether the path opens as a regular file. */
    method PlaySong(path: string, ok: string -> bool) returns (played: bool)
      requires Valid()
      modifies this`sent, deck`state
      ensures Valid() && played == ok(path)
      ensures M() == if played then Started(old(M()), (old(M()).q.(state := Playing), true)) else old(M())
    {
      if !ok(path) { return false; }
      deck.state := Playing;
      SendPlayer(Play);
      return true;
    }

    method PlaylistAdvance(ok: string -> bool)
      requires Valid()
      modifies this`sent, deck, deck.list`len, deck.list.songs
      ensures Valid() && M() == Started(old(M()), PlayAdvance(old(M()).q, ok))
    {
      ghost var goal := PlayAdvance(deck.Q(), ok);
      while true
        invariant Valid() && sent == old(sent) && PlayAdvance(deck.Q(), ok) == goal
        decreases deck.list.len
      {
        var song := deck.Advance();
        if song.None? { return; }
        var played := PlaySong(song.value, ok);
        if played { return; }
        deck.DropCurrent();
      }
    }

    method PlaylistPrevious(ok: string -> bool)
      requires Valid()
      modifies this`sent, deck, deck.list`len, deck.list.songs
      ensures Valid() && M() == Started(old(M()), PlayPrevious(old(M()).q, ok))
    {
      ghost var goal := PlayPrevious(deck.Q(), ok);
      while true
        invariant Valid() && sent == old(sent) && PlayPrevious(deck.Q(), ok) == goal
        decreases deck.list.len
      {
        var song := deck.Previous();
        if song.None? { return; }
        var played := PlaySong(song.value, ok);
        if played { return; }
        deck.DropCurrent();
      }
    }

    method PlaylistResume(ok: string -> bool)
      requires Valid()
      modifies this`sent, deck, deck.list`len, deck.list.songs
      ensures Valid() && M() == Started(old(M()), PlayResume(old(M()).q, ok))
    {
      var song := deck.current;
      ResumeBegin(deck.Q(), ok);
      if song.None? { song := deck.Advance(); }
      ResumeFrom(song, ok);
    }

    /** The loop of main_playlist_resume. */
    method ResumeFrom(first: Option<string>, ok: string -> bool)
      requires Valid()
      modifies this`sent, deck, deck.list`len, deck.list.songs
      ensures Valid() && M() == Started(old(M()), ResumeWith(old(M()).q, first, ok))
    {
      var song := first;
      ghost var goal := ResumeWith(deck.Q(), song, ok);
      while song.Some?
        invariant Valid() && sent == old(sent)
        invariant ResumeWith(deck.Q(), song, ok) == goal
        decreases deck.list.len, song.Some? && deck.off == -1
      {
        var played := PlaySong(song.value, ok);
        if played { return; }
        ResumeStep(deck.Q(), song, ok);
        deck.DropCurrent();
        song := deck.Advance();
      }
    }

    // ---------- requests of a client ----------

    method PlaylistJump(arg: PathArg, env: Env) returns (replies: seq<Reply>)
      requires Valid()
      modifies this`sent, deck, deck.list`len, deck.list.songs
      ensures Valid() && (M(), replies) == DoJump(old(M()), arg, env)
    {
      if arg.WrongSize? { return [Err("wrong size")]; }
      if arg.NotTerminated? { return [Err("data corrupted")]; }
      var song := deck.Jump(env.matches);
      if song.None? { return [Err("not found")]; }
      SendPlayer(Stop);
      var played := PlaySong(song.value, env.ok);
      if !played {
        deck.DropCurrent();
        PlaylistAdvance(env.ok);
        return [Err("can't play")];
      }
      var status := SendStatus();
      return [status];
    }

    /** main_send_status */
    method SendStatus() returns (status: Reply)
      requires Valid()
      ensures status == Status(M().q)
    {
      return StatusOf(deck.current, deck.state, deck.repeatOne, deck.repeatAll, deck.consume);
    }

    /** main_send_playlist */
    method SendPlaylist() returns (replies: seq<Reply>)
      requires Valid()
      ensures replies == Listing(M().q.songs, M().q.off)
    {
      replies := [];
      for i := 0 to deck.list.len
        invariant replies == Listing(M().q.songs, M().q.off)[..i]
      {
        replies := replies + [ShowSong(deck.list.songs[i], deck.off == i)];
      }
      replies := replies + [ShowEnd];
    }

    /** main_enqueue */
    method Enqueue(arg: PathArg) returns (replies: seq<Reply>)
      requires Valid()
      modifies deck.list, deck.list.songs, staged, staged.songs
      ensures Valid() && SameArrays() && (M(), replies) == DoAdd(old(M()), arg)
    {
      match arg
      case WrongSize => return [Err("data size mismatch")];
      case NotTerminated => return [Err("malformed data")];
      case Path(path) =>
        if tx != NO_TX {
          staged.Push(path);
        } else {
          deck.list.Push(path);
        }
        return [AddOk(path)];
    }

    /** main_seek */
    method SeekTo(env: Env)
      requires Valid()
      modifies this`sent, deck, deck.list`len, deck.list.songs
      ensures Valid() && M() == DoSeek(old(M()), env)
    {
      match deck.state {
        case Stopped => PlaylistResume(env.ok);
        case Playing =>
        case Paused => deck.state := Playing;
      }
      SendPlayer(Seek);
    }

    /** The requests that start, hold or stop a song. */
    method Transport(fd: int, req: Req, env: Env)
      requires Valid()
      requires req.CtlPlay? || req.CtlToggle? || req.CtlPause? || req.CtlStop? || req.CtlNext? || req.CtlPrev?
      modifies this`sent, deck, deck.list`len, deck.list.songs
      ensures Valid() && (M(), []) == HandleClient(old(M()), fd, req, env)
    {
      match req
      case CtlPlay =>
        match deck.state {
          case Stopped => PlaylistResume(env.ok);
          case Playing =>
          case Paused =>
            deck.state := Playing;
            SendPlayer(Resume);
        }
      case CtlToggle =>
        match deck.state {
          case Stopped => PlaylistResume(env.ok);
          case Playing =>
            deck.state := Paused;
            SendPlayer(Pause);
          case Paused =>
            deck.state := Playing;
            SendPlayer(Resume);
        }
      case CtlPause =>
        if deck.state == Playing {
          deck.state := Paused;
          SendPlayer(Pause);
        }
      case CtlStop =>
        if deck.state != Stopped {
          deck.state := Stopped;
          SendPlayer(Stop);
        }
      case CtlNext =>
        SendPlayer(Stop);
        PlaylistAdvance(env.ok);
      case CtlPrev =>
        SendPlayer(Stop);
        PlaylistPrevious(env.ok);
    }

    method SetModes(mode: Mode)
      requires Valid()
      modifies deck
      ensures Valid()
      ensures forall fd, env :: (M(), []) == HandleClient(old(M()), fd, CtlMode(Some(mode)), env)
    {
      deck.consume := NewMode(deck.consume, mode.consume);
      deck.repeatAll := NewMode(deck.repeatAll, mode.repeatAll);
      deck.repeatOne := NewMode(deck.repeatOne, mode.repeatOne);
    }

    /** The commit of a transaction: the staged array becomes the playing queue. */
    method Commit(off: int)
      requires Valid()
      modifies this`tx, deck, deck.list, staged
      ensures Valid() && SameArrays()
      ensures M() == old(M()).(q := SwapIn(old(M()).q, old(M()).staged, off), staged := [], tx := NO_TX)
    {
      deck.Swap(staged, off);
      staged.Free();
      tx := NO_TX;
    }

    /** The requests about the list and the transaction. */
    method Editing(fd: int, req: Req, env: Env) returns (replies: seq<Reply>)
      requires Valid()
      requires req.CtlBegin? || req.CtlAdd? || req.CtlCommit? || req.CtlShuffle? || req.CtlFlush?
      modifies Frame()
      ensures Valid() && SameArrays() && (M(), replies) == HandleClient(old(M()), fd, req, env)
    {
      replies := [];
      match req
      case CtlFlush => deck.Truncate();
      case CtlBegin =>
        if tx != NO_TX { return [Err("locked")]; }
        tx := fd;
        return [BeginOk];
      case CtlAdd(arg) =>
        if tx != NO_TX && tx != fd { return [Err("locked")]; }
        replies := Enqueue(arg);
      case CtlCommit(off) =>
        if tx != fd { return [Err("locked")]; }
        if off.None? { return [Err("wrong size")]; }
        Commit(off.value);
        return [CommitOk];
      case CtlShuffle(all) =>
        if tx != NO_TX && tx != fd { return [Err("locked")]; }
        if all.None? { return [Err("wrong size")]; }
        deck.ShuffleSongs(all.value, env.draw);
    }

    /** control_dispatch_imsg, one request. */
    method Request(fd: int, req: Req, env: Env) returns (replies: seq<Reply>)
      requires Valid()
      modifies Frame()
      ensures Valid() && SameArrays() && (M(), replies) == HandleClient(old(M()), fd, req, env)
    {
      replies := [];
      match req
      case CtlJump(arg) => replies := PlaylistJump(arg, env);
      case CtlShow => replies := SendPlaylist();
      case CtlStatus =>
        var status := SendStatus();
        replies := [status];
      case CtlMode(mode) => if mode.Some? { SetModes(mode.value); }
      case CtlSeek(wellFormed) =>
        if !wellFormed { return [Err("wrong size")]; }
        SeekTo(env);
      case CtlMonitor =>
      case CtlUnknown =>
      case CtlFlush => replies := Editing(fd, req, env);
      case CtlBegin => replies := Editing(fd, req, env);
      case CtlAdd(_) => replies := Editing(fd, req, env);
      case CtlCommit(_) => replies := Editing(fd, req, env);
      case CtlShuffle(_) => replies := Editing(fd, req, env);
      case _ => Transport(fd, req, env);
    }

    // ---------- events ----------

    /** control_connbyfd: where the connection is in the list, or its length. */
    method ConnByFd(fd: int) returns (i: nat)
      ensures i <= |conns| && fd !in conns[..i] && (i < |conns| ==> conns[i] == fd)
    {
      i := 0;
      while i < |conns| && conns[i] != fd
        invariant i <= |conns| && fd !in conns[..i]
      {
        i := i + 1;
      }
    }

    /** control_accept; fd is what accept returned. */
    method AcceptConn(fd: int)
      requires Valid()
      modifies this`conns
      ensures Valid() && (fd !in old(conns) ==> M() == HandleAccept(old(M()), fd))
    {
      if fd < 0 { return; }
      conns := conns + [fd];
    }

    /** control_close */
    method CloseConn(fd: int)
      requires Valid()
      modifies this`conns, this`tx, staged
      ensures Valid() && SameArrays() && M() == HandleClose(old(M()), fd)
    {
      var i := ConnByFd(fd);
      WithoutAt(conns, fd, i);
      if i == |conns| { return; }
      if tx != NO_TX && fd == tx {
        staged.Free();
        tx := NO_TX;
      }
      conns := conns[..i] + conns[i + 1..];
    }

    /** The loop of control_dispatch_imsg. */
    method RequestAll(fd: int, reqs: seq<(Req, Env)>) returns (replies: seq<Reply>)
      requires Valid()
      modifies Frame()
      ensures Valid() && SameArrays() && (M(), replies) == HandleAll(old(M()), fd, reqs)
    {
      replies := [];
      ghost var goal := HandleAll(M(), fd, reqs);
      assert reqs[0..] == reqs && [] + goal.1 == goal.1;
      for i := 0 to |reqs|
        invariant Valid() && SameArrays()
        invariant Joined(replies, HandleAll(M(), fd, reqs[i..])) == goal
      {
        NextRequest(M(), fd, reqs, i, replies);
        var more := Request(fd, reqs[i].0, reqs[i].1);
        replies := replies + more;
      }
      assert replies + [] == replies;
    }

    /**
     control_dispatch_imsg: all the requests that have arrived. When the
     connection has hung up, or reading or writing failed (a header that
     announces a bad length makes the whole read fail), it is closed before
     any request of that read is handled. A collected message is never too
     short for its header, so getting it cannot fail.
     */
    method DispatchImsg(fd: int, failed: bool, reqs: seq<(Req, Env)>) returns (replies: seq<Reply>)
      requires Valid()
      modifies Frame()
      ensures Valid() && SameArrays()
      ensures (M(), replies) == HandleArrived(old(M()), fd, failed, reqs)
    {
      replies := [];
      var c := ConnByFd(fd);
      if c == |conns| { return; }
      if failed {
        CloseConn(fd);
        return;
      }
      replies := RequestAll(fd, reqs);
    }

    /** The end of a track, when another song has to be found. */
    method GoOn(drop: bool, ok: string -> bool)
      requires Valid()
      modifies this`sent, deck, deck.list`len, deck.list.songs
      ensures Valid()
      ensures var q := old(M()).q; M() == Started(old(M()), PlayAdvance(if drop then DropCurrent(q) else q, ok))
    {
      if drop { deck.DropCurrent(); }
      PlaylistAdvance(ok);
    }

    /** main_dispatch_player, one message. */
    method FromPlayer(msg: PlayerMsg, env: Env)
      requires Valid()
      modifies this`sent, deck, deck.list`len, deck.list.songs
      ensures Valid() && M() == HandlePlayer(old(M()), msg, env)
    {
      match msg
      case Meta =>
      case Error =>
        GoOn(true, env.ok);
      case Eof =>
        if deck.repeatOne && deck.current.Some? {
          var played := PlaySong(deck.current.value, env.ok);
          if played { return; }
        }
        GoOn(deck.repeatOne || deck.consume, env.ok);
    }
  }

  lemma {:induction false} WithoutAt(conns: seq<int>, fd: int, i: nat)
    requires i <= |conns| && fd !in conns[..i] && (i < |conns| ==> conns[i] == fd)
    ensures fd in conns <==> i < |conns|
    ensures i < |conns| ==> Without(conns, fd) == conns[..i] + conns[i + 1..]
  {
    if 0 < i {
      assert conns[0] == conns[..i][0];
      assert conns[1..][..i - 1] == conns[..i][1..];
      WithoutAt(conns[1..], fd, i - 1);
      assert conns == [conns[0]] + conns[1..];
    }
  }

  /** The requests of one connection in turn, with all the replies. */
  ghost function HandleAll(m: Main, fd: int, reqs: seq<(Req, Env)>): (r: (Main, seq<Reply>))
    requires m.q.InRange()
    ensures r.0.q.InRange()
    decreases |reqs|
  {
    if reqs == [] then (m, [])
    else
      var first := HandleClient(m, fd, reqs[0].0, reqs[0].1);
      var rest := HandleAll(first.0, fd, reqs[1..]);
      (rest.0, first.1 + rest.1)
  }

  ghost function Joined(replies: seq<Reply>, r: (Main, seq<Reply>)): (Main, seq<Reply>) {
    (r.0, replies + r.1)
  }

  lemma {:induction false} NextRequest(m: Main, fd: int, reqs: seq<(Req, Env)>, i: nat, replies: seq<Reply>)
    requires m.q.InRange() && i < |reqs|
    ensures var first := HandleClient(m, fd, reqs[i].0, reqs[i].1);
            Joined(replies, HandleAll(m, fd, reqs[i..]))
              == Joined(replies + first.1, HandleAll(first.0, fd, reqs[i + 1..]))
  {
    assert reqs[i..][1..] == reqs[i + 1..];
    var first := HandleClient(m, fd, reqs[i].0, reqs[i].1);
    var rest := HandleAll(first.0, fd, reqs[i + 1..]);
    assert replies + (first.1 + rest.1) == replies + first.1 + rest.1;
  }

  ghost function HandleArrived(m: Main, fd: int, failed: bool, reqs: seq<(Req, Env)>): (Main, seq<Reply>)
    requires m.q.InRange()
  {
    if fd !in m.conns then (m, [])
    else if failed then (HandleClose(m, fd), [])
    else HandleAll(m, fd, reqs)
  }

  /** The loop of main_playlist_resume, with a song to try next. */
  function ResumeWith(q: Queue, song: Option<string>, ok: string -> bool): (Queue, bool)
    requires q.InRange()
  {
    if song.None? then (q, false)
    else if ok(song.value) then (q.(state := Playing), true)
    else PlayAdvance(DropCurrent(q), ok)
  }

  lemma {:induction false} ResumeBegin(q: Queue, ok: string -> bool)
    requires q.InRange()
    ensures PlayResume(q, ok) ==
            if q.current.Some? then ResumeWith(q, q.current, ok)
            else ResumeWith(Playlist.Advance(q).0, Playlist.Advance(q).1, ok)
  {
  }

  lemma {:induction false} ResumeStep(q: Queue, song: Option<string>, ok: string -> bool)
    requires q.InRange() && song.Some? && !ok(song.value)
    ensures var r := Playlist.Advance(DropCurrent(q)); ResumeWith(q, song, ok) == ResumeWith(r.0, r.1, ok)
  {
  }
}
