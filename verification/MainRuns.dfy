/**
 Whole runs of the main process object: it stays in step with the value model, so
 the transaction promises hold of its arrays.
 */
module MainRuns {
  import opened Common
  import opened Daemon
  import opened MainProcess
  import opened Transactions
  import Playlist

  /** One event of the main loop on the object. */
  method HandleEvent(p: MainProcess, e: Event) returns (replies: seq<Reply>)
    requires p.Valid() && Inv(p.M())
    modifies p.Frame()
    ensures p.Valid() && p.SameArrays() && p.M() == Handle(old(p.M()), e) && Inv(p.M())
  {
    HandleKeepsInv(p.M(), e);
    replies := [];
    match e
    case Accept(fd) =>
      if fd !in p.conns { p.AcceptConn(fd); }
    case Close(fd) =>
      replies := p.DispatchImsg(fd, true, []);
    case Client(fd, req, env) =>
      OneRequest(p.M(), fd, req, env);
      replies := p.DispatchImsg(fd, false, [(req, env)]);
    case FromPlayer(msg, env) =>
      p.FromPlayer(msg, env);
  }

  lemma {:induction false} OneRequest(m: Main, fd: int, req: Req, env: Env)
    requires m.q.InRange()
    ensures HandleAll(m, fd, [(req, env)]).0 == HandleClient(m, fd, req, env).0
  {
    assert [(req, env)][1..] == [];
  }

  /** A run from the start: the object is what the value model says, whatever clients and player do. */
  method Serve(p: MainProcess, events: seq<Event>)
    requires p.Valid() && p.M() == START
    modifies p.Frame()
    ensures p.Valid() && p.SameArrays() && p.M() == Run(START, events)
  {
    assert events[..0] == [];
    for i := 0 to |events|
      invariant p.Valid() && p.SameArrays() && Inv(p.M()) && p.M() == Run(START, events[..i])
    {
      TakeOneMore(events, i);
      RunSnoc(START, events[..i], events[i]);
      var replies := HandleEvent(p, events[i]);
    }
    assert events[..|events|] == events;
  }

  /** A commit at the end of a run, on values. */
  lemma {:induction false} CommitAtEnd(events: seq<Event>, fd: int, off: int, env: Env) returns (b: int)
    requires 0 <= fd
    ensures var m, m' := Run(START, events), Run(START, events + [Client(fd, CtlCommit(Some(off)), env)]);
            if m.tx == fd then
              && 0 <= b < |events| && events[b].Client? && events[b].fd == fd && events[b].req.CtlBegin?
              && NoEnd(fd, events[b + 1..])
              && m'.q.songs == AddsBy(fd, events[b + 1..])
              && m'.q.off == Playlist.SwapOffset(m.q, AddsBy(fd, events[b + 1..]), off)
              && m'.staged == [] && m'.tx == NO_TX
            else m' == m
  {
    b := -1;
    if Run(START, events).tx == fd {
      b := CommitReplacesAtomically(events, fd, off, env);
    } else {
      RunSnoc(START, events, Client(fd, CtlCommit(Some(off)), env));
    }
  }

  /**
   After any such run, a commit of the connection that holds the lock: the list of
   the deck is then exactly what that connection added since its begin, the staged
   list is empty and the lock free; a commit of another one changes nothing.
   */
  method ServeThenCommit(p: MainProcess, events: seq<Event>, fd: int, off: int, env: Env) returns (ghost b: int)
    requires p.Valid() && p.M() == START && 0 <= fd
    modifies p.Frame()
    ensures p.Valid()
    ensures var m := Run(START, events);
            if m.tx == fd then
              && 0 <= b < |events| && events[b].Client? && events[b].fd == fd && events[b].req.CtlBegin?
              && NoEnd(fd, events[b + 1..])
              && p.deck.list.Contents() == AddsBy(fd, events[b + 1..])
              && p.deck.off == Playlist.SwapOffset(m.q, AddsBy(fd, events[b + 1..]), off)
              && p.staged.Contents() == [] && p.tx == NO_TX
            else p.M() == m
  {
    b := CommitAtEnd(events, fd, off, env);
    Serve(p, events + [Client(fd, CtlCommit(Some(off)), env)]);
  }
}
