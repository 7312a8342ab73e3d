/**
 Transactions over whole runs: a commit replaces the playing queue with exactly
 what its owner added since its begin, and nothing else touches the staged list.
 */
module Transactions {
  import opened Common
  import opened Playlist
  import opened Daemon

  /** The paths a connection validly added in a stretch of events, in order. */
  function AddsBy(fd: int, events: seq<Event>): seq<string> {
    if events == [] then []
    else
      var e := events[0];
      if e.Client? && e.fd == fd && e.req.CtlAdd? && e.req.arg.Path?
      then [e.req.arg.path] + AddsBy(fd, events[1..])
      else AddsBy(fd, events[1..])
  }

  lemma {:induction false} AddsBySnoc(fd: int, events: seq<Event>, e: Event)
    ensures AddsBy(fd, events + [e]) == AddsBy(fd, events) + AddsBy(fd, [e])
  {
    if events == [] {
      assert events + [e] == [e];
    } else {
      assert (events + [e])[0] == events[0] && (events + [e])[1..] == events[1..] + [e];
      AddsBySnoc(fd, events[1..], e);
    }
  }

  /** The event ends the transaction of this connection: a well-formed commit, or its closing. */
  predicate Ends(fd: int, e: Event) {
    (e.Close? && e.fd == fd) || (e.Client? && e.fd == fd && e.req.CtlCommit? && e.req.off.Some?)
  }

  ghost predicate NoEnd(fd: int, events: seq<Event>) {
    forall i :: 0 <= i < |events| ==> !Ends(fd, events[i])
  }

  lemma {:induction false} RunSnoc(m: Main, events: seq<Event>, e: Event)
    requires Inv(m)
    ensures Run(m, events + [e]) == Handle(Run(m, events), e)
    decreases |events|
  {
    if events == [] {
      assert events + [e] == [e];
      HandleKeepsInv(m, e);
      assert Run(m, [e]) == Run(Handle(m, e), [e][1..]);
    } else {
      HandleKeepsInv(m, events[0]);
      assert (events + [e])[0] == events[0] && (events + [e])[1..] == events[1..] + [e];
      RunSnoc(Handle(m, events[0]), events[1..], e);
    }
  }

  /** b is the begin of the open transaction, and staged is what its owner added since. */
  ghost predicate OpenSince(events: seq<Event>, m: Main, b: int) {
    && 0 <= b < |events|
    && events[b].Client? && events[b].fd == m.tx && events[b].req.CtlBegin?
    && NoEnd(m.tx, events[b + 1..])
    && m.staged == AddsBy(m.tx, events[b + 1..])
  }

  /** What an event does to the lock and the staged list, whatever else it does. */
  lemma {:induction false} LockStep(m: Main, e: Event)
    requires Inv(m)
    ensures var m' := Handle(m, e);
            && (m'.tx == m.tx || m'.tx == NO_TX || (m.tx == NO_TX && e.Client? && e.fd == m'.tx && e.req.CtlBegin?))
            && (m.tx != NO_TX && m'.tx == m.tx ==> !Ends(m.tx, e) && m'.staged == m.staged + AddsBy(m.tx, [e]))
            && (m.tx == NO_TX && m'.tx != NO_TX ==> m'.staged == [])
  {
    if e.Client? && e.fd in m.conns {
      LockStepClient(m, e);
    } else if e.Client? && m.tx != NO_TX {
      assert e.fd != m.tx;
    }
  }

  /** Requests other than begin, add and commit leave the lock and the staged list alone. */
  lemma {:induction false} OtherRequests(m: Main, fd: int, req: Req, env: Env)
    requires m.q.InRange() && !req.CtlBegin? && !req.CtlAdd? && !req.CtlCommit?
    ensures var m' := HandleClient(m, fd, req, env).0; m'.tx == m.tx && m'.staged == m.staged
  {
  }

  lemma {:induction false} LockStepClient(m: Main, e: Event)
    requires Inv(m) && e.Client? && e.fd in m.conns
    ensures var m' := HandleClient(m, e.fd, e.req, e.env).0;
            && (m'.tx == m.tx || m'.tx == NO_TX || (m.tx == NO_TX && e.fd == m'.tx && e.req.CtlBegin?))
            && (m.tx != NO_TX && m'.tx == m.tx ==> !Ends(m.tx, e) && m'.staged == m.staged + AddsBy(m.tx, [e]))
            && (m.tx == NO_TX && m'.tx != NO_TX ==> m'.staged == [])
  {
    assert [e][1..] == [];
    assert AddsBy(m.tx, [e]) ==
      if e.fd == m.tx && e.req.CtlAdd? && e.req.arg.Path? then [e.req.arg.path] else [];
    if !e.req.CtlBegin? && !e.req.CtlAdd? && !e.req.CtlCommit? { OtherRequests(m, e.fd, e.req, e.env); }
  }

  /** Over every run: while the lock is held, the staged list is what its owner added since its begin. */
  lemma {:induction false} StagedIsAddsSinceBegin(events: seq<Event>) returns (b: int)
    ensures var m := Run(START, events);
            && (m.tx == NO_TX ==> m.staged == [])
            && (m.tx != NO_TX ==> m.tx in m.conns && OpenSince(events, m, b))
  {
    b := -1;
    if events != [] {
      var n := |events| - 1;
      var before, e := events[..n], events[n];
      assert events == before + [e];
      b := StagedIsAddsSinceBegin(before);
      var m := Run(START, before);
      RunSnoc(START, before, e);
      LockStep(m, e);
      var m' := Handle(m, e);
      if m'.tx != NO_TX {
        if m.tx == NO_TX {
          b := n;
          assert events[n + 1..] == [];
        } else {
          assert events[b + 1..] == before[b + 1..] + [e];
          AddsBySnoc(m.tx, before[b + 1..], e);
        }
      }
    }
  }

  /**
   A well-formed commit by the owner of the lock replaces the queue with exactly
   the paths it validly added since its begin, at the requested position or
   that of the current song, and releases the lock.
   */
  lemma {:induction false} CommitReplacesAtomically(events: seq<Event>, fd: int, off: int, env: Env) returns (b: int)
    requires 0 <= fd && Run(START, events).tx == fd
    ensures 0 <= b < |events| && events[b].Client? && events[b].fd == fd && events[b].req.CtlBegin?
    ensures NoEnd(fd, events[b + 1..])
    ensures var m := Run(START, events);
            var m' := Run(START, events + [Client(fd, CtlCommit(Some(off)), env)]);
            && m'.q.songs == AddsBy(fd, events[b + 1..])
            && m'.q.off == SwapOffset(m.q, AddsBy(fd, events[b + 1..]), off)
            && m'.q.state == m.q.state
            && m'.tx == NO_TX && m'.staged == []
  {
    b := StagedIsAddsSinceBegin(events);
    RunSnoc(START, events, Client(fd, CtlCommit(Some(off)), env));
  }

  /** Nothing another connection or the player sends touches the lock or the staged list. */
  lemma {:induction false} OthersDoNotInterfere(m: Main, e: Event)
    requires Inv(m) && m.tx != NO_TX
    requires e.FromPlayer? || e.fd != m.tx
    ensures Handle(m, e).tx == m.tx && Handle(m, e).staged == m.staged
  {
    if e.Client? && !e.req.CtlBegin? && !e.req.CtlAdd? && !e.req.CtlCommit? { OtherRequests(m, e.fd, e.req, e.env); }
  }

  /** While another connection holds the lock, adding, shuffling and committing change nothing. */
  lemma {:induction false} LockedOut(m: Main, fd: int, req: Req, env: Env)
    requires Inv(m) && m.tx != NO_TX && fd != m.tx && fd in m.conns
    requires req.CtlBegin? || req.CtlAdd? || req.CtlCommit? || req.CtlShuffle?
    ensures HandleClient(m, fd, req, env) == (m, [Err("locked")])
  {
  }

  /** Closing the owner discards its list, and a connection accepted on the same descriptor has no lock. */
  lemma {:induction false} ReusedDescriptorHasNoLock(m: Main, fd: int)
    requires Inv(m) && 0 <= fd
    ensures var closed := Handle(m, Close(fd));
            && closed.tx != fd
            && (m.tx == fd ==> closed.tx == NO_TX && closed.staged == [])
            && Handle(closed, Accept(fd)).tx != fd
  {
    HandleKeepsInv(m, Close(fd));
    if fd in m.conns { WithoutMembers(m.conns, fd); }
  }
}
