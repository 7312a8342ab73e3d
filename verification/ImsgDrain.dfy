/**
 Whatever has happened on a channel, it can still be emptied: from every state
 the kernel and the receiver have steps that deliver all that was posted, and
 that lose no descriptor on the way.
 */
module ImsgDrain {
  import opened Common
  import opened ImsgReader
  import opened ImsgChannel
  import opened ImsgDescriptors
  import opened ImsgLoss

  ghost predicate NoPosts(steps: seq<Step>) {
    forall i :: 0 <= i < |steps| ==> !steps[i].Post?
  }

  /** Nothing is under way and nothing waits to be got. */
  predicate Drained(ch: Chan) {
    ch.queue == [] && ch.wire == [] && ch.reader.frames == []
  }

  /** One cell without a descriptor can always be read. */
  lemma {:induction false} ReadPlain(c: Conf, ch: Chan)
    requires Inv(c, ch) && ch.wire != [] && ch.wire[0].fd == NO_FD
    ensures CanRead(ch, 1) && !LosesFd(c, ch, Read(1, true))
  {
    FdsOfNone(ch.wire[..1]);
  }

  /** A cell with a descriptor comes with its whole header once everything has been written. */
  lemma {:induction false} ReadHeader(c: Conf, ch: Chan)
    requires Inv(c, ch) && ch.queue == [] && ch.wire != [] && ch.wire[0].fd != NO_FD
    ensures CanRead(ch, c.hdrsize) && !LosesFd(c, ch, Read(c.hdrsize, true))
  {
    var left, h := ch.posted[|Done(ch)|..], |Partway(ch)|;
    assert InFlight(ch) == ch.wire;
    assert Stream(left)[h] == ch.wire[0];
    FdStartsMessage(c, left, h);
    if Partway(ch) != [] { HeldIncomplete(c, ch); }
    assert ch.wire == Stream(left);
    HeaderCells(c, left, ch.wire[..c.hdrsize]);
  }

  lemma {:induction false} HeaderCells(c: Conf, ps: seq<Parcel>, cells: seq<Cell>)
    requires c.Valid() && AllProper(c, ps) && ps != []
    requires |cells| == c.hdrsize && cells <= Stream(ps)
    ensures |FdsOf(cells)| <= 1 && !Cuts(c, cells)
  {
    assert cells == Cells(ps[0])[..c.hdrsize];
    FdsOfCells(ps[0], c.hdrsize);
  }

  /** The second channel is closer to the end. */
  ghost predicate Closer(ch': Chan, ch: Chan) {
    ch'.queue == [] &&
    if ch.queue != [] then true
    else if ch.wire != [] then |ch'.wire| < |ch.wire|
    else ch'.wire == [] && |ch'.reader.frames| < |ch.reader.frames|
  }

  /** The next step towards the end. */
  lemma {:induction false} NextDrains(c: Conf, ch: Chan) returns (step: Step, ch': Chan)
    requires Inv(c, ch) && !Drained(ch)
    ensures !step.Post? && !LosesFd(c, ch, step)
    ensures ch' == Next(c, ch, step) && Inv(c, ch') && Closer(ch', ch)
  {
    if ch.queue != [] {
      step := Write(|Flatten(ch.queue)|);
      DrainAll(ch.queue, |Flatten(ch.queue)|);
    } else if ch.wire == [] {
      step := Take;
    } else if ch.wire[0].fd == NO_FD {
      step := Read(1, true);
      ReadPlain(c, ch);
    } else {
      step := Read(c.hdrsize, true);
      ReadHeader(c, ch);
    }
    NextInv(c, ch, step);
    ch' := Next(c, ch, step);
  }

  /** These steps, none of them posting or losing anything, empty the channel. */
  ghost predicate Empties(c: Conf, ch: Chan, steps: seq<Step>)
    requires Inv(c, ch)
  {
    NoPosts(steps) && LossFree(c, ch, steps) && Drained(Run(c, ch, steps))
  }

  lemma {:induction false} EmptiesFirst(c: Conf, ch: Chan, step: Step, ch': Chan, rest: seq<Step>)
    requires Inv(c, ch) && !step.Post? && !LosesFd(c, ch, step)
    requires ch' == Next(c, ch, step) && Inv(c, ch') && Empties(c, ch', rest)
    ensures Empties(c, ch, [step] + rest)
  {
    RunFirst(c, ch, step, rest, ch');
  }

  /** From every state there are such steps. */
  lemma {:induction false} DrainsWithoutLoss(c: Conf, ch: Chan) returns (steps: seq<Step>)
    requires Inv(c, ch)
    ensures Empties(c, ch, steps)
    decreases ch.queue != [], |ch.wire|, |ch.reader.frames|
  {
    if Drained(ch) {
      steps := [];
    } else {
      var step, ch' := NextDrains(c, ch);
      var rest := DrainsWithoutLoss(c, ch');
      steps := [step] + rest;
      EmptiesFirst(c, ch, step, ch', rest);
    }
  }

  /** A run is its first part and then its second. */
  ghost predicate InParts(c: Conf, ch: Chan, a: seq<Step>, b: seq<Step>)
    requires Inv(c, ch) && Inv(c, Run(c, ch, a))
  {
    && Run(c, ch, a + b) == Run(c, Run(c, ch, a), b)
    && (LossFree(c, ch, a + b) <==> LossFree(c, ch, a) && LossFree(c, Run(c, ch, a), b))
  }

  lemma {:induction false} InPartsFirst(c: Conf, ch: Chan, step: Step, ch': Chan, a: seq<Step>, b: seq<Step>)
    requires Inv(c, ch) && ch' == Next(c, ch, step) && Inv(c, ch')
    requires Inv(c, Run(c, ch', a)) && InParts(c, ch', a, b)
    ensures Inv(c, Run(c, ch, [step] + a)) && InParts(c, ch, [step] + a, b)
  {
    RunFirst(c, ch, step, a, ch');
    RunFirst(c, ch, step, a + b, ch');
    assert [step] + a + b == [step] + (a + b);
  }

  lemma {:induction false} InPartsNone(c: Conf, ch: Chan, b: seq<Step>)
    requires Inv(c, ch)
    ensures InParts(c, ch, [], b)
  {
    assert [] + b == b;
  }

  lemma {:induction false} RunAppend(c: Conf, ch: Chan, a: seq<Step>, b: seq<Step>)
    requires Inv(c, ch)
    ensures Inv(c, Run(c, ch, a)) && InParts(c, ch, a, b)
    decreases |a|
  {
    if a == [] {
      InPartsNone(c, ch, b);
    } else {
      var step, rest := a[0], a[1..];
      assert a == [step] + rest;
      NextInv(c, ch, step);
      var ch' := Next(c, ch, step);
      RunAppend(c, ch', rest, b);
      InPartsFirst(c, ch, step, ch', rest, b);
    }
  }

  lemma {:induction false} AcceptedAppend(c: Conf, a: seq<Step>, b: seq<Step>)
    requires NoPosts(b)
    ensures Accepted(c, a + b) == Accepted(c, a)
  {
    if a == [] {
      assert a + b == b;
      NothingPosted(c, b);
    } else {
      assert (a + b)[0] == a[0] && (a + b)[1..] == a[1..] + b;
      AcceptedAppend(c, a[1..], b);
    }
  }

  /** Everything has been got: what was taken is what was posted. */
  lemma {:induction false} TakenAll(c: Conf, steps: seq<Step>)
    requires c.Valid()
    ensures Inv(c, EMPTY)
    ensures var ch := Run(c, EMPTY, steps);
            Drained(ch) ==>
              && |ch.taken| == |Accepted(c, steps)| && Raw(ch.taken) == Bodies(Accepted(c, steps))
              && (HaveTheirOwn(ch.taken, Accepted(c, steps)) <==> LossFree(c, EMPTY, steps))
  {
    DeliveredInOrder(c, steps);
    DescriptorsArriveIff(c, steps);
    RunPosted(c, EMPTY, steps);
    var ch, posted := Run(c, EMPTY, steps), Accepted(c, steps);
    assert [] + posted == posted;
    if Drained(ch) {
      assert Done(ch) == ch.taken && posted[..|posted|] == posted;
    }
  }

  /**
   Every run can be completed without posting more: then everything posted has been
   got, byte for byte and in order, and with its own descriptors exactly when none
   was lost before.
   */
  lemma {:induction false} EveryRunCompletes(c: Conf, steps: seq<Step>) returns (more: seq<Step>)
    requires c.Valid()
    ensures Inv(c, EMPTY) && NoPosts(more)
    ensures var ch, posted := Run(c, EMPTY, steps + more), Accepted(c, steps);
            && Drained(ch) && |ch.taken| == |posted| && Raw(ch.taken) == Bodies(posted)
            && (HaveTheirOwn(ch.taken, posted) <==> LossFree(c, EMPTY, steps))
  {
    InvEmpty(c);
    RunInv(c, EMPTY, steps);
    more := DrainsWithoutLoss(c, Run(c, EMPTY, steps));
    RunAppend(c, EMPTY, steps, more);
    AcceptedAppend(c, steps, more);
    TakenAll(c, steps + more);
  }
}
