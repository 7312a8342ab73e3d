/**
 What becomes of a lost descriptor: the readers never hand out more descriptors
 than were sent, nor in another order, so a lost one leaves a message without any.
 */
module ImsgLoss {
  import opened Common
  import opened ImsgReader
  import opened ImsgChannel
  import opened ImsgDescriptors

  /** The descriptors that a list of frames has got, in order. */
  function FdsIn(frames: seq<Frame>): seq<int> {
    if frames == [] then [] else Own(frames[0].fd) + FdsIn(frames[1..])
  }

  lemma {:induction false} FdsInAppend(a: seq<Frame>, b: seq<Frame>)
    ensures FdsIn(a + b) == FdsIn(a) + FdsIn(b)
  {
    if a == [] {
      assert a + b == b;
    } else {
      assert (a + b)[0] == a[0] && (a + b)[1..] == a[1..] + b;
      FdsInAppend(a[1..], b);
    }
  }

  /** A message being collected, as a list. */
  function Opened(partial: Option<Frame>): seq<Frame> {
    if partial.Some? then [partial.value] else []
  }

  /** The descriptors that have not been closed: got, held for the message being collected, and under way. */
  function Alive(ch: Chan): seq<int> {
    FdsIn(Done(ch) + Opened(ch.reader.partial)) + FdsOf(InFlight(ch))
  }

  lemma {:induction false} FdsInOne(f: Frame)
    ensures FdsIn([f]) == Own(f.fd)
  {
    assert [f][1..] == [];
  }

  /** A read hands on what was held and what it received, or leaves that over. */
  lemma {:induction false} ConsumeKeepsFds(c: Conf, partial: Option<Frame>, input: seq<byte>, fd: int)
    requires c.Valid() && (partial.Some? ==> |partial.value.bytes| < partial.value.len)
    ensures var o := Consume(c, partial, input, fd);
            FdsIn(o.frames + Opened(o.partial)) + Own(o.fd) == FdsIn(Opened(partial)) + Own(fd)
    decreases |input|, if partial.None? then 1 else 0
  {
    var o := Consume(c, partial, input, fd);
    match partial
    case None =>
      if c.hdrsize <= |input| && c.Header(input).Some? {
        var h := c.Header(input).value;
        ConsumeKeepsFds(c, Some(Begin(h, fd)), input, Unclaimed(h, fd));
        FdsInOne(Begin(h, fd));
      }
    case Some(p) =>
      FdsInOne(p);
      var need := p.len - |p.bytes|;
      if |input| < need {
        FdsInOne(o.partial.value);
        assert o.frames + Opened(o.partial) == [o.partial.value];
      } else {
        ConsumeKeepsFds(c, None, input[need..], fd);
        FdsWithFirst(o.frames[0], Consume(c, None, input[need..], fd));
      }
  }

  lemma {:induction false} FdsWithFirst(f: Frame, o: Outcome)
    ensures FdsIn([f] + o.frames + Opened(o.partial)) + Own(o.fd)
         == Own(f.fd) + (FdsIn(o.frames + Opened(o.partial)) + Own(o.fd))
  {
    FdsInFirst(f, o.frames + Opened(o.partial));
    AppendAssoc([f], o.frames, Opened(o.partial));
  }

  lemma {:induction false} FdsInFirst(f: Frame, frames: seq<Frame>)
    ensures FdsIn([f] + frames) == Own(f.fd) + FdsIn(frames)
  {
    assert ([f] + frames)[1..] == frames;
  }

  /** Some descriptor has been closed: fewer are left than were sent. */
  ghost predicate Fewer(ch: Chan) {
    |Alive(ch)| < |FdsOf(Stream(ch.posted))|
  }

  ghost predicate InOrder(ch: Chan) {
    Fewer(ch) || Alive(ch) == FdsOf(Stream(ch.posted))
  }

  /** A read closes the descriptor that nobody took; one without room does not even receive it. */
  lemma {:induction false} AliveRead(c: Conf, ch: Chan, n: nat, room: bool)
    requires Inv(c, ch) && CanRead(ch, n)
    ensures var ch' := Next(c, ch, Read(n, room));
            && (Alive(ch') == Alive(ch) || |Alive(ch')| < |Alive(ch)|)
            && (!room && FdsOf(ch.wire[..n]) != [] ==> |Alive(ch')| < |Alive(ch)|)
  {
    var chunk, ch' := Received(ch.wire[..n], room), Next(c, ch, Read(n, room));
    var o := Consume(c, ch.reader.partial, ch.reader.residue + chunk.bytes, chunk.fd);
    ConsumeKeepsFds(c, ch.reader.partial, ch.reader.residue + chunk.bytes, chunk.fd);
    FlyingFds(c, ch, n, room);
    DoneFds(ch, o);
    FdsNotNone(ch.wire[..n]);
    assert Done(ch') == Done(ch) + o.frames by { AppendAssoc(ch.taken, ch.reader.frames, o.frames); }
    Handed(FdsIn(Done(ch)), FdsIn(Opened(ch.reader.partial)), Own(chunk.fd), FdsOf(ch.wire[..n]),
           FdsIn(o.frames + Opened(o.partial)), Own(o.fd), FdsOf(InFlight(ch')));
  }

  lemma {:induction false} FlyingFds(c: Conf, ch: Chan, n: nat, room: bool)
    requires Inv(c, ch) && CanRead(ch, n)
    ensures FdsOf(InFlight(ch)) == FdsOf(ch.wire[..n]) + FdsOf(InFlight(Next(c, ch, Read(n, room))))
  {
    var rest := InFlight(Next(c, ch, Read(n, room)));
    CutFirst(ch.wire, Flatten(ch.queue), n);
    assert InFlight(ch) == ch.wire[..n] + rest;
    FdsOfAppend(ch.wire[..n], rest);
  }

  lemma {:induction false} DoneFds(ch: Chan, o: Outcome)
    ensures FdsIn(Done(ch) + Opened(ch.reader.partial)) == FdsIn(Done(ch)) + FdsIn(Opened(ch.reader.partial))
    ensures FdsIn(Done(ch) + o.frames + Opened(o.partial)) == FdsIn(Done(ch)) + FdsIn(o.frames + Opened(o.partial))
  {
    FdsInAppend(Done(ch), Opened(ch.reader.partial));
    AppendAssoc(Done(ch), o.frames, Opened(o.partial));
    FdsInAppend(Done(ch), o.frames + Opened(o.partial));
  }

  /** What came is got or not; what was held and got is handed on now or left. */
  lemma {:induction false} Handed(done: seq<int>, held: seq<int>, got: seq<int>, came: seq<int>,
                                  now: seq<int>, left: seq<int>, rest: seq<int>)
    requires now + left == held + got && (got == came || |got| < |came|)
    ensures var before, after := done + held + (came + rest), done + now + rest;
            (after == before || |after| < |before|) && (|got| < |came| ==> |after| < |before|)
  {
    if left == [] && got == came {
      assert now == held + came;
      assert done + (held + came) + rest == done + held + (came + rest);
    } else {
      assert |now| + |left| == |held| + |got|;
    }
  }

  /** Posting adds the same to what is under way and to what was sent. */
  lemma {:induction false} AlivePost(c: Conf, ch: Chan, p: Parcel)
    requires Inv(c, ch) && Proper(c, p)
    ensures var ch' := Next(c, ch, Post(p));
            && Alive(ch') == Alive(ch) + FdsOf(Cells(p))
            && FdsOf(Stream(ch'.posted)) == FdsOf(Stream(ch.posted)) + FdsOf(Cells(p))
  {
    var ch' := Next(c, ch, Post(p));
    FlattenSnoc(ch.queue, Cells(p));
    AppendAssoc(ch.wire, Flatten(ch.queue), Cells(p));
    FdsOfAppend(InFlight(ch), Cells(p));
    StreamAppend(ch.posted, [p]);
    assert Stream([p]) == Cells(p) by { assert [p][1..] == []; }
    FdsOfAppend(Stream(ch.posted), Cells(p));
    AppendAssoc(FdsIn(Done(ch) + Opened(ch.reader.partial)), FdsOf(InFlight(ch)), FdsOf(Cells(p)));
  }

  /** Writing and getting close nothing. */
  lemma {:induction false} AliveStill(c: Conf, ch: Chan, step: Step)
    requires Inv(c, ch) && (step.Write? || step.Take?)
    ensures Alive(Next(c, ch, step)) == Alive(ch) && Next(c, ch, step).posted == ch.posted
  {
    StillDone(c, ch, step);
    if step.Write? && step.n <= |Flatten(ch.queue)| { WriteInFlight(ch, step.n); }
  }

  lemma {:induction false} InOrderNext(c: Conf, ch: Chan, step: Step)
    requires Inv(c, ch) && InOrder(ch)
    ensures InOrder(Next(c, ch, step)) && (Fewer(ch) ==> Fewer(Next(c, ch, step)))
  {
    if step.Post? {
      if Proper(c, step.p) { AlivePost(c, ch, step.p); }
    } else if step.Read? {
      if CanRead(ch, step.n) { AliveRead(c, ch, step.n, step.room); }
    } else {
      AliveStill(c, ch, step);
    }
  }

  /** Only a message that announces a descriptor gets one. */
  ghost predicate OnlyMarked(c: Conf, frames: seq<Frame>) {
    forall i :: 0 <= i < |frames| && frames[i].fd != NO_FD ==> c.Marked(frames[i].bytes)
  }

  lemma {:induction false} ConsumeOnlyMarked(c: Conf, partial: Option<Frame>, input: seq<byte>, fd: int)
    requires c.Valid() && OkPartial(c, partial) && OnlyMarked(c, Opened(partial))
    ensures var o := Consume(c, partial, input, fd); OnlyMarked(c, o.frames) && OnlyMarked(c, Opened(o.partial))
  {
    var o := Consume(c, partial, input, fd);
    var all, started := o.frames + Opened(o.partial), Started(partial, o);
    DescriptorOffered(c, partial, input, fd);
    OfferedOnce(c, started, fd, o.fd);
    if partial.Some? {
      var p := partial.value;
      CarriedKeepsDescriptor(c, p, input, fd);
      assert Current(o).value == all[0];
      HeaderPrefix(c, p.bytes, all[0].bytes);
      assert Opened(partial)[0] == p;
      assert forall i :: 0 < i < |all| ==> all[i] == started[i - 1];
    }
    assert OnlyMarked(c, all);
    assert forall i :: 0 <= i < |o.frames| ==> o.frames[i] == all[i];
    assert o.partial.Some? ==> Opened(o.partial)[0] == all[|o.frames|];
  }

  ghost predicate Claims(c: Conf, ch: Chan) {
    OnlyMarked(c, Done(ch)) && OnlyMarked(c, Opened(ch.reader.partial))
  }

  lemma {:induction false} ClaimsRead(c: Conf, ch: Chan, n: nat, room: bool)
    requires Inv(c, ch) && Claims(c, ch) && CanRead(ch, n)
    ensures Claims(c, Next(c, ch, Read(n, room)))
  {
    var chunk := Received(ch.wire[..n], room);
    var input := ch.reader.residue + chunk.bytes;
    ConsumeOnlyMarked(c, ch.reader.partial, input, chunk.fd);
    AppendAssoc(ch.taken, ch.reader.frames, Consume(c, ch.reader.partial, input, chunk.fd).frames);
  }

  lemma {:induction false} ClaimsNext(c: Conf, ch: Chan, step: Step)
    requires Inv(c, ch) && Claims(c, ch)
    ensures Claims(c, Next(c, ch, step))
  {
    if step.Read? {
      if CanRead(ch, step.n) { ClaimsRead(c, ch, step.n, step.room); }
    } else {
      StillDone(c, ch, step);
    }
  }

  lemma {:induction false} RunInOrder(c: Conf, ch: Chan, steps: seq<Step>)
    requires Inv(c, ch) && InOrder(ch) && Claims(c, ch)
    ensures InOrder(Run(c, ch, steps)) && Claims(c, Run(c, ch, steps))
    ensures Fewer(ch) ==> Fewer(Run(c, ch, steps))
    decreases |steps|
  {
    if steps != [] {
      NextInv(c, ch, steps[0]);
      InOrderNext(c, ch, steps[0]);
      ClaimsNext(c, ch, steps[0]);
      RunInOrder(c, Next(c, ch, steps[0]), steps[1..]);
    }
  }

  /** Some message announced a descriptor and has come without any. */
  ghost predicate Missing(frames: seq<Frame>, ps: seq<Parcel>)
    requires |frames| == |ps|
  {
    exists i :: 0 <= i < |ps| && ps[i].fd != NO_FD && frames[i].fd == NO_FD
  }

  lemma {:induction false} FdsOfStream(ps: seq<Parcel>)
    requires ps != [] && ps[0].bytes != []
    ensures FdsOf(Stream(ps)) == Own(ps[0].fd) + FdsOf(Stream(ps[1..]))
  {
    FdsOfAppend(Cells(ps[0]), Stream(ps[1..]));
    FdsOfParcel(ps[0]);
  }

  /** No message got a descriptor that was sent without one. */
  ghost predicate NoneExtra(frames: seq<Frame>, ps: seq<Parcel>)
    requires |frames| == |ps|
  {
    forall i :: 0 <= i < |ps| && ps[i].fd == NO_FD ==> frames[i].fd == NO_FD
  }

  lemma {:induction false} MissingTail(frames: seq<Frame>, ps: seq<Parcel>)
    requires |frames| == |ps| && ps != []
    ensures NoneExtra(frames, ps) ==> NoneExtra(frames[1..], ps[1..])
    ensures Missing(frames, ps)
       <==> (ps[0].fd != NO_FD && frames[0].fd == NO_FD) || Missing(frames[1..], ps[1..])
  {
    var fs, rest := frames[1..], ps[1..];
    assert forall i :: 0 <= i < |rest| ==> fs[i] == frames[i + 1] && rest[i] == ps[i + 1];
    if Missing(frames, ps) && !(ps[0].fd != NO_FD && frames[0].fd == NO_FD) {
      var i :| 0 <= i < |ps| && ps[i].fd != NO_FD && frames[i].fd == NO_FD;
      assert rest[i - 1].fd != NO_FD && fs[i - 1].fd == NO_FD;
    }
    if Missing(fs, rest) {
      var i :| 0 <= i < |rest| && rest[i].fd != NO_FD && fs[i].fd == NO_FD;
      assert ps[i + 1].fd != NO_FD && frames[i + 1].fd == NO_FD;
    }
  }

  /** At most as many were got as sent, and fewer exactly when some message has none. */
  lemma {:induction false} CountFds(frames: seq<Frame>, ps: seq<Parcel>)
    requires |frames| == |ps| && NoneExtra(frames, ps)
    requires forall i :: 0 <= i < |ps| ==> ps[i].bytes != []
    ensures |FdsIn(frames)| <= |FdsOf(Stream(ps))|
    ensures |FdsIn(frames)| < |FdsOf(Stream(ps))| <==> Missing(frames, ps)
  {
    if ps != [] {
      FdsOfStream(ps);
      MissingTail(frames, ps);
      assert forall i :: 0 <= i < |ps| - 1 ==> ps[1..][i] == ps[i + 1];
      CountFds(frames[1..], ps[1..]);
    }
  }

  /** What was completed counts against what was posted. */
  lemma {:induction false} DoneNoneExtra(c: Conf, ch: Chan)
    requires Inv(c, ch) && Claims(c, ch)
    ensures NoneExtra(Done(ch), ch.posted[..|Done(ch)|])
    ensures forall i :: 0 <= i < |ch.posted| ==> ch.posted[i].bytes != []
  {
    forall i | 0 <= i < |Done(ch)| && ch.posted[i].fd == NO_FD ensures Done(ch)[i].fd == NO_FD {
      assert Raw(Done(ch))[i] == Bodies(ch.posted[..|Done(ch)|])[i] == ch.posted[i].bytes;
      assert Proper(c, ch.posted[i]);
    }
    forall i | 0 <= i < |ch.posted| ensures ch.posted[i].bytes != [] {
      assert Proper(c, ch.posted[i]);
    }
  }

  /** The first cell of a marked message is held without having been claimed: its descriptor is gone. */
  lemma {:induction false} HeldFewer(c: Conf, ch: Chan)
    requires Inv(c, ch) && Claims(c, ch)
    requires 0 < |Partway(ch)| < c.hdrsize
    requires |Done(ch)| < |ch.posted| && ch.posted[|Done(ch)|].fd != NO_FD
    ensures Fewer(ch)
  {
    var k, h := |Done(ch)|, |Partway(ch)|;
    var front, left := ch.posted[..k], ch.posted[k..];
    DoneNoneExtra(c, ch);
    CountFds(Done(ch), front);
    assert ch.posted == front + left;
    StreamAppend(front, left);
    FdsOfAppend(Stream(front), Stream(left));
    FirstFds(left, h, InFlight(ch));
    assert ch.reader.partial == None;
    assert Done(ch) + [] == Done(ch);
  }

  lemma {:induction false} FirstFds(ps: seq<Parcel>, h: nat, flying: seq<Cell>)
    requires ps != [] && ps[0].bytes != [] && ps[0].fd != NO_FD && 0 < h <= |Stream(ps)|
    requires flying == Stream(ps)[h..]
    ensures |FdsOf(flying)| < |FdsOf(Stream(ps))|
  {
    var front := Stream(ps)[..h];
    assert front[0] == Cells(ps[0])[0];
    FdsOfNone(front);
    FdsOfAppend(front, flying);
    assert Stream(ps) == front + flying;
  }

  /** A read that cuts a marked header leaves fewer descriptors. */
  lemma {:induction false} CutFewer(c: Conf, ch: Chan, n: nat, room: bool)
    requires Inv(c, ch) && Claims(c, ch) && CanRead(ch, n) && Cuts(c, ch.wire[..n])
    ensures Fewer(Next(c, ch, Read(n, room)))
  {
    var cells := ch.wire[..n];
    var p :| 0 <= p < |cells| && cells[p].fd != NO_FD && |cells| - p < c.hdrsize;
    ReadAdvances(c, ch, n, room);
    ClaimsRead(c, ch, n, room);
    CutLeavesHeld(c, ch, n, Next(c, ch, Read(n, room)), p);
    HeldFewer(c, Next(c, ch, Read(n, room)));
  }

  /** So does every read that loses one. */
  lemma {:induction false} LossFewer(c: Conf, ch: Chan, step: Step)
    requires Inv(c, ch) && InOrder(ch) && Claims(c, ch) && LosesFd(c, ch, step)
    ensures Fewer(Next(c, ch, step))
  {
    if Cuts(c, ch.wire[..step.n]) {
      CutFewer(c, ch, step.n, step.room);
    } else {
      AliveRead(c, ch, step.n, step.room);
    }
  }

  /** A run that loses a descriptor ends with fewer of them. */
  lemma {:induction false} RunFewer(c: Conf, ch: Chan, steps: seq<Step>)
    requires Inv(c, ch) && InOrder(ch) && Claims(c, ch) && !LossFree(c, ch, steps)
    ensures Fewer(Run(c, ch, steps))
    decreases |steps|
  {
    var ch' := Next(c, ch, steps[0]);
    NextInv(c, ch, steps[0]);
    InOrderNext(c, ch, steps[0]);
    ClaimsNext(c, ch, steps[0]);
    if LosesFd(c, ch, steps[0]) {
      LossFewer(c, ch, steps[0]);
      RunInOrder(c, ch', steps[1..]);
    } else {
      RunFewer(c, ch', steps[1..]);
    }
  }

  /** Once everything has arrived: fewer are left exactly when some message has come without its own. */
  lemma {:induction false} FewerIsMissing(c: Conf, ch: Chan)
    requires Inv(c, ch) && Claims(c, ch)
    requires ch.queue == [] && ch.wire == [] && |Done(ch)| == |ch.posted| && Partway(ch) == []
    ensures Fewer(ch) <==> Missing(Done(ch), ch.posted)
  {
    assert ch.reader.partial == None;
    assert Done(ch) + [] == Done(ch) && FdsIn(Done(ch)) + [] == FdsIn(Done(ch));
    assert ch.posted[..|Done(ch)|] == ch.posted;
    DoneNoneExtra(c, ch);
    CountFds(Done(ch), ch.posted);
  }

  lemma {:induction false} StartsInOrder(c: Conf)
    requires c.Valid()
    ensures Inv(c, EMPTY) && InOrder(EMPTY) && Claims(c, EMPTY)
  {
    InvEmpty(c);
    assert Done(EMPTY) + Opened(None) == [];
  }

  /** Every message has the descriptor it was sent with, or none if it was sent without. */
  ghost predicate HaveTheirOwn(frames: seq<Frame>, ps: seq<Parcel>)
    requires |frames| == |ps|
  {
    forall i :: 0 <= i < |ps| ==> frames[i].fd == ps[i].fd
  }

  lemma {:induction false} NoneLost(c: Conf, steps: seq<Step>, ch: Chan)
    requires c.Valid() && Inv(c, EMPTY) && LossFree(c, EMPTY, steps) && ch == Run(c, EMPTY, steps)
    requires |Done(ch)| == |ch.posted|
    ensures HaveTheirOwn(Done(ch), ch.posted) && !Missing(Done(ch), ch.posted)
  {
    LossFreeDelivers(c, EMPTY, steps);
  }

  lemma {:induction false} SomeLost(c: Conf, steps: seq<Step>, ch: Chan)
    requires c.Valid() && Inv(c, EMPTY) && !LossFree(c, EMPTY, steps) && ch == Run(c, EMPTY, steps)
    requires Inv(c, ch) && ch.queue == [] && ch.wire == [] && |Done(ch)| == |ch.posted| && Partway(ch) == []
    ensures !HaveTheirOwn(Done(ch), ch.posted) && Missing(Done(ch), ch.posted)
  {
    StartsInOrder(c);
    RunInOrder(c, EMPTY, steps);
    RunFewer(c, EMPTY, steps);
    FewerIsMissing(c, ch);
  }

  /**
   Over every run, once the channel is drained: every message has its own descriptor
   if and only if no read cut a marked header or left a descriptor behind for lack of
   room; and otherwise some message has come without the descriptor it announces.
   */
  lemma {:induction false} DescriptorsArriveIff(c: Conf, steps: seq<Step>)
    requires c.Valid()
    ensures Inv(c, EMPTY)
    ensures var ch := Run(c, EMPTY, steps);
            ch.queue == [] && ch.wire == [] ==>
              && |Done(ch)| == |ch.posted|
              && (HaveTheirOwn(Done(ch), ch.posted) <==> LossFree(c, EMPTY, steps))
              && (Missing(Done(ch), ch.posted) <==> !LossFree(c, EMPTY, steps))
  {
    StartsInOrder(c);
    var ch := Run(c, EMPTY, steps);
    if ch.queue == [] && ch.wire == [] {
      RunInv(c, EMPTY, steps);
      AllDelivered(c, ch);
      if LossFree(c, EMPTY, steps) {
        NoneLost(c, steps, ch);
      } else {
        SomeLost(c, steps, ch);
      }
    }
  }

  // ---------- two runs in which a descriptor is lost ----------

  /** A message is sent and read in two parts, the first of them a single byte. */
  function CutRun(p: Parcel): seq<Step>
    requires p.bytes != []
  {
    [Post(p)] + ([Write(1), Read(1, true)] + [Write(|p.bytes| - 1), Read(|p.bytes| - 1, true)]) + [Take]
  }

  /** One step of a run: ch' is where it leads. */
  lemma {:induction false} RunFirst(c: Conf, ch: Chan, step: Step, rest: seq<Step>, ch': Chan)
    requires Inv(c, ch) && ch' == Next(c, ch, step)
    ensures Inv(c, ch') && Run(c, ch, [step] + rest) == Run(c, ch', rest)
    ensures LossFree(c, ch, [step] + rest) <==> !LosesFd(c, ch, step) && LossFree(c, ch', rest)
  {
    NextInv(c, ch, step);
    assert ([step] + rest)[1..] == rest;
  }

  lemma {:induction false} RunPost(c: Conf, p: Parcel, rest: seq<Step>) returns (ch: Chan)
    requires c.Valid() && Proper(c, p)
    ensures Inv(c, EMPTY) && Inv(c, ch) && ch == Chan([p], [Cells(p)], [], FRESH, [])
    ensures Run(c, EMPTY, [Post(p)] + rest) == Run(c, ch, rest)
    ensures LossFree(c, EMPTY, [Post(p)] + rest) ==> LossFree(c, ch, rest)
  {
    InvEmpty(c);
    ch := Next(c, EMPTY, Post(p));
    RunFirst(c, EMPTY, Post(p), rest, ch);
    assert [] + [Cells(p)] == [Cells(p)] && [] + [p] == [p];
  }

  lemma {:induction false} RunWriteOne(c: Conf, p: Parcel, ch0: Chan, rest: seq<Step>) returns (ch: Chan)
    requires Inv(c, ch0) && Proper(c, p) && 1 < |p.bytes| && ch0 == Chan([p], [Cells(p)], [], FRESH, [])
    ensures Inv(c, ch) && ch == Chan([p], [Cells(p)[1..]], Cells(p)[..1], FRESH, [])
    ensures Run(c, ch0, [Write(1)] + rest) == Run(c, ch, rest)
    ensures LossFree(c, ch0, [Write(1)] + rest) ==> LossFree(c, ch, rest)
  {
    ch := Next(c, ch0, Write(1));
    RunFirst(c, ch0, Write(1), rest, ch);
    FlattenOne(Cells(p));
    assert [] + Cells(p)[..1] == Cells(p)[..1];
    assert Drain([Cells(p)], 1) == [Cells(p)[1..]] + [Cells(p)][1..] == [Cells(p)[1..]];
  }

  /** What the reader holds after the first byte: no header is there to take the descriptor. */
  function OneByte(p: Parcel): Reader
    requires p.bytes != []
  {
    Reader([], None, [p.bytes[0]], false)
  }

  lemma {:induction false} ReadOneByte(c: Conf, p: Parcel, ch: Chan)
    requires Inv(c, ch) && Proper(c, p) && 1 < c.hdrsize && p.fd != NO_FD
    requires ch == Chan([p], [Cells(p)[1..]], Cells(p)[..1], FRESH, [])
    ensures Next(c, ch, Read(1, true)) == Chan([p], [Cells(p)[1..]], [], OneByte(p), [])
    ensures LosesFd(c, ch, Read(1, true))
  {
    FdsOfCells(p, 1);
    var cells := ch.wire;
    assert cells[..1] == cells && cells[1..] == [];
    assert Text(cells) == [p.bytes[0]];
    assert FRESH.residue + Text(cells) == [p.bytes[0]] && FRESH.frames + [] == FRESH.frames;
    assert CanRead(ch, 1);
    assert cells[0] == Cell(p.bytes[0], p.fd);
  }

  lemma {:induction false} RunReadOne(c: Conf, p: Parcel, ch0: Chan, rest: seq<Step>) returns (ch: Chan)
    requires Inv(c, ch0) && Proper(c, p) && 1 < c.hdrsize && p.fd != NO_FD
    requires ch0 == Chan([p], [Cells(p)[1..]], Cells(p)[..1], FRESH, [])
    ensures Inv(c, ch) && ch == Chan([p], [Cells(p)[1..]], [], OneByte(p), [])
    ensures Run(c, ch0, [Read(1, true)] + rest) == Run(c, ch, rest) && !LossFree(c, ch0, [Read(1, true)] + rest)
  {
    ReadOneByte(c, p, ch0);
    ch := Chan([p], [Cells(p)[1..]], [], OneByte(p), []);
    RunFirst(c, ch0, Read(1, true), rest, ch);
  }

  lemma {:induction false} RunWriteRest(c: Conf, p: Parcel, ch0: Chan, rest: seq<Step>) returns (ch: Chan)
    requires Inv(c, ch0) && 1 < |p.bytes| && ch0 == Chan([p], [Cells(p)[1..]], [], OneByte(p), [])
    ensures Inv(c, ch) && ch == Chan([p], [], Cells(p)[1..], OneByte(p), [])
    ensures Run(c, ch0, [Write(|p.bytes| - 1)] + rest) == Run(c, ch, rest)
  {
    var n, tail := |p.bytes| - 1, Cells(p)[1..];
    ch := Next(c, ch0, Write(n));
    RunFirst(c, ch0, Write(n), rest, ch);
    FlattenOne(tail);
    assert Drain([tail], n) == Drain([tail][1..], 0) == [];
    assert tail[..n] == tail && [] + tail == tail;
  }

  /** Everything has arrived, so the message is complete. */
  lemma {:induction false} RunReadRest(c: Conf, p: Parcel, ch0: Chan, rest: seq<Step>) returns (ch: Chan)
    requires Inv(c, ch0) && 1 < |p.bytes| <= IBUF_READ_SIZE && ch0 == Chan([p], [], Cells(p)[1..], OneByte(p), [])
    ensures Inv(c, ch) && ch.queue == [] && ch.wire == [] && ch.posted == [p] && ch.taken == []
    ensures |ch.reader.frames| == 1 && ch.reader.frames[0].bytes == p.bytes
    ensures Run(c, ch0, [Read(|p.bytes| - 1, true)] + rest) == Run(c, ch, rest)
  {
    var n := |p.bytes| - 1;
    FdsOfCells(p, 1);
    FdsOfNone(ch0.wire);
    assert ch0.wire[..n] == ch0.wire && CanRead(ch0, n);
    ch := Next(c, ch0, Read(n, true));
    RunFirst(c, ch0, Read(n, true), rest, ch);
    OnlyOneDone(c, p, ch);
  }

  lemma {:induction false} OnlyOneDone(c: Conf, p: Parcel, ch: Chan)
    requires Inv(c, ch) && ch.queue == [] && ch.wire == [] && ch.posted == [p] && ch.taken == []
    ensures |ch.reader.frames| == 1 && ch.reader.frames[0].bytes == p.bytes
  {
    AllDelivered(c, ch);
    assert Done(ch) == ch.reader.frames;
    assert Raw(Done(ch))[0] == Bodies(ch.posted[..1])[0];
  }

  lemma {:induction false} RunTakeOne(c: Conf, ch0: Chan)
    requires Inv(c, ch0) && ch0.taken == [] && |ch0.reader.frames| == 1
    ensures Run(c, ch0, [Take])
         == ch0.(taken := ch0.reader.frames, reader := ch0.reader.(frames := []))
  {
    var ch := Next(c, ch0, Take);
    RunFirst(c, ch0, Take, [], ch);
    assert [Take] + [] == [Take];
    assert [] + [ch0.reader.frames[0]] == ch0.reader.frames && ch0.reader.frames[1..] == [];
  }

  lemma {:induction false} CutRunSteps(p: Parcel)
    requires p.bytes != []
    ensures var n := |p.bytes| - 1;
            CutRun(p) == [Post(p)] + ([Write(1)] + ([Read(1, true)] + ([Write(n)] + ([Read(n, true)] + [Take]))))
  {
  }

  lemma {:induction false} RunRest(c: Conf, p: Parcel, ch0: Chan)
    requires Inv(c, ch0) && 1 < |p.bytes| <= IBUF_READ_SIZE && ch0 == Chan([p], [Cells(p)[1..]], [], OneByte(p), [])
    ensures var n := |p.bytes| - 1;
            var ch := Run(c, ch0, [Write(n)] + ([Read(n, true)] + [Take]));
            && ch.queue == [] && ch.wire == [] && ch.reader.frames == []
            && |ch.taken| == 1 && ch.taken[0].bytes == p.bytes
  {
    var n := |p.bytes| - 1;
    var ch := RunWriteRest(c, p, ch0, [Read(n, true)] + [Take]);
    ch := RunReadRest(c, p, ch, [Take]);
    RunTakeOne(c, ch);
  }

  lemma {:induction false} CutRunEnds(c: Conf, p: Parcel)
    requires c.Valid() && Proper(c, p) && 1 < c.hdrsize && |p.bytes| <= IBUF_READ_SIZE && p.fd != NO_FD
    ensures Inv(c, EMPTY) && !LossFree(c, EMPTY, CutRun(p))
    ensures var ch := Run(c, EMPTY, CutRun(p));
            && ch.queue == [] && ch.wire == [] && ch.reader.frames == []
            && |ch.taken| == 1 && ch.taken[0].bytes == p.bytes
  {
    var n := |p.bytes| - 1;
    var s4 := [Write(n)] + ([Read(n, true)] + [Take]);
    var s3 := [Read(1, true)] + s4;
    CutRunSteps(p);
    var ch := RunPost(c, p, [Write(1)] + s3);
    ch := RunWriteOne(c, p, ch, s3);
    ch := RunReadOne(c, p, ch, s4);
    RunRest(c, p, ch);
  }

  /** The one message of a run that loses a descriptor comes without it. */
  lemma {:induction false} LosesItsOwn(c: Conf, p: Parcel, steps: seq<Step>)
    requires c.Valid() && Inv(c, EMPTY) && Accepted(c, steps) == [p] && !LossFree(c, EMPTY, steps)
    requires var ch := Run(c, EMPTY, steps);
             ch.queue == [] && ch.wire == [] && ch.reader.frames == [] && |ch.taken| == 1
    ensures Run(c, EMPTY, steps).taken[0].fd == NO_FD
  {
    DescriptorsArriveIff(c, steps);
    RunPosted(c, EMPTY, steps);
    var ch := Run(c, EMPTY, steps);
    assert Done(ch) == ch.taken && [] + [p] == [p];
  }

  /** Every message with a descriptor loses it in that run, and arrives. */
  lemma {:induction false} CutRunLoses(c: Conf, p: Parcel)
    requires c.Valid() && Proper(c, p) && 1 < c.hdrsize && |p.bytes| <= IBUF_READ_SIZE && p.fd != NO_FD
    ensures Inv(c, EMPTY) && Accepted(c, CutRun(p)) == [p] && !LossFree(c, EMPTY, CutRun(p))
    ensures var ch := Run(c, EMPTY, CutRun(p));
            && ch.queue == [] && ch.wire == [] && ch.reader.frames == []
            && |ch.taken| == 1 && ch.taken[0].bytes == p.bytes && ch.taken[0].fd == NO_FD
  {
    CutRunEnds(c, p);
    AcceptedOne(c, p, CutRun(p)[1..]);
    LosesItsOwn(c, p, CutRun(p));
  }

  lemma {:induction false} AcceptedOne(c: Conf, p: Parcel, rest: seq<Step>)
    requires Proper(c, p) && forall i :: 0 <= i < |rest| ==> !rest[i].Post?
    ensures Accepted(c, [Post(p)] + rest) == [p]
  {
    NothingPosted(c, rest);
    assert ([Post(p)] + rest)[1..] == rest && [p] + [] == [p];
  }

  /** A message is sent and read whole while no descriptor slot is free. */
  function DropRun(p: Parcel): seq<Step> {
    [Post(p)] + [Write(|p.bytes|), Read(|p.bytes|, false)] + [Take]
  }

  lemma {:induction false} RunWriteAll(c: Conf, p: Parcel, ch0: Chan, rest: seq<Step>) returns (ch: Chan)
    requires Inv(c, ch0) && 0 < |p.bytes| && ch0 == Chan([p], [Cells(p)], [], FRESH, [])
    ensures Inv(c, ch) && ch == Chan([p], [], Cells(p), FRESH, [])
    ensures Run(c, ch0, [Write(|p.bytes|)] + rest) == Run(c, ch, rest)
    ensures LossFree(c, ch0, [Write(|p.bytes|)] + rest) ==> LossFree(c, ch, rest)
  {
    var n := |p.bytes|;
    ch := Next(c, ch0, Write(n));
    RunFirst(c, ch0, Write(n), rest, ch);
    FlattenOne(Cells(p));
    assert Drain([Cells(p)], n) == Drain([Cells(p)][1..], 0) == [];
    assert Cells(p)[..n] == Cells(p) && [] + Cells(p) == Cells(p);
  }

  lemma {:induction false} RunReadAll(c: Conf, p: Parcel, ch0: Chan, rest: seq<Step>) returns (ch: Chan)
    requires Inv(c, ch0) && 0 < |p.bytes| <= IBUF_READ_SIZE && p.fd != NO_FD
    requires ch0 == Chan([p], [], Cells(p), FRESH, [])
    ensures Inv(c, ch) && ch.queue == [] && ch.wire == [] && ch.posted == [p] && ch.taken == []
    ensures |ch.reader.frames| == 1 && ch.reader.frames[0].bytes == p.bytes
    ensures Run(c, ch0, [Read(|p.bytes|, false)] + rest) == Run(c, ch, rest)
    ensures !LossFree(c, ch0, [Read(|p.bytes|, false)] + rest)
  {
    var n := |p.bytes|;
    FdsOfParcel(p);
    assert ch0.wire[..n] == ch0.wire && CanRead(ch0, n);
    ch := Next(c, ch0, Read(n, false));
    RunFirst(c, ch0, Read(n, false), rest, ch);
    OnlyOneDone(c, p, ch);
  }

  /** Every message with a descriptor loses it in that run, and arrives. */
  lemma {:induction false} DropRunLoses(c: Conf, p: Parcel)
    requires c.Valid() && Proper(c, p) && |p.bytes| <= IBUF_READ_SIZE && p.fd != NO_FD
    ensures Inv(c, EMPTY) && Accepted(c, DropRun(p)) == [p] && !LossFree(c, EMPTY, DropRun(p))
    ensures var ch := Run(c, EMPTY, DropRun(p));
            && ch.queue == [] && ch.wire == [] && ch.reader.frames == []
            && |ch.taken| == 1 && ch.taken[0].bytes == p.bytes && ch.taken[0].fd == NO_FD
  {
    var n := |p.bytes|;
    var s3 := [Read(n, false)] + [Take];
    assert DropRun(p) == [Post(p)] + ([Write(n)] + s3);
    var ch := RunPost(c, p, [Write(n)] + s3);
    ch := RunWriteAll(c, p, ch, s3);
    ch := RunReadAll(c, p, ch, [Take]);
    RunTakeOne(c, ch);
    AcceptedOne(c, p, [Write(n)] + s3);
    LosesItsOwn(c, p, DropRun(p));
  }

  lemma {:induction false} NothingPosted(c: Conf, steps: seq<Step>)
    requires forall i :: 0 <= i < |steps| ==> !steps[i].Post?
    ensures Accepted(c, steps) == []
  {
    if steps != [] {
      assert forall i :: 0 <= i < |steps| - 1 ==> steps[1..][i] == steps[i + 1];
      NothingPosted(c, steps[1..]);
    }
  }
}
