/**
 Two imsgbufs at the ends of a socket pair: one composes and writes, the other
 reads and gets. Whatever the caller and the kernel do, in any order, the pair
 is a run of the channel, so what holds of every run holds of the two objects.
 */
module ImsgWire {
  import opened Common
  import opened ImsgReader
  import opened ImsgFormat
  import C = ImsgChannel
  import D = ImsgDescriptors
  import opened ImsgMessages
  import opened Ibufs
  import opened Imsgbufs

  /** The channel these steps lead to. */
  ghost function ChanOf(f: Format, ownPid: u32, steps: seq<Step>): (ch: C.Chan)
    requires f.Valid()
    ensures C.Inv(ImsgConf(f), ch)
  {
    C.InvEmpty(ImsgConf(f));
    C.RunInv(ImsgConf(f), C.EMPTY, LowerAll(f, ownPid, steps));
    C.Run(ImsgConf(f), C.EMPTY, LowerAll(f, ownPid, steps))
  }

  lemma {:induction false} ChanSnoc(f: Format, ownPid: u32, steps: seq<Step>, step: Step)
    requires f.Valid()
    ensures ChanOf(f, ownPid, steps + [step]) == C.Next(ImsgConf(f), ChanOf(f, ownPid, steps), Lower(f, ownPid, step))
  {
    C.InvEmpty(ImsgConf(f));
    LowerOne(f, ownPid, step);
    LowerAppend(f, ownPid, steps, [step]);
    C.RunSnoc(ImsgConf(f), C.EMPTY, LowerAll(f, ownPid, steps), Lower(f, ownPid, step));
  }

  /** The cells carry descriptors or none, and none when they are not passed. */
  ghost predicate FdsValid(cells: seq<C.Cell>, passing: bool) {
    forall i :: 0 <= i < |cells| ==> NO_FD <= cells[i].fd && (passing || cells[i].fd == NO_FD)
  }

  lemma {:induction false} FdsOfValid(cells: seq<C.Cell>, passing: bool)
    requires FdsValid(cells, passing)
    ensures forall fd :: fd in C.FdsOf(cells) ==> 0 <= fd
    ensures !passing ==> C.FdsOf(cells) == []
  {
    if cells != [] {
      assert forall i :: 0 <= i < |cells| - 1 ==> cells[1..][i] == cells[i + 1];
      FdsOfValid(cells[1..], passing);
    }
  }

  lemma {:induction false} FdsValidPosted(wire: seq<C.Cell>, queue: seq<seq<C.Cell>>, cells: seq<C.Cell>, passing: bool)
    requires FdsValid(wire + Flatten(queue), passing) && FdsValid(cells, passing)
    ensures FdsValid(wire + Flatten(queue + [cells]), passing)
  {
    D.FlattenSnoc(queue, cells);
    AppendAssoc(wire, Flatten(queue), cells);
  }

  /** Nothing is written. */
  lemma {:induction false} WriteNone(c: Conf, ch: C.Chan)
    requires C.Inv(c, ch)
    ensures C.Next(c, ch, C.Write(0)) == ch
  {
    assert ch.wire + Flatten(ch.queue)[..0] == ch.wire;
  }

  lemma {:induction false} WriteSome(c: Conf, ch: C.Chan, n: nat)
    requires C.Inv(c, ch) && n <= |Flatten(ch.queue)|
    ensures var ch' := C.Next(c, ch, C.Write(n));
            ch'.wire + Flatten(ch'.queue) == ch.wire + Flatten(ch.queue)
  {
    C.DrainIsDrop(ch.queue, n);
    assert ch.wire + Flatten(ch.queue)[..n] + Flatten(ch.queue)[n..] == ch.wire + Flatten(ch.queue);
  }

  /** What was got is what the channel has handed over. */
  ghost predicate GotAre(f: Format, got: seq<Item>, taken: seq<Frame>) {
    && |got| == |taken|
    && forall i :: 0 <= i < |got| ==>
         HEADER_SIZE <= |taken[i].bytes| && got[i] == Item(Decode(f, taken[i].bytes), taken[i].fd)
  }

  lemma {:induction false} GotSnoc(f: Format, got: seq<Item>, taken: seq<Frame>, frame: Frame)
    requires GotAre(f, got, taken) && HEADER_SIZE <= |frame.bytes|
    ensures GotAre(f, got + [Item(Decode(f, frame.bytes), frame.fd)], taken + [frame])
  {
  }

  /** The two ends as values, and what is on the wire between them. */
  datatype Ends = Ends(queue: seq<seq<C.Cell>>, wire: seq<C.Cell>, reader: Reader, got: seq<Item>)

  /** The call leaves descriptors out when they are not passed. */
  predicate Allowed(call: Call, passing: bool) {
    passing || call.fd < 0
  }

  ghost predicate AllAllowed(steps: seq<Step>, passing: bool) {
    forall i :: 0 <= i < |steps| && steps[i].Compose? ==> Allowed(steps[i].call, passing)
  }

  /** They are where these steps lead. */
  ghost predicate Stands(f: Format, passing: bool, ownPid: u32, steps: seq<Step>, e: Ends) {
    f.Valid() && AllAllowed(steps, passing) &&
    var ch := ChanOf(f, ownPid, steps);
    && ch.queue == e.queue && ch.wire == e.wire && ch.reader == e.reader
    && FdsValid(e.wire + Flatten(e.queue), passing)
    && GotAre(f, e.got, ch.taken)
  }

  function Queue(f: Format, ownPid: u32, call: Call): seq<seq<C.Cell>>
    requires f.Valid()
  {
    var m := Message(ownPid, call);
    if Fits(f, m) then [C.Cells(ParcelOf(f, m, call.fd))] else []
  }

  lemma {:induction false} ComposeAccepted(f: Format, passing: bool, ownPid: u32, steps: seq<Step>, e: Ends,
      call: Call)
    requires Stands(f, passing, ownPid, steps, e) && Allowed(call, passing) && Fits(f, Message(ownPid, call))
    ensures Stands(f, passing, ownPid, steps + [Step.Compose(call)], e.(queue := e.queue + Queue(f, ownPid, call)))
  {
    var m := Message(ownPid, call);
    ChanSnoc(f, ownPid, steps, Step.Compose(call));
    ProperParcel(f, m, call.fd);
    FdsValidPosted(e.wire, e.queue, C.Cells(ParcelOf(f, m, call.fd)), passing);
  }

  lemma {:induction false} ComposeStands(f: Format, passing: bool, ownPid: u32, steps: seq<Step>, e: Ends, call: Call)
    requires Stands(f, passing, ownPid, steps, e) && Allowed(call, passing)
    ensures Stands(f, passing, ownPid, steps + [Step.Compose(call)], e.(queue := e.queue + Queue(f, ownPid, call)))
  {
    if Fits(f, Message(ownPid, call)) {
      ComposeAccepted(f, passing, ownPid, steps, e, call);
    } else {
      ChanSnoc(f, ownPid, steps, Step.Compose(call));
      WriteNone(ImsgConf(f), ChanOf(f, ownPid, steps));
      assert e.queue + [] == e.queue;
    }
  }

  lemma {:induction false} WriteStands(f: Format, passing: bool, ownPid: u32, steps: seq<Step>, e: Ends, n: nat)
    requires Stands(f, passing, ownPid, steps, e) && n <= |Flatten(e.queue)|
    ensures Stands(f, passing, ownPid, steps + [Step.Write(n)],
                   e.(queue := C.Drain(e.queue, n), wire := e.wire + Flatten(e.queue)[..n]))
  {
    ChanSnoc(f, ownPid, steps, Step.Write(n));
    WriteSome(ImsgConf(f), ChanOf(f, ownPid, steps), n);
  }

  /** The kernel can hand over n bytes. */
  predicate Readable(e: Ends, n: nat) {
    1 <= n <= |e.wire| && n + |e.reader.residue| <= IBUF_READ_SIZE && |C.FdsOf(e.wire[..n])| <= 1
  }

  /** A step that changes nothing. */
  lemma {:induction false} StandsStill(f: Format, passing: bool, ownPid: u32, steps: seq<Step>, e: Ends, step: Step)
    requires Stands(f, passing, ownPid, steps, e) && !step.Compose?
    requires ChanOf(f, ownPid, steps + [step]) == ChanOf(f, ownPid, steps)
    ensures Stands(f, passing, ownPid, steps + [step], e)
  {
  }

  lemma {:induction false} NoRead(c: Conf, ch: C.Chan, n: nat, room: bool)
    requires C.Inv(c, ch) && !C.CanRead(ch, n)
    ensures C.Next(c, ch, C.Read(n, room)) == ch
  {
  }

  lemma {:induction false} ReadNothing(f: Format, passing: bool, ownPid: u32, steps: seq<Step>, e: Ends,
      n: nat, room: bool)
    requires Stands(f, passing, ownPid, steps, e) && !Readable(e, n)
    ensures Stands(f, passing, ownPid, steps + [Step.Read(n, room)], e)
  {
    var step := Step.Read(n, room);
    assert ChanOf(f, ownPid, steps + [step]) == ChanOf(f, ownPid, steps) by {
      ChanSnoc(f, ownPid, steps, step);
      NoRead(ImsgConf(f), ChanOf(f, ownPid, steps), n, room);
    }
    StandsStill(f, passing, ownPid, steps, e, step);
  }

  /** Reading is defined. */
  lemma {:induction false} ReadReady(f: Format, passing: bool, ownPid: u32, steps: seq<Step>, e: Ends)
    requires Stands(f, passing, ownPid, steps, e)
    ensures ImsgConf(f).Valid()
            && (e.reader.partial.Some? ==> |e.reader.partial.value.bytes| < e.reader.partial.value.len)
  {
  }

  /** What the read step does, and that it refuses nothing. */
  lemma {:induction false} ReadMoves(c: Conf, ch: C.Chan, n: nat, room: bool)
    requires C.Inv(c, ch) && C.CanRead(ch, n)
    ensures var r := Feed(c, ch.reader, C.Received(ch.wire[..n], room));
            !r.failed && C.Next(c, ch, C.Read(n, room)) == ch.(reader := r, wire := ch.wire[n..])
  {
    C.InvRead(c, ch, n, room);
  }

  lemma {:induction false} ReadStands(f: Format, passing: bool, ownPid: u32, steps: seq<Step>, e: Ends,
      n: nat, room: bool)
    requires Stands(f, passing, ownPid, steps, e) && Readable(e, n)
    requires e.reader.partial.Some? ==> |e.reader.partial.value.bytes| < e.reader.partial.value.len
    ensures var r := Feed(ImsgConf(f), e.reader, C.Received(e.wire[..n], room));
            && !r.failed && FdsValid(e.wire[..n], passing)
            && Stands(f, passing, ownPid, steps + [Step.Read(n, room)], e.(wire := e.wire[n..], reader := r))
  {
    ChanSnoc(f, ownPid, steps, Step.Read(n, room));
    ReadMoves(ImsgConf(f), ChanOf(f, ownPid, steps), n, room);
    FdsValidCut(e.wire, Flatten(e.queue), n, passing);
  }

  lemma {:induction false} FdsValidCut(a: seq<C.Cell>, b: seq<C.Cell>, n: nat, passing: bool)
    requires FdsValid(a + b, passing) && n <= |a|
    ensures FdsValid(a[..n], passing) && FdsValid(a[n..] + b, passing)
  {
    assert forall i :: 0 <= i < n ==> a[..n][i] == (a + b)[i];
    assert forall i :: 0 <= i < |a[n..] + b| ==> (a[n..] + b)[i] == (a + b)[n + i];
  }

  lemma {:induction false} NoTake(c: Conf, ch: C.Chan)
    requires C.Inv(c, ch) && ch.reader.frames == []
    ensures C.Next(c, ch, C.Take) == ch
  {
  }

  lemma {:induction false} GetNothing(f: Format, passing: bool, ownPid: u32, steps: seq<Step>, e: Ends)
    requires Stands(f, passing, ownPid, steps, e) && e.reader.frames == []
    ensures Stands(f, passing, ownPid, steps + [Step.Get], e)
  {
    assert ChanOf(f, ownPid, steps + [Step.Get]) == ChanOf(f, ownPid, steps) by {
      ChanSnoc(f, ownPid, steps, Step.Get);
      NoTake(ImsgConf(f), ChanOf(f, ownPid, steps));
    }
    StandsStill(f, passing, ownPid, steps, e, Step.Get);
  }

  lemma {:induction false} GetStands(f: Format, passing: bool, ownPid: u32, steps: seq<Step>, e: Ends)
    requires Stands(f, passing, ownPid, steps, e) && e.reader.frames != []
    requires HEADER_SIZE <= |e.reader.frames[0].bytes|
    ensures var frame := e.reader.frames[0];
            Stands(f, passing, ownPid, steps + [Step.Get],
                   e.(reader := e.reader.(frames := e.reader.frames[1..]),
                      got := e.got + [Item(Decode(f, frame.bytes), frame.fd)]))
  {
    ChanSnoc(f, ownPid, steps, Step.Get);
    GotSnoc(f, e.got, ChanOf(f, ownPid, steps).taken, e.reader.frames[0]);
  }

  class Link {
    const sender: Imsgbuf
    const receiver: Imsgbuf
    var wire: seq<C.Cell>      // sent and not yet received
    var got: seq<Item>         // the messages got, with their descriptors
    ghost var steps: seq<Step> // everything that was done

    /** The two ends work alike and share no buffer. */
    ghost predicate Apart()
      reads sender, receiver
    {
      && sender != receiver && sender.format == receiver.format
      && sender.allowFdpass == receiver.allowFdpass
      && forall b :: b in sender.bufs ==> b !in receiver.rbufs && b != receiver.rpmsg
    }

    ghost function Now(): Ends
      requires receiver.ReadValid()
      reads this, sender, receiver, receiver.rbuf, receiver.rbufs, receiver.rpmsg
    {
      Ends(sender.queue, wire, receiver.State(), got)
    }

    /** Both objects are well formed. */
    ghost predicate Sound()
      reads sender, sender.bufs, receiver, receiver.rbuf, receiver.rbufs, receiver.rpmsg
    {
      Apart() && sender.WriteValid() && receiver.ReadValid()
    }

    ghost predicate Valid()
      reads this, sender, sender.bufs, receiver, receiver.rbuf, receiver.rbufs, receiver.rpmsg
    {
      Sound() && Stands(sender.format, sender.allowFdpass, sender.ownPid, steps, Now())
    }

    constructor (format: Format, passing: bool, senderPid: u32, receiverPid: u32)
      requires format.Valid()
      ensures Valid() && steps == [] && got == [] && sender.format == format && sender.ownPid == senderPid
      ensures sender.allowFdpass == passing
      ensures fresh(sender) && fresh(receiver) && fresh(receiver.rbuf)
      ensures sender.bufs == [] && receiver.rbufs == [] && receiver.rpmsg == null
    {
      sender := new Imsgbuf.Init(format, passing, senderPid);
      receiver := new Imsgbuf.Init(format, passing, receiverPid);
      wire, got, steps := [], [], [];
    }

    /** A step is over: what is on the wire and what has been got. */
    method Note(wire: seq<C.Cell>, got: seq<Item>, ghost step: Step)
      requires Sound()
      modifies this`steps, this`wire, this`got
      ensures Sound() && receiver.State() == old(receiver.State())
      ensures this.wire == wire && this.got == got && steps == old(steps) + [step]
    {
      this.wire, this.got := wire, got;
      steps := steps + [step];
    }

    /** The sending half of composing. */
    method Post(call: Call) returns (rv: int)
      requires Sound() && Allowed(call, sender.allowFdpass)
      modifies this`steps, this`wire, this`got, sender`bufs, sender`queued, sender`queue
      ensures Sound() && steps == old(steps) + [Step.Compose(call)] && wire == old(wire) && got == old(got)
      ensures forall b :: b in sender.bufs ==> b in old(sender.bufs) || fresh(b)
      ensures sender.queue == old(sender.queue) + Queue(sender.format, sender.ownPid, call)
      ensures receiver.State() == old(receiver.State())
    {
      rv := sender.Compose(call.kind, call.id, call.pid, call.fd, call.data);
      assert old(sender.queue) + [] == old(sender.queue);
      Note(wire, got, Step.Compose(call));
    }

    /** imsg_compose at one end; without passing no caller has a descriptor to pass. */
    method Compose(call: Call) returns (rv: int)
      requires Valid() && Allowed(call, sender.allowFdpass)
      modifies this`steps, this`wire, this`got, sender`bufs, sender`queued, sender`queue
      ensures Valid() && steps == old(steps) + [Step.Compose(call)]
      ensures forall b :: b in sender.bufs ==> b in old(sender.bufs) || fresh(b)
    {
      ComposeStands(sender.format, sender.allowFdpass, sender.ownPid, steps, Now(), call);
      rv := Post(call);
    }

    /** The sending half of writing: the cells the kernel took are on the wire. */
    method Send(kernel: Sent) returns (rv: int, n: nat)
      requires Sound() && (kernel.Moved? ==> 0 < kernel.n)
      modifies this`steps, this`wire, this`got, sender`bufs, sender`queued, sender`queue, sender.bufs
      ensures Sound() && steps == old(steps) + [Step.Write(n)] && got == old(got)
      ensures forall b :: b in sender.bufs ==> b in old(sender.bufs)
      ensures n <= |Flatten(old(sender.queue))| && wire == old(wire) + Flatten(old(sender.queue))[..n]
      ensures sender.queue == C.Drain(old(sender.queue), n) && receiver.State() == old(receiver.State())
    {
      var sent;
      ghost var k;
      rv, sent, k := sender.Write(kernel);
      assert forall b :: b in receiver.rbufs ==> unchanged(b);
      receiver.ReadKept();
      n := |sent|;
      Note(wire + sent, got, Step.Write(n));
    }

    /** imsgbuf_write at the same end; the kernel takes what it likes. */
    method Write(kernel: Sent) returns (rv: int, n: nat)
      requires Valid() && (kernel.Moved? ==> 0 < kernel.n)
      modifies this`steps, this`wire, this`got, sender`bufs, sender`queued, sender`queue, sender.bufs
      ensures Valid() && steps == old(steps) + [Step.Write(n)]
      ensures forall b :: b in sender.bufs ==> b in old(sender.bufs)
    {
      rv, n := Send(kernel);
      WriteStands(sender.format, sender.allowFdpass, sender.ownPid, old(steps), old(Now()), n);
    }

    /** The receiving half of reading, when the bytes fit and are not refused. */
    method Receive(n: nat, room: bool) returns (rv: int, closed: seq<int>)
      requires Sound() && Readable(Now(), n)
      requires FdsValid(wire[..n], sender.allowFdpass)
               && !Feed(ImsgConf(sender.format), receiver.State(), C.Received(wire[..n], room)).failed
      modifies this`steps, this`wire, this`got
      modifies receiver`rpmsg, receiver`rbufs, receiver`frames, receiver`partial, receiver`roff, receiver.rbuf,
               receiver.rpmsg
      ensures Sound() && rv == 1 && receiver.OnlyNew(old(receiver.rbufs), old(receiver.rpmsg))
      ensures receiver.State() == Feed(ImsgConf(sender.format), old(receiver.State()), C.Received(old(wire)[..n], room))
      ensures steps == old(steps) + [Step.Read(n, room)] && wire == old(wire)[n..] && got == old(got)
    {
      FdsOfValid(wire[..n], sender.allowFdpass);
      rv, closed := receiver.Read(Arrived(C.Text(wire[..n]), if room then C.FdsOf(wire[..n]) else []));
      assert forall b :: b in sender.bufs ==> unchanged(b);
      sender.WriteKept();
      Note(wire[n..], got, Step.Read(n, room));
    }

    method ReadSome(n: nat, room: bool) returns (rv: int, closed: seq<int>)
      requires Valid() && Readable(Now(), n)
      modifies this`steps, this`wire, this`got
      modifies receiver`rpmsg, receiver`rbufs, receiver`frames, receiver`partial, receiver`roff, receiver.rbuf,
               receiver.rpmsg
      ensures Valid() && steps == old(steps) + [Step.Read(n, room)] && rv == 1
      ensures receiver.OnlyNew(old(receiver.rbufs), old(receiver.rpmsg))
    {
      ReadReady(sender.format, sender.allowFdpass, sender.ownPid, steps, Now());
      ReadStands(sender.format, sender.allowFdpass, sender.ownPid, steps, Now(), n, room);
      rv, closed := Receive(n, room);
    }

    /** imsgbuf_read at the other end, when the kernel can hand over n bytes; room is a free descriptor slot. */
    method Read(n: nat, room: bool) returns (rv: int, closed: seq<int>)
      requires Valid()
      modifies this`steps, this`wire, this`got
      modifies receiver`rpmsg, receiver`rbufs, receiver`frames, receiver`partial, receiver`roff, receiver.rbuf,
               receiver.rpmsg
      ensures Valid() && steps == old(steps) + [Step.Read(n, room)] && rv == 1
      ensures receiver.OnlyNew(old(receiver.rbufs), old(receiver.rpmsg))
    {
      if 1 <= n <= |wire| && n + receiver.roff <= IBUF_READ_SIZE && |C.FdsOf(wire[..n])| <= 1 {
        rv, closed := ReadSome(n, room);
      } else {
        ReadNothing(sender.format, sender.allowFdpass, sender.ownPid, steps, Now(), n, room);
        rv, closed := 1, [];
        Note(wire, got, Step.Read(n, room));
      }
    }

    /** The receiving half of getting: the oldest message leaves. */
    method Fetch() returns (r: Option<Item>)
      requires Sound()
      modifies this`steps, this`wire, this`got, receiver`rbufs, receiver`frames, receiver.rbufs
      ensures Sound() && steps == old(steps) + [Step.Get] && wire == old(wire)
      ensures got == if r.Some? then old(got) + [r.value] else old(got)
      ensures forall b :: b in receiver.rbufs ==> b in old(receiver.rbufs)
      ensures var before := old(receiver.State());
              if before.frames == [] then r == None && receiver.State() == before
              else
                && HEADER_SIZE <= |before.frames[0].bytes|
                && r == Some(Item(Decode(sender.format, before.frames[0].bytes), before.frames[0].fd))
                && receiver.State() == before.(frames := before.frames[1..])
    {
      assert receiver.rbufs != [] ==> Collected(receiver.rbufs[0], receiver.frames[0]);
      var m := receiver.Get();
      assert forall b :: b in sender.bufs ==> unchanged(b);
      sender.WriteKept();
      r := if m.Some? then Some(Item(m.value.0, m.value.1.fd)) else None;
      Note(wire, if r.Some? then got + [r.value] else got, Step.Get);
    }

    /** imsg_get at that end */
    method Get() returns (r: Option<Item>)
      requires Valid()
      modifies this`steps, this`wire, this`got, receiver`rbufs, receiver`frames, receiver.rbufs
      ensures Valid() && steps == old(steps) + [Step.Get]
      ensures got == if r.Some? then old(got) + [r.value] else old(got)
      ensures forall b :: b in receiver.rbufs ==> b in old(receiver.rbufs)
    {
      r := Fetch();
      if r.Some? {
        GetStands(sender.format, sender.allowFdpass, sender.ownPid, old(steps), old(Now()));
      } else {
        GetNothing(sender.format, sender.allowFdpass, sender.ownPid, old(steps), old(Now()));
      }
    }
  }

  /** Nothing is under way. */
  ghost predicate Drained(l: Link)
    reads l, l.sender, l.receiver
  {
    l.sender.queue == [] && l.wire == [] && l.receiver.frames == []
  }

  lemma {:induction false} NothingPassed(f: Format, ownPid: u32, steps: seq<Step>)
    requires f.Valid() && AllAllowed(steps, false)
    ensures forall i :: 0 <= i < |Composed(f, ownPid, steps)| ==> Composed(f, ownPid, steps)[i].fd == NO_FD
  {
    if steps != [] {
      assert forall i :: 0 <= i < |steps| - 1 ==> steps[1..][i] == steps[i + 1];
      NothingPassed(f, ownPid, steps[1..]);
    }
  }

  /**
   In every state the pair can reach: the messages got are a prefix of those
   composed, and all of them when nothing is under way. Without passing that is
   all; with it, they have brought their own descriptors exactly when no read cut
   the header of one that has one or left one behind for lack of a slot.
   */
  lemma {:induction false} LinkDelivers(l: Link)
    requires l.Valid()
    ensures var f, pid := l.sender.format, l.sender.ownPid;
            var composed := Composed(f, pid, l.steps);
            var low := LowerAll(f, pid, l.steps);
            && C.Inv(ImsgConf(f), C.EMPTY)
            && |l.got| <= |composed| && (forall i :: 0 <= i < |l.got| ==> l.got[i].msg == composed[i].msg)
            && (Drained(l) ==>
                  && |l.got| == |composed|
                  && (l.got == composed <==> D.LossFree(ImsgConf(f), C.EMPTY, low))
                  && (Lacks(l.got, composed) <==> !D.LossFree(ImsgConf(f), C.EMPTY, low)))
            && (Drained(l) && !l.sender.allowFdpass ==> l.got == composed)
  {
    var f, pid := l.sender.format, l.sender.ownPid;
    MessagesArrive(f, pid, l.steps);
    assert l.receiver.State().frames == l.receiver.frames;
    if Drained(l) {
      DescriptorsArrive(f, pid, l.steps);
      assert l.got == Gotten(f, ChanOf(f, pid, l.steps).taken);
      if !l.sender.allowFdpass { NothingPassed(f, pid, l.steps); }
    }
  }
}
