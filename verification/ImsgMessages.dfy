/** The channel at the level of imsg_compose and imsg_get. */
module ImsgMessages {
  import opened Common
  import opened ImsgReader
  import opened ImsgFormat
  import C = ImsgChannel
  import D = ImsgDescriptors
  import L = ImsgLoss
  import E = ImsgDrain

  datatype Call = Call(kind: u32, id: u32, pid: u32, fd: int, data: seq<byte>)

  datatype Step = Compose(call: Call) | Write(n: nat) | Read(n: nat, room: bool) | Get

  /** The message a call composes: process id zero stands for the sender's own. */
  function Message(ownPid: u32, call: Call): Msg {
    Msg(call.kind, call.id, if call.pid == 0 then ownPid else call.pid, call.data)
  }

  /** What imsg_compose queues for a message within the size limit. */
  function ParcelOf(f: Format, m: Msg, fd: int): C.Parcel
    requires f.Valid() && Fits(f, m)
  {
    C.Parcel(Encode(f, m, 0 <= fd), if 0 <= fd then fd else NO_FD)
  }

  function Lower(f: Format, ownPid: u32, step: Step): C.Step
    requires f.Valid()
  {
    match step
    case Compose(call) =>
      var m := Message(ownPid, call);
      if Fits(f, m) then C.Post(ParcelOf(f, m, call.fd)) else C.Write(0)
    case Write(n) => C.Write(n)
    case Read(n, room) => C.Read(n, room)
    case Get => C.Take
  }

  function LowerAll(f: Format, ownPid: u32, steps: seq<Step>): seq<C.Step>
    requires f.Valid()
  {
    if steps == [] then [] else [Lower(f, ownPid, steps[0])] + LowerAll(f, ownPid, steps[1..])
  }

  /** A message with the descriptor it was composed with. */
  datatype Item = Item(msg: Msg, fd: int)

  /** The calls of a run that were within the size limit, in order. */
  function Composed(f: Format, ownPid: u32, steps: seq<Step>): seq<Item> {
    if steps == [] then []
    else if steps[0].Compose? && Fits(f, Message(ownPid, steps[0].call)) then
      var call := steps[0].call;
      [Item(Message(ownPid, call), if 0 <= call.fd then call.fd else NO_FD)] + Composed(f, ownPid, steps[1..])
    else Composed(f, ownPid, steps[1..])
  }

  /** What imsg_get returns for the frames taken, with the descriptors imsg_get_fd returns. */
  function Gotten(f: Format, frames: seq<Frame>): seq<Item>
    requires forall i :: 0 <= i < |frames| ==> HEADER_SIZE <= |frames[i].bytes|
  {
    seq(|frames|, i requires 0 <= i < |frames| => Item(Decode(f, frames[i].bytes), frames[i].fd))
  }

  lemma {:induction false} ProperParcel(f: Format, m: Msg, fd: int)
    requires f.Valid() && Fits(f, m)
    ensures C.Proper(ImsgConf(f), ParcelOf(f, m, fd))
    ensures Decode(f, ParcelOf(f, m, fd).bytes) == m
  {
    DecodeEncode(f, m, 0 <= fd);
  }

  /** The parcel is the item, encoded. */
  predicate Encodes(f: Format, p: C.Parcel, item: Item) {
    HEADER_SIZE <= |p.bytes| && Decode(f, p.bytes) == item.msg && p.fd == item.fd
  }

  ghost predicate Represents(f: Format, ps: seq<C.Parcel>, items: seq<Item>) {
    |ps| == |items| && forall i :: 0 <= i < |ps| ==> Encodes(f, ps[i], items[i])
  }

  lemma {:induction false} RepresentsCons(f: Format, p: C.Parcel, item: Item, ps: seq<C.Parcel>, items: seq<Item>)
    requires Encodes(f, p, item) && Represents(f, ps, items)
    ensures Represents(f, [p] + ps, [item] + items)
  {
    var all, those := [p] + ps, [item] + items;
    forall i | 0 <= i < |all| ensures Encodes(f, all[i], those[i]) {
      if 0 < i { assert all[i] == ps[i - 1] && those[i] == items[i - 1]; }
    }
  }

  lemma {:induction false} AcceptedRepresents(f: Format, ownPid: u32, steps: seq<Step>)
    requires f.Valid()
    ensures Represents(f, C.Accepted(ImsgConf(f), LowerAll(f, ownPid, steps)), Composed(f, ownPid, steps))
  {
    if steps != [] {
      var low := LowerAll(f, ownPid, steps);
      AcceptedRepresents(f, ownPid, steps[1..]);
      assert low[0] == Lower(f, ownPid, steps[0]) && low[1..] == LowerAll(f, ownPid, steps[1..]);
      if steps[0].Compose? && Fits(f, Message(ownPid, steps[0].call)) {
        var call := steps[0].call;
        ProperParcel(f, Message(ownPid, call), call.fd);
        RepresentsCons(f, low[0].p, Composed(f, ownPid, steps)[0],
                       C.Accepted(ImsgConf(f), low[1..]), Composed(f, ownPid, steps[1..]));
      } else {
        assert C.AcceptedBy(ImsgConf(f), low[0]) == [];
      }
    }
  }

  /**
   For every list of compose calls and however the kernel splits writes and
   reads: the reader never fails, and the messages got are a prefix of those
   composed within the size limit, with the same type, id, pid and payload.
   When all bytes have been read and all messages got, they are all of them.
   */
  lemma {:induction false} MessagesArrive(f: Format, ownPid: u32, steps: seq<Step>)
    requires f.Valid()
    ensures C.Inv(ImsgConf(f), C.EMPTY)
    ensures var ch := C.Run(ImsgConf(f), C.EMPTY, LowerAll(f, ownPid, steps));
            var composed := Composed(f, ownPid, steps);
            && !ch.reader.failed
            && |ch.taken| <= |composed|
            && (forall i :: 0 <= i < |ch.taken| ==>
                  && HEADER_SIZE <= |ch.taken[i].bytes|
                  && Decode(f, ch.taken[i].bytes) == composed[i].msg)
            && (ch.queue == [] && ch.wire == [] && ch.reader.frames == [] ==> |ch.taken| == |composed|)
  {
    var c := ImsgConf(f);
    var low := LowerAll(f, ownPid, steps);
    C.DeliveredInOrder(c, low);
    AcceptedRepresents(f, ownPid, steps);
    var ch := C.Run(c, C.EMPTY, low);
    var posted := C.Accepted(c, low);
    forall i | 0 <= i < |ch.taken|
      ensures ch.taken[i].bytes == posted[i].bytes
    {
      assert Raw(C.Done(ch))[i] == C.Bodies(posted[..|C.Done(ch)|])[i];
    }
  }

  /** The messages got are those composed exactly when the descriptors are. */
  lemma {:induction false} GottenMatches(f: Format, taken: seq<Frame>, posted: seq<C.Parcel>, composed: seq<Item>)
    requires |taken| == |posted| && Represents(f, posted, composed)
    requires forall i :: 0 <= i < |taken| ==>
               HEADER_SIZE <= |taken[i].bytes| && Decode(f, taken[i].bytes) == composed[i].msg
    ensures Gotten(f, taken) == composed <==> L.HaveTheirOwn(taken, posted)
  {
    var got := Gotten(f, taken);
    assert forall i :: 0 <= i < |got| ==> got[i].msg == composed[i].msg && got[i].fd == taken[i].fd;
    if got == composed {
      forall i | 0 <= i < |posted| ensures taken[i].fd == posted[i].fd {
        assert got[i] == composed[i];
      }
    }
  }

  /** When nothing waits, what was taken is all that was completed, and the posted parcels are the calls. */
  lemma {:induction false} AllTaken(f: Format, ownPid: u32, steps: seq<Step>, ch: C.Chan)
    requires f.Valid() && C.Inv(ImsgConf(f), C.EMPTY)
    requires ch == C.Run(ImsgConf(f), C.EMPTY, LowerAll(f, ownPid, steps)) && ch.reader.frames == []
    ensures C.Done(ch) == ch.taken && Represents(f, ch.posted, Composed(f, ownPid, steps))
  {
    AcceptedRepresents(f, ownPid, steps);
    PostedFromEmpty(ImsgConf(f), LowerAll(f, ownPid, steps));
  }

  lemma {:induction false} PostedFromEmpty(c: Conf, low: seq<C.Step>)
    requires c.Valid() && C.Inv(c, C.EMPTY)
    ensures C.Run(c, C.EMPTY, low).posted == C.Accepted(c, low)
  {
    C.RunPosted(c, C.EMPTY, low);
    assert [] + C.Accepted(c, low) == C.Accepted(c, low);
  }

  /** Some message composed with a descriptor has come without any. */
  ghost predicate Lacks(got: seq<Item>, composed: seq<Item>)
    requires |got| == |composed|
  {
    exists i :: 0 <= i < |composed| && composed[i].fd != NO_FD && got[i].fd == NO_FD
  }

  lemma {:induction false} LacksMissing(f: Format, taken: seq<Frame>, posted: seq<C.Parcel>, composed: seq<Item>)
    requires |taken| == |posted| && Represents(f, posted, composed)
    requires forall i :: 0 <= i < |taken| ==> HEADER_SIZE <= |taken[i].bytes|
    ensures Lacks(Gotten(f, taken), composed) <==> L.Missing(taken, posted)
  {
    var got := Gotten(f, taken);
    assert forall i :: 0 <= i < |got| ==> got[i].fd == taken[i].fd && composed[i].fd == posted[i].fd;
    if L.Missing(taken, posted) {
      var i :| 0 <= i < |posted| && posted[i].fd != NO_FD && taken[i].fd == NO_FD;
      assert composed[i].fd != NO_FD && got[i].fd == NO_FD;
    }
  }

  /**
   When all messages have been got: imsg_get_fd returns for every message the
   descriptor it was composed with if and only if no read ended inside the header of
   a message with a descriptor or left one behind for lack of a slot; and otherwise
   it finds none for some message that was composed with one.
   */
  lemma {:induction false} DescriptorsArrive(f: Format, ownPid: u32, steps: seq<Step>)
    requires f.Valid()
    ensures C.Inv(ImsgConf(f), C.EMPTY)
    ensures var low := LowerAll(f, ownPid, steps);
            var ch := C.Run(ImsgConf(f), C.EMPTY, low);
            E.Drained(ch) ==>
              && (forall i :: 0 <= i < |ch.taken| ==> HEADER_SIZE <= |ch.taken[i].bytes|)
              && |Gotten(f, ch.taken)| == |Composed(f, ownPid, steps)|
              && (Gotten(f, ch.taken) == Composed(f, ownPid, steps) <==> D.LossFree(ImsgConf(f), C.EMPTY, low))
              && (Lacks(Gotten(f, ch.taken), Composed(f, ownPid, steps)) <==> !D.LossFree(ImsgConf(f), C.EMPTY, low))
  {
    MessagesArrive(f, ownPid, steps);
    var ch := C.Run(ImsgConf(f), C.EMPTY, LowerAll(f, ownPid, steps));
    if E.Drained(ch) {
      ArriveAtEnd(f, ownPid, steps, ch);
      L.DescriptorsArriveIff(ImsgConf(f), LowerAll(f, ownPid, steps));
    }
  }

  /** In terms of the channel. */
  lemma {:induction false} ArriveAtEnd(f: Format, ownPid: u32, steps: seq<Step>, ch: C.Chan)
    requires f.Valid() && C.Inv(ImsgConf(f), C.EMPTY)
    requires ch == C.Run(ImsgConf(f), C.EMPTY, LowerAll(f, ownPid, steps)) && ch.reader.frames == []
    requires |ch.taken| == |Composed(f, ownPid, steps)|
    requires forall i :: 0 <= i < |ch.taken| ==>
               HEADER_SIZE <= |ch.taken[i].bytes| && Decode(f, ch.taken[i].bytes) == Composed(f, ownPid, steps)[i].msg
    ensures C.Done(ch) == ch.taken && |ch.posted| == |ch.taken|
    ensures Gotten(f, ch.taken) == Composed(f, ownPid, steps) <==> L.HaveTheirOwn(ch.taken, ch.posted)
    ensures Lacks(Gotten(f, ch.taken), Composed(f, ownPid, steps)) <==> L.Missing(ch.taken, ch.posted)
  {
    AllTaken(f, ownPid, steps, ch);
    GottenMatches(f, ch.taken, ch.posted, Composed(f, ownPid, steps));
    LacksMissing(f, ch.taken, ch.posted, Composed(f, ownPid, steps));
  }

  /** The steps of a run that reads a message in two parts, the first of them a single byte. */
  function CutSteps(call: Call): seq<Step> {
    var n := HEADER_SIZE + |call.data| - 1;
    [Compose(call)] + ([Write(1), Read(1, true)] + [Write(n), Read(n, true)]) + [Get]
  }

  lemma {:induction false} LowerAppend(f: Format, ownPid: u32, a: seq<Step>, b: seq<Step>)
    requires f.Valid()
    ensures LowerAll(f, ownPid, a + b) == LowerAll(f, ownPid, a) + LowerAll(f, ownPid, b)
  {
    if a == [] {
      assert a + b == b;
    } else {
      assert (a + b)[0] == a[0] && (a + b)[1..] == a[1..] + b;
      LowerAppend(f, ownPid, a[1..], b);
    }
  }

  lemma {:induction false} LowerOne(f: Format, ownPid: u32, step: Step)
    requires f.Valid()
    ensures LowerAll(f, ownPid, [step]) == [Lower(f, ownPid, step)]
  {
    assert [step][1..] == [];
  }

  lemma {:induction false} LowerMoves(f: Format, ownPid: u32, n: nat, room: bool)
    requires f.Valid()
    ensures LowerAll(f, ownPid, [Write(n), Read(n, room)]) == [C.Write(n), C.Read(n, room)]
  {
    LowerOne(f, ownPid, Write(n));
    LowerOne(f, ownPid, Read(n, room));
    LowerAppend(f, ownPid, [Write(n)], [Read(n, room)]);
    assert [Write(n), Read(n, room)] == [Write(n)] + [Read(n, room)];
  }

  lemma {:induction false} LowerTwoMoves(f: Format, ownPid: u32, n: nat)
    requires f.Valid()
    ensures LowerAll(f, ownPid, [Write(1), Read(1, true)] + [Write(n), Read(n, true)])
         == [C.Write(1), C.Read(1, true)] + [C.Write(n), C.Read(n, true)]
  {
    LowerMoves(f, ownPid, 1, true);
    LowerMoves(f, ownPid, n, true);
    LowerAppend(f, ownPid, [Write(1), Read(1, true)], [Write(n), Read(n, true)]);
  }

  lemma {:induction false} LowerAround(f: Format, ownPid: u32, first: Step, middle: seq<Step>)
    requires f.Valid()
    ensures LowerAll(f, ownPid, [first] + middle + [Get])
         == [Lower(f, ownPid, first)] + LowerAll(f, ownPid, middle) + [C.Take]
  {
    LowerOne(f, ownPid, first);
    LowerOne(f, ownPid, Get);
    LowerAppend(f, ownPid, [first], middle);
    LowerAppend(f, ownPid, [first] + middle, [Get]);
  }

  lemma {:induction false} LowerCutSteps(f: Format, ownPid: u32, call: Call)
    requires f.Valid() && Fits(f, Message(ownPid, call))
    ensures LowerAll(f, ownPid, CutSteps(call)) == L.CutRun(ParcelOf(f, Message(ownPid, call), call.fd))
  {
    var n := HEADER_SIZE + |call.data| - 1;
    EncodedLength(f, Message(ownPid, call), call.fd);
    LowerTwoMoves(f, ownPid, n);
    LowerAround(f, ownPid, Compose(call), [Write(1), Read(1, true)] + [Write(n), Read(n, true)]);
  }

  lemma {:induction false} EncodedLength(f: Format, m: Msg, fd: int)
    requires f.Valid() && Fits(f, m)
    ensures |ParcelOf(f, m, fd).bytes| == HEADER_SIZE + |m.payload|
  {
    DecodeEncode(f, m, 0 <= fd);
  }

  /** Nothing is under way, and the message has been got without a descriptor. */
  ghost predicate CameWithout(f: Format, m: Msg, ch: C.Chan) {
    E.Drained(ch) && |ch.taken| == 1 && HEADER_SIZE <= |ch.taken[0].bytes| && Gotten(f, ch.taken) == [Item(m, NO_FD)]
  }

  ghost predicate NoCalls(steps: seq<Step>) {
    forall i :: 0 <= i < |steps| ==> !steps[i].Compose?
  }

  lemma {:induction false} NothingComposed(f: Format, ownPid: u32, steps: seq<Step>)
    requires NoCalls(steps)
    ensures Composed(f, ownPid, steps) == []
  {
    if steps != [] {
      assert forall i :: 0 <= i < |steps| - 1 ==> steps[1..][i] == steps[i + 1];
      NothingComposed(f, ownPid, steps[1..]);
    }
  }

  lemma {:induction false} ComposedFirst(f: Format, ownPid: u32, call: Call, rest: seq<Step>)
    requires Fits(f, Message(ownPid, call)) && 0 <= call.fd && NoCalls(rest)
    ensures Composed(f, ownPid, [Compose(call)] + rest) == [Item(Message(ownPid, call), call.fd)]
  {
    NothingComposed(f, ownPid, rest);
    assert ([Compose(call)] + rest)[1..] == rest;
  }

  lemma {:induction false} ComposedCutSteps(f: Format, ownPid: u32, call: Call)
    requires Fits(f, Message(ownPid, call)) && 0 <= call.fd
    ensures Composed(f, ownPid, CutSteps(call)) == [Item(Message(ownPid, call), call.fd)]
  {
    var n := HEADER_SIZE + |call.data| - 1;
    ComposedFirst(f, ownPid, call, [Write(1), Read(1, true)] + [Write(n), Read(n, true)] + [Get]);
    assert CutSteps(call) == [Compose(call)] + ([Write(1), Read(1, true)] + [Write(n), Read(n, true)] + [Get]);
  }

  /** The frame with these bytes and no descriptor is the message without it. */
  lemma {:induction false} OneWithout(f: Format, m: Msg, fd: int, ch: C.Chan)
    requires f.Valid() && Fits(f, m) && E.Drained(ch) && |ch.taken| == 1
    requires ch.taken[0].bytes == ParcelOf(f, m, fd).bytes && ch.taken[0].fd == NO_FD
    ensures CameWithout(f, m, ch)
  {
    ProperParcel(f, m, fd);
    EncodedLength(f, m, fd);
  }

  lemma {:induction false} CutOneWithout(f: Format, m: Msg, fd: int, low: seq<C.Step>)
    requires f.Valid() && Fits(f, m) && 0 <= fd && HEADER_SIZE + |m.payload| <= IBUF_READ_SIZE
    requires ParcelOf(f, m, fd).bytes != [] && low == L.CutRun(ParcelOf(f, m, fd))
    ensures C.Inv(ImsgConf(f), C.EMPTY) && CameWithout(f, m, C.Run(ImsgConf(f), C.EMPTY, low))
  {
    ProperParcel(f, m, fd);
    EncodedLength(f, m, fd);
    L.CutRunLoses(ImsgConf(f), ParcelOf(f, m, fd));
    OneWithout(f, m, fd, C.Run(ImsgConf(f), C.EMPTY, low));
  }

  lemma {:induction false} DropOneWithout(f: Format, m: Msg, fd: int, low: seq<C.Step>)
    requires f.Valid() && Fits(f, m) && 0 <= fd && HEADER_SIZE + |m.payload| <= IBUF_READ_SIZE
    requires ParcelOf(f, m, fd).bytes != [] && low == L.DropRun(ParcelOf(f, m, fd))
    ensures C.Inv(ImsgConf(f), C.EMPTY) && CameWithout(f, m, C.Run(ImsgConf(f), C.EMPTY, low))
  {
    ProperParcel(f, m, fd);
    EncodedLength(f, m, fd);
    L.DropRunLoses(ImsgConf(f), ParcelOf(f, m, fd));
    OneWithout(f, m, fd, C.Run(ImsgConf(f), C.EMPTY, low));
  }

  /**
   Descriptors do get lost: whatever message is composed with one, there is a run
   in which it comes without it, because its first byte is read alone.
   */
  lemma {:induction false} CutCallLoses(f: Format, ownPid: u32, call: Call)
    requires f.Valid() && Fits(f, Message(ownPid, call)) && 0 <= call.fd
    requires HEADER_SIZE + |call.data| <= IBUF_READ_SIZE
    ensures C.Inv(ImsgConf(f), C.EMPTY)
    ensures Composed(f, ownPid, CutSteps(call)) == [Item(Message(ownPid, call), call.fd)]
    ensures CameWithout(f, Message(ownPid, call),
                        C.Run(ImsgConf(f), C.EMPTY, LowerAll(f, ownPid, CutSteps(call))))
  {
    EncodedLength(f, Message(ownPid, call), call.fd);
    LowerCutSteps(f, ownPid, call);
    CutOneWithout(f, Message(ownPid, call), call.fd, LowerAll(f, ownPid, CutSteps(call)));
    ComposedCutSteps(f, ownPid, call);
  }

  /** The steps of a run that reads a message whole while no descriptor slot is free. */
  function DropSteps(call: Call): seq<Step> {
    var n := HEADER_SIZE + |call.data|;
    [Compose(call)] + [Write(n), Read(n, false)] + [Get]
  }

  lemma {:induction false} LowerDropSteps(f: Format, ownPid: u32, call: Call)
    requires f.Valid() && Fits(f, Message(ownPid, call))
    ensures LowerAll(f, ownPid, DropSteps(call)) == L.DropRun(ParcelOf(f, Message(ownPid, call), call.fd))
  {
    var n := HEADER_SIZE + |call.data|;
    EncodedLength(f, Message(ownPid, call), call.fd);
    LowerMoves(f, ownPid, n, false);
    LowerAround(f, ownPid, Compose(call), [Write(n), Read(n, false)]);
  }

  lemma {:induction false} ComposedDropSteps(f: Format, ownPid: u32, call: Call)
    requires Fits(f, Message(ownPid, call)) && 0 <= call.fd
    ensures Composed(f, ownPid, DropSteps(call)) == [Item(Message(ownPid, call), call.fd)]
  {
    var n := HEADER_SIZE + |call.data|;
    ComposedFirst(f, ownPid, call, [Write(n), Read(n, false)] + [Get]);
    assert DropSteps(call) == [Compose(call)] + ([Write(n), Read(n, false)] + [Get]);
  }

  /** And there is one in which it comes without it, because there was no slot for it. */
  lemma {:induction false} DropCallLoses(f: Format, ownPid: u32, call: Call)
    requires f.Valid() && Fits(f, Message(ownPid, call)) && 0 <= call.fd
    requires HEADER_SIZE + |call.data| <= IBUF_READ_SIZE
    ensures C.Inv(ImsgConf(f), C.EMPTY)
    ensures Composed(f, ownPid, DropSteps(call)) == [Item(Message(ownPid, call), call.fd)]
    ensures CameWithout(f, Message(ownPid, call),
                        C.Run(ImsgConf(f), C.EMPTY, LowerAll(f, ownPid, DropSteps(call))))
  {
    EncodedLength(f, Message(ownPid, call), call.fd);
    LowerDropSteps(f, ownPid, call);
    DropOneWithout(f, Message(ownPid, call), call.fd, LowerAll(f, ownPid, DropSteps(call)));
    ComposedDropSteps(f, ownPid, call);
  }

  // ---------- every run can be completed ----------

  /** The steps of the messages that are these steps of the channel. */
  ghost function Raised(steps: seq<C.Step>): (r: seq<Step>)
    requires E.NoPosts(steps)
    ensures |r| == |steps|
  {
    seq(|steps|, i requires 0 <= i < |steps| =>
      match steps[i]
      case Write(n) => Write(n)
      case Read(n, room) => Read(n, room)
      case Take => Get)
  }

  lemma {:induction false} LowerRaised(f: Format, ownPid: u32, steps: seq<C.Step>)
    requires f.Valid() && E.NoPosts(steps)
    ensures LowerAll(f, ownPid, Raised(steps)) == steps && NoCalls(Raised(steps))
  {
    if steps != [] {
      assert Raised(steps)[1..] == Raised(steps[1..]);
      LowerRaised(f, ownPid, steps[1..]);
      assert Lower(f, ownPid, Raised(steps)[0]) == steps[0];
      assert [steps[0]] + steps[1..] == steps;
    }
  }

  lemma {:induction false} LowerOn(f: Format, ownPid: u32, steps: seq<Step>, low: seq<C.Step>)
    requires f.Valid() && E.NoPosts(low)
    ensures LowerAll(f, ownPid, steps + Raised(low)) == LowerAll(f, ownPid, steps) + low && NoCalls(Raised(low))
  {
    LowerRaised(f, ownPid, low);
    LowerAppend(f, ownPid, steps, Raised(low));
  }

  /** All frames are there with the bytes posted: each is the message that was composed. */
  lemma {:induction false} GottenAll(f: Format, ownPid: u32, steps: seq<Step>, taken: seq<Frame>)
    requires f.Valid()
    requires var posted := C.Accepted(ImsgConf(f), LowerAll(f, ownPid, steps));
             |taken| == |posted| && Raw(taken) == C.Bodies(posted)
    ensures var posted, composed := C.Accepted(ImsgConf(f), LowerAll(f, ownPid, steps)), Composed(f, ownPid, steps);
            && |taken| == |composed|
            && (forall i :: 0 <= i < |taken| ==>
                  HEADER_SIZE <= |taken[i].bytes| && Decode(f, taken[i].bytes) == composed[i].msg)
            && (Gotten(f, taken) == composed <==> L.HaveTheirOwn(taken, posted))
  {
    var posted := C.Accepted(ImsgConf(f), LowerAll(f, ownPid, steps));
    AcceptedRepresents(f, ownPid, steps);
    forall i | 0 <= i < |taken| ensures taken[i].bytes == posted[i].bytes {
      assert Raw(taken)[i] == C.Bodies(posted)[i];
    }
    GottenMatches(f, taken, posted, Composed(f, ownPid, steps));
  }

  /** Everything composed in these steps has been got, with its own descriptors exactly when they lost none. */
  ghost predicate AllGot(f: Format, ownPid: u32, steps: seq<Step>, ch: C.Chan)
    requires f.Valid() && C.Inv(ImsgConf(f), C.EMPTY)
  {
    var composed := Composed(f, ownPid, steps);
    && E.Drained(ch) && |ch.taken| == |composed|
    && (forall i :: 0 <= i < |ch.taken| ==>
          HEADER_SIZE <= |ch.taken[i].bytes| && Decode(f, ch.taken[i].bytes) == composed[i].msg)
    && (Gotten(f, ch.taken) == composed <==> D.LossFree(ImsgConf(f), C.EMPTY, LowerAll(f, ownPid, steps)))
  }

  /** The steps of the channel that complete a run. */
  lemma {:induction false} LowCompletes(f: Format, ownPid: u32, steps: seq<Step>)
      returns (low: seq<C.Step>, ch: C.Chan)
    requires f.Valid()
    ensures C.Inv(ImsgConf(f), C.EMPTY) && E.NoPosts(low) && AllGot(f, ownPid, steps, ch)
    ensures ch == C.Run(ImsgConf(f), C.EMPTY, LowerAll(f, ownPid, steps) + low)
  {
    low := E.EveryRunCompletes(ImsgConf(f), LowerAll(f, ownPid, steps));
    ch := C.Run(ImsgConf(f), C.EMPTY, LowerAll(f, ownPid, steps) + low);
    GottenAll(f, ownPid, steps, ch.taken);
  }

  /**
   Every run can be completed without composing more: then everything composed has
   been got, and with its own descriptors exactly when none was lost before.
   */
  lemma {:induction false} EveryRunCompletes(f: Format, ownPid: u32, steps: seq<Step>)
      returns (more: seq<Step>, ch: C.Chan)
    requires f.Valid()
    ensures C.Inv(ImsgConf(f), C.EMPTY) && NoCalls(more)
    ensures ch == C.Run(ImsgConf(f), C.EMPTY, LowerAll(f, ownPid, steps + more))
    ensures AllGot(f, ownPid, steps, ch)
  {
    var low;
    low, ch := LowCompletes(f, ownPid, steps);
    more := Raised(low);
    LowerOn(f, ownPid, steps, low);
  }
}
