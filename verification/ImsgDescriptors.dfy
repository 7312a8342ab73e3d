/**
 When descriptors reach the message they were sent with. The reader hands a
 descriptor to the first marked header of the same read, so they all do as long
 as no read stops inside a marked header and a slot is free for each of them.
 */
module ImsgDescriptors {
  import opened Common
  import opened ImsgReader
  import opened ImsgChannel

  /** Some of the cells start a marked message but do not reach the end of its header. */
  ghost predicate Cuts(c: Conf, cells: seq<Cell>) {
    exists i :: 0 <= i < |cells| && cells[i].fd != NO_FD && |cells| - i < c.hdrsize
  }

  ghost predicate NoFds(cells: seq<Cell>) {
    forall i :: 0 <= i < |cells| ==> cells[i].fd == NO_FD
  }

  lemma {:induction false} FdsOfNone(cells: seq<Cell>)
    ensures NoFds(cells) <==> FdsOf(cells) == []
  {
    if cells != [] {
      FdsOfNone(cells[1..]);
      assert forall i :: 0 < i < |cells| ==> cells[i] == cells[1..][i - 1];
      if FdsOf(cells) == [] {
        assert NoFds(cells[1..]);
      }
    }
  }

  lemma {:induction false} FdsOfAppend(a: seq<Cell>, b: seq<Cell>)
    ensures FdsOf(a + b) == FdsOf(a) + FdsOf(b)
  {
    if a == [] {
      assert a + b == b;
    } else {
      assert (a + b)[0] == a[0] && (a + b)[1..] == a[1..] + b;
      FdsOfAppend(a[1..], b);
    }
  }

  /** The descriptor list of one message: its own, or none. */
  function Own(fd: int): seq<int> {
    if fd == NO_FD then [] else [fd]
  }

  /** The first n cells of a message carry its descriptor, and the others carry none. */
  lemma {:induction false} FdsOfCells(p: Parcel, n: nat)
    requires 0 < n <= |p.bytes|
    ensures FdsOf(Cells(p)[..n]) == Own(p.fd)
    ensures NoFds(Cells(p)[n..])
  {
    var s := Cells(p)[..n];
    assert NoFds(s[1..]);
    FdsOfNone(s[1..]);
    assert s[0] == Cell(p.bytes[0], p.fd);
  }

  /** A complete frame at the front: it claims the descriptor if marked, and the rest sees what is left. */
  lemma {:induction false} ConsumeFrame(c: Conf, p: Parcel, tail: seq<byte>, fd: int)
    requires c.Valid() && Proper(c, p)
    ensures var h := Announced(|p.bytes|, p.fd != NO_FD);
            var o := Consume(c, None, tail, Unclaimed(h, fd));
            Consume(c, None, p.bytes + tail, fd)
              == o.(frames := [Frame(|p.bytes|, p.bytes, Begin(h, fd).fd)] + o.frames)
  {
    HeaderPrefix(c, p.bytes, p.bytes + tail);
    assert (p.bytes + tail)[..|p.bytes|] == p.bytes;
    assert (p.bytes + tail)[|p.bytes|..] == tail;
    assert [] + p.bytes == p.bytes;
  }

  /** Every message of the outcome carries the descriptor of the parcel it is. */
  ghost predicate Matches(ps: seq<Parcel>, o: Outcome) {
    && |o.frames| <= |ps|
    && (forall i :: 0 <= i < |o.frames| ==> o.frames[i].fd == ps[i].fd)
    && (o.partial.Some? ==> |o.frames| < |ps| && o.partial.value.fd == ps[|o.frames|].fd)
    && (o.partial.None? && o.residue != [] ==> |o.frames| < |ps| && ps[|o.frames|].fd == NO_FD)
    && o.fd == NO_FD
  }

  lemma {:induction false} MatchesCons(ps: seq<Parcel>, f: Frame, o: Outcome)
    requires ps != [] && Matches(ps[1..], o) && f.fd == ps[0].fd
    ensures Matches(ps, o.(frames := [f] + o.frames))
  {
    var o' := o.(frames := [f] + o.frames);
    assert forall i :: 0 < i < |o'.frames| ==> o'.frames[i] == o.frames[i - 1];
  }

  /** A frame that is cut short: claimed already if its header is complete. */
  lemma {:induction false} ConsumeIncomplete(c: Conf, p: Parcel, s: seq<byte>, fd: int)
    requires c.Valid() && Proper(c, p)
    requires s <= p.bytes && |s| < |p.bytes|
    ensures var h := Announced(|p.bytes|, p.fd != NO_FD);
            var o := Consume(c, None, s, fd);
            if |s| < c.hdrsize then o == Outcome([], None, s, fd, false)
            else o == Outcome([], Some(Frame(|p.bytes|, s, Begin(h, fd).fd)), [], Unclaimed(h, fd), false)
  {
    if c.hdrsize <= |s| {
      HeaderPrefix(c, s, p.bytes);
      assert [] + s == s;
    }
  }

  lemma {:induction false} CutsTail(c: Conf, cells: seq<Cell>, n: nat)
    requires n <= |cells| && !Cuts(c, cells)
    ensures !Cuts(c, cells[n..])
  {
    var t := cells[n..];
    forall i | 0 <= i < |t| && t[i].fd != NO_FD ensures c.hdrsize <= |t| - i {
      assert cells[n + i] == t[i];
    }
  }

  /** With no header cut and one descriptor at most, each message gets its own. */
  lemma {:induction false} ConsumeMatches(c: Conf, ps: seq<Parcel>, cells: seq<Cell>, fd: int)
    requires c.Valid() && AllProper(c, ps)
    requires cells <= Stream(ps) && !Cuts(c, cells) && FdsOf(cells) == Own(fd)
    ensures Matches(ps, Consume(c, None, Text(cells), fd))
    decreases |ps|
  {
    if ps == [] {
      assert cells == [];
    } else if |cells| < |ps[0].bytes| {
      MatchesIncomplete(c, ps, cells, fd);
    } else {
      var tail := cells[|ps[0].bytes|..];
      var fd' := Unclaimed(Announced(|ps[0].bytes|, ps[0].fd != NO_FD), fd);
      FirstComplete(c, ps, cells, fd);
      ConsumeMatches(c, ps[1..], tail, fd');
      ConsumeFrame(c, ps[0], Text(tail), fd);
      MatchesCons(ps, Frame(|ps[0].bytes|, ps[0].bytes, Begin(Announced(|ps[0].bytes|, ps[0].fd != NO_FD), fd).fd),
                  Consume(c, None, Text(tail), fd'));
    }
  }

  /** When the first parcel has arrived whole, the cells after it start the next one. */
  lemma {:induction false} FirstComplete(c: Conf, ps: seq<Parcel>, cells: seq<Cell>, fd: int)
    requires c.Valid() && AllProper(c, ps) && ps != [] && |ps[0].bytes| <= |cells|
    requires cells <= Stream(ps) && !Cuts(c, cells) && FdsOf(cells) == Own(fd)
    ensures var tail := cells[|ps[0].bytes|..];
            var h := Announced(|ps[0].bytes|, ps[0].fd != NO_FD);
            && tail <= Stream(ps[1..]) && !Cuts(c, tail) && FdsOf(tail) == Own(Unclaimed(h, fd))
            && Text(cells) == ps[0].bytes + Text(tail)
            && Begin(h, fd).fd == ps[0].fd
  {
    var p := ps[0];
    var n := |p.bytes|;
    var tail := cells[n..];
    StreamHead(ps, cells);
    FdsOfCells(p, n);
    FdsOfAppend(Cells(p), tail);
    CutsTail(c, cells, n);
  }

  lemma {:induction false} StreamHead(ps: seq<Parcel>, cells: seq<Cell>)
    requires ps != [] && cells <= Stream(ps) && |ps[0].bytes| <= |cells|
    ensures var tail := cells[|ps[0].bytes|..];
            && cells == Cells(ps[0]) + tail && tail <= Stream(ps[1..])
            && Text(cells) == ps[0].bytes + Text(tail)
            && Cells(ps[0])[..|ps[0].bytes|] == Cells(ps[0])
  {
    PrefixTail(Cells(ps[0]), Stream(ps[1..]), cells);
    var tail := cells[|ps[0].bytes|..];
    assert Text(Cells(ps[0]) + tail) == ps[0].bytes + Text(tail);
  }

  lemma {:induction false} PrefixTail(a: seq<Cell>, b: seq<Cell>, s: seq<Cell>)
    requires s <= a + b && |a| <= |s|
    ensures s == a + s[|a|..] && s[|a|..] <= b && a[..|a|] == a
  {
  }

  lemma {:induction false} MatchesIncomplete(c: Conf, ps: seq<Parcel>, cells: seq<Cell>, fd: int)
    requires c.Valid() && AllProper(c, ps) && ps != []
    requires cells <= Stream(ps) && !Cuts(c, cells) && FdsOf(cells) == Own(fd)
    requires |cells| < |ps[0].bytes|
    ensures Matches(ps, Consume(c, None, Text(cells), fd))
  {
    var p := ps[0];
    assert cells == Cells(p)[..|cells|];
    assert Text(cells) == p.bytes[..|cells|];
    ConsumeIncomplete(c, p, Text(cells), fd);
    if cells != [] {
      FdsOfCells(p, |cells|);
      assert cells[0].fd == p.fd;
    }
  }

  /** The cells end inside a marked header, or bring a descriptor for which there is no room. */
  ghost predicate Loses(c: Conf, cells: seq<Cell>, room: bool) {
    Cuts(c, cells) || (!room && FdsOf(cells) != [])
  }

  /** Descriptors delivered so far went to the messages they were sent with. */
  ghost predicate FdInv(ch: Chan) {
    && |Done(ch)| <= |ch.posted|
    && (forall i :: 0 <= i < |Done(ch)| ==> Done(ch)[i].fd == ch.posted[i].fd)
    && (ch.reader.partial.Some? ==>
          |Done(ch)| < |ch.posted| && ch.reader.partial.value.fd == ch.posted[|Done(ch)|].fd)
    && (ch.reader.partial.None? && ch.reader.residue != [] ==>
          |Done(ch)| < |ch.posted| && ch.posted[|Done(ch)|].fd == NO_FD)
  }

  lemma {:induction false} ResidueUnmarked(ps: seq<Parcel>, n: nat)
    requires n <= |Stream(ps)| && (n > 0 ==> ps != [] && ps[0].fd == NO_FD && n <= |ps[0].bytes|)
    ensures NoFds(Stream(ps)[..n])
  {
    if n > 0 { assert Stream(ps)[..n] == Cells(ps[0])[..n]; }
  }

  lemma {:induction false} CutsBehind(c: Conf, front: seq<Cell>, cells: seq<Cell>)
    requires NoFds(front) && !Cuts(c, cells)
    ensures !Cuts(c, front + cells)
  {
    var all := front + cells;
    forall i | 0 <= i < |all| && all[i].fd != NO_FD ensures c.hdrsize <= |all| - i {
      assert i >= |front|;
      assert cells[i - |front|] == all[i];
    }
  }

  /** What the reader's next run works on: nothing half built, and all cells since the last frame. */
  lemma {:induction false} ResidueMatches(c: Conf, ps: seq<Parcel>, residue: seq<byte>, cells: seq<Cell>, fd: int)
    requires c.Valid() && AllProper(c, ps)
    requires |residue| <= |Stream(ps)| && residue == Text(Stream(ps)[..|residue|])
    requires |residue| < c.hdrsize && cells <= Stream(ps)[|residue|..]
    requires residue != [] ==> ps != [] && ps[0].fd == NO_FD
    requires !Cuts(c, cells) && FdsOf(cells) == Own(fd)
    ensures Matches(ps, Consume(c, None, residue + Text(cells), fd))
  {
    var front := Stream(ps)[..|residue|];
    var all := front + cells;
    assert all <= Stream(ps);
    ResidueUnmarked(ps, |residue|);
    FdsOfNone(front);
    FdsOfAppend(front, cells);
    CutsBehind(c, front, cells);
    ConsumeMatches(c, ps, all, fd);
    assert Text(all) == residue + Text(cells);
  }

  /** The reader is in the middle of a message: the rest of it carries no descriptor. */
  lemma {:induction false} PartialMatches(c: Conf, ps: seq<Parcel>, partial: Frame, cells: seq<Cell>, fd: int)
    requires c.Valid() && AllProper(c, ps) && ps != []
    requires c.hdrsize <= |partial.bytes| < partial.len == |ps[0].bytes| && partial.fd == ps[0].fd
    requires cells <= Stream(ps)[|partial.bytes|..]
    requires !Cuts(c, cells) && FdsOf(cells) == Own(fd)
    ensures Matches(ps, Consume(c, Some(partial), Text(cells), fd))
  {
    var have := |partial.bytes|;
    var need := partial.len - have;
    FdsOfCells(ps[0], have);
    assert Stream(ps)[have..] == Cells(ps[0])[have..] + Stream(ps[1..]);
    if |cells| < need {
      assert cells == Cells(ps[0])[have..][..|cells|];
      FdsOfNone(cells);
    } else {
      assert cells == cells[..need] + cells[need..];
      assert cells[..need] == Cells(ps[0])[have..];
      PartialCompleted(c, ps, partial, cells[..need], cells[need..], fd);
    }
  }

  /** The bytes that complete the half-built message, and more. */
  lemma {:induction false} PartialCompleted(c: Conf, ps: seq<Parcel>, partial: Frame, front: seq<Cell>,
      tail: seq<Cell>, fd: int)
    requires c.Valid() && AllProper(c, ps) && ps != [] && partial.fd == ps[0].fd
    requires c.hdrsize <= |partial.bytes| < partial.len == |partial.bytes| + |front|
    requires NoFds(front) && tail <= Stream(ps[1..])
    requires !Cuts(c, front + tail) && FdsOf(front + tail) == Own(fd)
    ensures Matches(ps, Consume(c, Some(partial), Text(front + tail), fd))
  {
    var need := |front|;
    var cells := front + tail;
    FdsOfNone(front);
    FdsOfAppend(front, tail);
    CutsTail(c, cells, need);
    assert cells[need..] == tail;
    ConsumeMatches(c, ps[1..], tail, fd);
    assert Text(cells)[need..] == Text(tail);
    MatchesCons(ps, partial.(bytes := partial.bytes + Text(cells)[..need]), Consume(c, None, Text(tail), fd));
  }

  /** The half-built message is the next parcel. */
  lemma {:induction false} PartialIsNext(c: Conf, ps: seq<Parcel>, partial: Frame)
    requires c.Valid() && AllProper(c, ps)
    requires OkPartial(c, Some(partial))
    requires |partial.bytes| <= |Stream(ps)| && partial.bytes == Text(Stream(ps)[..|partial.bytes|])
    ensures ps != [] && partial.len == |ps[0].bytes|
  {
    var text := Text(Stream(ps));
    assert partial.bytes <= text;
    StreamCons(ps);
    HeaderPrefix(c, partial.bytes, text);
    HeaderPrefix(c, ps[0].bytes, text);
  }

  lemma {:induction false} ReadMatches(c: Conf, ch: Chan, n: nat, room: bool)
    requires Inv(c, ch) && FdInv(ch) && CanRead(ch, n) && !Loses(c, ch.wire[..n], room)
    ensures var chunk := Received(ch.wire[..n], room);
            Matches(ch.posted[|Done(ch)|..],
                    Consume(c, ch.reader.partial, ch.reader.residue + chunk.bytes, chunk.fd))
  {
    var ps := ch.posted[|Done(ch)|..];
    var cells := ch.wire[..n];
    var chunk := Received(cells, room);
    assert cells <= InFlight(ch);
    assert FdsOf(cells) == Own(chunk.fd) by { FdsNotNone(cells); }
    if ch.reader.partial.Some? {
      var p := ch.reader.partial.value;
      assert Partway(ch) == p.bytes;
      PartialIsNext(c, ps, p);
      PartialMatches(c, ps, p, cells, chunk.fd);
      assert ch.reader.residue + chunk.bytes == chunk.bytes;
    } else {
      assert Partway(ch) == ch.reader.residue;
      ResidueMatches(c, ps, ch.reader.residue, cells, chunk.fd);
    }
  }

  lemma {:induction false} FdsNotNone(cells: seq<Cell>)
    ensures forall i :: 0 <= i < |FdsOf(cells)| ==> FdsOf(cells)[i] != NO_FD
  {
    if cells != [] {
      FdsNotNone(cells[1..]);
    }
  }

  lemma {:induction false} FdInvRead(c: Conf, ch: Chan, n: nat, room: bool)
    requires Inv(c, ch) && FdInv(ch) && CanRead(ch, n) && !Loses(c, ch.wire[..n], room)
    ensures FdInv(Next(c, ch, Read(n, room)))
  {
    ReadMatches(c, ch, n, room);
    var chunk := Received(ch.wire[..n], room);
    var o := Consume(c, ch.reader.partial, ch.reader.residue + chunk.bytes, chunk.fd);
    AppendAssoc(ch.taken, ch.reader.frames, o.frames);
    FdInvMore(ch, o, Next(c, ch, Read(n, room)));
  }

  lemma {:induction false} FdInvMore(ch: Chan, o: Outcome, ch': Chan)
    requires FdInv(ch) && Matches(ch.posted[|Done(ch)|..], o)
    requires Done(ch') == Done(ch) + o.frames && ch'.posted == ch.posted
    requires ch'.reader.partial == o.partial && ch'.reader.residue == o.residue
    ensures FdInv(ch')
  {
    var k, ps := |Done(ch)|, ch.posted[|Done(ch)|..];
    forall i | 0 <= i < |Done(ch')| ensures Done(ch')[i].fd == ch.posted[i].fd {
      if k <= i { assert Done(ch')[i] == o.frames[i - k] && ch.posted[i] == ps[i - k]; }
    }
    if |o.frames| < |ps| { assert ps[|o.frames|] == ch.posted[|Done(ch')|]; }
  }

  /** The step is such a read. */
  ghost predicate LosesFd(c: Conf, ch: Chan, step: Step) {
    step.Read? && CanRead(ch, step.n) && Loses(c, ch.wire[..step.n], step.room)
  }

  /** Nothing is delivered, and nothing already posted changes. */
  lemma {:induction false} FdInvFrame(ch: Chan, ch': Chan)
    requires FdInv(ch) && Done(ch') == Done(ch) && ch.posted <= ch'.posted
    requires ch'.reader.partial == ch.reader.partial && ch'.reader.residue == ch.reader.residue
    ensures FdInv(ch')
  {
  }

  lemma {:induction false} HandOver(taken: seq<Frame>, frames: seq<Frame>)
    requires frames != []
    ensures taken + [frames[0]] + frames[1..] == taken + frames
  {
  }

  /** Posting, writing and getting complete no message. */
  lemma {:induction false} StillDone(c: Conf, ch: Chan, step: Step)
    requires Inv(c, ch) && !step.Read?
    ensures var ch' := Next(c, ch, step);
            && Done(ch') == Done(ch) && ch.posted <= ch'.posted
            && ch'.reader.partial == ch.reader.partial && ch'.reader.residue == ch.reader.residue
  {
    match step
    case Post(_) =>
    case Write(_) =>
    case Take => if ch.reader.frames != [] { HandOver(ch.taken, ch.reader.frames); }
  }

  /** A step that loses no descriptor keeps them. */
  lemma {:induction false} FdInvNext(c: Conf, ch: Chan, step: Step)
    requires Inv(c, ch) && FdInv(ch) && !LosesFd(c, ch, step)
    ensures FdInv(Next(c, ch, step))
  {
    if step.Read? {
      if CanRead(ch, step.n) { FdInvRead(c, ch, step.n, step.room); }
    } else {
      StillDone(c, ch, step);
      FdInvFrame(ch, Next(c, ch, step));
    }
  }

  /** No read of the run cuts a marked header or leaves a descriptor behind. */
  ghost predicate LossFree(c: Conf, ch: Chan, steps: seq<Step>)
    requires Inv(c, ch)
    decreases |steps|
  {
    if steps == [] then true
    else
      NextInv(c, ch, steps[0]);
      !LosesFd(c, ch, steps[0]) && LossFree(c, Next(c, ch, steps[0]), steps[1..])
  }

  lemma {:induction false} LossFreeDelivers(c: Conf, ch: Chan, steps: seq<Step>)
    requires Inv(c, ch) && FdInv(ch) && LossFree(c, ch, steps)
    ensures FdInv(Run(c, ch, steps))
    decreases |steps|
  {
    if steps != [] {
      NextInv(c, ch, steps[0]);
      FdInvNext(c, ch, steps[0]);
      LossFreeDelivers(c, Next(c, ch, steps[0]), steps[1..]);
    }
  }

  // ---------- where a cut leaves the reader ----------

  /** A cell with a descriptor starts a message, so a whole header follows it. */
  lemma {:induction false} FdStartsMessage(c: Conf, ps: seq<Parcel>, q: nat)
    requires AllProper(c, ps) && q < |Stream(ps)| && Stream(ps)[q].fd != NO_FD
    ensures q + c.hdrsize <= |Stream(ps)|
    ensures 0 < q ==> |ps[0].bytes| <= q
  {
    var n := |ps[0].bytes|;
    if q < n {
      assert Stream(ps)[q] == Cells(ps[0])[q];
    } else {
      assert Stream(ps)[q] == Stream(ps[1..])[q - n];
      FdStartsMessage(c, ps[1..], q - n);
    }
  }

  lemma {:induction false} FdsOfParcel(p: Parcel)
    requires p.bytes != []
    ensures FdsOf(Cells(p)) == Own(p.fd)
  {
    FdsOfCells(p, |p.bytes|);
    assert Cells(p)[..|p.bytes|] == Cells(p);
  }

  lemma {:induction false} FlattenSnoc<T>(queue: seq<seq<T>>, last: seq<T>)
    ensures Flatten(queue + [last]) == Flatten(queue) + last
  {
    FlattenAppend(queue, [last]);
    FlattenOne(last);
  }

  /** A write moves bytes from the queue to the wire: what is in flight stays the same. */
  lemma {:induction false} WriteInFlight(ch: Chan, n: nat)
    requires n <= |Flatten(ch.queue)|
    ensures ch.wire + Flatten(ch.queue)[..n] + Flatten(Drain(ch.queue, n)) == InFlight(ch)
  {
    DrainIsDrop(ch.queue, n);
    var pending := Flatten(ch.queue);
    assert pending == pending[..n] + pending[n..];
  }

  /**
   Complete messages are followed by the held part of the next one. A marked
   message starting less than a header before the end is the one being held.
   */
  lemma {:induction false} CutIsHeld(c: Conf, complete: seq<Parcel>, left: seq<Parcel>, held: nat, q: nat)
    requires AllProper(c, complete) && AllProper(c, left) && held <= |Stream(left)|
    requires held != 0 ==> left != [] && held < |left[0].bytes|
    requires q < |Stream(complete)| + held < q + c.hdrsize
    requires (Stream(complete) + Stream(left)[..held])[q].fd != NO_FD
    ensures q == |Stream(complete)| && 0 < held < c.hdrsize && left[0].fd != NO_FD
  {
    if q < |Stream(complete)| {
      FdStartsMessage(c, complete, q);
    } else {
      FdStartsMessage(c, left, q - |Stream(complete)|);
      assert Stream(left)[0] == Cells(left[0])[0];
    }
  }

  /** The held bytes are a proper part of the next message, and the cells behind them are known. */
  lemma {:induction false} HeldIncomplete(c: Conf, ch: Chan)
    requires Inv(c, ch) && Partway(ch) != []
    ensures var left := ch.posted[|Done(ch)|..];
            left != [] && |Partway(ch)| < |left[0].bytes|
  {
    var left := ch.posted[|Done(ch)|..];
    var held := Partway(ch);
    PartwayIncomplete(c, ch);
    assert held <= Text(Stream(left));
    ParsePrefix(c, left, held);
    assert left != [];
    StreamCons(left);
    if |left[0].bytes| <= |held| {
      HoldsFrame(c, left[0], held);
    }
  }

  lemma {:induction false} HoldsFrame(c: Conf, p: Parcel, s: seq<byte>)
    requires c.Valid() && Proper(c, p) && p.bytes <= s
    ensures Parse(c, s).frames != []
  {
    assert s == p.bytes + s[|p.bytes|..];
    ParseFrame(c, p.bytes, s[|p.bytes|..]);
  }

  /** Two ways to say which cells precede the same tail. */
  lemma {:induction false} TwoCuts(d: seq<Cell>, a: seq<Cell>, b: seq<Cell>, h: nat, h': nat, flying: seq<Cell>, n: nat)
    requires d == a + b && h <= |d| && h' <= |b| && n <= |flying|
    requires d[h..] == flying && b[h'..] == flying[n..]
    ensures d[..h] + flying[..n] == a + b[..h']
  {
    assert d[..h] + flying[..n] == d[..h + n];
    assert |d| - h - n == |b| - h';
    assert a + b[..h'] == d[..|a| + h'];
  }

  /** A read of n cells led from the first channel to the second. */
  ghost predicate Advances(c: Conf, ch: Chan, n: nat, ch': Chan) {
    && Inv(c, ch) && Inv(c, ch') && CanRead(ch, n)
    && ch'.posted == ch.posted && |Done(ch)| <= |Done(ch')|
    && InFlight(ch)[n..] == InFlight(ch')
  }

  lemma {:induction false} ReadAdvances(c: Conf, ch: Chan, n: nat, room: bool)
    requires Inv(c, ch) && CanRead(ch, n)
    ensures Advances(c, ch, n, Next(c, ch, Read(n, room)))
  {
    InvRead(c, ch, n, room);
    var ch' := Next(c, ch, Read(n, room));
    assert |Done(ch')| >= |Done(ch)| by {
      ReadDone(c, ch, n, room);
      assert |Raw(Done(ch'))| >= |Raw(Done(ch))|;
    }
    CutFirst(ch.wire, Flatten(ch.queue), n);
  }

  /**
   The position, among the parcels k to k2 that a read completes followed by the h2
   cells it leaves held, of the cell at p in the bytes it received: h were held before.
   */
  lemma {:induction false} ReceivedCell(ps: seq<Parcel>, k: nat, h: nat, k2: nat, h2: nat, flying: seq<Cell>,
      n: nat, p: nat)
    requires k <= k2 <= |ps| && h <= |Stream(ps[k..])| && h2 <= |Stream(ps[k2..])| && p < n <= |flying|
    requires Stream(ps[k..])[h..] == flying && Stream(ps[k2..])[h2..] == flying[n..]
    ensures h + p < |Stream(ps[k..k2])| + h2 == h + n
    ensures (Stream(ps[k..k2]) + Stream(ps[k2..])[..h2])[h + p] == flying[p]
  {
    SplitSlice(ps, k, k2);
    StreamAppend(ps[k..k2], ps[k2..]);
    CellAt(Stream(ps[k..]), Stream(ps[k..k2]), Stream(ps[k2..]), h, h2, flying, n, p);
  }

  lemma {:induction false} SplitSlice<T>(s: seq<T>, a: nat, b: nat)
    requires a <= b <= |s|
    ensures s[a..] == s[a..b] + s[b..]
  {
  }

  lemma {:induction false} OnWire(ch: Chan, p: nat)
    requires p < |ch.wire|
    ensures p < |InFlight(ch)| && InFlight(ch)[p] == ch.wire[p]
  {
  }

  lemma {:induction false} CellAt(d: seq<Cell>, a: seq<Cell>, b: seq<Cell>, h: nat, h': nat, flying: seq<Cell>,
      n: nat, p: nat)
    requires d == a + b && h <= |d| && h' <= |b| && p < n <= |flying|
    requires d[h..] == flying && b[h'..] == flying[n..]
    ensures h + p < |a| + h' == h + n
    ensures (a + b[..h'])[h + p] == flying[p]
  {
    TwoCuts(d, a, b, h, h', flying, n);
    assert (d[..h] + flying[..n])[h + p] == flying[..n][p];
  }

  /** A read that cuts a marked header leaves the reader with that part of it and nothing else. */
  lemma {:induction false} CutLeavesHeld(c: Conf, ch: Chan, n: nat, ch': Chan, p: nat)
    requires Advances(c, ch, n, ch') && p < n < p + c.hdrsize && ch.wire[p].fd != NO_FD
    ensures var left := ch'.posted[|Done(ch')|..];
            && 0 < |Partway(ch')| < c.hdrsize
            && left != [] && left[0].fd != NO_FD && |Partway(ch')| < |left[0].bytes|
  {
    var k, k2 := |Done(ch)|, |Done(ch')|;
    ReceivedCell(ch.posted, k, |Partway(ch)|, k2, |Partway(ch')|, InFlight(ch), n, p);
    OnWire(ch, p);
    ProperPart(c, ch.posted, k, k2);
    if Partway(ch') != [] { HeldIncomplete(c, ch'); }
    CutIsHeld(c, ch.posted[k..k2], ch.posted[k2..], |Partway(ch')|, |Partway(ch)| + p);
  }

  lemma {:induction false} ProperPart(c: Conf, ps: seq<Parcel>, a: nat, b: nat)
    requires AllProper(c, ps) && a <= b <= |ps|
    ensures AllProper(c, ps[a..b]) && AllProper(c, ps[b..])
  {
  }
}
