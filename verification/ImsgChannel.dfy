/**
 Two ends of a stream socket as one state machine: messages are posted to a
 queue of buffers, the kernel takes any number of bytes from the queue and
 hands over any number of bytes to the reader. A descriptor travels with the
 first byte of the message it belongs to, and one read returns at most one.
 */
module ImsgChannel {
  import opened Common
  import opened ImsgReader

  /** A byte on the wire, with the descriptor that travels with it, if any. */
  datatype Cell = Cell(b: byte, fd: int)

  /** A complete message as the writer queues it. */
  datatype Parcel = Parcel(bytes: seq<byte>, fd: int)

  predicate Proper(c: Conf, p: Parcel) {
    && 0 < c.hdrsize <= |p.bytes|
    && c.Header(p.bytes) == Some(Announced(|p.bytes|, p.fd != NO_FD))
  }

  function Cells(p: Parcel): (s: seq<Cell>)
    ensures |s| == |p.bytes|
  {
    seq(|p.bytes|, i requires 0 <= i < |p.bytes| => Cell(p.bytes[i], if i == 0 then p.fd else NO_FD))
  }

  function Text(cells: seq<Cell>): (s: seq<byte>)
    ensures |s| == |cells|
    ensures forall i :: 0 <= i < |s| ==> s[i] == cells[i].b
  {
    seq(|cells|, i requires 0 <= i < |cells| => cells[i].b)
  }

  /** Everything the posted parcels put on the wire. */
  function Stream(ps: seq<Parcel>): seq<Cell> {
    if ps == [] then [] else Cells(ps[0]) + Stream(ps[1..])
  }

  function Bodies(ps: seq<Parcel>): (r: seq<seq<byte>>)
    ensures |r| == |ps|
    ensures forall i :: 0 <= i < |r| ==> r[i] == ps[i].bytes
  {
    seq(|ps|, i requires 0 <= i < |ps| => ps[i].bytes)
  }

  lemma {:induction false} StreamText(ps: seq<Parcel>)
    ensures Text(Stream(ps)) == Flatten(Bodies(ps))
  {
    if ps != [] {
      StreamText(ps[1..]);
      assert Bodies(ps)[1..] == Bodies(ps[1..]);
      assert Text(Stream(ps)) == ps[0].bytes + Text(Stream(ps[1..]));
    }
  }

  lemma {:induction false} StreamAppend(a: seq<Parcel>, b: seq<Parcel>)
    ensures Stream(a + b) == Stream(a) + Stream(b)
  {
    if a == [] {
      assert a + b == b;
    } else {
      assert (a + b)[0] == a[0] && (a + b)[1..] == a[1..] + b;
      StreamAppend(a[1..], b);
    }
  }

  /** msgbuf_drain: n bytes leave the front of the queue, buffer by buffer. */
  function Drain<T>(queue: seq<seq<T>>, n: nat): seq<seq<T>> {
    if queue == [] || n == 0 then queue
    else if |queue[0]| <= n then Drain(queue[1..], n - |queue[0]|)
    else [queue[0][n..]] + queue[1..]
  }

  lemma {:induction false} DrainIsDrop<T>(queue: seq<seq<T>>, n: nat)
    requires n <= |Flatten(queue)|
    ensures Flatten(Drain(queue, n)) == Flatten(queue)[n..]
  {
    if queue != [] && n != 0 {
      if |queue[0]| <= n {
        DrainIsDrop(queue[1..], n - |queue[0]|);
      } else {
        assert Drain(queue, n)[1..] == queue[1..];
      }
    }
  }

  ghost predicate NoneEmpty<T>(queue: seq<seq<T>>) {
    forall i :: 0 <= i < |queue| ==> queue[i] != []
  }

  /** When no queued buffer is empty, draining everything empties the queue. */
  lemma {:induction false} DrainAll<T>(queue: seq<seq<T>>, n: nat)
    requires NoneEmpty(queue) && n <= |Flatten(queue)|
    ensures NoneEmpty(Drain(queue, n))
    ensures Drain(queue, n) == [] <==> n == |Flatten(queue)|
  {
    if queue != [] {
      assert queue[0] != [];
      if n != 0 && |queue[0]| <= n {
        assert forall i :: 0 <= i < |queue| - 1 ==> queue[1..][i] == queue[i + 1];
        DrainAll(queue[1..], n - |queue[0]|);
      }
    }
  }

  datatype Chan = Chan(
    posted: seq<Parcel>,       // everything accepted by the sender, in order
    queue: seq<seq<Cell>>,     // the unsent part of each queued buffer
    wire: seq<Cell>,           // sent, not yet received
    reader: Reader,
    taken: seq<Frame>          // what the receiver has got so far
  )

  const EMPTY := Chan([], [], [], FRESH, [])

  datatype Step =
    | Post(p: Parcel)
    | Write(n: nat)    // the kernel accepts n bytes
    | Read(n: nat, room: bool) // the kernel delivers n bytes; room tells whether a descriptor slot is free
    | Take             // msgbuf_get

  function FdsOf(cells: seq<Cell>): seq<int> {
    if cells == [] then []
    else if cells[0].fd != NO_FD then [cells[0].fd] + FdsOf(cells[1..])
    else FdsOf(cells[1..])
  }

  /** recvmsg returns some bytes that fit the read buffer and at most one descriptor. */
  predicate CanRead(ch: Chan, n: nat) {
    && 1 <= n <= |ch.wire|
    && n + |ch.reader.residue| <= IBUF_READ_SIZE
    && |FdsOf(ch.wire[..n])| <= 1
  }

  /** Without a free slot recvmsg is repeated without the descriptor, which is then closed. */
  function Received(cells: seq<Cell>, room: bool): Chunk {
    var fds := FdsOf(cells);
    Chunk(Text(cells), if fds == [] || !room then NO_FD else fds[0])
  }

  /** A step the kernel or the caller cannot take leaves the channel as it is. */
  function Next(c: Conf, ch: Chan, step: Step): Chan
    requires ch.reader.partial.Some? ==> |ch.reader.partial.value.bytes| < ch.reader.partial.value.len
    requires c.Valid()
  {
    match step
    case Post(p) =>
      if Proper(c, p) then ch.(posted := ch.posted + [p], queue := ch.queue + [Cells(p)]) else ch
    case Write(n) =>
      var pending := Flatten(ch.queue);
      if n <= |pending| then ch.(queue := Drain(ch.queue, n), wire := ch.wire + pending[..n]) else ch
    case Read(n, room) =>
      if CanRead(ch, n) then
        ch.(reader := Feed(c, ch.reader, Received(ch.wire[..n], room)), wire := ch.wire[n..])
      else ch
    case Take =>
      if ch.reader.frames == [] then ch
      else ch.(taken := ch.taken + [ch.reader.frames[0]], reader := ch.reader.(frames := ch.reader.frames[1..]))
  }

  /** All frames completed so far, taken or waiting. */
  function Done(ch: Chan): seq<Frame> {
    ch.taken + ch.reader.frames
  }

  function InFlight(ch: Chan): seq<Cell> {
    ch.wire + Flatten(ch.queue)
  }

  function Partway(ch: Chan): seq<byte> {
    Held(ch.reader.partial) + ch.reader.residue
  }

  /**
   The completed frames are the first parcels posted, and the bytes the reader
   holds followed by the bytes in flight are what the remaining parcels encode.
   */
  ghost predicate Inv(c: Conf, ch: Chan) {
    && ch.reader.Valid(c)
    && !ch.reader.failed
    && AllProper(c, ch.posted)
    && NoneEmpty(ch.queue)
    && Faithful(c, ch)
  }

  /** The part of the invariant that relates the channel to what was posted. */
  ghost predicate Faithful(c: Conf, ch: Chan) {
    && |Done(ch)| <= |ch.posted|
    && Raw(Done(ch)) == Bodies(ch.posted[..|Done(ch)|])
    && Splits(Stream(ch.posted[|Done(ch)|..]), Partway(ch), InFlight(ch))
  }

  /** held and flying are the two parts of the cells, the first already reduced to bytes. */
  ghost predicate Splits(cells: seq<Cell>, held: seq<byte>, flying: seq<Cell>) {
    && |held| <= |cells|
    && held == Text(cells[..|held|])
    && flying == cells[|held|..]
  }

  ghost predicate AllProper(c: Conf, ps: seq<Parcel>) {
    forall i :: 0 <= i < |ps| ==> Proper(c, ps[i])
  }

  /** The first k + 1 parcels are the first parcel and k of the others. */
  lemma {:induction false} StreamTake(ps: seq<Parcel>, k: nat)
    requires k < |ps|
    ensures Bodies(ps[..k + 1]) == [ps[0].bytes] + Bodies(ps[1..][..k])
    ensures Text(Stream(ps[..k + 1])) == ps[0].bytes + Text(Stream(ps[1..][..k]))
  {
    assert ps[..k + 1][1..] == ps[1..][..k];
    assert Stream(ps[..k + 1]) == Cells(ps[0]) + Stream(ps[1..][..k]);
  }

  /** What parsing s says when s is a prefix of the text of ps. */
  ghost predicate PrefixParsed(ps: seq<Parcel>, s: seq<byte>, b: Batch) {
    && !b.failed
    && |b.frames| <= |ps|
    && b.frames == Bodies(ps[..|b.frames|])
    && s == Text(Stream(ps[..|b.frames|])) + b.rest
    && (|s| == |Stream(ps)| ==> |b.frames| == |ps|)
  }

  lemma {:induction false} StreamCons(ps: seq<Parcel>)
    requires ps != []
    ensures Text(Stream(ps)) == ps[0].bytes + Text(Stream(ps[1..]))
    ensures |Stream(ps)| == |ps[0].bytes| + |Stream(ps[1..])|
  {
  }

  lemma {:induction false} PrefixParsedCons(ps: seq<Parcel>, tail: seq<byte>, b: Batch)
    requires ps != [] && PrefixParsed(ps[1..], tail, b)
    ensures PrefixParsed(ps, ps[0].bytes + tail, Batch([ps[0].bytes] + b.frames, b.rest, b.failed))
  {
    StreamTake(ps, |b.frames|);
    StreamCons(ps);
  }

  /** Parsing any prefix of well-formed frames yields the complete ones and fails on none. */
  lemma {:induction false} ParsePrefix(c: Conf, ps: seq<Parcel>, s: seq<byte>)
    requires c.Valid() && AllProper(c, ps)
    requires s <= Text(Stream(ps))
    ensures PrefixParsed(ps, s, Parse(c, s))
    decreases |ps|
  {
    if ps == [] {
      assert s == [];
    } else {
      StreamCons(ps);
      var frame := ps[0].bytes;
      if |s| < |frame| {
        PrefixIncomplete(c, ps, s);
      } else {
        var tail := s[|frame|..];
        assert s == frame + tail;
        ParsePrefix(c, ps[1..], tail);
        ParseFrame(c, frame, tail);
        PrefixParsedCons(ps, tail, Parse(c, tail));
      }
    }
  }

  lemma {:induction false} PrefixIncomplete(c: Conf, ps: seq<Parcel>, s: seq<byte>)
    requires c.Valid() && AllProper(c, ps) && ps != []
    requires |s| < |ps[0].bytes| && s <= ps[0].bytes
    ensures PrefixParsed(ps, s, Parse(c, s))
  {
    if c.hdrsize <= |s| { HeaderPrefix(c, s, ps[0].bytes); }
    assert Parse(c, s) == Batch([], s, false);
    assert |Stream(ps)| >= |ps[0].bytes|;
    assert ps[..0] == [];
  }

  /** Posting lengthens what is left to deliver and what is in flight by the same cells. */
  lemma {:induction false} PostSplits(left: seq<Parcel>, held: seq<byte>, wire: seq<Cell>, queue: seq<seq<Cell>>,
      p: Parcel)
    requires Splits(Stream(left), held, wire + Flatten(queue))
    ensures Splits(Stream(left + [p]), held, wire + Flatten(queue + [Cells(p)]))
  {
    StreamAppend(left, [p]);
    FlattenAppend(queue, [Cells(p)]);
    FlattenOne(Cells(p));
    assert Stream([p]) == Cells(p) by { assert [p][1..] == []; }
    assert wire + (Flatten(queue) + Cells(p)) == wire + Flatten(queue) + Cells(p);
    SplitsAppend(Stream(left), held, wire + Flatten(queue), Cells(p));
  }

  lemma {:induction false} InvPost(c: Conf, ch: Chan, p: Parcel)
    requires Inv(c, ch)
    ensures Inv(c, Next(c, ch, Post(p)))
  {
    if Proper(c, p) {
      PostKeeps(c, ch.posted, |Done(ch)|, p, ch.queue);
      PostSplits(ch.posted[|Done(ch)|..], Partway(ch), ch.wire, ch.queue, p);
    }
  }

  lemma {:induction false} PostKeeps(c: Conf, posted: seq<Parcel>, k: nat, p: Parcel, queue: seq<seq<Cell>>)
    requires k <= |posted| && AllProper(c, posted) && Proper(c, p) && NoneEmpty(queue)
    ensures AllProper(c, posted + [p]) && NoneEmpty(queue + [Cells(p)])
    ensures (posted + [p])[k..] == posted[k..] + [p] && (posted + [p])[..k] == posted[..k]
  {
  }

  lemma {:induction false} SplitsAppend(cells: seq<Cell>, held: seq<byte>, flying: seq<Cell>, more: seq<Cell>)
    requires Splits(cells, held, flying)
    ensures Splits(cells + more, held, flying + more)
  {
    assert (cells + more)[..|held|] == cells[..|held|];
  }

  lemma {:induction false} InvWrite(c: Conf, ch: Chan, n: nat)
    requires Inv(c, ch)
    ensures Inv(c, Next(c, ch, Write(n)))
  {
    var pending := Flatten(ch.queue);
    if n <= |pending| {
      DrainIsDrop(ch.queue, n);
      DrainAll(ch.queue, n);
      assert (ch.wire + pending[..n]) + pending[n..] == ch.wire + pending;
    }
  }

  lemma {:induction false} InvTake(c: Conf, ch: Chan)
    requires Inv(c, ch)
    ensures Inv(c, Next(c, ch, Take))
  {
    if ch.reader.frames != [] {
      assert Done(Next(c, ch, Take)) == Done(ch);
    }
  }

  /** Receiving cells moves them from the flying part to the held part. */
  lemma {:induction false} SplitsReceive(cells: seq<Cell>, held: seq<byte>, flying: seq<Cell>, n: nat)
    requires Splits(cells, held, flying) && n <= |flying|
    ensures Splits(cells, held + Text(flying[..n]), flying[n..])
    ensures held + Text(flying[..n]) <= Text(cells)
  {
    var held' := held + Text(flying[..n]);
    assert cells[..|held'|] == cells[..|held|] + flying[..n];
  }

  /** Completing the leading parcels shortens both the cells and the held part. */
  lemma {:induction false} SplitsComplete(ps: seq<Parcel>, j: nat, held: seq<byte>, rest: seq<byte>, flying: seq<Cell>)
    requires j <= |ps|
    requires Splits(Stream(ps), held, flying)
    requires held == Text(Stream(ps[..j])) + rest
    ensures Splits(Stream(ps[j..]), rest, flying)
  {
    StreamAppend(ps[..j], ps[j..]);
    assert ps == ps[..j] + ps[j..];
    var front, back := Stream(ps[..j]), Stream(ps[j..]);
    assert Stream(ps) == front + back;
    assert |rest| <= |back|;
    assert (front + back)[..|held|] == front + back[..|rest|];
    assert Text(front + back[..|rest|]) == Text(front) + Text(back[..|rest|]);
    assert held[|front|..] == rest;
    assert (Text(front) + Text(back[..|rest|]))[|front|..] == Text(back[..|rest|]);
  }

  lemma {:induction false} BodiesSplit(ps: seq<Parcel>, k: nat, j: nat)
    requires k + j <= |ps|
    ensures Bodies(ps[..k]) + Bodies(ps[k..][..j]) == Bodies(ps[..k + j])
    ensures ps[k..][j..] == ps[k + j..]
  {
  }

  /** Which parcels a read completes, and what it leaves. */
  lemma {:induction false} ReadCompletes(c: Conf, ps: seq<Parcel>, held: seq<byte>, wire: seq<Cell>,
      queued: seq<Cell>, n: nat)
    requires c.Valid() && AllProper(c, ps) && n <= |wire|
    requires Splits(Stream(ps), held, wire + queued)
    ensures var b := Parse(c, held + Text(wire[..n]));
            && PrefixParsed(ps, held + Text(wire[..n]), b)
            && Splits(Stream(ps[|b.frames|..]), b.rest, wire[n..] + queued)
  {
    SplitsReceive(Stream(ps), held, wire + queued, n);
    CutFirst(wire, queued, n);
    var held' := held + Text(wire[..n]);
    ParsePrefix(c, ps, held');
    var b := Parse(c, held');
    SplitsComplete(ps, |b.frames|, held', b.rest, wire[n..] + queued);
  }

  lemma {:induction false} ReadFaithful(c: Conf, ch: Chan, ch': Chan, n: nat, b: Batch)
    requires c.Valid() && AllProper(c, ch.posted) && Faithful(c, ch) && n <= |ch.wire|
    requires b == Parse(c, Partway(ch) + Text(ch.wire[..n]))
    requires Raw(Done(ch')) == Raw(Done(ch)) + b.frames && Partway(ch') == b.rest
    requires ch'.posted == ch.posted && ch'.wire == ch.wire[n..] && ch'.queue == ch.queue
    ensures Faithful(c, ch') && !b.failed
  {
    var k := |Done(ch)|;
    ReadCompletes(c, ch.posted[k..], Partway(ch), ch.wire, Flatten(ch.queue), n);
    BodiesSplit(ch.posted, k, |b.frames|);
    assert |Done(ch')| == |Raw(Done(ch'))| == k + |b.frames|;
  }

  lemma {:induction false} InvRead(c: Conf, ch: Chan, n: nat, room: bool)
    requires Inv(c, ch)
    ensures Inv(c, Next(c, ch, Read(n, room)))
  {
    if CanRead(ch, n) {
      var chunk := Received(ch.wire[..n], room);
      FeedValid(c, ch.reader, chunk);
      ReadDone(c, ch, n, room);
      ReadFaithful(c, ch, Next(c, ch, Read(n, room)), n, Parse(c, Partway(ch) + chunk.bytes));
    }
  }

  /** A read only adds to the completed frames. */
  lemma {:induction false} ReadDone(c: Conf, ch: Chan, n: nat, room: bool)
    requires Inv(c, ch) && CanRead(ch, n)
    ensures var chunk := Received(ch.wire[..n], room);
            var b := Parse(c, Partway(ch) + chunk.bytes);
            var ch' := Next(c, ch, Read(n, room));
            && Raw(Done(ch')) == Raw(Done(ch)) + b.frames
            && Partway(ch') == b.rest
            && ch'.reader.failed == b.failed
  {
    var chunk := Received(ch.wire[..n], room);
    var b := Parse(c, Partway(ch) + chunk.bytes);
    FeedIsParse(c, ch.reader, chunk);
    RawAppend(ch.taken, ch.reader.frames);
    RawAppend(ch.taken, Feed(c, ch.reader, chunk).frames);
    assert Raw(ch.taken) + (Raw(ch.reader.frames) + b.frames) == Raw(ch.taken) + Raw(ch.reader.frames) + b.frames;
  }

  lemma {:induction false} NextInv(c: Conf, ch: Chan, step: Step)
    requires Inv(c, ch)
    ensures Inv(c, Next(c, ch, step))
  {
    match step
    case Post(p) => InvPost(c, ch, p);
    case Write(n) => InvWrite(c, ch, n);
    case Read(n, room) => InvRead(c, ch, n, room);
    case Take => InvTake(c, ch);
  }

  lemma {:induction false} InvEmpty(c: Conf)
    requires c.Valid()
    ensures Inv(c, EMPTY)
  {
    assert Raw(Done(EMPTY)) == Bodies(EMPTY.posted[..0]);
  }

  ghost function Run(c: Conf, ch: Chan, steps: seq<Step>): Chan
    requires Inv(c, ch)
    decreases |steps|
  {
    if steps == [] then ch
    else
      NextInv(c, ch, steps[0]);
      Run(c, Next(c, ch, steps[0]), steps[1..])
  }

  /** The parcel a step posts, if it is well formed. */
  function AcceptedBy(c: Conf, step: Step): seq<Parcel> {
    if step.Post? && Proper(c, step.p) then [step.p] else []
  }

  /** The well-formed parcels of a run, in the order they were posted. */
  function Accepted(c: Conf, steps: seq<Step>): seq<Parcel> {
    if steps == [] then [] else AcceptedBy(c, steps[0]) + Accepted(c, steps[1..])
  }

  /** What is posted now and later is the same list before and after a step. */
  lemma {:induction false} PostedTotal(c: Conf, ch: Chan, steps: seq<Step>)
    requires c.Valid() && steps != []
    requires ch.reader.partial.Some? ==> |ch.reader.partial.value.bytes| < ch.reader.partial.value.len
    ensures Next(c, ch, steps[0]).posted == ch.posted + AcceptedBy(c, steps[0])
    ensures Next(c, ch, steps[0]).posted + Accepted(c, steps[1..]) == ch.posted + Accepted(c, steps)
  {
    AppendAssoc(ch.posted, AcceptedBy(c, steps[0]), Accepted(c, steps[1..]));
  }

  lemma {:induction false} RunInv(c: Conf, ch: Chan, steps: seq<Step>)
    requires Inv(c, ch)
    ensures Inv(c, Run(c, ch, steps))
    decreases |steps|
  {
    if steps != [] {
      NextInv(c, ch, steps[0]);
      RunInv(c, Next(c, ch, steps[0]), steps[1..]);
    }
  }

  lemma {:induction false} RunSnoc(c: Conf, ch: Chan, steps: seq<Step>, step: Step)
    requires Inv(c, ch)
    ensures Inv(c, Run(c, ch, steps))
    ensures Run(c, ch, steps + [step]) == Next(c, Run(c, ch, steps), step)
    decreases |steps|
  {
    RunInv(c, ch, steps);
    if steps == [] {
      assert steps + [step] == [step];
      NextInv(c, ch, step);
      assert Run(c, ch, [step]) == Run(c, Next(c, ch, step), []);
    } else {
      assert (steps + [step])[0] == steps[0] && (steps + [step])[1..] == steps[1..] + [step];
      NextInv(c, ch, steps[0]);
      RunSnoc(c, Next(c, ch, steps[0]), steps[1..], step);
    }
  }

  lemma {:induction false} RunPosted(c: Conf, ch: Chan, steps: seq<Step>)
    requires Inv(c, ch)
    ensures Run(c, ch, steps).posted == ch.posted + Accepted(c, steps)
    decreases |steps|
  {
    if steps != [] {
      NextInv(c, ch, steps[0]);
      PostedTotal(c, ch, steps);
      RunPosted(c, Next(c, ch, steps[0]), steps[1..]);
    }
  }

  /**
   However the kernel splits writes and reads, the frames completed are the
   first ones posted, byte for byte and in order, and the reader never fails.
   Once queue and wire are empty they are all of them and nothing is held.
   */
  lemma {:induction false} DeliveredInOrder(c: Conf, steps: seq<Step>)
    requires c.Valid()
    ensures Inv(c, EMPTY)
    ensures var ch := Run(c, EMPTY, steps);
            var posted := Accepted(c, steps);
            && !ch.reader.failed
            && |Done(ch)| <= |posted|
            && Raw(Done(ch)) == Bodies(posted[..|Done(ch)|])
            && (ch.queue == [] && ch.wire == [] ==> |Done(ch)| == |posted| && Partway(ch) == [])
  {
    InvEmpty(c);
    RunInv(c, EMPTY, steps);
    RunPosted(c, EMPTY, steps);
    var ch := Run(c, EMPTY, steps);
    assert ch.posted == Accepted(c, steps);
    if ch.queue == [] && ch.wire == [] {
      AllDelivered(c, ch);
    }
  }

  lemma {:induction false} AllDelivered(c: Conf, ch: Chan)
    requires Inv(c, ch) && InFlight(ch) == []
    ensures |Done(ch)| == |ch.posted| && Partway(ch) == []
  {
    var left := ch.posted[|Done(ch)|..];
    var held := Partway(ch);
    assert Stream(left)[..|held|] == Stream(left);
    ParsePrefix(c, left, held);
    PartwayIncomplete(c, ch);
  }

  /** What the reader holds never contains a complete frame. */
  lemma {:induction false} PartwayIncomplete(c: Conf, ch: Chan)
    requires ch.reader.Valid(c) && !ch.reader.failed
    ensures Parse(c, Partway(ch)).frames == []
  {
    var p := ch.reader.partial;
    if p.Some? {
      assert Partway(ch) == p.value.bytes;
    } else {
      assert Partway(ch) == ch.reader.residue;
    }
  }
}
