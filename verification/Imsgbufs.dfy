/**
 struct imsgbuf with its msgbuf: the write queue, the read buffer, the
 message being collected and the queue of collected messages.
 */
module Imsgbufs {
  import opened Common
  import opened ImsgReader
  import opened ImsgFormat
  import opened ImsgChannel
  import opened ImsgDescriptors
  import opened Ibufs

  const IOV_MAX: nat := 1024

  /** A message being collected, as a value. */
  function FrameOf(b: Ibuf): Frame
    requires b.Valid()
    reads b
  {
    Frame(b.max, b.buf[..b.wpos], b.fd)
  }

  ghost predicate Distinct(bufs: seq<Ibuf>) {
    forall i, j :: 0 <= i < j < |bufs| ==> bufs[i] != bufs[j]
  }

  /** b is a collected message, still unread, with value f. */
  ghost predicate Collected(b: Ibuf, f: Frame)
    reads b
  {
    b.Valid() && b.fd != ON_STACK && b.rpos == 0 && HEADER_SIZE <= b.wpos && FrameOf(b) == f
  }

  /** b is a message being collected, with value f. */
  ghost predicate Collecting(b: Ibuf, f: Frame, maxsize: nat)
    reads b
  {
    && b.Valid() && b.fd != ON_STACK && b.rpos == 0 && b.wpos < b.max == |b.buf|
    && HEADER_SIZE <= b.max <= maxsize && FrameOf(b) == f
  }

  /** The unsent bytes of a queued buffer, with the descriptor that is to travel with the first one. */
  function Unsent(b: Ibuf, passing: bool): seq<Cell>
    requires b.Valid()
    reads b
  {
    Cells(Parcel(b.Data(), if passing then b.fd else NO_FD))
  }

  /** b is a queued buffer with something to send, and has sent nothing while it holds a descriptor. */
  ghost predicate Queued(b: Ibuf, cells: seq<Cell>, passing: bool)
    reads b
  {
    && b.Valid() && b.fd != ON_STACK && cells != [] && cells == Unsent(b, passing)
    && (passing && b.fd != NO_FD ==> b.rpos == 0)
  }

  /** The descriptors that queued buffers still hold. */
  function Holding(bufs: seq<Ibuf>): seq<int>
    reads bufs
  {
    if bufs == [] then [] else (if 0 <= bufs[0].fd then [bufs[0].fd] else []) + Holding(bufs[1..])
  }

  /**
   k buffers are gathered for one write: all of them, or as many as an iovec takes, or
   those before the next one with a descriptor to pass.
   */
  ghost predicate Gathered(queue: seq<seq<Cell>>, passing: bool, k: nat)
    requires NoneEmpty(queue)
  {
    && k <= |queue| && k <= IOV_MAX
    && (forall j :: 0 < j < k && passing ==> queue[j][0].fd == NO_FD)
    && (k == |queue| || k == IOV_MAX || (passing && 0 < k && queue[k][0].fd != NO_FD))
  }

  /** The kernel takes as much of what it is offered as it likes, and something. */
  ghost predicate TakenBy(n: nat, offered: seq<Cell>, sent: seq<Cell>) {
    sent <= offered && 0 < |sent| && |sent| == if n < |offered| then n else |offered|
  }

  lemma {:induction false} TakesFront(limit: nat, offered: seq<Cell>, all: seq<Cell>, n: nat)
    requires 0 < limit && offered <= all && offered != [] && n == if limit < |offered| then limit else |offered|
    ensures TakenBy(limit, offered, offered[..n]) && n <= |all| && offered[..n] == all[..n]
  {
  }

  lemma {:induction false} FirstCell(queue: seq<seq<Cell>>)
    requires NoneEmpty(queue) && queue != []
    ensures Flatten(queue) != [] && Flatten(queue)[0] == queue[0][0]
  {
  }

  /** The cells of the first i buffers are the front of all. */
  lemma {:induction false} FrontOf(queue: seq<seq<Cell>>, i: nat)
    requires i <= |queue|
    ensures Flatten(queue[..i]) <= Flatten(queue)
  {
    assert queue == queue[..i] + queue[i..];
    FlattenAppend(queue[..i], queue[i..]);
  }

  /** What the kernel does with a write of some bytes. */
  datatype Sent = Again | Error | Moved(n: nat)  // at least one byte

  /** What the kernel returns from a read. */
  datatype Got = NotYet | Broken | Closed | Arrived(bytes: seq<byte>, fds: seq<int>)

  class Imsgbuf {
    const format: Format
    const allowFdpass: bool
    const ownPid: u32
    var bufs: seq<Ibuf>
    var queued: nat
    var rbuf: array<byte>
    var roff: nat
    var rpmsg: Ibuf?
    var rbufs: seq<Ibuf>

    ghost var frames: seq<Frame>       // the collected messages as values
    ghost var partial: Option<Frame>   // the message being collected as a value

    ghost predicate ReadValid()
      reads this, rbuf, rbufs, rpmsg
    {
      && format.Valid()
      && rbuf.Length == IBUF_READ_SIZE
      && roff <= IBUF_READ_SIZE
      && Distinct(rbufs)
      && |frames| == |rbufs|
      && (forall i :: 0 <= i < |rbufs| ==> Collected(rbufs[i], frames[i]))
      && (rpmsg == null <==> partial == None)
      && (rpmsg != null ==> rpmsg !in rbufs && Collecting(rpmsg, partial.value, format.maxsize))
    }

    ghost var queue: seq<seq<Cell>>    // the write queue as values

    ghost predicate WriteValid()
      reads this, bufs
    {
      && format.Valid()
      && queued == |bufs| == |queue|
      && Distinct(bufs)
      && (forall i :: 0 <= i < |bufs| ==> Queued(bufs[i], queue[i], allowFdpass))
    }

    ghost predicate Valid()
      reads this, rbuf, rbufs, rpmsg, bufs
    {
      && ReadValid() && WriteValid()
      && (forall b :: b in bufs ==> b !in rbufs && b != rpmsg)
    }

    /** The reading half as a value. */
    ghost function State(): Reader
      requires ReadValid()
      reads this, rbuf, rbufs, rpmsg
    {
      Reader(frames, partial, rbuf[..roff], false)
    }

    /** The messages held now were held before, or are new. */
    twostate predicate OnlyNew(before: seq<Ibuf>, m: Ibuf?)
      reads this
    {
      && (rpmsg == null || rpmsg == m || fresh(rpmsg))
      && forall b :: b in rbufs ==> b in before || b == m || fresh(b)
    }

    /** What happens to other buffers does not matter to the reading half. */
    twostate lemma ReadKept()
      requires old(ReadValid()) && unchanged(`rbuf, `roff, `rpmsg, `rbufs, `frames, `partial) && unchanged(rbuf)
      requires (forall b :: b in rbufs ==> unchanged(b)) && (rpmsg != null ==> unchanged(rpmsg))
      ensures ReadValid() && State() == old(State())
    {
      forall i | 0 <= i < |rbufs| ensures Collected(rbufs[i], frames[i]) {
        assert rbufs[i] in rbufs && old(Collected(rbufs[i], frames[i]));
      }
    }

    /** Nor to the writing half. */
    twostate lemma WriteKept()
      requires old(WriteValid()) && unchanged(`bufs, `queued, `queue) && forall b :: b in bufs ==> unchanged(b)
      ensures WriteValid()
    {
      forall i | 0 <= i < |bufs| ensures Queued(bufs[i], queue[i], allowFdpass) {
        assert bufs[i] in bufs && old(Queued(bufs[i], queue[i], allowFdpass));
      }
    }

    /** imsgbuf_init */
    constructor Init(format: Format, allowFdpass: bool, ownPid: u32)
      requires format.Valid()
      ensures Valid() && fresh(rbuf) && queue == [] && bufs == [] && State() == FRESH
      ensures this.format == format && this.allowFdpass == allowFdpass && this.ownPid == ownPid
    {
      this.format, this.allowFdpass, this.ownPid := format, allowFdpass, ownPid;
      bufs, queued, queue := [], 0, [];
      rbuf := new byte[IBUF_READ_SIZE](_ => 0);
      roff, rpmsg, rbufs := 0, null, [];
      frames, partial := [], None;
    }

    /** imsg_parse_hdr: a buffer for the announced message, which takes the descriptor if marked. */
    method ParseHeader(hdr: Ibuf, fd: int) returns (b: Ibuf?, fd': int)
      requires format.Valid() && hdr.Valid() && NO_FD <= fd
      modifies hdr`rpos
      ensures var h :=
                if HEADER_SIZE <= old(|hdr.Data()|) then ParseHdr(format, old(hdr.Data()[..HEADER_SIZE])) else None;
              && (b == null <==> h.None?)
              && (b == null ==> fd' == fd)
              && (b != null ==>
                    && fresh(b) && b.Valid() && b.rpos == 0 && b.wpos == 0 && b.max == |b.buf| && b.fd != ON_STACK
                    && HEADER_SIZE <= b.max <= format.maxsize
                    && FrameOf(b) == Begin(h.value, fd) && fd' == Unclaimed(h.value, fd))
    {
      b, fd' := null, fd;
      var bytes := hdr.Get(HEADER_SIZE);
      if bytes.None? { return; }
      assert bytes.value[..HEADER_SIZE] == bytes.value;
      var hdrLen: int := GetHeader(format, bytes.value).len;
      var len := hdrLen % FD_MARK;
      if len < HEADER_SIZE || format.maxsize < len { return; }
      b := new Ibuf.Open(len);
      if FD_MARK <= hdrLen {
        var closed := b.FdSet(fd);
        fd' := NO_FD;
      }
    }

    /** The copying half of one turn of ibuf_read_process. Neither call in it can fail. */
    method Fill(rb: Ibuf)
      requires ReadValid() && rpmsg != null && rb.Valid() && rb != rpmsg && rb !in rbufs
      modifies this`rpmsg, this`rbufs, this`frames, this`partial, rpmsg, rb`rpos
      ensures ReadValid() && rb.Valid() && (rpmsg == null || rpmsg == old(rpmsg))
      ensures rbufs == old(rbufs) || rbufs == old(rbufs) + [old(rpmsg)]
      ensures var p := old(partial.value);
              var input := old(rb.Data());
              var need := p.len - |p.bytes|;
              if |input| < need then
                partial == Some(p.(bytes := p.bytes + input)) && frames == old(frames) && rb.Data() == []
              else
                && partial == None && rb.Data() == input[need..]
                && frames == old(frames) + [p.(bytes := p.bytes + input[..need])]
    {
      var m := rpmsg;
      Copy(rb, m);
      partial := Some(FrameOf(m));
      assert old(rb.Data())[..old(rb.Size())] == old(rb.Data());
      if m.Left() == 0 {
        frames, partial := frames + [FrameOf(m)], None;
        rbufs, rpmsg := rbufs + [m], null;
      }
    }

    /** The part of one turn that needs a header: it starts the next message, or fails. */
    method BeginMessage(rb: Ibuf, fd: int) returns (ok: bool, fd': int)
      requires ReadValid() && rpmsg == null && rb.Valid() && rb !in rbufs && NO_FD <= fd
      requires HEADER_SIZE <= |rb.Data()|
      modifies this`rpmsg, this`partial
      ensures ReadValid() && rb.Valid() && NO_FD <= fd'
      ensures var h := ImsgConf(format).Header(rb.Data());
              && ok == h.Some?
              && (ok ==>
                    && rpmsg != null && fresh(rpmsg)
                    && partial == Some(Begin(h.value, fd)) && fd' == Unclaimed(h.value, fd))
              && (!ok ==> rpmsg == null && fd' == fd)
    {
      var msg := new Ibuf.FromBuffer(rb.Data()[..HEADER_SIZE]);
      assert msg.Data()[..HEADER_SIZE] == rb.Data()[..HEADER_SIZE];
      rpmsg, fd' := ParseHeader(msg, fd);
      ok := rpmsg != null;
      partial := if ok then Some(FrameOf(rpmsg)) else None;
    }

    /** memmove of what the last run left to the front of the read buffer. */
    method Compact(rb: Ibuf)
      requires rb.Valid() && |rb.Data()| <= rbuf.Length
      modifies this`roff, rbuf
      ensures roff == |rb.Data()| && rbuf[..roff] == rb.Data()
    {
      var left := rb.Data();
      forall i | 0 <= i < |left| { rbuf[i] := left[i]; }
      roff := |left|;
    }

    /** One turn of the loop in ibuf_read_process; more tells whether to go on. */
    method Turn(rb: Ibuf, fd: int) returns (ok: bool, more: bool, fd': int)
      requires ReadValid() && rb.Valid() && rb != rpmsg && rb !in rbufs && NO_FD <= fd
      modifies this`rpmsg, this`rbufs, this`frames, this`partial, rpmsg, rb`rpos
      ensures ReadValid() && rb.Valid() && rb != rpmsg && rb !in rbufs && NO_FD <= fd'
      ensures OnlyNew(old(rbufs), old(rpmsg))
      ensures Turned(ImsgConf(format), old(partial), old(rb.Data()), fd, old(frames),
                     partial, rb.Data(), fd', frames, ok, more)
    {
      ok, more, fd' := true, false, fd;
      if rpmsg == null {
        if rb.Size() < HEADER_SIZE { return; }
        ok, fd' := BeginMessage(rb, fd);
        if !ok { return; }
      }
      Fill(rb);
      more := rb.Size() != 0;
    }

    /** The loop of ibuf_read_process. */
    method ReadLoop(rb: Ibuf, fd: int) returns (ok: bool, fd': int)
      requires ReadValid() && rb.Valid() && rb != rpmsg && rb !in rbufs && NO_FD <= fd
      modifies this`rpmsg, this`rbufs, this`frames, this`partial, rpmsg, rb`rpos
      ensures ReadValid() && rb.Valid() && NO_FD <= fd' && |rb.Data()| <= |old(rb.Data())|
      ensures OnlyNew(old(rbufs), old(rpmsg))
      ensures var o := Consume(ImsgConf(format), old(partial), old(rb.Data()), fd);
              && ok == !o.failed && fd' == o.fd && frames == old(frames) + o.frames
              && partial == o.partial && rb.Data() == o.residue
    {
      var more := true;
      fd', ok := fd, true;
      ghost var c := ImsgConf(format);
      ghost var o := Consume(c, partial, rb.Data(), fd);
      while more
        invariant ReadValid() && rb.Valid() && rb !in rbufs && rb != rpmsg && NO_FD <= fd'
        invariant OnlyNew(old(rbufs), old(rpmsg))
        invariant |rb.Data()| <= |old(rb.Data())|
        invariant Resumes(o, old(frames), frames, Consume(c, partial, rb.Data(), fd'))
        invariant !more ==> Consume(c, partial, rb.Data(), fd') == Outcome([], partial, rb.Data(), fd', !ok)
        decreases more, |rb.Data()|
      {
        ghost var p, input, fd0, before := partial, rb.Data(), fd', frames;
        ok, more, fd' := Turn(rb, fd');
        TurnResumes(c, p, input, fd0, before, partial, rb.Data(), fd', frames, ok, more);
      }
    }

    /**
     ibuf_read_process: collects every complete message in the read buffer.
     closed lists the descriptor that no header took.
     */
    method ReadProcess(fd: int) returns (ok: bool, closed: seq<int>)
      requires ReadValid() && NO_FD <= fd
      modifies this`rpmsg, this`rbufs, this`frames, this`partial, this`roff, rbuf, rpmsg
      ensures ReadValid() && OnlyNew(old(rbufs), old(rpmsg))
      ensures var o := Consume(ImsgConf(format), old(partial), old(rbuf[..roff]), fd);
              && ok == !o.failed
              && frames == old(frames) + o.frames
              && (ok ==> partial == o.partial && rbuf[..roff] == o.residue)
              && closed == (if o.fd == NO_FD then [] else [o.fd])
    {
      var rb := new Ibuf.FromBuffer(rbuf[..roff]);
      var fd';
      ok, fd' := ReadLoop(rb, fd);
      closed := if fd' == NO_FD then [] else [fd'];
      if ok {
        Compact(rb);
      }
    }

    /** ibuf_read and msgbuf_read: rv is 1 to go on, 0 for a closed connection, -1 for an error. */
    method Read(got: Got) returns (rv: int, closed: seq<int>)
      requires ReadValid()
      requires got.Arrived? ==> 0 < |got.bytes| <= IBUF_READ_SIZE - roff
      requires got.Arrived? ==> forall f :: f in got.fds ==> 0 <= f
      requires got.Arrived? && got.fds != [] ==> allowFdpass
      modifies this`rpmsg, this`rbufs, this`frames, this`partial, this`roff, rbuf, rpmsg
      ensures ReadValid() && OnlyNew(old(rbufs), old(rpmsg))
      ensures !got.Arrived? ==>
                && State() == old(State()) && closed == []
                && rv == (match got case NotYet => 1 case Closed => 0 case _ => -1)
      ensures got.Arrived? ==>
                var fd := if got.fds == [] then NO_FD else got.fds[0];
                var o := Consume(ImsgConf(format), old(partial), old(rbuf[..roff]) + got.bytes, fd);
                && frames == old(frames) + o.frames
                && (rv == 1 <==> !o.failed) && (rv == -1 <==> o.failed)
                && (rv == 1 ==> State() == Feed(ImsgConf(format), old(State()), Chunk(got.bytes, fd)))
                && closed == (if got.fds == [] then [] else got.fds[1..]) + (if o.fd == NO_FD then [] else [o.fd])
    {
      match got
      case NotYet => rv, closed := 1, [];
      case Broken => rv, closed := -1, [];
      case Closed => rv, closed := 0, [];
      case Arrived(bytes, fds) =>
        forall i | 0 <= i < |bytes| { rbuf[roff + i] := bytes[i]; }
        assert rbuf[..roff + |bytes|] == old(rbuf[..roff]) + bytes;
        roff := roff + |bytes|;
        var fd, extra := NO_FD, [];
        if fds != [] {
          assert fds[0] in got.fds;
          fd, extra := fds[0], fds[1..];
        }
        var ok, left := ReadProcess(fd);
        rv, closed := if ok then 1 else -1, extra + left;
    }

    /** imsg_get: the oldest collected message, whose buffer and descriptor now belong to the caller. */
    method Get() returns (r: Option<(Msg, Ibuf)>)
      requires ReadValid()
      modifies this`rbufs, this`frames, rbufs
      ensures ReadValid() && partial == old(partial) && rbuf[..roff] == old(rbuf[..roff])
      ensures forall b :: b in rbufs ==> b in old(rbufs)
      ensures r.None? <==> old(frames) == []
      ensures r.None? ==> frames == []
      ensures r.Some? ==>
                && frames == old(frames)[1..]
                && r.value.0 == Decode(format, old(frames)[0].bytes)
                && r.value.1.Valid() && r.value.1.fd == old(frames)[0].fd
                && r.value.1.Data() == r.value.0.payload
    {
      if rbufs == [] { return None; }
      var buf := rbufs[0];
      assert Collected(buf, frames[0]);
      rbufs, frames := rbufs[1..], frames[1..];
      HeaderOnly(format, buf.Data());
      var hdr := buf.Get(HEADER_SIZE);
      var h := GetHeader(format, hdr.value);
      r := Some((Msg(h.kind, h.peerid, h.pid, buf.Data()), buf));
    }

    /** msgbuf_enqueue */
    method Enqueue(b: Ibuf)
      requires WriteValid() && b !in bufs && b.Valid() && Queued(b, Unsent(b, allowFdpass), allowFdpass)
      modifies this`bufs, this`queued, this`queue
      ensures WriteValid() && bufs == old(bufs) + [b] && queue == old(queue) + [Unsent(b, allowFdpass)]
    {
      bufs, queued, queue := bufs + [b], queued + 1, queue + [Unsent(b, allowFdpass)];
    }

    /** msgbuf_dequeue of the first buffer; closed is the descriptor it still held, if any. */
    method Dequeue() returns (closed: seq<int>)
      requires WriteValid() && bufs != []
      modifies this`bufs, this`queued, this`queue
      ensures WriteValid() && queue == old(queue)[1..] && bufs == old(bufs)[1..]
      ensures closed == if 0 <= old(bufs[0].fd) then [old(bufs[0].fd)] else []
      ensures closed + Holding(bufs) == old(Holding(bufs))
    {
      closed := if 0 <= bufs[0].fd then [bufs[0].fd] else [];
      bufs, queued, queue := bufs[1..], queued - 1, queue[1..];
    }

    /** The first buffer has sent n more of its bytes. */
    method Advance(n: nat)
      requires WriteValid() && bufs != [] && 0 < n < |queue[0]|
      requires allowFdpass ==> bufs[0].fd == NO_FD
      modifies bufs[0], this`queue
      ensures WriteValid() && queue == [old(queue)[0][n..]] + old(queue)[1..]
      ensures Holding(bufs) == old(Holding(bufs))
    {
      var buf := bufs[0];
      assert buf !in bufs[1..];
      assert Queued(buf, queue[0], allowFdpass);
      buf.rpos := buf.rpos + n;
      queue := [queue[0][n..]] + queue[1..];
      assert Unsent(buf, allowFdpass) == queue[0];
    }

    /** One turn of the loop in msgbuf_drain: the first buffer goes, or part of it. */
    method DrainFirst(n: nat) returns (left: nat, closed: seq<int>)
      requires WriteValid() && bufs != [] && 0 < n <= |Flatten(queue)|
      requires allowFdpass ==> NoFds(Flatten(queue)[..n])
      modifies this`bufs, this`queued, this`queue, bufs[0]
      ensures WriteValid() && left < n && left <= |Flatten(queue)|
      ensures ImsgChannel.Drain(queue, left) == ImsgChannel.Drain(old(queue), n)
      ensures allowFdpass ==> NoFds(Flatten(queue)[..left]) && closed == []
      ensures bufs == old(bufs) || bufs == old(bufs)[1..]
      ensures closed + Holding(bufs) == old(Holding(bufs))
    {
      var size := bufs[0].Size();
      FirstFd(allowFdpass, bufs[0], queue, n);
      if size <= n {
        NoFdsAfter(queue[0], Flatten(queue[1..]), n);
        left := n - size;
        closed := Dequeue();
      } else {
        Advance(n);
        left, closed := 0, [];
      }
    }

    /**
     msgbuf_drain: n bytes leave the front of the queue. closed are the descriptors of
     buffers that were freed still holding one, and the others are still held.
     */
    method Drain(n: nat) returns (closed: seq<int>)
      requires WriteValid() && n <= |Flatten(queue)|
      requires allowFdpass ==> NoFds(Flatten(queue)[..n])
      modifies this`bufs, this`queued, this`queue, bufs
      ensures WriteValid() && queue == ImsgChannel.Drain(old(queue), n)
      ensures allowFdpass ==> closed == []
      ensures forall b :: b in bufs ==> b in old(bufs)
      ensures closed + Holding(bufs) == old(Holding(bufs))
    {
      closed := [];
      var left: nat := n;
      while bufs != [] && 0 < left
        invariant WriteValid() && left <= |Flatten(queue)|
        invariant allowFdpass ==> NoFds(Flatten(queue)[..left]) && closed == []
        invariant ImsgChannel.Drain(queue, left) == ImsgChannel.Drain(old(queue), n)
        invariant forall b :: b in bufs ==> b in old(bufs)
        invariant closed + Holding(bufs) == old(Holding(bufs))
        decreases left
      {
        assert bufs[0] in bufs;
        var c;
        left, c := DrainFirst(left);
        AppendAssoc(closed, c, Holding(bufs));
        closed := closed + c;
      }
    }

    /** The queue holds no empty buffer, and its cells say which buffers have descriptors. */
    lemma {:induction false} Cellular()
      requires WriteValid()
      ensures NoneEmpty(queue)
      ensures forall i :: 0 <= i < |bufs| ==> queue[i][0].fd == if allowFdpass then bufs[i].fd else NO_FD
    {
      forall i | 0 <= i < |bufs|
        ensures queue[i] != [] && queue[i][0].fd == if allowFdpass then bufs[i].fd else NO_FD
      {
        assert Queued(bufs[i], queue[i], allowFdpass);
      }
    }

    /** The iovec of msgbuf_write: buffers up to IOV_MAX, stopping before the next one that holds a descriptor. */
    method Gather() returns (iov: seq<Cell>, ghost k: nat)
      requires WriteValid() && allowFdpass
      ensures NoneEmpty(queue) && Gathered(queue, true, k) && iov == Flatten(queue[..k])
      ensures iov <= Flatten(queue) && (bufs != [] ==> iov != [])
      ensures NoFds(if iov == [] then [] else iov[1..])
    {
      iov := [];
      Cellular();
      var i := 0;
      while i < |bufs| && i < IOV_MAX && (i == 0 || bufs[i].fd == NO_FD)
        invariant 0 <= i <= |bufs| && i <= IOV_MAX
        invariant forall j :: 0 < j < i ==> bufs[j].fd == NO_FD
        invariant iov == Flatten(queue[..i]) && (0 < i ==> iov != [])
        invariant 0 < i ==> NoFds(iov[1..])
        decreases |bufs| - i
      {
        assert Queued(bufs[i], queue[i], allowFdpass);
        assert queue[..i + 1] == queue[..i] + [queue[i]];
        FlattenSnoc(queue[..i], queue[i]);
        iov := iov + Unsent(bufs[i], allowFdpass);
        i := i + 1;
      }
      k := i;
      FrontOf(queue, i);
    }

    /** The iovec of ibuf_write: buffers up to IOV_MAX. */
    method GatherAll() returns (iov: seq<Cell>, ghost k: nat)
      requires WriteValid()
      ensures NoneEmpty(queue) && Gathered(queue, false, k) && iov == Flatten(queue[..k])
      ensures iov <= Flatten(queue) && (bufs != [] ==> iov != [])
    {
      iov := [];
      Cellular();
      var i := 0;
      while i < |bufs| && i < IOV_MAX
        invariant 0 <= i <= |bufs| && i <= IOV_MAX
        invariant iov == Flatten(queue[..i]) && (0 < i ==> iov != [])
        decreases |bufs| - i
      {
        assert Queued(bufs[i], queue[i], allowFdpass);
        assert queue[..i + 1] == queue[..i] + [queue[i]];
        FlattenSnoc(queue[..i], queue[i]);
        iov := iov + Unsent(bufs[i], allowFdpass);
        i := i + 1;
      }
      k := i;
      FrontOf(queue, i);
    }

    /**
     msgbuf_write, when descriptors may be passed. sent are the cells the kernel
     took: at most one carries a descriptor, the first, and that one is passed. The
     kernel is offered the k buffers gathered and takes what it likes of them.
     */
    method WriteFds(kernel: Sent) returns (rv: int, sent: seq<Cell>, passed: int, ghost k: nat)
      requires WriteValid() && allowFdpass
      requires kernel.Moved? ==> 0 < kernel.n
      modifies this`bufs, this`queued, this`queue, bufs
      ensures WriteValid() && forall b :: b in bufs ==> b in old(bufs)
      ensures NoneEmpty(old(queue)) && Gathered(old(queue), true, k)
      ensures rv == if kernel.Error? && old(queue) != [] then -1 else 0
      ensures kernel.Moved? && old(queue) != [] ==>
                && TakenBy(kernel.n, Flatten(old(queue)[..k]), sent)
                && |sent| <= |Flatten(old(queue))| && sent == Flatten(old(queue))[..|sent|]
                && queue == ImsgChannel.Drain(old(queue), |sent|)
                && NoFds(sent[1..]) && passed == sent[0].fd
      ensures !(kernel.Moved? && old(queue) != []) ==> queue == old(queue) && sent == [] && passed == NO_FD
    {
      rv, sent, passed := 0, [], NO_FD;
      var iov;
      iov, k := Gather();
      if bufs == [] { return; }
      if kernel.Again? { return; }
      if kernel.Error? { rv := -1; return; }
      var n := if kernel.n < |iov| then kernel.n else |iov|;
      sent := iov[..n];
      TakesFront(kernel.n, iov, Flatten(queue), n);
      FirstCell(queue);
      assert Queued(bufs[0], queue[0], allowFdpass);
      passed := bufs[0].fd;
      ClearFd();
      DrainCleared(old(queue), n);
      var closed := Drain(n);
    }

    /** The descriptor of the first buffer has been sent and is closed. */
    method ClearFd()
      requires WriteValid() && bufs != []
      modifies bufs[0], this`queue
      ensures WriteValid()
      ensures queue == Cleared(old(queue))
    {
      assert Queued(bufs[0], queue[0], allowFdpass);
      bufs[0].fd := NO_FD;
      queue := Cleared(queue);
      assert Unsent(bufs[0], allowFdpass) == queue[0];
    }

    /** ibuf_write, when no descriptors are passed. */
    method WriteBytes(kernel: Sent) returns (rv: int, sent: seq<Cell>, ghost k: nat)
      requires WriteValid() && !allowFdpass
      requires kernel.Moved? ==> 0 < kernel.n
      modifies this`bufs, this`queued, this`queue, bufs
      ensures WriteValid() && forall b :: b in bufs ==> b in old(bufs)
      ensures NoneEmpty(old(queue)) && Gathered(old(queue), false, k)
      ensures rv == if kernel.Error? && old(queue) != [] then -1 else 0
      ensures kernel.Moved? && old(queue) != [] ==>
                && TakenBy(kernel.n, Flatten(old(queue)[..k]), sent)
                && |sent| <= |Flatten(old(queue))| && sent == Flatten(old(queue))[..|sent|]
                && queue == ImsgChannel.Drain(old(queue), |sent|)
      ensures !(kernel.Moved? && old(queue) != []) ==> queue == old(queue) && sent == []
    {
      rv, sent := 0, [];
      var iov;
      iov, k := GatherAll();
      if bufs == [] { return; }
      if kernel.Again? { return; }
      if kernel.Error? { rv := -1; return; }
      var n := if kernel.n < |iov| then kernel.n else |iov|;
      sent := iov[..n];
      TakesFront(kernel.n, iov, Flatten(queue), n);
      var closed := Drain(n);
    }

    /** imsgbuf_write: with or without descriptors. */
    method Write(kernel: Sent) returns (rv: int, sent: seq<Cell>, ghost k: nat)
      requires WriteValid()
      requires kernel.Moved? ==> 0 < kernel.n
      modifies this`bufs, this`queued, this`queue, bufs
      ensures WriteValid() && forall b :: b in bufs ==> b in old(bufs)
      ensures NoneEmpty(old(queue)) && Gathered(old(queue), allowFdpass, k)
      ensures rv == if kernel.Error? && old(queue) != [] then -1 else 0
      ensures kernel.Moved? && old(queue) != [] ==> TakenBy(kernel.n, Flatten(old(queue)[..k]), sent)
      ensures !(kernel.Moved? && old(queue) != []) ==> sent == []
      ensures |sent| <= |Flatten(old(queue))| && sent == Flatten(old(queue))[..|sent|]
      ensures queue == ImsgChannel.Drain(old(queue), |sent|)
    {
      if allowFdpass {
        var passed;
        rv, sent, passed, k := WriteFds(kernel);
      } else {
        rv, sent, k := WriteBytes(kernel);
      }
    }

    /** imsg_create: a buffer with a header whose length is not known yet, or null when too large. */
    method Create(kind: u32, id: u32, pid: u32, datalen: nat) returns (wbuf: Ibuf?, garbage: u32)
      requires format.Valid()
      ensures wbuf == null <==> format.maxsize < datalen + HEADER_SIZE
      ensures wbuf != null ==>
                && fresh(wbuf) && wbuf.Valid() && wbuf.rpos == 0 && wbuf.fd == NO_FD && wbuf.max == format.maxsize
                && wbuf.Data() == PutHeader(format, Header(kind, garbage, id, if pid == 0 then ownPid else pid))
    {
      wbuf, garbage := null, *;
      var size := datalen + HEADER_SIZE;
      if format.maxsize < size { return; }
      wbuf := IbufDynamic(size, format.maxsize);
      var hdr := Header(kind, garbage, id, if pid == 0 then ownPid else pid);
      var ok := wbuf.Add(PutHeader(format, hdr));
    }

    /** imsg_close: fills in the length and the descriptor mark, and queues the message. */
    method CloseMsg(msg: Ibuf, ghost h: Header, ghost payload: seq<byte>)
      requires WriteValid() && msg !in bufs && msg.Valid() && msg.fd != ON_STACK && msg.rpos == 0
      requires msg.Data() == PutHeader(format, h) + payload && |msg.Data()| <= format.maxsize
      modifies msg, this`bufs, this`queued, this`queue
      ensures WriteValid() && bufs == old(bufs) + [msg]
      ensures var len := HEADER_SIZE + |payload| + (if 0 <= old(msg.fd) then FD_MARK else 0);
              queue == old(queue) + [Cells(Parcel(PutHeader(format, h.(len := len)) + payload,
                                                  if allowFdpass then old(msg.fd) else NO_FD))]
    {
      var len := msg.Size();
      if 0 <= msg.fd { len := len + FD_MARK; }
      PatchLen(format, h, len, payload);
      var ok := msg.Set(4, PutH32(format, len));
      Enqueue(msg);
    }

    /** imsg_create and imsg_add: the whole message, before its length is known. */
    method Draft(kind: u32, id: u32, pid: u32, data: seq<byte>) returns (wbuf: Ibuf?, garbage: u32)
      requires format.Valid()
      ensures wbuf == null <==> format.maxsize < |data| + HEADER_SIZE
      ensures wbuf != null ==>
                && fresh(wbuf) && wbuf.Valid() && wbuf.rpos == 0 && wbuf.fd == NO_FD
                && wbuf.Data() == PutHeader(format, Header(kind, garbage, id, if pid == 0 then ownPid else pid)) + data
    {
      wbuf, garbage := Create(kind, id, pid, |data|);
      if wbuf == null { return; }
      if |data| != 0 {
        var ok := wbuf.Add(data);
        assert ok;
      } else {
        assert wbuf.Data() + data == wbuf.Data();
      }
    }

    /** imsg_compose: the message is queued behind the others, or refused for its size. */
    method Compose(kind: u32, id: u32, pid: u32, fd: int, data: seq<byte>) returns (rv: int)
      requires WriteValid()
      modifies this`bufs, this`queued, this`queue
      ensures WriteValid() && forall b :: b in bufs ==> b in old(bufs) || fresh(b)
      ensures var m := Msg(kind, id, if pid == 0 then ownPid else pid, data);
              if Fits(format, m) then
                rv == 1 && queue == old(queue)
                  + [Cells(Parcel(Encode(format, m, 0 <= fd), if allowFdpass && 0 <= fd then fd else NO_FD))]
              else
                rv == -1 && queue == old(queue) && bufs == old(bufs)
    {
      var wbuf, garbage := Draft(kind, id, pid, data);
      if wbuf == null { return -1; }
      var closed := wbuf.FdSet(fd);
      CloseMsg(wbuf, Header(kind, garbage, id, if pid == 0 then ownPid else pid), data);
      rv := 1;
    }
  }

  /** The queue without the descriptor on its first cell. */
  function Cleared(queue: seq<seq<Cell>>): seq<seq<Cell>>
    requires queue != [] && queue[0] != []
  {
    [[queue[0][0].(fd := NO_FD)] + queue[0][1..]] + queue[1..]
  }

  /** Clearing the first descriptor does not change what is left once a byte has gone. */
  lemma {:induction false} DrainCleared(queue: seq<seq<Cell>>, n: nat)
    requires queue != [] && queue[0] != [] && 0 < n <= |Flatten(queue)|
    requires NoFds(Flatten(queue)[..n][1..])
    ensures |Flatten(Cleared(queue))| == |Flatten(queue)|
    ensures ImsgChannel.Drain(Cleared(queue), n) == ImsgChannel.Drain(queue, n)
    ensures NoFds(Flatten(Cleared(queue))[..n])
  {
    var q, c := Flatten(queue), Flatten(Cleared(queue));
    assert Cleared(queue)[1..] == queue[1..];
    assert c == [q[0].(fd := NO_FD)] + q[1..];
    assert q[..n][1..] == c[..n][1..];
    assert forall i :: 0 < i < n ==> c[..n][i] == c[..n][1..][i - 1];
    if n < |queue[0]| {
      assert Cleared(queue)[0][n..] == queue[0][n..];
    }
  }

  /** If the first bytes to go carry no descriptor, the first buffer holds none. */
  lemma {:induction false} FirstFd(passing: bool, buf: Ibuf, queue: seq<seq<Cell>>, n: nat)
    requires queue != [] && Queued(buf, queue[0], passing) && 0 < n <= |Flatten(queue)|
    requires passing ==> NoFds(Flatten(queue)[..n])
    ensures passing ==> buf.fd == NO_FD
    ensures buf.Size() == |queue[0]| && Flatten(queue) == queue[0] + Flatten(queue[1..])
  {
    assert Flatten(queue)[..n][0] == queue[0][0];
  }

  lemma {:induction false} NoFdsAfter(a: seq<Cell>, b: seq<Cell>, n: nat)
    requires |a| <= n <= |a + b|
    ensures NoFds((a + b)[..n]) ==> NoFds(b[..n - |a|])
  {
    var s, t := (a + b)[..n], b[..n - |a|];
    assert forall i :: 0 <= i < |t| ==> t[i] == s[|a| + i];
  }

  /** What one turn does to the half-built message, the input, the descriptor and the queue. */
  ghost predicate Turned(c: Conf, p: Option<Frame>, input: seq<byte>, fd: int, frames: seq<Frame>,
                         p': Option<Frame>, input': seq<byte>, fd': int, frames': seq<Frame>, ok: bool, more: bool)
    requires c.Valid() && (p.Some? ==> |p.value.bytes| < p.value.len)
  {
    if p.None? && |input| < c.hdrsize then
      ok && !more && p' == None && input' == input && fd' == fd && frames' == frames
    else if p.None? && c.Header(input).None? then
      !ok && !more && p' == None && input' == input && fd' == fd && frames' == frames
    else
      var m := if p.Some? then p.value else Begin(c.Header(input).value, fd);
      var need := m.len - |m.bytes|;
      && ok && fd' == (if p.Some? then fd else Unclaimed(c.Header(input).value, fd))
      && (if |input| < need then
            !more && p' == Some(m.(bytes := m.bytes + input)) && input' == [] && frames' == frames
          else
            && p' == None && input' == input[need..]
            && frames' == frames + [m.(bytes := m.bytes + input[..need])]
            && more == (input' != []))
  }

  /** A turn leaves the rest of the run to do, and stops only when nothing is left of it. */
  lemma {:induction false} TurnResumes(c: Conf, p: Option<Frame>, input: seq<byte>, fd: int, frames: seq<Frame>,
                    p': Option<Frame>, input': seq<byte>, fd': int, frames': seq<Frame>, ok: bool, more: bool)
    requires c.Valid() && (p.Some? ==> |p.value.bytes| < p.value.len)
    requires Turned(c, p, input, fd, frames, p', input', fd', frames', ok, more)
    requires p'.Some? ==> |p'.value.bytes| < p'.value.len
    ensures var o := Consume(c, p, input, fd);
            var o' := Consume(c, p', input', fd');
            && Resumes(o, frames, frames', o')
            && (!more ==> o' == Outcome([], p', input', fd', !ok))
            && (more ==> |input'| < |input|)
  {
    var o := Consume(c, p, input, fd);
    if p'.Some? {
      assert p'.value.bytes + [] == p'.value.bytes;
    }
  }

  /** The whole run o is what has been delivered since it started, followed by the run from here. */
  ghost predicate Resumes(o: Outcome, before: seq<Frame>, now: seq<Frame>, rest: Outcome) {
    && now + rest.frames == before + o.frames
    && rest.(frames := []) == o.(frames := [])
  }

  /** As many of the unread bytes of rb as fit move to m. */
  method Copy(rb: Ibuf, m: Ibuf)
    requires rb.Valid() && m.Valid() && rb != m && m.fd != ON_STACK && m.rpos == 0 && m.max == |m.buf| <= SIZE_MAX
    modifies rb`rpos, m
    ensures rb.Valid() && m.Valid() && m.fd == old(m.fd) && m.rpos == 0 && m.max == |m.buf| == old(m.max)
    ensures var sz := if old(m.Left()) <= old(rb.Size()) then old(m.Left()) else old(rb.Size());
            m.buf[..m.wpos] == old(m.buf[..m.wpos]) + old(rb.Data())[..sz] && rb.Data() == old(rb.Data())[sz..]
  {
    var sz := if m.Left() <= rb.Size() then m.Left() else rb.Size();
    var got, msg := rb.GetIbuf(sz);
    var added := m.Add(msg.Data());
    assert got && added;
  }
}
