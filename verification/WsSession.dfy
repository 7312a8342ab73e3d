/** A WebSocket connection over time: frames of a client that arrive in any fragments, and the answers. */
module WsSession {
  import opened Common
  import opened BufIo
  import opened WebSocket

  /** A frame as a client sends it: masked, and short enough to be supported. */
  datatype ClientFrame = ClientFrame(first: byte, key: seq<byte>, payload: seq<byte>) {
    predicate Valid() {
      |key| == 4 && |payload| <= 125
    }

    function Bytes(): (s: seq<byte>)
      requires Valid()
      ensures |s| == 6 + |payload|
    {
      [first, 128 + |payload|] + key + Masked(key, payload)
    }

    /** What the reader has to make of it. */
    function Meaning(): Outcome {
      Got(TypeOf(first % 16), payload)
    }
  }

  ghost predicate AllValid(frames: seq<ClientFrame>) {
    forall i :: 0 <= i < |frames| ==> frames[i].Valid()
  }

  function Wire(frames: seq<ClientFrame>): seq<byte>
    requires AllValid(frames)
  {
    if frames == [] then [] else frames[0].Bytes() + Wire(frames[1..])
  }

  /** Such a frame is one of RFC 6455. */
  lemma {:induction false} ClientFrameIsRead(f: ClientFrame, rest: seq<byte>)
    requires f.Valid()
    ensures Parse(f.Bytes() + rest) ==
            Some((Frame(f.first >= 128, f.first / 16 % 8, f.first % 16, Some(f.key), f.payload), rest))
  {
    var s := f.Bytes() + rest;
    MaskedTwice(f.key, f.payload);
    var body := s[2..];
    assert body[..4] == f.key && body[4..4 + |f.payload|] == Masked(f.key, f.payload);
    assert body[4 + |f.payload|..] == rest;
  }

  /** A whole frame at the front is taken, with its payload unmasked. */
  lemma {:induction false} TakeWhole(f: ClientFrame, rest: seq<byte>)
    requires f.Valid()
    ensures Take(f.Bytes() + rest, true) == (f.Meaning(), rest)
  {
    var s := f.Bytes() + rest;
    LittleUnmasks(f.key, f.payload);
    assert s[2..6] == f.key && s[6..6 + |f.payload|] == Masked(f.key, f.payload) && s[6 + |f.payload|..] == rest;
  }

  /** A part of one is left alone. */
  lemma {:induction false} TakePart(f: ClientFrame, n: nat)
    requires f.Valid() && n < |f.Bytes()|
    ensures Take(f.Bytes()[..n], true) == (Again, f.Bytes()[..n])
  {
  }

  // ---------- runs ----------

  /** Bytes arrive, or one frame is read and drained. */
  datatype Step = Arrive(piece: seq<byte>) | Handle

  function Arrived(steps: seq<Step>): seq<byte> {
    if steps == [] then []
    else (if steps[0].Arrive? then steps[0].piece else []) + Arrived(steps[1..])
  }

  /** A close, or a frame that is refused, is the last one looked at. */
  predicate IsLast(outcome: Outcome) {
    outcome == Invalid || outcome == TooBig || (outcome.Got? && outcome.kind == 8)
  }

  /** What a run has read, what is left in the buffer, and whether the connection is done. */
  datatype Progress = Progress(got: seq<Outcome>, buf: seq<byte>, done: bool)

  function Advance(p: Progress, step: Step, little: bool): Progress {
    match step
    case Arrive(piece) => p.(buf := p.buf + piece)
    case Handle =>
      if p.done then p
      else
        var (outcome, left) := Take(p.buf, little);
        Progress(if outcome == Again then p.got else p.got + [outcome], left, IsLast(outcome))
  }

  function Run(p: Progress, steps: seq<Step>, little: bool): Progress
    decreases |steps|
  {
    if steps == [] then p else Run(Advance(p, steps[0], little), steps[1..], little)
  }

  const FRESH := Progress([], [], false)

  function Meanings(frames: seq<ClientFrame>): (r: seq<Outcome>)
    ensures |r| == |frames|
  {
    seq(|frames|, i requires 0 <= i < |frames| => frames[i].Meaning())
  }

  /**
   Handling a buffer that holds a prefix of the frames: the first one is taken if it
   is there, else nothing happens.
   */
  lemma {:induction false} HandleStep(frames: seq<ClientFrame>, buf: seq<byte>, later: seq<byte>)
    requires AllValid(frames) && buf + later == Wire(frames)
    ensures Take(buf, true) == (Again, buf)
         || (frames != [] && Take(buf, true).0 == frames[0].Meaning() && Take(buf, true).1 + later == Wire(frames[1..]))
  {
    if frames != [] {
      var f := frames[0].Bytes();
      if |buf| < |f| {
        assert buf == f[..|buf|] by { assert buf == (buf + later)[..|buf|]; }
        TakePart(frames[0], |buf|);
      } else {
        var left := buf[|f|..];
        assert buf == f + left by { assert buf[..|f|] == (buf + later)[..|f|]; }
        TakeWhole(frames[0], left);
        assert left + later == (buf + later)[|f|..] == Wire(frames[1..]);
      }
    }
  }

  /** What has been read is a prefix of what was sent, and the rest is in the buffer or to come. */
  ghost predicate InOrder(frames: seq<ClientFrame>, p: Progress, later: seq<byte>, k: nat)
    requires AllValid(frames)
  {
    k <= |frames| && p.got == Meanings(frames[..k]) && p.buf + later == Wire(frames[k..])
  }

  lemma {:induction false} ArriveInOrder(frames: seq<ClientFrame>, p: Progress, piece: seq<byte>, later: seq<byte>,
      k: nat)
    requires AllValid(frames) && InOrder(frames, p, piece + later, k)
    ensures InOrder(frames, p.(buf := p.buf + piece), later, k)
  {
    AppendAssoc(p.buf, piece, later);
  }

  lemma {:induction false} HandleInOrder(frames: seq<ClientFrame>, p: Progress, later: seq<byte>, k: nat)
    requires AllValid(frames) && InOrder(frames, p, later, k)
    ensures var p' := Advance(p, Handle, true); InOrder(frames, p', later, k) || InOrder(frames, p', later, k + 1)
  {
    HandleStep(frames[k..], p.buf, later);
    if !p.done && Take(p.buf, true) != (Again, p.buf) {
      TakeOneMore(frames, k);
      assert frames[k..][1..] == frames[k + 1..] && frames[k..][0] == frames[k];
      assert Meanings(frames[..k + 1]) == Meanings(frames[..k]) + [frames[k].Meaning()];
    }
  }

  /** However the bytes arrive and whenever frames are handled. */
  lemma {:induction false} ReadInOrder(frames: seq<ClientFrame>, p: Progress, steps: seq<Step>, later: seq<byte>,
      k: nat)
      returns (n: nat)
    requires AllValid(frames) && InOrder(frames, p, Arrived(steps) + later, k)
    ensures InOrder(frames, Run(p, steps, true), later, n)
    decreases |steps|
  {
    if steps == [] {
      n := k;
      assert [] + later == later;
    } else if steps[0].Arrive? {
      AppendAssoc(steps[0].piece, Arrived(steps[1..]), later);
      ArriveInOrder(frames, p, steps[0].piece, Arrived(steps[1..]) + later, k);
      n := ReadInOrder(frames, Advance(p, steps[0], true), steps[1..], later, k);
    } else {
      assert [] + Arrived(steps[1..]) == Arrived(steps[1..]);
      HandleInOrder(frames, p, Arrived(steps[1..]) + later, k);
      var p' := Advance(p, Handle, true);
      n := if InOrder(frames, p', Arrived(steps[1..]) + later, k) then k else k + 1;
      n := ReadInOrder(frames, p', steps[1..], later, n);
    }
  }

  lemma {:induction false} WireEmpty(frames: seq<ClientFrame>)
    requires AllValid(frames) && Wire(frames) == []
    ensures frames == []
  {
  }

  /**
   Every fragmentation and every interleaving of reading: as long as bytes of
   these frames arrive, the payloads read are those of the first frames, in
   order; and of all of them once all bytes have arrived and the buffer is empty.
   */
  lemma {:induction false} AllFramesRead(frames: seq<ClientFrame>, steps: seq<Step>, later: seq<byte>)
    requires AllValid(frames) && Arrived(steps) + later == Wire(frames)
    ensures var p := Run(FRESH, steps, true);
            && p.got <= Meanings(frames)
            && (p.buf == [] && later == [] ==> p.got == Meanings(frames))
  {
    assert Meanings(frames[..0]) == [] && frames[0..] == frames;
    assert [] + (Arrived(steps) + later) == Wire(frames);
    var k := ReadInOrder(frames, FRESH, steps, later, 0);
    assert Meanings(frames[..k]) == Meanings(frames)[..k];
    var p := Run(FRESH, steps, true);
    if p.buf == [] && later == [] {
      WireEmpty(frames[k..]);
    }
  }

  function Handles(steps: seq<Step>): nat {
    if steps == [] then 0 else (if steps[0].Handle? then 1 else 0) + Handles(steps[1..])
  }

  /** Each time the route is called it reads one frame at most. */
  lemma {:induction false} ReadAtMostHandles(p: Progress, steps: seq<Step>, little: bool)
    ensures |Run(p, steps, little).got| <= |p.got| + Handles(steps)
    decreases |steps|
  {
    if steps != [] { ReadAtMostHandles(Advance(p, steps[0], little), steps[1..], little); }
  }

  /** The events of client_ev on readable data: the bytes of one read, then one call of the route. */
  function Events(pieces: seq<seq<byte>>): seq<Step> {
    if pieces == [] then [] else [Arrive(pieces[0]), Handle] + Events(pieces[1..])
  }

  lemma {:induction false} OneHandleEach(pieces: seq<seq<byte>>)
    ensures Handles(Events(pieces)) == |pieces| && Arrived(Events(pieces)) == Flatten(pieces)
  {
    if pieces != [] {
      var rest := Events(pieces[1..]);
      var steps := [Arrive(pieces[0]), Handle] + rest;
      OneHandleEach(pieces[1..]);
      assert steps[1..] == [Handle] + rest && steps[1..][1..] == rest;
      assert [] + Arrived(rest) == Arrived(rest);
    }
  }

  /**
   So frames that arrive in fewer reads than there are frames wait: of those that
   have arrived in full, at least the difference is still in the buffer.
   */
  lemma {:induction false} FramesWait(frames: seq<ClientFrame>, pieces: seq<seq<byte>>)
    requires AllValid(frames) && Flatten(pieces) == Wire(frames)
    ensures var p := Run(FRESH, Events(pieces), true);
            |p.got| <= |pieces| && |p.got| <= |frames| && p.buf == Wire(frames[|p.got|..])
  {
    OneHandleEach(pieces);
    ReadAtMostHandles(FRESH, Events(pieces), true);
    assert Meanings(frames[..0]) == [] && frames[0..] == frames;
    assert [] + (Arrived(Events(pieces)) + []) == Wire(frames);
    var n := ReadInOrder(frames, FRESH, Events(pieces), [], 0);
    var p := Run(FRESH, Events(pieces), true);
    assert |Meanings(frames[..n])| == n && p.buf + [] == p.buf;
  }

  /** Two frames in one read: the second stays in the buffer until something else happens on the connection. */
  lemma {:induction false} SecondStays(a: ClientFrame, b: ClientFrame)
    requires a.Valid() && b.Valid()
    ensures var p := Run(FRESH, Events([Wire([a, b])]), true); p.got == [a.Meaning()] && p.buf == b.Bytes()
  {
    var s := Wire([a, b]);
    assert [a, b][1..] == [b] && [b][1..] == [] && Wire([b]) == b.Bytes() + [] == b.Bytes();
    assert s == a.Bytes() + b.Bytes() && FRESH.buf + s == s;
    TakeWhole(a, b.Bytes());
    var pieces, steps := [s], Events([s]);
    assert Events(pieces[1..]) == [] && steps == [Arrive(s), Handle];
    assert steps[1..] == [Handle] && steps[1..][1..] == [];
    var p := Advance(FRESH, Arrive(s), true);
    assert Run(FRESH, steps, true) == Run(p, [Handle], true) == Run(Advance(p, Handle, true), [], true);
    assert FRESH.got + [a.Meaning()] == [a.Meaning()];
  }

  /** With everything arrived, handling a buffer that is not empty always reads a frame. */
  lemma {:induction false} NextIsRead(frames: seq<ClientFrame>)
    requires AllValid(frames) && frames != []
    ensures Take(Wire(frames), true) == (frames[0].Meaning(), Wire(frames[1..]))
  {
    TakeWhole(frames[0], Wire(frames[1..]));
  }

  // ---------- the connection ----------

  /** The answers to the pings among them. */
  function Answers(got: seq<Outcome>): seq<byte> {
    if got == [] then []
    else
      var last := got[|got| - 1];
      Answers(got[..|got| - 1]) + AnswerTo(last)
  }

  function AnswerTo(outcome: Outcome): seq<byte> {
    if outcome.Got? && outcome.kind == 9 && |outcome.payload| <= LIMIT then Composed(10, outcome.payload) else []
  }

  lemma {:induction false} AnswersSnoc(stream: seq<byte>, got: seq<Outcome>, outcome: Outcome)
    ensures stream + Answers(got + [outcome]) == stream + Answers(got) + AnswerTo(outcome)
  {
    assert (got + [outcome])[..|got|] == got;
    AppendAssoc(stream, Answers(got), AnswerTo(outcome));
  }

  /** Reading a frame and draining its payload is taking it. */
  lemma {:induction false} OpenedParts(s: seq<byte>, little: bool)
    requires StatusOf(s) == Read
    ensures var n := s[1] % 128;
            Take(s, little) == (Got(TypeOf(s[0] % 16), Opened(s, little)[..n]), Opened(s, little)[n..])
  {
  }

  /** A pong of a short payload. */
  lemma {:induction false} PongBytes(payload: seq<byte>)
    requires |payload| <= 125
    ensures Composed(10, payload) == [0x8A, |payload|] + payload
  {
  }

  /** What a frame means for the connection, by its opcode on the wire. */
  lemma {:induction false} MeaningByOpcode(f: ClientFrame)
    requires f.Valid()
    ensures var op, o := f.first % 16, f.Meaning();
            && o.Got? && o.payload == f.payload
            && o.kind == (if op == 0 || op == 1 || op == 2 || op == 8 || op == 9 then op else -1)
            && (IsLast(o) <==> op == 8)
            && AnswerTo(o) == if op == 9 then [0x8A, |f.payload|] + f.payload else []
  {
    PongBytes(f.payload);
  }

  lemma {:induction false} OneAnswer(o: Outcome)
    ensures Answers([o]) == AnswerTo(o)
  {
    assert [o][..0] == [] && [] + AnswerTo(o) == AnswerTo(o);
  }

  /**
   What a connection does about a frame, by the opcode of section 5.2 of RFC 6455 on the
   wire: a ping (9) is answered with a pong (10) of the same payload, a close (8) ends the
   connection, text (1), binary (2) and continuation (0) are read, and nothing is answered.
   */
  lemma {:induction false} AnswerByOpcode(f: ClientFrame)
    requires f.Valid()
    ensures var op, p := f.first % 16, Advance(Progress([], f.Bytes(), false), Handle, true);
            && p.buf == [] && |p.got| == 1 && p.got[0].Got? && p.got[0].payload == f.payload
            && p.got[0].kind == (if op == 0 || op == 1 || op == 2 || op == 8 || op == 9 then op else -1)
            && (p.done <==> op == 8)
            && Answers(p.got) == if op == 9 then [0x8A, |f.payload|] + f.payload else []
  {
    TakeWhole(f, []);
    MeaningByOpcode(f);
    OneAnswer(f.Meaning());
    assert f.Bytes() + [] == f.Bytes() && [] + [f.Meaning()] == [f.Meaning()];
  }

  /** A frame without a mask or with a long length ends the connection: nothing is drained, nothing answered. */
  lemma {:induction false} RefusedEnds(s: seq<byte>, got: seq<Outcome>, little: bool)
    requires 2 <= |s| && (s[1] < 0x80 || s[1] % 0x80 >= 126)
    ensures var p, why := Advance(Progress(got, s, false), Handle, little), if s[1] < 0x80 then Invalid else TooBig;
            p == Progress(got + [why], s, true) && Answers(p.got) == Answers(got)
  {
    var why := if s[1] < 0x80 then Invalid else TooBig;
    assert (got + [why])[..|got|] == got && Answers(got) + [] == Answers(got);
  }

  class Connection {
    const little: bool // the byte order of the machine
    const bio: Bufio   // with the write buffer
    const rbuf: Buf    // the read buffer
    var done: bool

    ghost predicate Valid()
      reads this, bio, bio.wbuf, rbuf
    {
      bio.Valid() && !bio.chunked && rbuf.Valid() && rbuf != bio.wbuf && rbuf.mem != bio.wbuf.mem
    }

    constructor (little: bool)
      ensures Valid() && !done && rbuf.Contents() == [] && bio.Stream() == [] && this.little == little
    {
      this.little := little;
      bio := new Bufio();
      rbuf := new Buf();
      done := false;
    }

    /** The bytes of a read are appended to the buffer. */
    method Receive(piece: seq<byte>)
      requires Valid()
      modifies rbuf, rbuf.mem
      ensures Valid() && rbuf.Contents() == old(rbuf.Contents()) + piece
      ensures (rbuf.mem == old(rbuf.mem) || fresh(rbuf.mem))
    {
      rbuf.Append(piece);
    }

    /**
     route_handle_ws: one frame is read and drained, a ping is answered with its
     own payload, and a close or a malformed frame ends the connection.
     */
    method HandleFrame() returns (outcome: Outcome)
      requires Valid()
      modifies this`done, rbuf, rbuf.mem, bio.wbuf, bio.wbuf.mem
      ensures Valid() && rbuf.mem == old(rbuf.mem) && (bio.wbuf.mem == old(bio.wbuf.mem) || fresh(bio.wbuf.mem))
      ensures (outcome, rbuf.Contents()) == Take(old(rbuf.Contents()), little)
      ensures bio.Stream() == old(bio.Stream()) + AnswerTo(outcome)
      ensures outcome.Got? ==> |outcome.payload| <= 125
      ensures done == (old(done) || IsLast(outcome))
    {
      ghost var s := rbuf.Contents();
      var status, kind, len := ReadFrame(rbuf, little);
      if status != Read {
        if status != WouldBlock { done := true; }
        return match status case WouldBlock => Again case NotMasked => Invalid case _ => TooBig;
      }
      OpenedParts(s, little);
      var payload := rbuf.mem[..len];
      assert payload == rbuf.Contents()[..len];
      Answer(kind, payload);
      DrainRead(len);
      return Got(kind, payload);
    }

    /** The switch on the type of a frame. */
    method Answer(kind: int, payload: seq<byte>)
      requires Valid() && |payload| <= 125
      modifies this`done, bio.wbuf, bio.wbuf.mem
      ensures Valid() && (bio.wbuf.mem == old(bio.wbuf.mem) || fresh(bio.wbuf.mem))
      ensures bio.Stream() == old(bio.Stream()) + if kind == 9 then Composed(10, payload) else []
      ensures done == (old(done) || kind == 8)
    {
      if kind == 9 {
        var ok := Compose(bio, 10, payload);
      } else if kind == 8 {
        done := true;
      }
    }

    method DrainRead(len: nat)
      requires Valid() && len <= rbuf.len
      modifies rbuf`len, rbuf`cur, rbuf.mem
      ensures Valid() && rbuf.mem == old(rbuf.mem) && rbuf.Contents() == old(rbuf.Contents())[len..]
    {
      rbuf.Drain(len);
    }

    /** The part of client_ev about the read buffer, event after event: bytes arrive, and the route handles a frame. */
    method Serve(steps: seq<Step>) returns (got: seq<Outcome>)
      requires Valid() && !done && rbuf.Contents() == []
      modifies this`done, rbuf, rbuf.mem, bio.wbuf, bio.wbuf.mem
      ensures Valid() && Progress(got, rbuf.Contents(), done) == Run(FRESH, steps, little)
      ensures bio.Stream() == old(bio.Stream()) + Answers(got)
    {
      got := [];
      assert bio.Stream() + [] == bio.Stream();
      for i := 0 to |steps|
        invariant Valid() && (rbuf.mem == old(rbuf.mem) || fresh(rbuf.mem))
        invariant bio.wbuf.mem == old(bio.wbuf.mem) || fresh(bio.wbuf.mem)
        invariant Run(Progress(got, rbuf.Contents(), done), steps[i..], little) == Run(FRESH, steps, little)
        invariant bio.Stream() == old(bio.Stream()) + Answers(got)
      {
        RunOne(Progress(got, rbuf.Contents(), done), steps, i, little);
        if steps[i].Arrive? {
          Receive(steps[i].piece);
        } else if !done {
          var outcome := HandleFrame();
          if outcome != Again {
            AnswersSnoc(old(bio.Stream()), got, outcome);
            got := got + [outcome];
          }
        }
      }
    }
  }

  lemma {:induction false} RunOne(p: Progress, steps: seq<Step>, i: nat, little: bool)
    requires i < |steps|
    ensures Run(p, steps[i..], little) == Run(Advance(p, steps[i], little), steps[i + 1..], little)
  {
    assert steps[i..][1..] == steps[i + 1..];
  }

  /** A client's frames over a connection object: what it reads is what was sent, and every ping is answered. */
  method ServeClient(c: Connection, ghost frames: seq<ClientFrame>, steps: seq<Step>, ghost later: seq<byte>)
      returns (got: seq<Outcome>)
    requires c.Valid() && !c.done && c.rbuf.Contents() == [] && c.bio.Stream() == [] && c.little
    requires AllValid(frames) && Arrived(steps) + later == Wire(frames)
    modifies c`done, c.rbuf, c.rbuf.mem, c.bio.wbuf, c.bio.wbuf.mem
    ensures c.Valid() && got <= Meanings(frames) && c.bio.Stream() == Answers(got)
    ensures later == [] && c.rbuf.Contents() == [] ==> got == Meanings(frames)
  {
    got := c.Serve(steps);
    AllFramesRead(frames, steps, later);
    assert [] + Answers(got) == Answers(got);
  }
}
