/**
 The reading half of an imsg channel on values: what one read does to the
 half-built message, and the one-shot parser it has to agree with.
 */
module ImsgReader {
  import opened Common

  const NO_FD := -1

  /** What a header says: the length of the whole message, and whether a descriptor belongs to it. */
  datatype Announced = Announced(len: nat, marked: bool)

  /** The header size and header parser handed to msgbuf_new_reader. */
  datatype Conf = Conf(hdrsize: nat, readhdr: seq<byte> -> Option<Announced>) {
    /** Headers are part of the message they announce. */
    ghost predicate Valid() {
      && 0 < hdrsize <= IBUF_READ_SIZE / 2
      && forall h: seq<byte> :: readhdr(h).Some? ==> hdrsize <= readhdr(h).value.len
    }

    function Header(s: seq<byte>): Option<Announced>
      requires hdrsize <= |s|
    {
      readhdr(s[..hdrsize])
    }

    predicate Marked(s: seq<byte>) {
      hdrsize <= |s| && Header(s).Some? && Header(s).value.marked
    }
  }

  const IBUF_READ_SIZE: nat := 65535

  /** A header depends on the first bytes only. */
  lemma {:induction false} HeaderPrefix(c: Conf, s: seq<byte>, t: seq<byte>)
    requires c.hdrsize <= |s| && s <= t
    ensures c.Header(t) == c.Header(s)
  {
    assert t[..c.hdrsize] == s[..c.hdrsize];
  }

  /** A message being collected or collected: its announced length, its bytes so far, its descriptor. */
  datatype Frame = Frame(len: nat, bytes: seq<byte>, fd: int)

  /** What processing one read leaves behind; fd is the descriptor no header claimed. */
  datatype Outcome = Outcome(frames: seq<Frame>, partial: Option<Frame>, residue: seq<byte>, fd: int, failed: bool)

  ghost predicate OkPartial(c: Conf, partial: Option<Frame>) {
    partial.Some? ==>
      && c.hdrsize <= |partial.value.bytes| < partial.value.len
      && c.Header(partial.value.bytes).Some?
      && c.Header(partial.value.bytes).value.len == partial.value.len
  }

  /** The state ibuf_read_process may be in: a half-built message may still lack its header bytes. */
  ghost predicate OkStart(c: Conf, partial: Option<Frame>, input: seq<byte>) {
    partial.Some? ==>
      && |partial.value.bytes| < partial.value.len
      && c.hdrsize <= |partial.value.bytes + input|
      && c.Header(partial.value.bytes + input).Some?
      && c.Header(partial.value.bytes + input).value.len == partial.value.len
  }

  /** The frame a header starts: it takes the descriptor when it is marked. */
  function Begin(h: Announced, fd: int): Frame {
    Frame(h.len, [], if h.marked then fd else NO_FD)
  }

  function Unclaimed(h: Announced, fd: int): int {
    if h.marked then NO_FD else fd
  }

  /** One run of ibuf_read_process over the buffered bytes, with the descriptor that came along. */
  function Consume(c: Conf, partial: Option<Frame>, input: seq<byte>, fd: int): Outcome
    requires c.Valid()
    requires partial.Some? ==> |partial.value.bytes| < partial.value.len
    decreases |input|, if partial.None? then 1 else 0
  {
    match partial
    case None =>
      if |input| < c.hdrsize then Outcome([], None, input, fd, false)
      else if c.Header(input).None? then Outcome([], None, input, fd, true)
      else
        var h := c.Header(input).value;
        Consume(c, Some(Begin(h, fd)), input, Unclaimed(h, fd))
    case Some(p) =>
      var need := p.len - |p.bytes|;
      if |input| < need then Outcome([], Some(p.(bytes := p.bytes + input)), [], fd, false)
      else
        var rest := Consume(c, None, input[need..], fd);
        rest.(frames := [p.(bytes := p.bytes + input[..need])] + rest.frames)
  }

  /** The one-shot parser: complete frames, then what is left, and whether a header was bad. */
  datatype Batch = Batch(frames: seq<seq<byte>>, rest: seq<byte>, failed: bool)

  function Parse(c: Conf, s: seq<byte>): (b: Batch)
    requires c.Valid()
  {
    if |s| < c.hdrsize then Batch([], s, false)
    else if c.Header(s).None? then Batch([], s, true)
    else
      var n := c.Header(s).value.len;
      if |s| < n then Batch([], s, false)
      else
        var b := Parse(c, s[n..]);
        b.(frames := [s[..n]] + b.frames)
  }

  function Raw(frames: seq<Frame>): (r: seq<seq<byte>>)
    ensures |r| == |frames|
    ensures forall i :: 0 <= i < |r| ==> r[i] == frames[i].bytes
  {
    seq(|frames|, i requires 0 <= i < |frames| => frames[i].bytes)
  }

  function Held(partial: Option<Frame>): seq<byte> {
    if partial.None? then [] else partial.value.bytes
  }

  lemma {:induction false} RawAppend(a: seq<Frame>, b: seq<Frame>)
    ensures Raw(a + b) == Raw(a) + Raw(b)
  {
  }

  /** One read agrees with the one-shot parser on the held bytes followed by the buffered ones. */
  lemma {:induction false} ConsumeIsParse(c: Conf, partial: Option<Frame>, input: seq<byte>, fd: int)
    requires c.Valid()
    requires OkStart(c, partial, input)
    ensures var o := Consume(c, partial, input, fd);
            var b := Parse(c, Held(partial) + input);
            && Raw(o.frames) == b.frames
            && o.failed == b.failed
            && Held(o.partial) + o.residue == b.rest
            && OkPartial(c, o.partial)
            && (o.partial.Some? ==> o.residue == [])
            && (!o.failed ==> |o.residue| < c.hdrsize)
    decreases |input|, if partial.None? then 1 else 0
  {
    match partial
    case None =>
      assert Held(partial) + input == input;
      if c.hdrsize <= |input| && c.Header(input).Some? {
        var h := c.Header(input).value;
        assert [] + input == input;
        ConsumeIsParse(c, Some(Begin(h, fd)), input, Unclaimed(h, fd));
      }
    case Some(p) =>
      var s := p.bytes + input;
      var need := p.len - |p.bytes|;
      var o := Consume(c, partial, input, fd);
      if |input| < need {
        assert Held(o.partial) + o.residue == s;
      } else {
        ConsumeIsParse(c, None, input[need..], fd);
        assert Held(None) + input[need..] == input[need..];
        ConsumeOneMore(c, p, input, fd);
      }
  }

  /** Completing the message at hand: both sides have one frame more, and go on alike. */
  lemma {:induction false} ConsumeOneMore(c: Conf, p: Frame, input: seq<byte>, fd: int)
    requires c.Valid() && OkStart(c, Some(p), input) && p.len <= |p.bytes| + |input|
    ensures var need := p.len - |p.bytes|;
            var o, rest := Consume(c, Some(p), input, fd), Consume(c, None, input[need..], fd);
            var b, tail := Parse(c, p.bytes + input), Parse(c, input[need..]);
            && Raw(o.frames) == [p.bytes + input[..need]] + Raw(rest.frames) && o == rest.(frames := o.frames)
            && b == tail.(frames := [p.bytes + input[..need]] + tail.frames)
  {
    var need := p.len - |p.bytes|;
    Completes(p.bytes, input, need);
    RawAppend([p.(bytes := p.bytes + input[..need])], Consume(c, None, input[need..], fd).frames);
  }

  lemma {:induction false} Completes(a: seq<byte>, b: seq<byte>, need: nat)
    requires need <= |b|
    ensures (a + b)[..|a| + need] == a + b[..need] && (a + b)[|a| + need..] == b[need..]
  {
  }

  /** Parsing one more frame's worth of input puts that frame in front. */
  lemma {:induction false} ParseFrame(c: Conf, frame: seq<byte>, s: seq<byte>)
    requires c.Valid()
    requires c.hdrsize <= |frame| && c.Header(frame).Some? && c.Header(frame).value.len == |frame|
    ensures Parse(c, frame + s) == Batch([frame] + Parse(c, s).frames, Parse(c, s).rest, Parse(c, s).failed)
  {
    HeaderPrefix(c, frame, frame + s);
    assert (frame + s)[..|frame|] == frame;
    assert (frame + s)[|frame|..] == s;
  }

  function Then(first: Batch, second: Batch): Batch {
    Batch(first.frames + second.frames, second.rest, second.failed)
  }

  /** Parsing a + b: what parsing a gave, then what parsing the rest of a with b gives. */
  function ParseOn(c: Conf, pa: Batch, b: seq<byte>): Batch
    requires c.Valid()
  {
    if pa.failed then Batch(pa.frames, pa.rest + b, true) else Then(pa, Parse(c, pa.rest + b))
  }

  lemma {:induction false} ThenFrame(frame: seq<byte>, pa: Batch, pb: Batch)
    ensures Then(Batch([frame] + pa.frames, pa.rest, pa.failed), pb)
         == Batch([frame] + Then(pa, pb).frames, pb.rest, pb.failed)
  {
    assert [frame] + pa.frames + pb.frames == [frame] + (pa.frames + pb.frames);
  }

  /** Parsing more input continues where parsing the first part stopped. */
  lemma {:induction false} ParseSplit(c: Conf, a: seq<byte>, b: seq<byte>)
    requires c.Valid()
    ensures Parse(c, a + b) == ParseOn(c, Parse(c, a), b)
    decreases |a|
  {
    if |a| < c.hdrsize || (c.Header(a).Some? && |a| < c.Header(a).value.len) {
      assert Parse(c, a) == Batch([], a, false);
      assert [] + Parse(c, a + b).frames == Parse(c, a + b).frames;
    } else if c.Header(a).None? {
      HeaderPrefix(c, a, a + b);
    } else {
      ParseSplitFrame(c, a, b);
    }
  }

  lemma {:induction false} ParseSplitFrame(c: Conf, a: seq<byte>, b: seq<byte>)
    requires c.Valid()
    requires c.hdrsize <= |a| && c.Header(a).Some? && c.Header(a).value.len <= |a|
    ensures Parse(c, a + b) == ParseOn(c, Parse(c, a), b)
    decreases |a|, 0
  {
    var n := c.Header(a).value.len;
    var frame, tail := a[..n], a[n..];
    assert a == frame + tail && a + b == frame + (tail + b);
    HeaderPrefix(c, frame, a);
    ParseFrame(c, frame, tail);
    ParseFrame(c, frame, tail + b);
    ParseSplit(c, tail, b);
    ThenFrame(frame, Parse(c, tail), Parse(c, Parse(c, tail).rest + b));
  }

  /** Frames and rest of the one-shot parser put together are the input. */
  lemma {:induction false} ParseConserves(c: Conf, s: seq<byte>)
    requires c.Valid()
    ensures Flatten(Parse(c, s).frames) + Parse(c, s).rest == s
    ensures !Parse(c, s).failed && c.hdrsize <= |Parse(c, s).rest| ==>
              c.Header(Parse(c, s).rest).Some? && |Parse(c, s).rest| < c.Header(Parse(c, s).rest).value.len
    decreases |s|
  {
    if c.hdrsize <= |s| && c.Header(s).Some? && c.Header(s).value.len <= |s| {
      var n := c.Header(s).value.len;
      ParseConserves(c, s[n..]);
      assert Parse(c, s).frames[1..] == Parse(c, s[n..]).frames;
      assert s == s[..n] + s[n..];
    }
  }

  /** The reader between reads. Frames are queued until msgbuf_get takes them. */
  datatype Reader = Reader(frames: seq<Frame>, partial: Option<Frame>, residue: seq<byte>, failed: bool) {
    ghost predicate Valid(c: Conf) {
      && c.Valid()
      && OkPartial(c, partial)
      && (partial.Some? ==> residue == [])
      && (!failed ==> |residue| < c.hdrsize)
    }
  }

  const FRESH := Reader([], None, [], false)

  datatype Chunk = Chunk(bytes: seq<byte>, fd: int)

  /** One successful read: a reader that has failed is not read again. */
  function Feed(c: Conf, r: Reader, chunk: Chunk): Reader
    requires c.Valid()
    requires r.partial.Some? ==> |r.partial.value.bytes| < r.partial.value.len
  {
    if r.failed then r
    else
      var o := Consume(c, r.partial, r.residue + chunk.bytes, chunk.fd);
      Reader(r.frames + o.frames, o.partial, o.residue, o.failed)
  }

  lemma {:induction false} FeedValid(c: Conf, r: Reader, chunk: Chunk)
    requires r.Valid(c)
    ensures Feed(c, r, chunk).Valid(c)
  {
    if !r.failed {
      if r.partial.Some? {
        HeaderPrefix(c, r.partial.value.bytes, r.partial.value.bytes + (r.residue + chunk.bytes));
      }
      ConsumeIsParse(c, r.partial, r.residue + chunk.bytes, chunk.fd);
    }
  }

  ghost function FeedAll(c: Conf, r: Reader, chunks: seq<Chunk>): Reader
    requires r.Valid(c)
    decreases |chunks|
  {
    if chunks == [] then r
    else
      FeedValid(c, r, chunks[0]);
      FeedAll(c, Feed(c, r, chunks[0]), chunks[1..])
  }

  function Bytes(chunks: seq<Chunk>): seq<byte> {
    if chunks == [] then [] else chunks[0].bytes + Bytes(chunks[1..])
  }

  /** What a reader knows, as the one-shot parser would say it. */
  function Seen(r: Reader): Batch {
    Batch(Raw(r.frames), Held(r.partial) + r.residue, r.failed)
  }

  /** One read parses on from the bytes the reader still holds. */
  lemma {:induction false} FeedIsParse(c: Conf, r: Reader, chunk: Chunk)
    requires r.Valid(c) && !r.failed
    ensures var b := Parse(c, Held(r.partial) + r.residue + chunk.bytes);
            Seen(Feed(c, r, chunk)) == Batch(Raw(r.frames) + b.frames, b.rest, b.failed)
  {
    var input := r.residue + chunk.bytes;
    if r.partial.Some? {
      HeaderPrefix(c, r.partial.value.bytes, r.partial.value.bytes + input);
    }
    ConsumeIsParse(c, r.partial, input, chunk.fd);
    assert Held(r.partial) + input == Held(r.partial) + r.residue + chunk.bytes;
    RawAppend(r.frames, Consume(c, r.partial, input, chunk.fd).frames);
  }

  /**
   However a byte stream is cut into reads, the reader delivers the frames
   of the one-shot parser, fails exactly when it fails, and until then holds
   exactly the bytes it has not yet delivered.
   */
  lemma {:induction false} SplitIndependent(c: Conf, r: Reader, done: seq<byte>, chunks: seq<Chunk>)
    requires r.Valid(c)
    requires if r.failed then Seen(r).frames == Parse(c, done).frames && Parse(c, done).failed
             else Seen(r) == Parse(c, done)
    ensures var end := FeedAll(c, r, chunks);
            var b := Parse(c, done + Bytes(chunks));
            && end.Valid(c)
            && Raw(end.frames) == b.frames
            && end.failed == b.failed
            && (!end.failed ==> Held(end.partial) + end.residue == b.rest)
    decreases |chunks|
  {
    if chunks == [] {
      assert done + Bytes(chunks) == done;
    } else {
      FeedKeepsUp(c, r, done, chunks[0]);
      SplitIndependent(c, Feed(c, r, chunks[0]), done + chunks[0].bytes, chunks[1..]);
      assert done + chunks[0].bytes + Bytes(chunks[1..]) == done + Bytes(chunks);
    }
  }

  /** One more chunk of a stream read as far as done. */
  lemma {:induction false} FeedKeepsUp(c: Conf, r: Reader, done: seq<byte>, ch: Chunk)
    requires r.Valid(c)
    requires if r.failed then Seen(r).frames == Parse(c, done).frames && Parse(c, done).failed
             else Seen(r) == Parse(c, done)
    ensures var next := Feed(c, r, ch);
            && next.Valid(c)
            && (if next.failed
                 then Seen(next).frames == Parse(c, done + ch.bytes).frames && Parse(c, done + ch.bytes).failed
                else Seen(next) == Parse(c, done + ch.bytes))
  {
    FeedValid(c, r, ch);
    ParseSplit(c, done, ch.bytes);
    if !r.failed { FeedIsParse(c, r, ch); }
  }

  /** SplitIndependent from a fresh reader. */
  lemma {:induction false} AnyReadsAgreeWithBatch(c: Conf, chunks: seq<Chunk>)
    requires c.Valid()
    ensures FRESH.Valid(c)
    ensures var end := FeedAll(c, FRESH, chunks);
            var b := Parse(c, Bytes(chunks));
            && end.Valid(c)
            && Raw(end.frames) == b.frames
            && end.failed == b.failed
            && (!end.failed ==> Held(end.partial) + end.residue == b.rest)
  {
    assert Seen(FRESH) == Parse(c, []);
    SplitIndependent(c, FRESH, [], chunks);
    assert [] + Bytes(chunks) == Bytes(chunks);
  }

  /** Until a header is bad, delivered frames, half-built message and residue are the bytes received. */
  lemma {:induction false} ReadsConserveBytes(c: Conf, chunks: seq<Chunk>)
    requires c.Valid()
    ensures FRESH.Valid(c)
    ensures var end := FeedAll(c, FRESH, chunks);
            !end.failed ==>
              && Flatten(Raw(end.frames)) + Held(end.partial) + end.residue == Bytes(chunks)
              && |end.residue| < c.hdrsize
              && (end.partial.Some? ==> end.residue == [])
  {
    AnyReadsAgreeWithBatch(c, chunks);
    ParseConserves(c, Bytes(chunks));
    var end := FeedAll(c, FRESH, chunks);
    if !end.failed {
      FlattenThree(Raw(end.frames), Held(end.partial), end.residue);
    }
  }

  lemma {:induction false} FlattenThree(a: seq<seq<byte>>, b: seq<byte>, d: seq<byte>)
    ensures Flatten(a) + b + d == Flatten(a) + (b + d)
  {
  }

  /** The messages whose header this read parsed: all but the one carried over from an earlier read. */
  function Started(partial: Option<Frame>, o: Outcome): seq<Frame> {
    var all := o.frames + (if o.partial.Some? then [o.partial.value] else []);
    if partial.Some? && all != [] then all[1..] else all
  }

  /** Offering a descriptor to the headers in turn: the first marked one keeps it, left is what nobody took. */
  ghost predicate Offered(c: Conf, frames: seq<Frame>, fd: int, left: int) {
    if frames == [] then left == fd
    else if c.Marked(frames[0].bytes) then
      frames[0].fd == fd && Offered(c, frames[1..], NO_FD, left)
    else
      frames[0].fd == NO_FD && Offered(c, frames[1..], fd, left)
  }

  lemma {:induction false} NothingToOffer(c: Conf, frames: seq<Frame>, left: int)
    requires Offered(c, frames, NO_FD, left)
    ensures left == NO_FD && forall i :: 0 <= i < |frames| ==> frames[i].fd == NO_FD
  {
    if frames != [] {
      NothingToOffer(c, frames[1..], left);
      assert forall i :: 0 < i < |frames| ==> frames[i] == frames[1..][i - 1];
    }
  }

  /** k is the first marked header of the list. */
  ghost predicate FirstMarked(c: Conf, frames: seq<Frame>, k: int) {
    && 0 <= k < |frames|
    && c.Marked(frames[k].bytes)
    && forall i :: 0 <= i < k ==> !c.Marked(frames[i].bytes)
  }

  /** Said without recursion: one owner, the first marked header, or left over when there is none. */
  lemma {:induction false} OfferedOnce(c: Conf, frames: seq<Frame>, fd: int, left: int)
    requires Offered(c, frames, fd, left)
    ensures forall i :: 0 <= i < |frames| ==> frames[i].fd == if FirstMarked(c, frames, i) then fd else NO_FD
    ensures left == if exists i :: FirstMarked(c, frames, i) then NO_FD else fd
  {
    if frames != [] {
      var tail := frames[1..];
      assert forall i :: 0 < i < |frames| ==> frames[i] == tail[i - 1];
      if c.Marked(frames[0].bytes) {
        NothingToOffer(c, tail, left);
        assert FirstMarked(c, frames, 0);
      } else {
        OfferedOnce(c, tail, fd, left);
        assert forall i :: 0 < i ==> (FirstMarked(c, frames, i) <==> FirstMarked(c, tail, i - 1));
        if exists i :: FirstMarked(c, tail, i) {
          var i :| FirstMarked(c, tail, i);
          assert FirstMarked(c, frames, i + 1);
        }
      }
    }
  }

  /** The message being worked on: first in the outcome, keeping its descriptor and its header. */
  function Current(o: Outcome): Option<Frame> {
    if o.frames != [] then Some(o.frames[0]) else o.partial
  }

  /** The message half built at the start stays first, and keeps the descriptor it had. */
  lemma {:induction false} CarriedKeepsDescriptor(c: Conf, p: Frame, input: seq<byte>, fd: int)
    requires c.Valid() && |p.bytes| < p.len
    ensures var o := Consume(c, Some(p), input, fd);
            && Current(o).Some?
            && Current(o).value.fd == p.fd
            && Current(o).value.bytes
                 == (if |input| < p.len - |p.bytes| then p.bytes + input else p.bytes + input[..p.len - |p.bytes|])
  {
  }

  /** The bytes a read gathers for the message it starts begin with that message's header. */
  lemma {:induction false} StartedHeader(c: Conf, input: seq<byte>, fd: int)
    requires c.Valid() && c.hdrsize <= |input| && c.Header(input).Some?
    ensures var h := c.Header(input).value;
            var o := Consume(c, Some(Begin(h, fd)), input, Unclaimed(h, fd));
            && Current(o).Some?
            && c.Marked(Current(o).value.bytes) == h.marked
            && Current(o).value.fd == (if h.marked then fd else NO_FD)
  {
    var h := c.Header(input).value;
    CarriedKeepsDescriptor(c, Begin(h, fd), input, Unclaimed(h, fd));
    var bytes := if |input| < h.len then [] + input else [] + input[..h.len];
    assert bytes <= input && c.hdrsize <= |bytes|;
    HeaderPrefix(c, bytes, input);
  }

  lemma {:induction false} StartedSplit(o: Outcome, p: Frame)
    requires Current(o).Some?
    ensures Started(None, o) == [Current(o).value] + Started(Some(p), o)
  {
  }

  /**
   A received descriptor ends in exactly one place: the first marked header
   parsed in the same read, or, when there is none, it is left over and closed.
   */
  lemma {:induction false} DescriptorOffered(c: Conf, partial: Option<Frame>, input: seq<byte>, fd: int)
    requires c.Valid()
    requires partial.Some? ==> |partial.value.bytes| < partial.value.len
    ensures var o := Consume(c, partial, input, fd);
            Offered(c, Started(partial, o), fd, o.fd)
    decreases |input|, if partial.None? then 1 else 0
  {
    var o := Consume(c, partial, input, fd);
    match partial
    case None =>
      if c.hdrsize <= |input| && c.Header(input).Some? {
        var h := c.Header(input).value;
        var p := Begin(h, fd);
        DescriptorOffered(c, Some(p), input, Unclaimed(h, fd));
        StartedHeader(c, input, fd);
        StartedSplit(o, p);
        assert Started(None, o)[1..] == Started(Some(p), o);
      }
    case Some(p) =>
      var need := p.len - |p.bytes|;
      if need <= |input| {
        DescriptorOffered(c, None, input[need..], fd);
        assert Started(partial, o) == Started(None, Consume(c, None, input[need..], fd));
      } else {
        assert Started(partial, o) == [];
      }
  }

  /** The same as one statement per read: owner, leftover, and the message carried over. */
  lemma {:induction false} DescriptorHasOneOwner(c: Conf, partial: Option<Frame>, input: seq<byte>, fd: int)
    requires c.Valid()
    requires partial.Some? ==> |partial.value.bytes| < partial.value.len
    ensures var o := Consume(c, partial, input, fd);
            var started := Started(partial, o);
            && (forall i :: 0 <= i < |started| ==> started[i].fd == if FirstMarked(c, started, i) then fd else NO_FD)
            && o.fd == (if exists i :: FirstMarked(c, started, i) then NO_FD else fd)
            && (partial.Some? ==> Current(o).Some? && Current(o).value.fd == partial.value.fd)
  {
    var o := Consume(c, partial, input, fd);
    DescriptorOffered(c, partial, input, fd);
    OfferedOnce(c, Started(partial, o), fd, o.fd);
    if partial.Some? {
      CarriedKeepsDescriptor(c, partial.value, input, fd);
    }
  }
}
