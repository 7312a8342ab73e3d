/** web/http.c: the body of a reply, staged and sent in chunks. */
module Http {
  import opened Common
  import opened BufIo
  import opened Chunked

  const STAGING := 1024

  class Client {
    const bio: Bufio
    var buf: array?<byte>
    var len: nat
    var err: bool
    ghost var base: seq<byte>          // written before the coding was switched on
    ghost var pieces: seq<seq<byte>>   // the chunks composed since

    ghost predicate Valid()
      reads this, bio, bio.wbuf
    {
      && bio.Valid()
      && (if buf == null then len == 0 else buf.Length == STAGING && len <= STAGING && buf != bio.wbuf.mem)
    }

    /** What waits in the staging buffer. */
    ghost function Staged(): seq<byte>
      requires Valid()
      reads this, bio, bio.wbuf, buf
    {
      if buf == null then [] else buf[..len]
    }

    /** In chunked mode everything since is whole, non-empty chunks. */
    ghost predicate Coded()
      requires Valid()
      reads this, bio, bio.wbuf, bio.wbuf.mem
    {
      bio.chunked && NonEmpty(pieces) && bio.Stream() == base + Chunks(pieces)
    }

    /** The body so far. */
    ghost function Body(): seq<byte>
      requires Valid()
      reads this, bio, bio.wbuf, buf
    {
      Flatten(pieces) + Staged()
    }

    /** The arrays are the old ones or new ones. */
    twostate predicate SameArrays()
      reads this, bio, bio.wbuf
    {
      && (bio.wbuf.mem == old(bio.wbuf.mem) || fresh(bio.wbuf.mem))
      && (buf == old(buf) || (old(buf) == null && fresh(buf)))
    }

    /** A client whose reply has no body yet. */
    constructor ()
      ensures Valid() && bio.Stream() == [] && !bio.chunked && !err && Staged() == []
      ensures fresh(bio) && fresh(bio.wbuf) && fresh(bio.wbuf.mem) && buf == null
    {
      bio := new Bufio();
      buf, len, err, base, pieces := null, 0, false, [], [];
    }

    /** bufio_set_chunked, once the header is written. */
    method SetChunked()
      requires Valid() && len == 0
      modifies this`base, this`pieces, bio`chunked
      ensures Valid() && Coded() && Body() == [] && bio.Stream() == old(bio.Stream()) && base == old(bio.Stream())
    {
      bio.chunked := true;
      base, pieces := bio.Stream(), [];
      assert base + [] == base;
    }

    /** http_flush */
    method Flush() returns (ok: bool)
      requires Valid() && Coded()
      modifies this`len, this`err, this`pieces, bio.wbuf, bio.wbuf.mem
      ensures Valid() && Coded() && SameArrays() && buf == old(buf)
      ensures ok == !old(err) && err == old(err) && base == old(base) && Body() == old(Body())
      ensures if ok then len == 0 else len == old(len) && bio.Stream() == old(bio.Stream())
    {
      if err { return false; }
      if len == 0 { return true; }
      ghost var piece := buf[..len];
      HexLength(len, 3);
      assert Power16(3) == 0x1000;
      ok := bio.Compose(buf[..len]);
      err := !ok;
      Composed(base, pieces, piece);
      pieces := pieces + [piece];
      len := 0;
    }

    /** The memcpy of http_write into the staging buffer. */
    method Stage(d: seq<byte>)
      requires Valid() && buf != null && len + |d| <= STAGING
      modifies this`len, buf
      ensures Valid() && buf[..len] == old(buf[..len]) + d && len == old(len) + |d|
    {
      for k := 0 to |d|
        invariant len == old(len) && buf[..len] == old(buf[..len]) && buf[len..len + k] == d[..k]
      {
        buf[len + k] := d[k];
      }
      assert buf[..len + |d|] == buf[..len] + buf[len..len + |d|];
      len := len + |d|;
    }

    /** The loop of http_write: fill the staging buffer, and flush it whenever it is full. */
    method CopyAndFlush(d: seq<byte>)
      requires Valid() && Coded() && buf != null && !err
      modifies this`len, this`err, this`pieces, buf, bio.wbuf, bio.wbuf.mem
      ensures Valid() && Coded() && SameArrays() && !err && base == old(base) && buf == old(buf)
      ensures Body() == old(Body()) + d
    {
      var p := 0;
      while p < |d|
        invariant p <= |d| && Valid() && Coded() && SameArrays() && !err && base == old(base)
        invariant Body() == old(Body()) + d[..p]
        decreases |d| - p, len
      {
        var avail := STAGING - len;
        if avail > |d| - p { avail := |d| - p; }
        StageSlice(Flatten(pieces), buf[..len], old(Body()), d, p, p + avail);
        Stage(d[p..p + avail]);
        p := p + avail;
        if len == STAGING {
          var flushed := Flush();
        }
      }
      assert d[..p] == d;
    }

    /** http_write */
    method Write(d: seq<byte>) returns (ok: bool)
      requires Valid() && (bio.chunked ==> Coded())
      modifies this, bio.wbuf, bio.wbuf.mem, buf
      ensures Valid() && SameArrays() && ok == !old(err) && err == old(err) && base == old(base)
      ensures !ok ==> bio.Stream() == old(bio.Stream()) && Body() == old(Body())
      ensures ok && !bio.chunked ==> bio.Stream() == old(bio.Stream()) + d && len == old(len)
      ensures bio.chunked ==> Coded() && (ok ==> Body() == old(Body()) + d)
    {
      if err { return false; }
      if !bio.chunked {
        ok := bio.Compose(d);
        err := !ok;
        return;
      }
      if buf == null {
        buf := new byte[STAGING];
      }
      CopyAndFlush(d);
      return true;
    }

    /** http_close: what is staged is flushed, and the chunk of no bytes ends the body. */
    method Close() returns (ok: bool)
      requires Valid() && (if bio.chunked then Coded() else len == 0)
      modifies this`len, this`err, this`pieces, bio.wbuf, bio.wbuf.mem
      ensures Valid() && SameArrays() && buf == old(buf) && ok == !old(err) && base == old(base)
      ensures ok && bio.chunked ==>
                && NonEmpty(pieces) && Flatten(pieces) == old(Body())
                && bio.Stream() == base + Chunks(pieces) + Chunk([])
      ensures !ok || !bio.chunked ==> bio.Stream() == old(bio.Stream())
    {
      if err { return false; }
      if len != 0 {
        var flushed := Flush();
      }
      HexLength(0, 1);
      PowerPositive(1);
      ok := bio.Compose([]);
      err := !ok;
    }
  }

  /**
   A whole reply: a header, the coding switched on, the pieces of the body with
   partial sends after each, and the end. What has been sent or waits to be is
   the header and a coding of exactly the body.
   */
  method Reply(header: seq<byte>, writes: seq<seq<byte>>, sends: seq<nat>) returns (stream: seq<byte>)
    requires |sends| == |writes|
    ensures header <= stream && Dechunk(stream[|header|..]) == Some((Flatten(writes), []))
  {
    var clt := new Client();
    var ok := clt.Write(header);
    assert [] + header == header;
    clt.SetChunked();
    WriteAll(clt, writes, sends);
    ok := clt.Close();
    stream := clt.bio.sent + clt.bio.wbuf.mem[..clt.bio.wbuf.len];
    DechunkChunks(clt.pieces, []);
    ReplyParts(header, Chunks(clt.pieces), Chunk([]));
  }

  /** The pieces of a body, each followed by a send of some bytes. */
  method WriteAll(clt: Client, writes: seq<seq<byte>>, sends: seq<nat>)
    requires |sends| == |writes|
    requires clt.Valid() && clt.Coded() && !clt.err && clt.Body() == []
    modifies clt, clt.bio`sent, clt.bio.wbuf, clt.bio.wbuf.mem, clt.buf
    ensures clt.Valid() && clt.Coded() && !clt.err && clt.base == old(clt.base)
    ensures clt.Body() == Flatten(writes) && clt.SameArrays()
  {
    for i := 0 to |writes|
      invariant clt.Valid() && clt.Coded() && !clt.err && clt.base == old(clt.base) && clt.SameArrays()
      invariant clt.Body() == Flatten(writes[..i])
    {
      var ok := clt.Write(writes[i]);
      BodyGrows(writes, i);
      clt.bio.Write(if sends[i] <= clt.bio.wbuf.len then sends[i] else clt.bio.wbuf.len);
    }
    assert writes[..|writes|] == writes;
  }

  lemma {:induction false} BodyGrows(writes: seq<seq<byte>>, i: nat)
    requires i < |writes|
    ensures Flatten(writes[..i]) + writes[i] == Flatten(writes[..i + 1])
  {
    assert writes[..i + 1] == writes[..i] + [writes[i]];
    FlattenAppend(writes[..i], [writes[i]]);
    FlattenOne(writes[i]);
  }

  lemma {:induction false} ReplyParts(a: seq<byte>, b: seq<byte>, c: seq<byte>)
    ensures a <= a + b + c && (a + b + c)[|a|..] == b + c + []
  {
  }

  lemma {:induction false} StageSlice(flat: seq<byte>, staged: seq<byte>, body: seq<byte>, d: seq<byte>, p: nat, q: nat)
    requires p <= q <= |d| && flat + staged == body + d[..p]
    ensures flat + (staged + d[p..q]) == body + d[..q]
  {
    assert flat + (staged + d[p..q]) == flat + staged + d[p..q];
    assert d[..p] + d[p..q] == d[..q];
  }

  lemma {:induction false} Composed(base: seq<byte>, pieces: seq<seq<byte>>, piece: seq<byte>)
    ensures base + Chunks(pieces) + Chunk(piece) == base + Chunks(pieces + [piece])
    ensures Flatten(pieces) + piece == Flatten(pieces + [piece]) + []
  {
    ChunksSnoc(pieces, piece);
    FlattenAppend(pieces, [piece]);
    FlattenOne(piece);
  }
}
