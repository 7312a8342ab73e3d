/** web/bufio.c: growing byte buffers, chunked composing and partial sends. */
module BufIo {
  import opened Common

  const BIO_CHUNK := 4096

  /** The size a buffer grows to, chunk by chunk, until it is enough. */
  function Grown(cap: nat, need: nat): (r: nat)
    ensures cap <= r && need <= r && (r - cap) % BIO_CHUNK == 0
    ensures cap < r ==> r < need + BIO_CHUNK
    decreases need - cap
  {
    if need <= cap then cap else Grown(cap + BIO_CHUNK, need)
  }

  class Buf {
    var mem: array<byte>
    var len: nat
    var cur: nat

    ghost predicate Valid()
      reads this
    {
      len <= mem.Length
    }

    ghost function Contents(): (s: seq<byte>)
      requires Valid()
      reads this, mem
      ensures |s| == len
    {
      mem[..len]
    }

    /** buf_init */
    constructor ()
      ensures Valid() && Contents() == [] && fresh(mem) && mem.Length == BIO_CHUNK
    {
      mem, len, cur := new byte[BIO_CHUNK], 0, 0;
    }

    /** buf_grow: one chunk more, with the contents kept. */
    method Grow()
      requires Valid()
      modifies this`mem
      ensures Valid() && Contents() == old(Contents())
      ensures fresh(mem) && mem.Length == old(mem.Length) + BIO_CHUNK
    {
      var t := new byte[mem.Length + BIO_CHUNK];
      for i := 0 to mem.Length
        invariant mem == old(mem) && mem[..] == old(mem[..]) && t[..i] == mem[..i]
      {
        t[i] := mem[i];
      }
      assert t[..len] == t[..mem.Length][..len];
      mem := t;
    }

    /** memcpy behind the contents */
    method CopyIn(d: seq<byte>)
      requires Valid() && len + |d| <= mem.Length
      modifies this`len, mem
      ensures Valid() && Contents() == old(Contents()) + d
    {
      for k := 0 to |d|
        invariant Valid() && len == old(len) && mem == old(mem)
        invariant mem[..len] == old(mem[..len]) && mem[len..len + k] == d[..k]
      {
        mem[len + k] := d[k];
      }
      assert mem[..len + |d|] == mem[..len] + mem[len..len + |d|];
      len := len + |d|;
    }

    /** buf_append */
    method Append(d: seq<byte>)
      requires Valid()
      modifies this`len, this`mem, mem
      ensures Valid() && Contents() == old(Contents()) + d && (mem == old(mem) || fresh(mem))
      ensures mem.Length == Grown(old(mem.Length), old(len) + |d|)
    {
      while len + |d| > mem.Length
        invariant Valid() && Contents() == old(Contents()) && (mem == old(mem) || fresh(mem))
        invariant Grown(mem.Length, len + |d|) == Grown(old(mem.Length), old(len) + |d|)
        decreases len + |d| - mem.Length
      {
        Grow();
      }
      CopyIn(d);
    }

    /** buf_drain: the first l bytes are gone, the others move to the front. */
    method Drain(l: nat)
      requires Valid()
      modifies this`len, this`cur, mem
      ensures Valid() && cur == 0 && mem == old(mem)
      ensures Contents() == if l < old(len) then old(Contents())[l..] else []
    {
      cur := 0;
      if l >= len {
        len := 0;
        return;
      }
      for i := 0 to len - l
        invariant Valid() && cur == 0 && len == old(len) && mem == old(mem)
        invariant mem[..i] == old(mem[l..l + i]) && mem[i..] == old(mem[i..])
      {
        mem[i] := mem[i + l];
      }
      len := len - l;
    }
  }

  // ---------- hexadecimal numbers ----------

  function Digit(d: nat): (b: byte)
    requires d < 16
  {
    if d < 10 then '0' as int + d else 'a' as int + (d - 10)
  }

  /** printf's %zx */
  function Hex(n: nat): (s: seq<byte>)
    ensures s != []
  {
    if n < 16 then [Digit(n)] else Hex(n / 16) + [Digit(n % 16)]
  }

  const CRLF: seq<byte> := [13, 10]

  /** A chunk as bufio_compose writes it. */
  function Chunk(d: seq<byte>): seq<byte> {
    Hex(|d|) + CRLF + d + CRLF
  }

  class Bufio {
    const wbuf: Buf
    var chunked: bool
    var sent: seq<byte>         // what the kernel has taken

    ghost predicate Valid()
      reads this, wbuf
    {
      wbuf.Valid()
    }

    /** Everything written so far, sent or not. */
    ghost function Stream(): seq<byte>
      requires Valid()
      reads this, wbuf, wbuf.mem
    {
      sent + wbuf.Contents()
    }

    constructor ()
      ensures Valid() && Stream() == [] && !chunked && fresh(wbuf) && fresh(wbuf.mem)
    {
      wbuf := new Buf();
      chunked, sent := false, [];
    }

    /** bufio_append */
    method Append(d: seq<byte>)
      requires Valid()
      modifies wbuf, wbuf.mem
      ensures Valid() && Stream() == old(Stream()) + d && (wbuf.mem == old(wbuf.mem) || fresh(wbuf.mem))
      ensures wbuf.mem.Length == Grown(old(wbuf.mem.Length), old(wbuf.len) + |d|)
    {
      if |d| == 0 {
        assert d == [];
        return;
      }
      while wbuf.mem.Length - wbuf.len < |d|
        invariant Valid() && wbuf.Contents() == old(wbuf.Contents()) && (wbuf.mem == old(wbuf.mem) || fresh(wbuf.mem))
        invariant Grown(wbuf.mem.Length, wbuf.len + |d|) == Grown(old(wbuf.mem.Length), old(wbuf.len) + |d|)
        decreases |d| - (wbuf.mem.Length - wbuf.len)
      {
        wbuf.Grow();
      }
      wbuf.CopyIn(d);
      assert sent + (old(wbuf.Contents()) + d) == sent + old(wbuf.Contents()) + d;
    }

    /** bufio_compose; the size line has to fit in a buffer of 16. */
    method Compose(d: seq<byte>) returns (ok: bool)
      requires Valid()
      modifies wbuf, wbuf.mem
      ensures Valid() && (wbuf.mem == old(wbuf.mem) || fresh(wbuf.mem))
      ensures ok == (!chunked || |Hex(|d|)| + 2 < 16)
      ensures Stream() == old(Stream()) + if !ok then [] else if chunked then Chunk(d) else d
    {
      if chunked {
        var n := Hex(|d|) + CRLF;
        if |n| >= 16 { return false; }
        Append(n);
        Append(d);
        Append(CRLF);
        ComposeParts(old(Stream()), d);
      } else {
        Append(d);
      }
      return true;
    }

    /** bufio_write: the kernel takes some of the bytes. */
    method Write(w: nat)
      requires Valid() && w <= wbuf.len
      modifies this`sent, wbuf, wbuf.mem
      ensures Valid() && wbuf.mem == old(wbuf.mem) && Stream() == old(Stream())
      ensures sent == old(sent) + old(wbuf.Contents())[..w]
    {
      sent := sent + wbuf.mem[..w];
      wbuf.Drain(w);
    }
  }

  lemma {:induction false} ComposeParts(s: seq<byte>, d: seq<byte>)
    ensures s + (Hex(|d|) + CRLF) + d + CRLF == s + Chunk(d)
  {
  }
}
