/** struct ibuf: a growable byte buffer with a write and a read position. */
module Ibufs {
  import opened Common
  import opened ImsgReader

  const SIZE_MAX: nat := 0xFFFF_FFFF_FFFF_FFFF

  /** The descriptor field of a buffer that borrows its memory (IBUF_FD_MARK_ON_STACK). */
  const ON_STACK := -2

  class Ibuf {
    var buf: seq<byte>   // the allocated memory
    var max: nat
    var wpos: nat
    var rpos: nat
    var fd: int

    ghost predicate Valid()
      reads this
    {
      && rpos <= wpos <= |buf|
      && (if fd == ON_STACK then max == 0 else NO_FD <= fd && |buf| <= max)
    }

    /** The bytes written and not yet read. */
    function Data(): seq<byte>
      requires Valid()
      reads this
    {
      buf[rpos..wpos]
    }

    function Size(): nat
      requires Valid()
      reads this
    {
      wpos - rpos
    }

    function Left(): nat
      requires Valid()
      reads this
    {
      if fd == ON_STACK then 0 else max - wpos
    }

    /** ibuf_open */
    constructor Open(len: nat)
      ensures Valid() && Data() == [] && wpos == rpos == 0 && fd == NO_FD && max == |buf| == len
    {
      buf, max, wpos, rpos, fd := seq(len, _ => 0), len, 0, 0, NO_FD;
    }

    /** The allocation of ibuf_dynamic, once the sizes are accepted. */
    constructor Dynamic(len: nat, max: nat)
      requires 0 < max && len <= max
      ensures Valid() && Data() == [] && wpos == rpos == 0 && fd == NO_FD && this.max == max
    {
      buf, this.max, wpos, rpos, fd := seq(len, _ => 0), max, 0, 0, NO_FD;
    }

    /** ibuf_from_buffer: the memory is borrowed, so the buffer can only be read. */
    constructor FromBuffer(data: seq<byte>)
      ensures Valid() && Data() == data && fd == ON_STACK
    {
      buf, max, wpos, rpos, fd := data, 0, |data|, 0, ON_STACK;
    }

    /** ibuf_reserve: room for len more bytes, or no change. at is where they go. */
    method Reserve(len: nat) returns (ok: bool, at: nat)
      requires Valid()
      modifies this
      ensures Valid() && rpos == old(rpos) && fd == old(fd) && max == old(max)
      ensures ok <==> len <= SIZE_MAX - old(wpos) && fd != ON_STACK && old(wpos) + len <= max
      ensures ok ==> |buf| == if old(|buf|) < wpos then wpos else old(|buf|)
      ensures ok ==> at == old(wpos) && wpos == at + len && old(buf[..wpos]) == buf[..at]
      ensures !ok ==> buf == old(buf) && wpos == old(wpos)
    {
      at := wpos;
      if SIZE_MAX - wpos < len { return false, at; }
      if fd == ON_STACK { return false, at; }
      if |buf| < wpos + len {
        if max < wpos + len { return false, at; }
        buf := buf + seq(wpos + len - |buf|, _ => 0);
      }
      wpos := wpos + len;
      ok := true;
    }

    /** ibuf_add: the bytes are appended, or nothing changes. */
    method Add(data: seq<byte>) returns (ok: bool)
      requires Valid()
      modifies this
      ensures Valid() && rpos == old(rpos) && fd == old(fd) && max == old(max)
      ensures ok <==> |data| <= SIZE_MAX - old(wpos) && fd != ON_STACK && old(wpos) + |data| <= max
      ensures ok ==> |buf| == if old(|buf|) < wpos then wpos else old(|buf|)
      ensures ok ==> wpos == old(wpos) + |data| && buf[..wpos] == old(buf[..wpos]) + data
      ensures ok ==> Data() == old(Data()) + data
      ensures !ok ==> buf == old(buf) && wpos == old(wpos)
    {
      var at;
      ok, at := Reserve(|data|);
      if ok {
        buf := buf[..at] + data + buf[at + |data|..];
      }
    }

    /** ibuf_set: overwrites part of the unread bytes, or nothing. */
    method Set(pos: nat, data: seq<byte>) returns (ok: bool)
      requires Valid()
      modifies this`buf
      ensures Valid() && |buf| == old(|buf|)
      ensures ok <==> pos <= Size() && |data| <= SIZE_MAX - pos && pos + |data| <= Size()
      ensures Data() == if ok then old(Data()[..pos]) + data + old(Data()[pos + |data|..]) else old(Data())
    {
      if Size() < pos || SIZE_MAX - pos < |data| || Size() < pos + |data| {
        return false;
      }
      var b := rpos + pos;
      buf := buf[..b] + data + buf[b + |data|..];
      ok := true;
    }

    /** ibuf_get: the next len bytes, or nothing. */
    method Get(len: nat) returns (r: Option<seq<byte>>)
      requires Valid()
      modifies this`rpos
      ensures Valid()
      ensures r.Some? <==> len <= old(Size())
      ensures r.Some? ==> r.value == old(Data())[..len] && Data() == old(Data())[len..]
      ensures r.None? ==> rpos == old(rpos)
    {
      if Size() < len { return None; }
      r := Some(Data()[..len]);
      rpos := rpos + len;
    }

    /** ibuf_get_ibuf: the same, as a buffer of its own. */
    method GetIbuf(len: nat) returns (ok: bool, new': Ibuf)
      requires Valid()
      modifies this`rpos
      ensures Valid() && new'.Valid() && fresh(new')
      ensures ok <==> len <= old(Size())
      ensures ok ==> new'.Data() == old(Data())[..len] && Data() == old(Data())[len..] && new'.fd == ON_STACK
      ensures !ok ==> rpos == old(rpos)
    {
      if Size() < len {
        new' := new Ibuf.FromBuffer([]);
        return false, new';
      }
      new' := new Ibuf.FromBuffer(Data()[..len]);
      rpos := rpos + len;
      ok := true;
    }

    /** ibuf_fd_set: closed is the descriptor that had to go, if any. */
    method FdSet(fd': int) returns (closed: int)
      requires Valid() && fd != ON_STACK
      modifies this`fd
      ensures Valid() && fd == (if 0 <= fd' then fd' else NO_FD) && closed == old(fd)
    {
      closed := fd;
      fd := NO_FD;
      if 0 <= fd' { fd := fd'; }
    }

    /** ibuf_fd_get: the descriptor moves to the caller. */
    method FdGet() returns (taken: int)
      requires Valid()
      modifies this`fd
      ensures Valid()
      ensures taken == (if old(fd) < 0 then NO_FD else old(fd))
      ensures fd == (if old(fd) < 0 then old(fd) else NO_FD)
    {
      if fd < 0 { return NO_FD; }
      taken := fd;
      fd := NO_FD;
    }
  }

  /** ibuf_dynamic: null for a limit of zero or below the initial size. */
  method IbufDynamic(len: nat, max: nat) returns (r: Ibuf?)
    ensures r == null <==> max == 0 || max < len
    ensures r != null ==>
      && fresh(r) && r.Valid() && r.Data() == [] && r.wpos == r.rpos == 0 && r.fd == NO_FD && r.max == max
  {
    if max == 0 || max < len { return null; }
    r := new Ibuf.Dynamic(len, max);
  }
}
