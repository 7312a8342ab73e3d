/** web/ws.c: WebSocket frames in both directions, as section 5.2 and 5.3 of RFC 6455 define them. */
module WebSocket {
  import opened Common
  import opened BufIo

  // ---------- exclusive or of bytes ----------

  /** Bit by bit, for the lowest n bits. */
  function XorBits(a: nat, b: nat, n: nat): nat {
    if n == 0 then 0 else (if a % 2 == b % 2 then 0 else 1) + 2 * XorBits(a / 2, b / 2, n - 1)
  }

  function Power2(n: nat): nat {
    if n == 0 then 1 else 2 * Power2(n - 1)
  }

  lemma {:induction false} XorBitsRange(a: nat, b: nat, n: nat)
    ensures XorBits(a, b, n) < Power2(n)
  {
    if n > 0 { XorBitsRange(a / 2, b / 2, n - 1); }
  }

  lemma {:induction false} Halves(bit: nat, x: nat)
    requires bit < 2
    ensures (bit + 2 * x) % 2 == bit && (bit + 2 * x) / 2 == x
  {
  }

  lemma {:induction false} XorBitsTwice(a: nat, b: nat, n: nat)
    requires a < Power2(n)
    ensures XorBits(XorBits(a, b, n), b, n) == a
  {
    if n > 0 {
      Halves(if a % 2 == b % 2 then 0 else 1, XorBits(a / 2, b / 2, n - 1));
      XorBitsTwice(a / 2, b / 2, n - 1);
    }
  }

  lemma {:induction false} XorBitsInjective(a: nat, b: nat, c: nat, n: nat)
    requires b < Power2(n) && c < Power2(n) && XorBits(a, b, n) == XorBits(a, c, n)
    ensures b == c
  {
    if n > 0 {
      Halves(if a % 2 == b % 2 then 0 else 1, XorBits(a / 2, b / 2, n - 1));
      Halves(if a % 2 == c % 2 then 0 else 1, XorBits(a / 2, c / 2, n - 1));
      XorBitsInjective(a / 2, b / 2, c / 2, n - 1);
    }
  }

  lemma {:induction false} Power2Eight()
    ensures Power2(8) == 0x100
  {
    assert Power2(4) == 16;
  }

  function Xor(a: byte, b: byte): byte {
    XorBitsRange(a, b, 8);
    Power2Eight();
    XorBits(a, b, 8)
  }

  lemma {:induction false} XorTwice(a: byte, b: byte)
    ensures Xor(Xor(a, b), b) == a
  {
    Power2Eight();
    XorBitsTwice(a, b, 8);
  }

  lemma {:induction false} XorInjective(a: byte, b: byte, c: byte)
    ensures Xor(a, b) == Xor(a, c) <==> b == c
  {
    if Xor(a, b) == Xor(a, c) {
      Power2Eight();
      XorBitsInjective(a, b, c, 8);
    }
  }

  // ---------- frames ----------

  /** A frame of section 5.2; the mask is present in those of a client. */
  datatype Frame = Frame(fin: bool, rsv: nat, opcode: nat, mask: Option<seq<byte>>, payload: seq<byte>)

  /** Section 5.3: each byte of the payload is combined with one of the four of the key. */
  function Masked(key: seq<byte>, data: seq<byte>): (r: seq<byte>)
    requires |key| == 4
    ensures |r| == |data| && forall i :: 0 <= i < |data| ==> r[i] == Xor(data[i], key[i % 4])
  {
    seq(|data|, i requires 0 <= i < |data| => Xor(data[i], key[i % 4]))
  }

  lemma {:induction false} MaskedTwice(key: seq<byte>, data: seq<byte>)
    requires |key| == 4
    ensures Masked(key, Masked(key, data)) == data
  {
    forall i | 0 <= i < |data| ensures Masked(key, Masked(key, data))[i] == data[i] {
      XorTwice(data[i], key[i % 4]);
    }
  }

  /** A frame at the front of the bytes, and what follows; the 16-bit length is only for payloads that need it. */
  function Parse(s: seq<byte>): Option<(Frame, seq<byte>)> {
    if |s| < 2 then None
    else
      var short := s[1] % 128;
      var header := if short == 126 then 4 else if short == 127 then 10 else 2;
      if |s| < header || short == 127 then None
      else
        var size: nat := if short == 126 then 256 * (s[2] as int) + s[3] as int else short;
        if short == 126 && size < 126 then None
        else ParseBody(s[0], s[1] >= 128, size, s[header..])
  }

  /** The key, if there is one, and the payload. */
  function ParseBody(first: byte, masked: bool, size: nat, s: seq<byte>): Option<(Frame, seq<byte>)> {
    var start := if masked then 4 else 0;
    if |s| < start + size then None
    else
      var data := s[start..start + size];
      Some((Frame(first >= 128, first / 16 % 8, first % 16,
                  if masked then Some(s[..4]) else None,
                  if masked then Masked(s[..4], data) else data),
            s[start + size..]))
  }

  const LIMIT := 0x7FFF

  /** The bytes ws_compose writes. */
  function Composed(kind: int, data: seq<byte>): seq<byte>
    requires |data| <= LIMIT
  {
    [kind % 16 + 128] + (if |data| < 126 then [|data|] else [126, |data| / 256, |data| % 256]) + data
  }

  /** Every frame ws_compose writes is read back: final, unmasked, with its opcode and the whole payload. */
  lemma {:induction false} ComposedIsRead(kind: int, data: seq<byte>, rest: seq<byte>)
    requires |data| <= LIMIT
    ensures Parse(Composed(kind, data) + rest) == Some((Frame(true, 0, kind % 16, None, data), rest))
  {
    var s := Composed(kind, data) + rest;
    BodyIsRead(kind % 16 + 128, data, rest);
    HeaderGone([kind % 16 + 128] + (if |data| < 126 then [|data|] else [126, |data| / 256, |data| % 256]), data, rest);
    assert s[1] == if |data| < 126 then |data| else 126;
  }

  lemma {:induction false} HeaderGone<T>(h: seq<T>, data: seq<T>, rest: seq<T>)
    ensures (h + data + rest)[|h|..] == data + rest
  {
  }

  lemma {:induction false} BodyIsRead(first: byte, data: seq<byte>, rest: seq<byte>)
    ensures ParseBody(first, false, |data|, data + rest)
         == Some((Frame(first >= 128, first / 16 % 8, first % 16, None, data), rest))
  {
    assert (data + rest)[0..0 + |data|] == data && (data + rest)[0 + |data|..] == rest;
  }

  /** ws_compose */
  method Compose(bio: Bufio, kind: int, data: seq<byte>) returns (ok: bool)
    requires bio.Valid() && !bio.chunked
    modifies bio.wbuf, bio.wbuf.mem
    ensures bio.Valid() && (bio.wbuf.mem == old(bio.wbuf.mem) || fresh(bio.wbuf.mem))
    ensures ok == (|data| <= LIMIT)
    ensures bio.Stream() == if ok then old(bio.Stream()) + Composed(kind, data) else old(bio.Stream())
  {
    var first: byte := kind % 16 + 128;
    var second: byte := 126;
    var extlen: seq<byte> := [];
    if |data| < 126 {
      second := |data|;
    } else {
      if |data| > LIMIT { return false; }
      extlen := [|data| / 256, |data| % 256];
    }
    ComposeAll(bio, first, second, extlen, data);
    return true;
  }

  /** The pieces of a frame, one after another; without chunked coding none of them fails. */
  method ComposeAll(bio: Bufio, first: byte, second: byte, extlen: seq<byte>, data: seq<byte>)
    requires bio.Valid() && !bio.chunked
    modifies bio.wbuf, bio.wbuf.mem
    ensures bio.Valid() && (bio.wbuf.mem == old(bio.wbuf.mem) || fresh(bio.wbuf.mem))
    ensures bio.Stream() == old(bio.Stream()) + ([first] + ([second] + extlen) + data)
  {
    var ok := bio.Compose([first]);
    ok := bio.Compose([second]);
    if extlen != [] {
      ok := bio.Compose(extlen);
    }
    ok := bio.Compose(data);
    FrameParts(old(bio.Stream()), first, second, extlen, data);
  }

  lemma {:induction false} FrameParts(s: seq<byte>, first: byte, second: byte, extlen: seq<byte>, data: seq<byte>)
    ensures s + [first] + [second] + extlen + data == s + ([first] + ([second] + extlen) + data)
    ensures extlen == [] ==> s + [first] + [second] + data == s + ([first] + ([second] + extlen) + data)
  {
  }

  // ---------- reading the frames of a client ----------

  const WST_UNKNOWN := -1

  /** The type reported for an opcode. */
  function TypeOf(opcode: nat): int {
    if opcode in {0, 1, 2, 8, 9} then opcode else WST_UNKNOWN
  }

  datatype Outcome = Got(kind: int, payload: seq<byte>) | Again | Invalid | TooBig

  /** A payload as the machine unmasks it: the bytes of the key in its own byte order. */
  function Unmasked(key: seq<byte>, data: seq<byte>, little: bool): (r: seq<byte>)
    requires |key| == 4
    ensures |r| == |data| && forall i :: 0 <= i < |data| ==>
              r[i] == Xor(data[i], key[if little then i % 4 else 3 - i % 4])
  {
    seq(|data|, i requires 0 <= i < |data| => Xor(data[i], key[if little then i % 4 else 3 - i % 4]))
  }

  /** Reading one frame on a machine of that byte order and draining it: the outcome and what is left in the buffer. */
  function Take(s: seq<byte>, little: bool): (Outcome, seq<byte>) {
    if |s| < 2 then (Again, s)
    else if s[1] < 128 then (Invalid, s)
    else if s[1] % 128 >= 126 then (TooBig, s)
    else if |s| < 6 + s[1] % 128 then (Again, s)
    else (Got(TypeOf(s[0] % 16), Unmasked(s[2..6], s[6..6 + s[1] % 128], little)), s[6 + s[1] % 128..])
  }

  /** Four bytes as a number of 32 bits, the lowest first. */
  function Number32(a: nat, b: nat, c: nat, d: nat): nat {
    a + 0x100 * (b + 0x100 * (c + 0x100 * d))
  }

  /** The key as the machine reads it. */
  function Number(key: seq<byte>, little: bool): nat
    requires |key| == 4
  {
    if little then Number32(key[0], key[1], key[2], key[3]) else Number32(key[3], key[2], key[1], key[0])
  }

  function Shift(i: nat): (p: nat)
    requires i < 4
    ensures p > 0
  {
    if i == 0 then 1 else if i == 1 then 0x100 else if i == 2 then 0x1_0000 else 0x100_0000
  }

  lemma {:induction false} LowByte(a: nat, rest: nat)
    requires a < 0x100
    ensures (a + 0x100 * rest) % 0x100 == a && (a + 0x100 * rest) / 0x100 == rest
  {
  }

  lemma {:induction false} NumberByte(a: nat, b: nat, c: nat, d: nat)
    requires a < 0x100 && b < 0x100 && c < 0x100 && d < 0x100
    ensures var n := Number32(a, b, c, d);
            n % 0x100 == a && n / 0x100 % 0x100 == b && n / 0x1_0000 % 0x100 == c && n / 0x100_0000 % 0x100 == d
  {
    var n := Number32(a, b, c, d);
    LowByte(a, b + 0x100 * (c + 0x100 * d));
    LowByte(b, c + 0x100 * d);
    LowByte(c, d);
    assert n / 0x1_0000 == n / 0x100 / 0x100 && n / 0x100_0000 == n / 0x100 / 0x100 / 0x100;
  }

  /** The low byte of the shifted mask is a byte of the key. */
  lemma {:induction false} KeyByte(key: seq<byte>, little: bool, i: nat)
    requires |key| == 4 && i < 4
    ensures Number(key, little) / Shift(i) % 0x100 == key[if little then i else 3 - i]
  {
    if little {
      NumberByte(key[0], key[1], key[2], key[3]);
    } else {
      NumberByte(key[3], key[2], key[1], key[0]);
    }
  }

  /** On a little-endian machine the payload comes out for every key. */
  lemma {:induction false} LittleUnmasks(key: seq<byte>, data: seq<byte>)
    requires |key| == 4
    ensures Unmasked(key, data, true) == Masked(key, data)
    ensures Unmasked(key, Masked(key, data), true) == data
  {
    MaskedTwice(key, data);
    assert Unmasked(key, Masked(key, data), true) == Masked(key, Masked(key, data));
  }

  /**
   On a big-endian machine, exactly: the key has to read the same in both directions,
   as far as the payload reaches.
   */
  lemma {:induction false} BigUnmasksIff(key: seq<byte>, data: seq<byte>)
    requires |key| == 4
    ensures Unmasked(key, Masked(key, data), false) == data
            <==> (|data| == 0 || key[0] == key[3]) && (|data| < 2 || key[1] == key[2])
  {
    var r := Unmasked(key, Masked(key, data), false);
    forall i | 0 <= i < |data| ensures r[i] == data[i] <==> key[3 - i % 4] == key[i % 4] {
      XorTwice(data[i], key[i % 4]);
      XorInjective(Xor(data[i], key[i % 4]), key[3 - i % 4], key[i % 4]);
    }
    var symmetric := (|data| == 0 || key[0] == key[3]) && (|data| < 2 || key[1] == key[2]);
    if r == data {
      if |data| > 0 { assert r[0] == data[0]; }
      if |data| > 1 { assert r[1] == data[1]; }
    }
    assert symmetric ==> forall i :: 0 <= i < |data| ==> key[3 - i % 4] == key[i % 4];
  }

  datatype Status = Read | WouldBlock | NotMasked | TooLong

  /** What the first bytes say about the frame. */
  function StatusOf(s: seq<byte>): Status {
    if |s| < 2 then WouldBlock
    else if s[1] < 128 then NotMasked
    else if s[1] >= 254 then TooLong
    else if |s| < 6 + s[1] % 128 then WouldBlock
    else Read
  }

  /** The buffer after a frame was read: its payload, unmasked, and what follows. */
  function Opened(s: seq<byte>, little: bool): seq<byte>
    requires StatusOf(s) == Read
  {
    var n := s[1] % 128;
    Unmasked(s[2..6], s[6..6 + n], little) + s[6 + n..]
  }

  /** ws_read, before the caller drains the payload. */
  method ReadFrame(rbuf: Buf, little: bool) returns (status: Status, kind: int, len: nat)
    requires rbuf.Valid()
    modifies rbuf`len, rbuf`cur, rbuf.mem
    ensures rbuf.Valid() && rbuf.mem == old(rbuf.mem)
    ensures var s := old(rbuf.Contents());
            && status == StatusOf(s)
            && (if status == Read
                 then kind == TypeOf(s[0] % 16) && len == s[1] % 128 && rbuf.Contents() == Opened(s, little)
                else rbuf.Contents() == s)
  {
    kind, len := WST_UNKNOWN, 0;
    if rbuf.len < 2 { return WouldBlock, kind, len; }
    var first, second := rbuf.mem[0], rbuf.mem[1];
    if second / 128 != 1 { return NotMasked, kind, len; }
    var op, plen := first % 16, second % 128;
    if plen >= 126 { return TooLong, kind, len; }
    len := plen;
    if op == 0 || op == 1 || op == 2 || op == 8 || op == 9 { kind := op; }
    if rbuf.len < 1 + 1 + 4 + plen { return WouldBlock, kind, len; }
    Decode(rbuf, plen, little);
    return Read, kind, len;
  }

  /** The header and the mask are drained, and the payload is decoded in place. */
  method Decode(rbuf: Buf, plen: nat, little: bool)
    requires rbuf.Valid() && StatusOf(rbuf.Contents()) == Read && plen == rbuf.Contents()[1] % 128
    modifies rbuf`len, rbuf`cur, rbuf.mem
    ensures rbuf.Valid() && rbuf.mem == old(rbuf.mem) && rbuf.Contents() == Opened(old(rbuf.Contents()), little)
  {
    ghost var s := rbuf.Contents();
    rbuf.Drain(2);
    ghost var key := s[2..6];
    assert rbuf.mem[..4] == key;
    var mask := Number(rbuf.mem[..4], little);
    rbuf.Drain(4);
    assert rbuf.Contents() == s[6..];
    Unmask(rbuf, plen, mask, key, little);
    assert s[6..][..plen] == s[6..6 + plen] && s[6..][plen..] == s[6 + plen..];
  }

  /** The loop that decodes the payload. */
  method Unmask(rbuf: Buf, plen: nat, mask: nat, ghost key: seq<byte>, little: bool)
    requires rbuf.Valid() && plen <= rbuf.len && |key| == 4 && mask == Number(key, little)
    modifies rbuf.mem
    ensures rbuf.Contents() == Unmasked(key, old(rbuf.Contents())[..plen], little) + old(rbuf.Contents())[plen..]
  {
    var mem := rbuf.mem;
    ghost var s := rbuf.Contents();
    for i := 0 to plen
      invariant forall k :: 0 <= k < i ==> mem[k] == Xor(s[k], key[if little then k % 4 else 3 - k % 4])
      invariant forall k :: i <= k < rbuf.len ==> mem[k] == s[k]
    {
      KeyByte(key, little, i % 4);
      mem[i] := Xor(mem[i], mask / Shift(i % 4) % 0x100);
    }
  }
}
