/** The byte format of an imsg: a 16-byte header in host order, then the payload. */
module ImsgFormat {
  import opened Common
  import opened ImsgReader

  type u32 = v: int | 0 <= v < 0x1_0000_0000

  const HEADER_SIZE: nat := 16
  const FD_MARK: nat := 0x8000_0000

  /** What the two ends agree on: the host byte order and the size limit. */
  datatype Format = Format(bigEndian: bool, maxsize: nat) {
    predicate Valid() {
      HEADER_SIZE <= maxsize < FD_MARK
    }
  }

  datatype Header = Header(kind: u32, len: u32, peerid: u32, pid: u32)

  /** A message as the caller of imsg_compose and imsg_get sees it. */
  datatype Msg = Msg(kind: u32, id: u32, pid: u32, payload: seq<byte>)

  function PutH32(f: Format, v: u32): (s: seq<byte>)
    ensures |s| == 4
  {
    var q1 := v / 0x100;
    var q2 := q1 / 0x100;
    var q3 := q2 / 0x100;
    if f.bigEndian then [q3, q2 % 0x100, q1 % 0x100, v % 0x100]
    else [v % 0x100, q1 % 0x100, q2 % 0x100, q3]
  }

  function GetH32(f: Format, s: seq<byte>): u32
    requires |s| == 4
  {
    var b0: int, b1: int, b2: int, b3: int :=
      if f.bigEndian then s[3] else s[0], if f.bigEndian then s[2] else s[1],
      if f.bigEndian then s[1] else s[2], if f.bigEndian then s[0] else s[3];
    b0 + 0x100 * b1 + 0x1_0000 * b2 + 0x100_0000 * b3
  }

  lemma {:induction false} GetPut(f: Format, v: u32)
    ensures GetH32(f, PutH32(f, v)) == v
  {
    var q1 := v / 0x100;
    var q2 := q1 / 0x100;
    var q3 := q2 / 0x100;
    assert v == 0x100 * q1 + v % 0x100;
    assert q1 == 0x100 * q2 + q1 % 0x100;
    assert q2 == 0x100 * q3 + q2 % 0x100;
  }

  function PutHeader(f: Format, h: Header): (s: seq<byte>)
    ensures |s| == HEADER_SIZE
  {
    PutH32(f, h.kind) + PutH32(f, h.len) + PutH32(f, h.peerid) + PutH32(f, h.pid)
  }

  function GetHeader(f: Format, s: seq<byte>): Header
    requires HEADER_SIZE <= |s|
  {
    Header(GetH32(f, s[0..4]), GetH32(f, s[4..8]), GetH32(f, s[8..12]), GetH32(f, s[12..16]))
  }

  lemma {:induction false} GetPutHeader(f: Format, h: Header, tail: seq<byte>)
    ensures GetHeader(f, PutHeader(f, h) + tail) == h
  {
    var s := PutHeader(f, h) + tail;
    assert s[0..4] == PutH32(f, h.kind);
    assert s[4..8] == PutH32(f, h.len);
    assert s[8..12] == PutH32(f, h.peerid);
    assert s[12..16] == PutH32(f, h.pid);
    GetPut(f, h.kind);
    GetPut(f, h.len);
    GetPut(f, h.peerid);
    GetPut(f, h.pid);
  }

  /** Only the first sixteen bytes matter. */
  lemma {:induction false} HeaderOnly(f: Format, s: seq<byte>)
    requires HEADER_SIZE <= |s|
    ensures GetHeader(f, s[..HEADER_SIZE]) == GetHeader(f, s)
  {
    var h := s[..HEADER_SIZE];
    assert h[0..4] == s[0..4] && h[4..8] == s[4..8] && h[8..12] == s[8..12] && h[12..16] == s[12..16];
  }

  /** imsg_parse_hdr: the announced length without the descriptor mark, refused when out of range. */
  function ParseHdr(f: Format, s: seq<byte>): Option<Announced> {
    if |s| < HEADER_SIZE then None
    else
      var h := GetHeader(f, s);
      var len := h.len % FD_MARK;
      if len < HEADER_SIZE || f.maxsize < len then None else Some(Announced(len, FD_MARK <= h.len))
  }

  /** The reader that imsgbuf_init sets up. */
  function ImsgConf(f: Format): (c: Conf)
    ensures c.Valid()
  {
    Conf(HEADER_SIZE, (s: seq<byte>) => ParseHdr(f, s))
  }

  predicate Fits(f: Format, m: Msg) {
    |m.payload| + HEADER_SIZE <= f.maxsize
  }

  function MessageHeader(m: Msg, marked: bool): Header
    requires |m.payload| + HEADER_SIZE < FD_MARK
  {
    Header(m.kind, |m.payload| + HEADER_SIZE + (if marked then FD_MARK else 0), m.id, m.pid)
  }

  function Encode(f: Format, m: Msg, marked: bool): seq<byte>
    requires |m.payload| + HEADER_SIZE < FD_MARK
  {
    PutHeader(f, MessageHeader(m, marked)) + m.payload
  }

  /** What imsg_get hands out for a complete frame. */
  function Decode(f: Format, frame: seq<byte>): Msg
    requires HEADER_SIZE <= |frame|
  {
    var h := GetHeader(f, frame);
    Msg(h.kind, h.peerid, h.pid, frame[HEADER_SIZE..])
  }

  lemma {:induction false} DecodeEncode(f: Format, m: Msg, marked: bool)
    requires |m.payload| + HEADER_SIZE < FD_MARK
    ensures |Encode(f, m, marked)| == HEADER_SIZE + |m.payload|
    ensures f.Valid() && Fits(f, m) ==>
              ParseHdr(f, Encode(f, m, marked)[..HEADER_SIZE]) == Some(Announced(|Encode(f, m, marked)|, marked))
    ensures Decode(f, Encode(f, m, marked)) == m
  {
    var h := MessageHeader(m, marked);
    GetPutHeader(f, h, m.payload);
    if f.Valid() && Fits(f, m) { HeaderAnnounces(f, m, marked); }
  }

  /**
   Where the fields of a message are: type, length, id and process id, four bytes each, and
   the payload. The highest bit of the length says that a descriptor comes along.
   */
  lemma {:induction false} Layout(f: Format, m: Msg, marked: bool)
    requires |m.payload| + HEADER_SIZE < FD_MARK
    ensures var s := Encode(f, m, marked);
            && GetH32(f, s[0..4]) == m.kind
            && GetH32(f, s[4..8]) == 16 + |m.payload| + (if marked then 0x8000_0000 else 0)
            && GetH32(f, s[8..12]) == m.id
            && GetH32(f, s[12..16]) == m.pid
            && s[16..] == m.payload
  {
    GetPutHeader(f, MessageHeader(m, marked), m.payload);
  }

  /** A number in the order of the host: on a little-endian machine the lowest byte comes first. */
  lemma {:induction false} HostOrder(f: Format, v: u32)
    ensures var s := PutH32(f, v);
            var s0: int, s1: int, s2: int, s3: int := s[0], s[1], s[2], s[3];
            v == if f.bigEndian then ((s0 * 0x100 + s1) * 0x100 + s2) * 0x100 + s3
                 else ((s3 * 0x100 + s2) * 0x100 + s1) * 0x100 + s0
  {
    GetPut(f, v);
  }

  lemma {:induction false} HeaderAnnounces(f: Format, m: Msg, marked: bool)
    requires f.Valid() && Fits(f, m)
    ensures ParseHdr(f, Encode(f, m, marked)[..HEADER_SIZE])
         == Some(Announced(HEADER_SIZE + |m.payload|, marked))
  {
    var h := MessageHeader(m, marked);
    GetPutHeader(f, h, []);
    assert Encode(f, m, marked)[..HEADER_SIZE] == PutHeader(f, h) + [];
  }

  /** Overwriting the length field of an encoded header. */
  lemma {:induction false} PatchLen(f: Format, h: Header, len: u32, payload: seq<byte>)
    ensures var s := PutHeader(f, h) + payload;
            s[..4] + PutH32(f, len) + s[8..] == PutHeader(f, h.(len := len)) + payload
  {
    var s := PutHeader(f, h) + payload;
    assert s[..4] == PutH32(f, h.kind);
    assert s[8..] == PutH32(f, h.peerid) + PutH32(f, h.pid) + payload;
  }
}
