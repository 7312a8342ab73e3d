/** The chunked transfer coding of section 7.1 of RFC 9112, without extensions and trailers, and its decoder. */
module Chunked {
  import opened Common
  import opened BufIo

  /** HEXDIG, in either case. */
  function HexValue(b: byte): Option<nat> {
    if '0' as int <= b <= '9' as int then Some(b - '0' as int)
    else if 'a' as int <= b <= 'f' as int then Some(b - 'a' as int + 10)
    else if 'A' as int <= b <= 'F' as int then Some(b - 'A' as int + 10)
    else None
  }

  /** The number of hexadecimal digits at the front. */
  function Digits(s: seq<byte>): (k: nat)
    ensures k <= |s| && forall i :: 0 <= i < k ==> HexValue(s[i]).Some?
  {
    if s == [] || HexValue(s[0]).None? then 0 else 1 + Digits(s[1..])
  }

  function Value(digits: seq<byte>): nat
    requires forall i :: 0 <= i < |digits| ==> HexValue(digits[i]).Some?
  {
    if digits == [] then 0
    else 16 * Value(digits[..|digits| - 1]) + HexValue(digits[|digits| - 1]).value
  }

  predicate HasCrlf(s: seq<byte>, at: nat) {
    at + 2 <= |s| && s[at..at + 2] == CRLF
  }

  /** The body, and what follows the end of the coding; None when it is malformed or incomplete. */
  function Dechunk(s: seq<byte>): Option<(seq<byte>, seq<byte>)>
    decreases |s|
  {
    var k := Digits(s);
    if k == 0 || !HasCrlf(s, k) then None
    else
      var size, data := Value(s[..k]), s[k + 2..];
      if size == 0 then
        if HasCrlf(data, 0) then Some(([], data[2..])) else None
      else if !HasCrlf(data, size) then None
      else
        match Dechunk(data[size + 2..])
        case None => None
        case Some((body, rest)) => Some((data[..size] + body, rest))
  }

  // ---------- what bufio_compose writes ----------

  lemma {:induction false} DigitIsHex(d: nat)
    requires d < 16
    ensures HexValue(Digit(d)) == Some(d)
  {
  }

  /** %zx writes the number in digits. */
  lemma {:induction false} HexIsValue(n: nat)
    ensures forall i :: 0 <= i < |Hex(n)| ==> HexValue(Hex(n)[i]).Some?
    ensures Value(Hex(n)) == n
  {
    DigitIsHex(n % 16);
    if n < 16 {
      assert [Digit(n)][..0] == [];
    } else {
      HexIsValue(n / 16);
      assert Hex(n)[..|Hex(n)| - 1] == Hex(n / 16);
    }
  }

  /** The digits stop where something else follows. */
  lemma {:induction false} DigitsStop(digits: seq<byte>, rest: seq<byte>)
    requires forall i :: 0 <= i < |digits| ==> HexValue(digits[i]).Some?
    requires rest == [] || HexValue(rest[0]).None?
    ensures Digits(digits + rest) == |digits|
  {
    if digits == [] {
      assert digits + rest == rest;
    } else {
      assert (digits + rest)[0] == digits[0] && (digits + rest)[1..] == digits[1..] + rest;
      DigitsStop(digits[1..], rest);
    }
  }

  /** The size line of a chunk is read back. */
  lemma {:induction false} SizeLine(n: nat, rest: seq<byte>)
    ensures var s := Hex(n) + CRLF + rest;
            var k := Digits(s);
            k == |Hex(n)| && HasCrlf(s, k) && s[..k] == Hex(n) && s[k + 2..] == rest
  {
    HexIsValue(n);
    assert Hex(n) + CRLF + rest == Hex(n) + (CRLF + rest);
    DigitsStop(Hex(n), CRLF + rest);
  }

  /** A non-empty chunk is read back, and the decoder goes on behind it. */
  lemma {:induction false} ChunkIsRead(d: seq<byte>, rest: seq<byte>)
    requires d != []
    ensures Dechunk(Chunk(d) + rest) ==
            match Dechunk(rest)
            case None => None
            case Some((body, after)) => Some((d + body, after))
  {
    var data := d + CRLF + rest;
    SizeLine(|d|, data);
    HexIsValue(|d|);
    assert Chunk(d) + rest == Hex(|d|) + CRLF + data;
    assert HasCrlf(data, |d|) && data[..|d|] == d && data[|d| + 2..] == rest;
  }

  /** The chunk of no bytes ends the coding. */
  lemma {:induction false} LastChunkIsRead(rest: seq<byte>)
    ensures Dechunk(Chunk([]) + rest) == Some(([], rest))
  {
    SizeLine(0, CRLF + rest);
    HexIsValue(0);
    var empty: seq<byte> := [];
    assert Chunk(empty) + rest == Hex(0) + CRLF + (CRLF + rest);
    assert (CRLF + rest)[0..2] == CRLF && (CRLF + rest)[2..] == rest;
  }

  function Chunks(pieces: seq<seq<byte>>): seq<byte> {
    if pieces == [] then [] else Chunk(pieces[0]) + Chunks(pieces[1..])
  }

  ghost predicate NonEmpty(pieces: seq<seq<byte>>) {
    forall i :: 0 <= i < |pieces| ==> pieces[i] != []
  }

  lemma {:induction false} ChunksSnoc(pieces: seq<seq<byte>>, piece: seq<byte>)
    ensures Chunks(pieces + [piece]) == Chunks(pieces) + Chunk(piece)
  {
    if pieces == [] {
      assert pieces + [piece] == [piece] && [piece][1..] == [];
    } else {
      assert (pieces + [piece])[0] == pieces[0] && (pieces + [piece])[1..] == pieces[1..] + [piece];
      ChunksSnoc(pieces[1..], piece);
    }
  }

  lemma {:induction false} FrontChunk<T>(a: seq<T>, b: seq<T>, c: seq<T>, d: seq<T>)
    ensures a + b + c + d == a + (b + c + d)
  {
  }

  /** Non-empty chunks and the last one decode to the concatenation of the pieces, with nothing left over. */
  lemma {:induction false} DechunkChunks(pieces: seq<seq<byte>>, rest: seq<byte>)
    requires NonEmpty(pieces)
    ensures Dechunk(Chunks(pieces) + Chunk([]) + rest) == Some((Flatten(pieces), rest))
  {
    if pieces == [] {
      LastChunkIsRead(rest);
      assert Chunks(pieces) + Chunk([]) + rest == Chunk([]) + rest;
    } else {
      DechunkChunks(pieces[1..], rest);
      ChunkIsRead(pieces[0], Chunks(pieces[1..]) + Chunk([]) + rest);
      FrontChunk(Chunk(pieces[0]), Chunks(pieces[1..]), Chunk([]), rest);
    }
  }

  /** Before the last chunk the coding is incomplete: no earlier chunk ends it. */
  lemma {:induction false} NoEarlyEnd(pieces: seq<seq<byte>>)
    requires NonEmpty(pieces)
    ensures Dechunk(Chunks(pieces)) == None
  {
    if pieces != [] {
      NoEarlyEnd(pieces[1..]);
      ChunkIsRead(pieces[0], Chunks(pieces[1..]));
    }
  }

  function Power16(k: nat): nat {
    if k == 0 then 1 else 16 * Power16(k - 1)
  }

  /** How long the digits of a number are, exactly. */
  lemma {:induction false} HexLength(n: nat, k: nat)
    requires 0 < k
    ensures |Hex(n)| <= k <==> n < Power16(k)
  {
    if k == 1 {
      assert Power16(0) == 1;
    } else if n >= 16 {
      HexLength(n / 16, k - 1);
    } else {
      PowerPositive(k - 1);
    }
  }

  lemma {:induction false} PowerPositive(k: nat)
    ensures Power16(k) >= 1
  {
    if k > 0 { PowerPositive(k - 1); }
  }

  /** bufio_compose refuses a chunk exactly when its size has more than thirteen digits. */
  lemma {:induction false} ComposeLimit(len: nat)
    ensures |Hex(len)| + 2 < 16 <==> len < 0x10_0000_0000_0000
  {
    HexLength(len, 13);
    assert Power16(3) == 0x1000;
    assert Power16(6) == 0x100_0000;
    assert Power16(9) == 0x10_0000_0000;
    assert Power16(12) == 0x1_0000_0000_0000;
    assert Power16(13) == 0x10_0000_0000_0000;
  }
}
