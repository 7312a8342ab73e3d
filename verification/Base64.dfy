/** b64encode of web/ws.c and the accept key of the WebSocket handshake. */
module Base64 {
  import opened Common
  import Sha1Spec
  import Sha1Context

  const PAD: byte := '=' as int

  /** tob64: the letter of a number below 64, else -1. */
  function ToB64(ch: byte): (r: int)
    ensures r == -1 <==> ch >= 64
    ensures -1 <= r < 0x100
  {
    if ch < 26 then 'A' as int + ch
    else if ch - 26 < 26 then 'a' as int + (ch - 26)
    else if ch - 52 < 10 then '0' as int + (ch - 52)
    else if ch == 62 then '+' as int
    else if ch == 63 then '/' as int
    else -1
  }

  function Letter(x: nat): byte {
    ToB64(x % 64)
  }

  /** The alphabet of section 4 of RFC 4648, read backwards. */
  function Sextet(b: byte): Option<nat> {
    if 'A' as int <= b <= 'Z' as int then Some(b - 'A' as int)
    else if 'a' as int <= b <= 'z' as int then Some(b - 'a' as int + 26)
    else if '0' as int <= b <= '9' as int then Some(b - '0' as int + 52)
    else if b == '+' as int then Some(62)
    else if b == '/' as int then Some(63)
    else None
  }

  lemma {:induction false} SextetOfLetter(x: nat)
    ensures Sextet(Letter(x)) == Some(x % 64) && Letter(x) != PAD
  {
  }

  /** One group of four letters for up to three bytes, as the code computes them. */
  function Group(s: seq<byte>): (g: seq<byte>)
    requires s != []
    ensures |g| == 4
  {
    var a := s[0] as nat;
    if |s| == 1 then [Letter(a / 4), Letter(a * 16), PAD, PAD]
    else
      var b := s[1] as nat;
      if |s| == 2 then [Letter(a / 4), Letter(a * 16 + b / 16), Letter(b * 4), PAD]
      else
        var c := s[2] as nat;
        [Letter(a / 4), Letter(a * 16 + b / 16), Letter(b * 4 + c / 64), Letter(c)]
  }

  function Encode(s: seq<byte>): seq<byte>
    decreases |s|
  {
    if s == [] then [] else Group(s) + Encode(if |s| <= 3 then [] else s[3..])
  }

  /** The three bytes of four numbers below 64. */
  function First(a: nat, b: nat): nat { a * 4 + b / 16 }
  function Second(b: nat, c: nat): nat { b % 16 * 16 + c / 4 }
  function Third(c: nat, d: nat): nat { c % 4 * 64 + d }

  function ByteOf(x: nat): byte {
    x % 0x100
  }

  /** A decoder of section 4 of RFC 4648: padding only in the last group, with the spare bits zero. */
  function Decode(t: seq<byte>): Option<seq<byte>>
    decreases |t|
  {
    if t == [] then Some([])
    else if |t| < 4 then None
    else if t[3] != PAD then
      match (Sextet(t[0]), Sextet(t[1]), Sextet(t[2]), Sextet(t[3]))
      case (Some(a), Some(b), Some(c), Some(d)) =>
        var rest := Decode(t[4..]);
        if rest.None? then None else Some([ByteOf(First(a, b)), ByteOf(Second(b, c)), ByteOf(Third(c, d))] + rest.value)
      case _ => None
    else if |t| != 4 then None
    else if t[2] != PAD then
      match (Sextet(t[0]), Sextet(t[1]), Sextet(t[2]))
      case (Some(a), Some(b), Some(c)) => if c % 4 != 0 then None else Some([ByteOf(First(a, b)), ByteOf(Second(b, c))])
      case _ => None
    else
      match (Sextet(t[0]), Sextet(t[1]))
      case (Some(a), Some(b)) => if b % 16 != 0 then None else Some([ByteOf(First(a, b))])
      case _ => None
  }

  /** Two bits of one byte beside four of the next, and four beside two. */
  lemma {:induction false} TwoBesideFour(x: nat, q: nat)
    requires q < 16
    ensures (x * 16 + q) % 64 / 16 == x % 4 && (x * 16 + q) % 64 % 16 == q
  {
    var u := x / 4;
    assert x * 16 + q == 64 * u + (16 * (x % 4) + q);
    Below64(u, 16 * (x % 4) + q);
  }

  lemma {:induction false} FourBesideTwo(x: nat, q: nat)
    requires q < 4
    ensures (x * 4 + q) % 64 / 4 == x % 16 && (x * 4 + q) % 64 % 4 == q
  {
    var v := x / 16;
    assert x * 4 + q == 64 * v + (4 * (x % 16) + q);
    Below64(v, 4 * (x % 16) + q);
  }

  lemma {:induction false} Below64(u: nat, r: nat)
    requires r < 64
    ensures (64 * u + r) % 64 == r
  {
  }

  lemma {:induction false} FirstBack(x: byte, q: nat)
    requires q < 16
    ensures ByteOf(First(x as nat / 4 % 64, (x as nat * 16 + q) % 64)) == x
  {
    TwoBesideFour(x, q);
  }

  lemma {:induction false} SecondBack(p: nat, x: byte, q: nat)
    requires q < 4
    ensures ByteOf(Second((p * 16 + x as nat / 16) % 64, (x as nat * 4 + q) % 64)) == x
  {
    TwoBesideFour(p, x as nat / 16);
    FourBesideTwo(x, q);
  }

  lemma {:induction false} ThirdBack(p: nat, x: byte)
    ensures ByteOf(Third((p * 4 + x as nat / 64) % 64, x as nat % 64)) == x
  {
    FourBesideTwo(p, x as nat / 64);
  }

  /** The three forms of a group, given what its letters stand for. */
  lemma {:induction false} OneByteGroup(l: seq<byte>, x: nat, y: nat, a: byte)
    requires |l| == 2 && Sextet(l[0]) == Some(x) && Sextet(l[1]) == Some(y) && y % 16 == 0 && ByteOf(First(x, y)) == a
    ensures Decode(l + [PAD, PAD]) == Some([a])
  {
  }

  lemma {:induction false} TwoByteGroup(l: seq<byte>, x: nat, y: nat, z: nat, a: byte, b: byte)
    requires |l| == 3 && Sextet(l[0]) == Some(x) && Sextet(l[1]) == Some(y) && Sextet(l[2]) == Some(z)
    requires z % 4 == 0 && ByteOf(First(x, y)) == a && ByteOf(Second(y, z)) == b
    ensures Decode(l + [PAD]) == Some([a, b])
  {
  }

  lemma {:induction false} ThreeByteGroup(l: seq<byte>, x: nat, y: nat, z: nat, w: nat, a: byte, b: byte, c: byte,
      rest: seq<byte>)
    requires |l| == 4 && Sextet(l[0]) == Some(x) && Sextet(l[1]) == Some(y) && Sextet(l[2]) == Some(z)
             && Sextet(l[3]) == Some(w)
    requires ByteOf(First(x, y)) == a && ByteOf(Second(y, z)) == b && ByteOf(Third(z, w)) == c && Decode(rest).Some?
    ensures Decode(l + rest) == Some([a, b, c] + Decode(rest).value)
  {
    assert (l + rest)[4..] == rest;
  }

  lemma {:induction false} DecodeOne(a: byte)
    ensures Decode(Group([a])) == Some([a])
  {
    var x, y := a as nat / 4, a as nat * 16;
    SextetOfLetter(x);
    SextetOfLetter(y);
    TwoBesideFour(a, 0);
    FirstBack(a, 0);
    OneByteGroup([Letter(x), Letter(y)], x % 64, y % 64, a);
  }

  lemma {:induction false} DecodeTwo(a: byte, b: byte)
    ensures Decode(Group([a, b])) == Some([a, b])
  {
    var x, y, z := a as nat / 4, a as nat * 16 + b as nat / 16, b as nat * 4;
    SextetOfLetter(x);
    SextetOfLetter(y);
    SextetOfLetter(z);
    FourBesideTwo(b, 0);
    FirstBack(a, b as nat / 16);
    SecondBack(a, b, 0);
    TwoByteGroup([Letter(x), Letter(y), Letter(z)], x % 64, y % 64, z % 64, a, b);
  }

  lemma {:induction false} DecodeThree(a: byte, b: byte, c: byte, rest: seq<byte>)
    requires Decode(rest).Some?
    ensures Decode(Group([a, b, c]) + rest) == Some([a, b, c] + Decode(rest).value)
  {
    var x, y, z, w := a as nat / 4, a as nat * 16 + b as nat / 16, b as nat * 4 + c as nat / 64, c as nat;
    SextetOfLetter(x);
    SextetOfLetter(y);
    SextetOfLetter(z);
    SextetOfLetter(w);
    FirstBack(a, b as nat / 16);
    SecondBack(a, b, c as nat / 64);
    ThirdBack(b, c);
    ThreeByteGroup([Letter(x), Letter(y), Letter(z), Letter(w)], x % 64, y % 64, z % 64, w % 64, a, b, c, rest);
  }

  /** The front group and the rest. */
  lemma {:induction false} EncodeParts(s: seq<byte>)
    requires s != []
    ensures |s| == 1 ==> s == [s[0]] && Encode(s) == Group([s[0]])
    ensures |s| == 2 ==> s == [s[0], s[1]] && Encode(s) == Group([s[0], s[1]])
    ensures |s| >= 3 ==> s == [s[0], s[1], s[2]] + s[3..] && Encode(s) == Group([s[0], s[1], s[2]]) + Encode(s[3..])
  {
    assert Encode([]) == [];
  }

  /** Every encoding decodes to what was encoded. */
  lemma {:induction false} DecodeEncode(s: seq<byte>)
    ensures Decode(Encode(s)) == Some(s)
    decreases |s|
  {
    if s != [] {
      EncodeParts(s);
      if |s| == 1 {
        DecodeOne(s[0]);
      } else if |s| == 2 {
        DecodeTwo(s[0], s[1]);
      } else {
        DecodeEncode(s[3..]);
        DecodeThree(s[0], s[1], s[2], Encode(s[3..]));
      }
    }
  }

  lemma {:induction false} EncodeLength(s: seq<byte>)
    ensures |Encode(s)| == (|s| + 2) / 3 * 4
    decreases |s|
  {
    if |s| > 3 {
      EncodeLength(s[3..]);
      ThirdsStep(|s| - 3);
      assert |Encode(s)| == 4 + |Encode(s[3..])|;
    } else if s != [] {
      assert |Encode(s)| == 4;
    }
  }

  lemma {:induction false} ThirdsStep(n: nat)
    ensures (n + 3 + 2) / 3 * 4 == (n + 2) / 3 * 4 + 4
  {
  }

  // ---------- the loop ----------

  /** SET: one letter goes to the output. */
  method Set(x: nat, out: array<byte>, o: nat)
    requires o < out.Length
    modifies out
    ensures out[o] == Letter(x) && forall k :: 0 <= k < out.Length && k != o ==> out[k] == old(out[k])
  {
    var r := ToB64(x % 64);
    if r != -1 { out[o] := r; }
  }

  /** The cases of the switch in b64encode. */
  method PutOne(a: nat, out: array<byte>, o: nat)
    requires o + 4 <= out.Length
    modifies out
    ensures out[o..o + 4] == [Letter(a / 4), Letter(a * 16), PAD, PAD] && out[..o] == old(out[..o])
  {
    Set(a / 4, out, o);
    Set(a * 16, out, o + 1);
    PutPad(out, o + 2);
    PutPad(out, o + 3);
  }

  method PutTwo(a: nat, b: nat, out: array<byte>, o: nat)
    requires o + 4 <= out.Length
    modifies out
    ensures out[o..o + 4] == [Letter(a / 4), Letter(a * 16 + b / 16), Letter(b * 4), PAD] && out[..o] == old(out[..o])
  {
    Set(a / 4, out, o);
    Set(a * 16 + b / 16, out, o + 1);
    Set(b * 4, out, o + 2);
    PutPad(out, o + 3);
  }

  method PutThree(a: nat, b: nat, c: nat, out: array<byte>, o: nat)
    requires o + 4 <= out.Length
    modifies out
    ensures out[o..o + 4] == [Letter(a / 4), Letter(a * 16 + b / 16), Letter(b * 4 + c / 64), Letter(c)]
    ensures out[..o] == old(out[..o])
  {
    Set(a / 4, out, o);
    Set(a * 16 + b / 16, out, o + 1);
    Set(b * 4 + c / 64, out, o + 2);
    Set(c, out, o + 3);
  }

  /** One round of the loop of b64encode. */
  method PutGroup(s: seq<byte>, out: array<byte>, o: nat)
    requires s != [] && o + 4 <= out.Length
    modifies out
    ensures out[..o + 4] == old(out[..o]) + Group(s)
  {
    if |s| == 1 {
      PutOne(s[0], out, o);
    } else if |s| == 2 {
      PutTwo(s[0], s[1], out, o);
    } else {
      PutThree(s[0], s[1], s[2], out, o);
    }
    assert out[..o + 4] == out[..o] + out[o..o + 4];
  }

  method PutPad(out: array<byte>, o: nat)
    requires o < out.Length
    modifies out
    ensures out[o] == PAD && forall k :: 0 <= k < out.Length && k != o ==> out[k] == old(out[k])
  {
    out[o] := PAD;
  }

  /** b64encode: refused exactly when the output and its terminator do not fit. */
  method B64Encode(input: seq<byte>, out: array<byte>) returns (ok: bool)
    modifies out
    ensures ok == (|Encode(input)| < out.Length)
    ensures ok ==> out[..|Encode(input)|] == Encode(input) && out[|Encode(input)|] == 0
  {
    var p: nat, o: nat := 0, 0;
    assert input[0..] == input;
    while p < |input|
      invariant p <= |input| && o <= out.Length
      invariant out[..o] + Encode(input[p..]) == Encode(input)
      decreases |input| - p
    {
      EncodeFront(input[p..]);
      if out.Length - o < 4 { return false; }
      ghost var before := out[..o];
      PutGroup(input[p..], out, o);
      GroupAdded(before, input, p);
      o := o + 4;
      p := if |input| - p <= 3 then |input| else p + 3;
    }
    ok := o < out.Length;
    if ok { out[o] := 0; }
  }

  lemma {:induction false} EncodeFront(s: seq<byte>)
    requires s != []
    ensures |Encode(s)| >= 4
  {
  }

  lemma {:induction false} GroupAdded(before: seq<byte>, input: seq<byte>, p: nat)
    requires p < |input|
    ensures var next := if |input| - p <= 3 then |input| else p + 3;
            before + Encode(input[p..]) == before + Group(input[p..]) + Encode(input[next..])
  {
    if |input| - p > 3 { assert input[p..][3..] == input[p + 3..]; }
  }

  // ---------- the handshake ----------

  /** The same bytes as numbers. */
  function Numbers(s: seq<bv8>): (r: seq<byte>)
    ensures |r| == |s|
  {
    seq(|s|, i requires 0 <= i < |s| => s[i] as byte)
  }

  /** ws_accept_hdr: the digest of the key and the identifier, in base64; 29 bytes are needed. */
  method AcceptHeader(secret: seq<bv8>, guid: seq<bv8>, little: bool, out: array<byte>) returns (ok: bool)
    modifies out
    ensures ok == (28 < out.Length)
    ensures ok ==> Decode(out[..28]) == Some(Numbers(Sha1Spec.Sha1(secret + guid))) && out[28] == 0
  {
    var digest := Sha1Context.HashPieces([secret, guid], little);
    FlattenTwo(secret, guid);
    HashFits(Numbers(digest));
    DecodeEncode(Numbers(digest));
    ok := B64Encode(Numbers(digest), out);
  }

  lemma {:induction false} FlattenTwo<T>(a: seq<T>, b: seq<T>)
    ensures Flatten([a, b]) == a + b
  {
    assert [a, b][1..] == [b];
    FlattenOne(b);
  }

  lemma {:induction false} HashFits(digest: seq<byte>)
    requires |digest| == 20
    ensures |Encode(digest)| == 28
  {
    EncodeLength(digest);
  }
}
