/** compat/sha1.c: the context that collects a message in pieces, the padding and the digest. */
module Sha1Context {
  import opened Common
  import opened Sha1Spec
  import opened Sha1

  // ---------- whole blocks ----------

  lemma {:induction false} BlocksAppend(h: Regs, a: seq<bv8>, b: seq<bv8>)
    requires |a| % 64 == 0
    ensures Blocks(h, a + b) == Blocks(Blocks(h, a), b)
    decreases |a|
  {
    if a == [] {
      assert a + b == b;
    } else {
      assert (a + b)[..64] == a[..64] && (a + b)[64..] == a[64..] + b;
      BlocksAppend(Compress(h, a[..64]), a[64..], b);
    }
  }

  lemma {:induction false} OneBlock(h: Regs, block: seq<bv8>)
    requires |block| == 64
    ensures Blocks(h, block) == Compress(h, block)
  {
    assert block[..64] == block && block[64..] == [];
  }

  /** One more block behind whole blocks. */
  lemma {:induction false} NextBlock(h: Regs, whole: seq<bv8>, block: seq<bv8>)
    requires |whole| % 64 == 0 && |block| == 64
    ensures Blocks(h, whole + block) == Compress(Blocks(h, whole), block) && |whole + block| % 64 == 0
  {
    BlocksAppend(h, whole, block);
    OneBlock(Blocks(h, whole), block);
  }

  // ---------- the bit count ----------

  function Count(len: nat): nat {
    8 * len % TWO_TO_64
  }

  /** The count wraps around at 2^64, but never loses the position in the block. */
  lemma {:induction false} CountPosition(len: nat)
    ensures Count(len) / 8 % 64 == len % 64
  {
    var q, r := len / 0x2000_0000_0000_0000, len % 0x2000_0000_0000_0000;
    assert 8 * len == TWO_TO_64 * q + 8 * r;
    Below(8 * len, q, 8 * r);
    Sixtyfourths(q * 0x80_0000_0000_0000, r);
    assert len == 64 * (q * 0x80_0000_0000_0000) + r;
  }

  lemma {:induction false} Below(x: nat, q: nat, r: nat)
    requires x == TWO_TO_64 * q + r && r < TWO_TO_64
    ensures x % TWO_TO_64 == r
  {
  }

  lemma {:induction false} Sixtyfourths(q: nat, r: nat)
    ensures (64 * q + r) % 64 == r % 64
  {
  }

  lemma {:induction false} CountAdds(len: nat, more: nat)
    ensures (Count(len) + 8 * more) % TWO_TO_64 == Count(len + more)
  {
  }

  lemma {:induction false} PositionIsTail(whole: seq<bv8>, tail: seq<bv8>)
    requires |whole| % 64 == 0 && |tail| < 64
    ensures Count(|whole + tail|) / 8 % 64 == |tail|
  {
    CountPosition(|whole| + |tail|);
    Remainder(|whole|, |tail|);
  }

  lemma {:induction false} Remainder(a: nat, b: nat)
    requires a % 64 == 0 && b < 64
    ensures (a + b) % 64 == b
  {
  }

  // ---------- the context ----------

  class Context {
    const state: array<bv32>
    const buffer: array<bv8>
    const little: bool            // BYTE_ORDER
    var count: nat
    ghost var whole: seq<bv8>     // the blocks hashed so far
    ghost var tail: seq<bv8>      // the bytes that wait in the buffer

    /** The hash of the whole blocks, the other bytes in the buffer, and the number of bits, modulo 2^64. */
    ghost predicate Valid()
      reads this, state, buffer
    {
      Hashed() && count == Count(|Message()|)
    }

    ghost predicate Hashed()
      reads this, state, buffer
    {
      && state.Length == 5 && buffer.Length == 64
      && |whole| % 64 == 0 && Value(state[..]) == Blocks(INITIAL, whole)
      && |tail| < 64 && buffer[..|tail|] == tail
    }

    /** The message so far. */
    ghost function Message(): seq<bv8>
      reads this
    {
      whole + tail
    }

    /** SHA1Init */
    constructor (little: bool)
      ensures Valid() && Message() == [] && fresh(state) && fresh(buffer)
    {
      this.little, count, whole, tail := little, 0, [], [];
      state, buffer := new bv32[5], new bv8[64](_ => 0);
      new;
      state[0], state[1], state[2] := 0x67452301, 0xEFCDAB89, 0x98BADCFE;
      state[3], state[4] := 0x10325476, 0xC3D2E1F0;
    }

    /** memcpy into the buffer */
    method Copy(j: nat, piece: seq<bv8>)
      requires j + |piece| <= buffer.Length
      modifies buffer
      ensures buffer[..] == old(buffer[..j]) + piece + old(buffer[j + |piece|..])
    {
      for k := 0 to |piece|
        invariant buffer[..j] == old(buffer[..j]) && buffer[j..j + k] == piece[..k]
        invariant buffer[j + k..] == old(buffer[j + k..])
      {
        buffer[j + k] := piece[k];
      }
      assert buffer[..] == buffer[..j] + buffer[j..j + |piece|] + buffer[j + |piece|..];
    }

    /** One block has been hashed. */
    method HashBlock(block: seq<bv8>)
      requires |block| == 64 && state.Length == 5
      requires |whole| % 64 == 0 && Value(state[..]) == Blocks(INITIAL, whole)
      modifies state, this`whole
      ensures whole == old(whole) + block && |whole| % 64 == 0 && Value(state[..]) == Blocks(INITIAL, whole)
    {
      NextBlock(INITIAL, whole, block);
      Transform(state, block, little);
      whole := whole + block;
    }

    /** The first half of SHA1Update: fill up the buffer, hash it and the whole blocks that follow. */
    method HashWhole(j: nat, data: seq<bv8>) returns (i: nat)
      requires |tail| == j < 64 && j + |data| > 63 && Hashed()
      modifies state, buffer, this`whole
      ensures i <= |data| < i + 64
      ensures whole == old(Message()) + data[..i] && |whole| % 64 == 0 && Value(state[..]) == Blocks(INITIAL, whole)
    {
      i := 64 - j;
      ghost var start := Message();
      Copy(j, data[..i]);
      assert buffer[..] == tail + data[..i];
      HashBlock(buffer[..]);
      AppendAssoc(old(whole), tail, data[..i]);
      i := HashRest(start, data, i);
    }

    /** The whole blocks that follow. */
    method HashRest(ghost start: seq<bv8>, data: seq<bv8>, from: nat) returns (i: nat)
      requires state.Length == 5 && from <= |data| && whole == start + data[..from] && |whole| % 64 == 0
      requires Value(state[..]) == Blocks(INITIAL, whole)
      modifies state, this`whole
      ensures i <= |data| < i + 64
      ensures whole == start + data[..i] && |whole| % 64 == 0 && Value(state[..]) == Blocks(INITIAL, whole)
    {
      i := from;
      while i + 63 < |data|
        invariant i <= |data|
        invariant whole == start + data[..i] && |whole| % 64 == 0 && Value(state[..]) == Blocks(INITIAL, whole)
      {
        HashBlock(data[i..i + 64]);
        PieceAfter(start, data, i, i + 64);
        i := i + 64;
      }
    }

    /** The data reaches the end of the buffer. */
    method UpdateLong(j: nat, data: seq<bv8>)
      requires |tail| == j < 64 && j + |data| > 63 && Hashed()
      modifies state, buffer, this`whole, this`tail
      ensures Hashed() && Message() == old(Message()) + data
    {
      ghost var before := Message();
      var i := HashWhole(j, data);
      Copy(0, data[i..]);
      tail := data[i..];
      PieceAfter(before, data, i, |data|);
    }

    /** It does not: it only joins what waits in the buffer. */
    method UpdateShort(j: nat, data: seq<bv8>)
      requires |tail| == j && j + |data| <= 63 && Hashed()
      modifies buffer, this`tail
      ensures Hashed() && Message() == old(Message()) + data
    {
      Copy(j, data);
      AppendAssoc(whole, tail, data);
      tail := tail + data;
    }

    /** SHA1Update */
    method Update(data: seq<bv8>)
      requires Valid()
      modifies this, state, buffer
      ensures Valid() && Message() == old(Message()) + data
    {
      PositionIsTail(whole, tail);
      CountAdds(|Message()|, |data|);
      var j := count / 8 % 64;
      count := (count + 8 * |data|) % TWO_TO_64;
      if j + |data| > 63 {
        UpdateLong(j, data);
      } else {
        UpdateShort(j, data);
      }
    }

    /** The eight bytes of the count, taken before the padding. */
    method FinalCount() returns (field: seq<bv8>)
      ensures field == LengthField(count)
    {
      field := [];
      for i := 0 to 8
        invariant field == LengthField(count)[..i]
      {
        TakeOneMore(LengthField(count), i);
        field := field + [ByteOf(count, i)];
      }
    }

    /** SHA1Pad */
    method Pad()
      requires Valid()
      modifies this, state, buffer
      ensures Valid() && Message() == Padded(old(Message())) && tail == []
    {
      var field := FinalCount();
      ghost var start, zeros := Message(), 0;
      PositionIsTail(whole, tail);
      Update([0x80]);
      PositionIsTail(whole, tail);
      while count / 8 % 64 * 8 != 448
        invariant Valid() && zeros <= Gap(|start|) && Message() == start + [0x80] + Zeros(zeros)
        invariant count / 8 % 64 == |tail|
        decreases Gap(|start|) - zeros
      {
        GapIsNext(whole, tail, start, zeros);
        Update([0]);
        OneMoreZero(start + [0x80], zeros);
        PositionIsTail(whole, tail);
        zeros := zeros + 1;
      }
      GapIsNext(whole, tail, start, zeros);
      Update(field);
      PaddedWhole(whole, tail, start);
    }

    /** The digest: the bytes of the five words. */
    method Digest() returns (digest: seq<bv8>)
      requires state.Length == 5
      ensures digest == Bytes(Value(state[..]))
    {
      digest := [];
      for i := 0 to 20
        invariant digest == Bytes(Value(state[..]))[..i]
      {
        NextByte(state[..], i, digest);
        digest := digest + [WordBytes(state[i / 4])[i % 4]];
      }
    }

    /** explicit_bzero of the context */
    method Wipe()
      modifies this, state, buffer
      ensures count == 0
      ensures forall i :: 0 <= i < state.Length ==> state[i] == 0
      ensures forall i :: 0 <= i < buffer.Length ==> buffer[i] == 0
    {
      count := 0;
      for i := 0 to state.Length
        invariant count == 0 && forall k :: 0 <= k < i ==> state[k] == 0
      {
        state[i] := 0;
      }
      for i := 0 to buffer.Length
        invariant count == 0 && forall k :: 0 <= k < i ==> buffer[k] == 0
        invariant forall k :: 0 <= k < state.Length ==> state[k] == 0
      {
        buffer[i] := 0;
      }
    }

    /** SHA1Final */
    method Final() returns (digest: seq<bv8>)
      requires Valid()
      modifies this, state, buffer
      ensures digest == Sha1Spec.Sha1(old(Message()))
      ensures count == 0 && (forall i :: 0 <= i < state.Length ==> state[i] == 0)
      ensures forall i :: 0 <= i < buffer.Length ==> buffer[i] == 0
    {
      Pad();
      assert whole + [] == whole;
      digest := Digest();
      Wipe();
    }
  }

  lemma {:induction false} ByteAt(state: seq<bv32>, i: nat)
    requires |state| == 5 && i < 20
    ensures Bytes(Value(state))[i] == WordBytes(state[i / 4])[i % 4]
  {
    FiveByFour(WordBytes(state[0]), WordBytes(state[1]), WordBytes(state[2]), WordBytes(state[3]),
            WordBytes(state[4]), i);
  }

  lemma {:induction false} NextByte(state: seq<bv32>, i: nat, digest: seq<bv8>)
    requires |state| == 5 && i < 20 && digest == Bytes(Value(state))[..i]
    ensures digest + [WordBytes(state[i / 4])[i % 4]] == Bytes(Value(state))[..i + 1]
  {
    ByteAt(state, i);
    TakeOneMore(Bytes(Value(state)), i);
  }

  lemma {:induction false} FiveByFour<T>(a: seq<T>, b: seq<T>, c: seq<T>, d: seq<T>, e: seq<T>, i: nat)
    requires |a| == |b| == |c| == |d| == |e| == 4 && i < 20
    ensures (a + b + c + d + e)[i] ==
            (if i < 4 then a else if i < 8 then b else if i < 12 then c else if i < 16 then d else e)[i % 4]
  {
  }

  /** The digest of a message that arrives in pieces is that of the standard for the whole message. */
  method HashPieces(pieces: seq<seq<bv8>>, little: bool) returns (digest: seq<bv8>)
    ensures digest == Sha1Spec.Sha1(Flatten(pieces))
  {
    var context := new Context(little);
    for i := 0 to |pieces|
      invariant context.Valid() && context.Message() == Flatten(pieces[..i])
      invariant fresh(context) && fresh(context.state) && fresh(context.buffer)
    {
      context.Update(pieces[i]);
      assert pieces[..i + 1] == pieces[..i] + [pieces[i]];
      FlattenAppend(pieces[..i], [pieces[i]]);
      FlattenOne(pieces[i]);
    }
    assert pieces[..|pieces|] == pieces;
    digest := context.Final();
  }

  lemma {:induction false} PaddedWhole(whole: seq<bv8>, tail: seq<bv8>, start: seq<bv8>)
    requires |whole| % 64 == 0 && |tail| < 64
    requires whole + tail == start + [0x80] + Zeros(Gap(|start|)) + LengthField(Count(|start|))
    ensures whole + tail == Padded(start) && tail == []
  {
    assert |whole| + |tail| == |Padded(start)|;
    NothingOver(|whole|, |tail|);
  }

  lemma {:induction false} NothingOver(a: nat, b: nat)
    requires a % 64 == 0 && (a + b) % 64 == 0 && b < 64
    ensures b == 0
  {
  }

  lemma {:induction false} OneMoreZero(a: seq<bv8>, n: nat)
    ensures a + Zeros(n) + [0] == a + Zeros(n + 1)
  {
  }

  /** The position tells whether the zeros are enough. */
  lemma {:induction false} GapIsNext(whole: seq<bv8>, tail: seq<bv8>, start: seq<bv8>, zeros: nat)
    requires |whole| % 64 == 0 && |tail| < 64 && zeros <= Gap(|start|)
    requires whole + tail == start + [0x80] + Zeros(zeros)
    ensures |tail| == 56 <==> zeros == Gap(|start|)
  {
    assert |whole| + |tail| == |start| + 1 + zeros;
  }

  lemma {:induction false} PieceAfter<T>(a: seq<T>, b: seq<T>, i: nat, j: nat)
    requires i <= j <= |b|
    ensures a + b[..i] + b[i..j] == a + b[..j] && b[i..|b|] == b[i..] && b[..|b|] == b
  {
  }
}
