/** compat/sha1.c: hashing a message as it arrives. */
module Sha1 {
  import opened Sha1Spec

  /** rol, by the amounts the code uses beside those of the standard. */
  function Rol8(x: bv32): bv32 { (x << 8) | (x >> 24) }
  function Rol24(x: bv32): bv32 { (x << 24) | (x >> 8) }

  /** The word a little-endian machine sees at four bytes. */
  function LittleWord(b0: bv8, b1: bv8, b2: bv8, b3: bv8): bv32 {
    Word(b3, b2, b1, b0)
  }

  /** blk0 on a little-endian machine gives the word of the standard. */
  lemma {:induction false} Blk0Swaps(b0: bv8, b1: bv8, b2: bv8, b3: bv8)
    ensures var l := LittleWord(b0, b1, b2, b3);
            SwappedOrder(l) == Word(b0, b1, b2, b3)
  {
  }

  function SwappedOrder(l: bv32): bv32 {
    (Rol24(l) & 0xFF00FF00) | (Rol8(l) & 0x00FF00FF)
  }

  /** What the macros add to z, whatever the function of the round. */
  function MacroSum(z: bv32, f: bv32, word: bv32, k: bv32, r: bv32): bv32 {
    z + (f + word + k + r)
  }

  lemma {:induction false} ChForm(x: bv32, y: bv32, z: bv32)
    ensures (x & (y ^ z)) ^ z == Ch(x, y, z)
  {
  }

  lemma {:induction false} MajForm(x: bv32, y: bv32, z: bv32)
    ensures ((x | y) & z) | (x & y) == Maj(x, y, z)
  {
  }

  lemma {:induction false} SumForm(z: bv32, f: bv32, word: bv32, k: bv32, r: bv32)
    ensures MacroSum(z, f, word, k, r) == Sum(r, f, z, k, word)
  {
  }

  // ---------- the circular block, for words of any kind ----------

  /**
   Before round t: the slots not yet reached are as loaded, and the others hold
   the latest word of the schedule that fell there.
   */
  ghost predicate Circular<T>(block: seq<T>, raw: seq<T>, schedule: nat -> T, t: nat) {
    && |block| == 16 && |raw| == 16
    && (forall j: nat :: j < 16 && t <= j ==> block[j] == raw[j])
    && (forall k: nat :: k < t <= k + 16 ==> block[k % 16] == schedule(k))
  }

  lemma {:induction false} SetSlot<T>(block: seq<T>, raw: seq<T>, schedule: nat -> T, t: nat)
    requires Circular(block, raw, schedule, t)
    ensures Circular(block[t % 16 := schedule(t)], raw, schedule, t + 1)
  {
  }

  /** Three, eight, fourteen and sixteen rounds back, by the indices of the code. */
  lemma {:induction false} GetSlots<T>(block: seq<T>, raw: seq<T>, schedule: nat -> T, t: nat)
    requires Circular(block, raw, schedule, t) && 16 <= t
    ensures block[(t + 13) % 16] == schedule(t - 3) && block[(t + 8) % 16] == schedule(t - 8)
    ensures block[(t + 2) % 16] == schedule(t - 14) && block[t % 16] == schedule(t - 16)
  {
    ModSixteen(t - 3);
    ModSixteen(t - 8);
    ModSixteen(t - 14);
    ModSixteen(t - 16);
    var a: nat, b: nat, c: nat, d: nat := t - 3, t - 8, t - 14, t - 16;
    assert block[a % 16] == schedule(a) && block[b % 16] == schedule(b);
    assert block[c % 16] == schedule(c) && block[d % 16] == schedule(d);
  }

  lemma {:induction false} ModSixteen(a: int)
    ensures (a + 16) % 16 == a % 16
  {
  }

  lemma {:induction false} NextWord(m: seq<bv32>, t: nat, a: bv32, b: bv32, c: bv32, d: bv32)
    requires |m| == 16 <= t
    requires a == W(m, t - 3) && b == W(m, t - 8) && c == W(m, t - 14) && d == W(m, t - 16)
    ensures Rotl1(a ^ b ^ c ^ d) == W(m, t)
  {
  }

  function Schedule(m: seq<bv32>): nat -> bv32
    requires |m| == 16
  {
    (t: nat) => W(m, t)
  }

  /** Loading a block into the workspace: machine words in the machine's byte order. */
  function Loaded(bytes: seq<bv8>, little: bool): (raw: seq<bv32>)
    requires |bytes| == 64
    ensures |raw| == 16
  {
    if little then
      seq(16, i requires 0 <= i < 16 => LittleWord(bytes[4 * i], bytes[4 * i + 1], bytes[4 * i + 2], bytes[4 * i + 3]))
    else Words(bytes)
  }

  /** The words as loaded are those of the standard once they are put in order. */
  ghost predicate InOrder(raw: seq<bv32>, m: seq<bv32>, little: bool) {
    |raw| == 16 && |m| == 16 && forall i :: 0 <= i < 16 ==> m[i] == if little then SwappedOrder(raw[i]) else raw[i]
  }

  lemma {:induction false} LoadedInOrder(bytes: seq<bv8>, little: bool)
    requires |bytes| == 64
    ensures InOrder(Loaded(bytes, little), Words(bytes), little)
  {
    if little {
      forall i | 0 <= i < 16 ensures Words(bytes)[i] == SwappedOrder(Loaded(bytes, true)[i]) {
        Blk0Swaps(bytes[4 * i], bytes[4 * i + 1], bytes[4 * i + 2], bytes[4 * i + 3]);
      }
    }
  }

  class Workspace {
    const l: array<bv32>
    const little: bool
    ghost const m: seq<bv32>    // the words of the standard
    ghost const raw: seq<bv32>  // the words as they were loaded

    ghost predicate Valid(t: nat)
      reads l
    {
      l.Length == 16 && InOrder(raw, m, little) && Circular(l[..], raw, Schedule(m), t)
    }

    /** The memcpy of a block into the workspace. */
    constructor (bytes: seq<bv8>, little: bool)
      requires |bytes| == 64
      ensures Valid(0) && fresh(l) && m == Words(bytes) && this.little == little
    {
      var from := Loaded(bytes, little);
      this.little, m, raw := little, Words(bytes), from;
      l := new bv32[16](i requires 0 <= i < 16 => from[i]);
      new;
      LoadedInOrder(bytes, little);
      assert l[..] == raw;
    }

    /** blk0: the word is put into the order of the standard in place. */
    method Blk0(i: nat) returns (w: bv32)
      requires i < 16 && Valid(i)
      modifies l
      ensures Valid(i + 1) && w == W(m, i)
    {
      SetSlot(l[..], raw, Schedule(m), i);
      ghost var before := l[..];
      w := l[i];
      if little {
        w := SwappedOrder(w);
        l[i] := w;
      }
      assert i % 16 == i && l[..] == before[i := W(m, i)];
    }

    /** blk: the next word of the schedule replaces the one sixteen rounds back. */
    method Blk(i: nat) returns (w: bv32)
      requires 16 <= i && Valid(i)
      modifies l
      ensures Valid(i + 1) && w == W(m, i)
    {
      GetSlots(l[..], raw, Schedule(m), i);
      SetSlot(l[..], raw, Schedule(m), i);
      ghost var before := l[..];
      w := Rotl1(l[(i + 13) % 16] ^ l[(i + 8) % 16] ^ l[(i + 2) % 16] ^ l[i % 16]);
      NextWord(m, i, l[(i + 13) % 16], l[(i + 8) % 16], l[(i + 2) % 16], l[i % 16]);
      l[i % 16] := w;
      assert l[..] == before[i % 16 := w];
    }

    /** The working variables, in the order of the standard, after t rounds. */
    ghost predicate Reached(h: Regs, t: nat, r: Regs)
      reads l
    {
      t <= 80 && Valid(t) && r == Rounds(h, m, t)
    }

    method R0(ghost h: Regs, v: bv32, w: bv32, x: bv32, y: bv32, z: bv32, i: nat) returns (z': bv32, w': bv32)
      requires i < 16 && Reached(h, i, Regs(v, w, x, y, z))
      modifies l
      ensures Reached(h, i + 1, Regs(z', v, w', x, y))
    {
      var word := Blk0(i);
      z', w' := MacroSum(z, (w & (x ^ y)) ^ y, word, 0x5A827999, Rotl5(v)), Rotl30(w);
      ChForm(w, x, y);
      RoundForm(h, m, i, v, w, x, y, z, (w & (x ^ y)) ^ y, 0x5A827999);
    }

    method R1(ghost h: Regs, v: bv32, w: bv32, x: bv32, y: bv32, z: bv32, i: nat) returns (z': bv32, w': bv32)
      requires 16 <= i < 20 && Reached(h, i, Regs(v, w, x, y, z))
      modifies l
      ensures Reached(h, i + 1, Regs(z', v, w', x, y))
    {
      var word := Blk(i);
      z', w' := MacroSum(z, (w & (x ^ y)) ^ y, word, 0x5A827999, Rotl5(v)), Rotl30(w);
      ChForm(w, x, y);
      RoundForm(h, m, i, v, w, x, y, z, (w & (x ^ y)) ^ y, 0x5A827999);
    }

    method R2(ghost h: Regs, v: bv32, w: bv32, x: bv32, y: bv32, z: bv32, i: nat) returns (z': bv32, w': bv32)
      requires 20 <= i < 40 && Reached(h, i, Regs(v, w, x, y, z))
      modifies l
      ensures Reached(h, i + 1, Regs(z', v, w', x, y))
    {
      var word := Blk(i);
      z', w' := MacroSum(z, w ^ x ^ y, word, 0x6ED9EBA1, Rotl5(v)), Rotl30(w);
      RoundForm(h, m, i, v, w, x, y, z, w ^ x ^ y, 0x6ED9EBA1);
    }

    method R3(ghost h: Regs, v: bv32, w: bv32, x: bv32, y: bv32, z: bv32, i: nat) returns (z': bv32, w': bv32)
      requires 40 <= i < 60 && Reached(h, i, Regs(v, w, x, y, z))
      modifies l
      ensures Reached(h, i + 1, Regs(z', v, w', x, y))
    {
      var word := Blk(i);
      z', w' := MacroSum(z, ((w | x) & y) | (w & x), word, 0x8F1BBCDC, Rotl5(v)), Rotl30(w);
      MajForm(w, x, y);
      RoundForm(h, m, i, v, w, x, y, z, ((w | x) & y) | (w & x), 0x8F1BBCDC);
    }

    method R4(ghost h: Regs, v: bv32, w: bv32, x: bv32, y: bv32, z: bv32, i: nat) returns (z': bv32, w': bv32)
      requires 60 <= i < 80 && Reached(h, i, Regs(v, w, x, y, z))
      modifies l
      ensures Reached(h, i + 1, Regs(z', v, w', x, y))
    {
      var word := Blk(i);
      z', w' := MacroSum(z, w ^ x ^ y, word, 0xCA62C1D6, Rotl5(v)), Rotl30(w);
      RoundForm(h, m, i, v, w, x, y, z, w ^ x ^ y, 0xCA62C1D6);
    }

    method Five0(ghost h: Regs, v: bv32, w: bv32, x: bv32, y: bv32, z: bv32, i: nat)
        returns (a: bv32, b: bv32, c: bv32, d: bv32, e: bv32)
      requires i <= 10 && Reached(h, i, Regs(v, w, x, y, z))
      modifies l
      ensures Reached(h, i + 5, Regs(a, b, c, d, e))
    {
      a, b, c, d, e := v, w, x, y, z;
      e, b := R0(h, a, b, c, d, e, i);
      d, a := R0(h, e, a, b, c, d, i + 1);
      c, e := R0(h, d, e, a, b, c, i + 2);
      b, d := R0(h, c, d, e, a, b, i + 3);
      a, c := R0(h, b, c, d, e, a, i + 4);
    }

    method Five2(ghost h: Regs, v: bv32, w: bv32, x: bv32, y: bv32, z: bv32, i: nat)
        returns (a: bv32, b: bv32, c: bv32, d: bv32, e: bv32)
      requires 20 <= i <= 35 && Reached(h, i, Regs(v, w, x, y, z))
      modifies l
      ensures Reached(h, i + 5, Regs(a, b, c, d, e))
    {
      a, b, c, d, e := v, w, x, y, z;
      e, b := R2(h, a, b, c, d, e, i);
      d, a := R2(h, e, a, b, c, d, i + 1);
      c, e := R2(h, d, e, a, b, c, i + 2);
      b, d := R2(h, c, d, e, a, b, i + 3);
      a, c := R2(h, b, c, d, e, a, i + 4);
    }

    method Five3(ghost h: Regs, v: bv32, w: bv32, x: bv32, y: bv32, z: bv32, i: nat)
        returns (a: bv32, b: bv32, c: bv32, d: bv32, e: bv32)
      requires 40 <= i <= 55 && Reached(h, i, Regs(v, w, x, y, z))
      modifies l
      ensures Reached(h, i + 5, Regs(a, b, c, d, e))
    {
      a, b, c, d, e := v, w, x, y, z;
      e, b := R3(h, a, b, c, d, e, i);
      d, a := R3(h, e, a, b, c, d, i + 1);
      c, e := R3(h, d, e, a, b, c, i + 2);
      b, d := R3(h, c, d, e, a, b, i + 3);
      a, c := R3(h, b, c, d, e, a, i + 4);
    }

    method Five4(ghost h: Regs, v: bv32, w: bv32, x: bv32, y: bv32, z: bv32, i: nat)
        returns (a: bv32, b: bv32, c: bv32, d: bv32, e: bv32)
      requires 60 <= i <= 75 && Reached(h, i, Regs(v, w, x, y, z))
      modifies l
      ensures Reached(h, i + 5, Regs(a, b, c, d, e))
    {
      a, b, c, d, e := v, w, x, y, z;
      e, b := R4(h, a, b, c, d, e, i);
      d, a := R4(h, e, a, b, c, d, i + 1);
      c, e := R4(h, d, e, a, b, c, i + 2);
      b, d := R4(h, c, d, e, a, b, i + 3);
      a, c := R4(h, b, c, d, e, a, i + 4);
    }

    /** The rounds where the schedule begins. */
    method Five1(ghost h: Regs, v: bv32, w: bv32, x: bv32, y: bv32, z: bv32)
        returns (a: bv32, b: bv32, c: bv32, d: bv32, e: bv32)
      requires Reached(h, 15, Regs(v, w, x, y, z))
      modifies l
      ensures Reached(h, 20, Regs(a, b, c, d, e))
    {
      a, b, c, d, e := v, w, x, y, z;
      e, b := R0(h, a, b, c, d, e, 15);
      d, a := R1(h, e, a, b, c, d, 16);
      c, e := R1(h, d, e, a, b, c, 17);
      b, d := R1(h, c, d, e, a, b, 18);
      a, c := R1(h, b, c, d, e, a, 19);
    }

    method Five(ghost h: Regs, v: bv32, w: bv32, x: bv32, y: bv32, z: bv32, i: nat)
        returns (a: bv32, b: bv32, c: bv32, d: bv32, e: bv32)
      requires i <= 75 && i % 5 == 0 && Reached(h, i, Regs(v, w, x, y, z))
      modifies l
      ensures Reached(h, i + 5, Regs(a, b, c, d, e))
    {
      if i < 15 {
        a, b, c, d, e := Five0(h, v, w, x, y, z, i);
      } else if i < 20 {
        a, b, c, d, e := Five1(h, v, w, x, y, z);
      } else if i < 40 {
        a, b, c, d, e := Five2(h, v, w, x, y, z, i);
      } else if i < 60 {
        a, b, c, d, e := Five3(h, v, w, x, y, z, i);
      } else {
        a, b, c, d, e := Five4(h, v, w, x, y, z, i);
      }
    }
  }

  /** The eighty rounds of SHA1Transform, five at a time, after which the variables are back in their places. */
  method Eighty(h: Regs, bytes: seq<bv8>, little: bool) returns (a: bv32, b: bv32, c: bv32, d: bv32, e: bv32)
    requires |bytes| == 64
    ensures Regs(a, b, c, d, e) == Rounds(h, Words(bytes), 80)
  {
    var block := new Workspace(bytes, little);
    a, b, c, d, e := h.a, h.b, h.c, h.d, h.e;
    for k := 0 to 16
      invariant fresh(block.l) && block.m == Words(bytes) && block.Reached(h, 5 * k, Regs(a, b, c, d, e))
    {
      a, b, c, d, e := block.Five(h, a, b, c, d, e, 5 * k);
    }
  }

  /** SHA1Transform */
  method Transform(state: array<bv32>, bytes: seq<bv8>, little: bool)
    requires state.Length == 5 && |bytes| == 64
    modifies state
    ensures Value(state[..]) == Compress(old(Value(state[..])), bytes)
  {
    ghost var h := Value(state[..]);
    var a, b, c, d, e := Eighty(Regs(state[0], state[1], state[2], state[3], state[4]), bytes, little);
    state[0], state[1], state[2] := Add(state[0], a), Add(state[1], b), Add(state[2], c);
    state[3], state[4] := Add(state[3], d), Add(state[4], e);
  }

  /** The five words of context->state. */
  function Value(state: seq<bv32>): Regs
    requires |state| == 5
  {
    Regs(state[0], state[1], state[2], state[3], state[4])
  }

  /** A round in the form of the macros. */
  lemma {:induction false} RoundForm(h: Regs, m: seq<bv32>, t: nat, v: bv32, w: bv32, x: bv32, y: bv32, z: bv32,
      f: bv32, k: bv32)
    requires |m| == 16 && t < 80 && Regs(v, w, x, y, z) == Rounds(h, m, t) && f == F(t, w, x, y) && k == K(t)
    ensures Regs(MacroSum(z, f, W(m, t), k, Rotl5(v)), v, Rotl30(w), x, y) == Rounds(h, m, t + 1)
  {
    SumForm(z, f, W(m, t), k, Rotl5(v));
  }
}
