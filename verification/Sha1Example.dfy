/**
 One message, worked through: the digest of "abc", as the examples that accompany
 FIPS 180 give it. It ties the definitions of `Sha1Spec` to numbers written down.
 */
module Sha1Example {
  import opened Sha1Spec

  /** The one block of the padded message, in words. */
  ghost predicate IsAbc(m: seq<bv32>) {
    |m| == 16 && m[0] == 0x61626380 && m[15] == 0x18 && forall i :: 1 <= i < 15 ==> m[i] == 0
  }

  /** The working variables after the last round. */
  const LAST := Regs(0x42541B35, 0x5738D5E1, 0x21834873, 0x681E6DF6, 0xD8FDF6AD)

  lemma {:induction false} Words0(m: seq<bv32>)
    requires IsAbc(m)
    ensures W(m, 0) == 0x61626380 && W(m, 1) == 0x00000000 && W(m, 2) == 0x00000000 && W(m, 3) == 0x00000000
    ensures W(m, 4) == 0x00000000 && W(m, 5) == 0x00000000 && W(m, 6) == 0x00000000 && W(m, 7) == 0x00000000
    ensures W(m, 8) == 0x00000000 && W(m, 9) == 0x00000000 && W(m, 10) == 0x00000000 && W(m, 11) == 0x00000000
    ensures W(m, 12) == 0x00000000 && W(m, 13) == 0x00000000 && W(m, 14) == 0x00000000 && W(m, 15) == 0x00000018
  {
  }

  lemma {:induction false} Words16(m: seq<bv32>)
    requires IsAbc(m)
    ensures W(m, 16) == 0xC2C4C700 && W(m, 17) == 0x00000000 && W(m, 18) == 0x00000030 && W(m, 19) == 0x85898E01
    ensures W(m, 20) == 0x00000000 && W(m, 21) == 0x00000060 && W(m, 22) == 0x0B131C03 && W(m, 23) == 0x00000030
    ensures W(m, 24) == 0x85898EC1 && W(m, 25) == 0x16263806 && W(m, 26) == 0x00000000 && W(m, 27) == 0x00000180
    ensures W(m, 28) == 0x2C4C700C && W(m, 29) == 0x000000F0 && W(m, 30) == 0x93AFB507 && W(m, 31) == 0x5898E048
  {
    Words0(m);
  }

  lemma {:induction false} Words32(m: seq<bv32>)
    requires IsAbc(m)
    ensures W(m, 32) == 0x8E9A9202 && W(m, 33) == 0x00000600 && W(m, 34) == 0xB131C0F0 && W(m, 35) == 0x16263BC6
    ensures W(m, 36) == 0x4EBED41E && W(m, 37) == 0x626380A1 && W(m, 38) == 0x16263806 && W(m, 39) == 0x000018C0
    ensures W(m, 40) == 0xD2E138C4 && W(m, 41) == 0x00000F00 && W(m, 42) == 0x3AFB5079 && W(m, 43) == 0x898E04E5
    ensures W(m, 44) == 0xE2BA3C2B && W(m, 45) == 0x000060C0 && W(m, 46) == 0x053A37CD && W(m, 47) == 0x74458547
  {
    Words16(m);
  }

  lemma {:induction false} Words48(m: seq<bv32>)
    requires IsAbc(m)
    ensures W(m, 48) == 0xDA9415ED && W(m, 49) == 0x26380A16 && W(m, 50) == 0x626383A1 && W(m, 51) == 0x4EBF54DE
    ensures W(m, 52) == 0x3835B44B && W(m, 53) == 0x0000F600 && W(m, 54) == 0x1E84C7A3 && W(m, 55) == 0x98E04D98
    ensures W(m, 56) == 0x651D16A0 && W(m, 57) == 0x62658CA1 && W(m, 58) == 0x458544D6 && W(m, 59) == 0x44584CB7
    ensures W(m, 60) == 0x7BA06619 && W(m, 61) == 0x6380AEA2 && W(m, 62) == 0x0AE55269 && W(m, 63) == 0x627B49A1
  {
    Words32(m);
  }

  lemma {:induction false} Words64(m: seq<bv32>)
    requires IsAbc(m)
    ensures W(m, 64) == 0x7CD45C9D && W(m, 65) == 0x000F0000 && W(m, 66) == 0xFB50753A && W(m, 67) == 0xEC6765E8
    ensures W(m, 68) == 0xBA3C2BE2 && W(m, 69) == 0x0060C000 && W(m, 70) == 0x3A37CD05 && W(m, 71) == 0x458546F4
    ensures W(m, 72) == 0xB8599DD6 && W(m, 73) == 0x380A1A26 && W(m, 74) == 0x01E02203 && W(m, 75) == 0xE7CC3456
    ensures W(m, 76) == 0xE6E60B69 && W(m, 77) == 0x00F60A00 && W(m, 78) == 0x5795EF4F && W(m, 79) == 0x822E0879
  {
    Words48(m);
  }

  lemma {:induction false} Rounds16(m: seq<bv32>)
    requires IsAbc(m)
    ensures Rounds(INITIAL, m, 16) == Regs(0x20BDD62F, 0x196BEE77, 0x644A3DA5, 0x1181ED99, 0x18C623F9)
  {
    Words0(m);
    assert Rounds(INITIAL, m, 1) == Regs(0x0116FC33, 0x67452301, 0x7BF36AE2, 0x98BADCFE, 0x10325476);
    assert Rounds(INITIAL, m, 2) == Regs(0x8990536D, 0x0116FC33, 0x59D148C0, 0x7BF36AE2, 0x98BADCFE);
    assert Rounds(INITIAL, m, 3) == Regs(0xA1390F08, 0x8990536D, 0xC045BF0C, 0x59D148C0, 0x7BF36AE2);
    assert Rounds(INITIAL, m, 4) == Regs(0xCDD8E11B, 0xA1390F08, 0x626414DB, 0xC045BF0C, 0x59D148C0);
    assert Rounds(INITIAL, m, 5) == Regs(0xCFD499DE, 0xCDD8E11B, 0x284E43C2, 0x626414DB, 0xC045BF0C);
    assert Rounds(INITIAL, m, 6) == Regs(0x3FC7CA40, 0xCFD499DE, 0xF3763846, 0x284E43C2, 0x626414DB);
    assert Rounds(INITIAL, m, 7) == Regs(0x993E30C1, 0x3FC7CA40, 0xB3F52677, 0xF3763846, 0x284E43C2);
    assert Rounds(INITIAL, m, 8) == Regs(0x9E8C07D4, 0x993E30C1, 0x0FF1F290, 0xB3F52677, 0xF3763846);
    assert Rounds(INITIAL, m, 9) == Regs(0x4B6AE328, 0x9E8C07D4, 0x664F8C30, 0x0FF1F290, 0xB3F52677);
    assert Rounds(INITIAL, m, 10) == Regs(0x8351F929, 0x4B6AE328, 0x27A301F5, 0x664F8C30, 0x0FF1F290);
    assert Rounds(INITIAL, m, 11) == Regs(0xFBDA9E89, 0x8351F929, 0x12DAB8CA, 0x27A301F5, 0x664F8C30);
    assert Rounds(INITIAL, m, 12) == Regs(0x63188FE4, 0xFBDA9E89, 0x60D47E4A, 0x12DAB8CA, 0x27A301F5);
    assert Rounds(INITIAL, m, 13) == Regs(0x4607B664, 0x63188FE4, 0x7EF6A7A2, 0x60D47E4A, 0x12DAB8CA);
    assert Rounds(INITIAL, m, 14) == Regs(0x9128F695, 0x4607B664, 0x18C623F9, 0x7EF6A7A2, 0x60D47E4A);
    assert Rounds(INITIAL, m, 15) == Regs(0x196BEE77, 0x9128F695, 0x1181ED99, 0x18C623F9, 0x7EF6A7A2);
  }

  lemma {:induction false} Rounds32(m: seq<bv32>)
    requires IsAbc(m)
    ensures Rounds(INITIAL, m, 32) == Regs(0x3B845D33, 0x1267B407, 0x717EEBD7, 0xA0DC2D4B, 0xD2AA1365)
  {
    Rounds16(m);
    Words16(m);
    assert Rounds(INITIAL, m, 17) == Regs(0x4E925823, 0x20BDD62F, 0xC65AFB9D, 0x644A3DA5, 0x1181ED99);
    assert Rounds(INITIAL, m, 18) == Regs(0x82AA6728, 0x4E925823, 0xC82F758B, 0xC65AFB9D, 0x644A3DA5);
    assert Rounds(INITIAL, m, 19) == Regs(0xDC64901D, 0x82AA6728, 0xD3A49608, 0xC82F758B, 0xC65AFB9D);
    assert Rounds(INITIAL, m, 20) == Regs(0xFD9E1D7D, 0xDC64901D, 0x20AA99CA, 0xD3A49608, 0xC82F758B);
    assert Rounds(INITIAL, m, 21) == Regs(0x1A37B0CA, 0xFD9E1D7D, 0x77192407, 0x20AA99CA, 0xD3A49608);
    assert Rounds(INITIAL, m, 22) == Regs(0x33A23BFC, 0x1A37B0CA, 0x7F67875F, 0x77192407, 0x20AA99CA);
    assert Rounds(INITIAL, m, 23) == Regs(0x21283486, 0x33A23BFC, 0x868DEC32, 0x7F67875F, 0x77192407);
    assert Rounds(INITIAL, m, 24) == Regs(0xD541F12D, 0x21283486, 0x0CE88EFF, 0x868DEC32, 0x7F67875F);
    assert Rounds(INITIAL, m, 25) == Regs(0xC7567DC6, 0xD541F12D, 0x884A0D21, 0x0CE88EFF, 0x868DEC32);
    assert Rounds(INITIAL, m, 26) == Regs(0x48413BA4, 0xC7567DC6, 0x75507C4B, 0x884A0D21, 0x0CE88EFF);
    assert Rounds(INITIAL, m, 27) == Regs(0xBE35FBD5, 0x48413BA4, 0xB1D59F71, 0x75507C4B, 0x884A0D21);
    assert Rounds(INITIAL, m, 28) == Regs(0x4AA84D97, 0xBE35FBD5, 0x12104EE9, 0xB1D59F71, 0x75507C4B);
    assert Rounds(INITIAL, m, 29) == Regs(0x8370B52E, 0x4AA84D97, 0x6F8D7EF5, 0x12104EE9, 0xB1D59F71);
    assert Rounds(INITIAL, m, 30) == Regs(0xC5FBAF5D, 0x8370B52E, 0xD2AA1365, 0x6F8D7EF5, 0x12104EE9);
    assert Rounds(INITIAL, m, 31) == Regs(0x1267B407, 0xC5FBAF5D, 0xA0DC2D4B, 0xD2AA1365, 0x6F8D7EF5);
  }

  lemma {:induction false} Rounds48(m: seq<bv32>)
    requires IsAbc(m)
    ensures Rounds(INITIAL, m, 48) == Regs(0xBEAD02CA, 0xA01B846C, 0x8714787C, 0x503CA382, 0xFB86C6AB)
  {
    Rounds32(m);
    Words32(m);
    assert Rounds(INITIAL, m, 33) == Regs(0x046FAA0A, 0x3B845D33, 0xC499ED01, 0x717EEBD7, 0xA0DC2D4B);
    assert Rounds(INITIAL, m, 34) == Regs(0x2C0EBC11, 0x046FAA0A, 0xCEE1174C, 0xC499ED01, 0x717EEBD7);
    assert Rounds(INITIAL, m, 35) == Regs(0x21796AD4, 0x2C0EBC11, 0x811BEA82, 0xCEE1174C, 0xC499ED01);
    assert Rounds(INITIAL, m, 36) == Regs(0xDCBBB0CB, 0x21796AD4, 0x4B03AF04, 0x811BEA82, 0xCEE1174C);
    assert Rounds(INITIAL, m, 37) == Regs(0x0F511FD8, 0xDCBBB0CB, 0x085E5AB5, 0x4B03AF04, 0x811BEA82);
    assert Rounds(INITIAL, m, 38) == Regs(0xDC63973F, 0x0F511FD8, 0xF72EEC32, 0x085E5AB5, 0x4B03AF04);
    assert Rounds(INITIAL, m, 39) == Regs(0x4C986405, 0xDC63973F, 0x03D447F6, 0xF72EEC32, 0x085E5AB5);
    assert Rounds(INITIAL, m, 40) == Regs(0x32DE1CBA, 0x4C986405, 0xF718E5CF, 0x03D447F6, 0xF72EEC32);
    assert Rounds(INITIAL, m, 41) == Regs(0xFC87DEDF, 0x32DE1CBA, 0x53261901, 0xF718E5CF, 0x03D447F6);
    assert Rounds(INITIAL, m, 42) == Regs(0x970A0D5C, 0xFC87DEDF, 0x8CB7872E, 0x53261901, 0xF718E5CF);
    assert Rounds(INITIAL, m, 43) == Regs(0x7F193DC5, 0x970A0D5C, 0xFF21F7B7, 0x8CB7872E, 0x53261901);
    assert Rounds(INITIAL, m, 44) == Regs(0xEE1B1AAF, 0x7F193DC5, 0x25C28357, 0xFF21F7B7, 0x8CB7872E);
    assert Rounds(INITIAL, m, 45) == Regs(0x40F28E09, 0xEE1B1AAF, 0x5FC64F71, 0x25C28357, 0xFF21F7B7);
    assert Rounds(INITIAL, m, 46) == Regs(0x1C51E1F2, 0x40F28E09, 0xFB86C6AB, 0x5FC64F71, 0x25C28357);
    assert Rounds(INITIAL, m, 47) == Regs(0xA01B846C, 0x1C51E1F2, 0x503CA382, 0xFB86C6AB, 0x5FC64F71);
  }

  lemma {:induction false} Rounds64(m: seq<bv32>)
    requires IsAbc(m)
    ensures Rounds(INITIAL, m, 64) == Regs(0x6B61C9E1, 0xB66C020B, 0x9523272C, 0xF5D5B051, 0x8FD4B796)
  {
    Rounds48(m);
    Words48(m);
    assert Rounds(INITIAL, m, 49) == Regs(0xBAF39337, 0xBEAD02CA, 0x2806E11B, 0x8714787C, 0x503CA382);
    assert Rounds(INITIAL, m, 50) == Regs(0x120731C5, 0xBAF39337, 0xAFAB40B2, 0x2806E11B, 0x8714787C);
    assert Rounds(INITIAL, m, 51) == Regs(0x641DB2CE, 0x120731C5, 0xEEBCE4CD, 0xAFAB40B2, 0x2806E11B);
    assert Rounds(INITIAL, m, 52) == Regs(0x3847AD66, 0x641DB2CE, 0x4481CC71, 0xEEBCE4CD, 0xAFAB40B2);
    assert Rounds(INITIAL, m, 53) == Regs(0xE490436D, 0x3847AD66, 0x99076CB3, 0x4481CC71, 0xEEBCE4CD);
    assert Rounds(INITIAL, m, 54) == Regs(0x27E9F1D8, 0xE490436D, 0x8E11EB59, 0x99076CB3, 0x4481CC71);
    assert Rounds(INITIAL, m, 55) == Regs(0x7B71F76D, 0x27E9F1D8, 0x792410DB, 0x8E11EB59, 0x99076CB3);
    assert Rounds(INITIAL, m, 56) == Regs(0x5E6456AF, 0x7B71F76D, 0x09FA7C76, 0x792410DB, 0x8E11EB59);
    assert Rounds(INITIAL, m, 57) == Regs(0xC846093F, 0x5E6456AF, 0x5EDC7DDB, 0x09FA7C76, 0x792410DB);
    assert Rounds(INITIAL, m, 58) == Regs(0xD262FF50, 0xC846093F, 0xD79915AB, 0x5EDC7DDB, 0x09FA7C76);
    assert Rounds(INITIAL, m, 59) == Regs(0x09D785FD, 0xD262FF50, 0xF211824F, 0xD79915AB, 0x5EDC7DDB);
    assert Rounds(INITIAL, m, 60) == Regs(0x3F52DE5A, 0x09D785FD, 0x3498BFD4, 0xF211824F, 0xD79915AB);
    assert Rounds(INITIAL, m, 61) == Regs(0xD756C147, 0x3F52DE5A, 0x4275E17F, 0x3498BFD4, 0xF211824F);
    assert Rounds(INITIAL, m, 62) == Regs(0x548C9CB2, 0xD756C147, 0x8FD4B796, 0x4275E17F, 0x3498BFD4);
    assert Rounds(INITIAL, m, 63) == Regs(0xB66C020B, 0x548C9CB2, 0xF5D5B051, 0x8FD4B796, 0x4275E17F);
  }

  lemma {:induction false} Rounds80(m: seq<bv32>)
    requires IsAbc(m)
    ensures Rounds(INITIAL, m, 80) == Regs(0x42541B35, 0x5738D5E1, 0x21834873, 0x681E6DF6, 0xD8FDF6AD)
  {
    Rounds64(m);
    Words64(m);
    assert Rounds(INITIAL, m, 65) == Regs(0x19DFA7AC, 0x6B61C9E1, 0xED9B0082, 0x9523272C, 0xF5D5B051);
    assert Rounds(INITIAL, m, 66) == Regs(0x101655F9, 0x19DFA7AC, 0x5AD87278, 0xED9B0082, 0x9523272C);
    assert Rounds(INITIAL, m, 67) == Regs(0x0C3DF2B4, 0x101655F9, 0x0677E9EB, 0x5AD87278, 0xED9B0082);
    assert Rounds(INITIAL, m, 68) == Regs(0x78DD4D2B, 0x0C3DF2B4, 0x4405957E, 0x0677E9EB, 0x5AD87278);
    assert Rounds(INITIAL, m, 69) == Regs(0x497093C0, 0x78DD4D2B, 0x030F7CAD, 0x4405957E, 0x0677E9EB);
    assert Rounds(INITIAL, m, 70) == Regs(0x3F2588C2, 0x497093C0, 0xDE37534A, 0x030F7CAD, 0x4405957E);
    assert Rounds(INITIAL, m, 71) == Regs(0xC199F8C7, 0x3F2588C2, 0x125C24F0, 0xDE37534A, 0x030F7CAD);
    assert Rounds(INITIAL, m, 72) == Regs(0x39859DE7, 0xC199F8C7, 0x8FC96230, 0x125C24F0, 0xDE37534A);
    assert Rounds(INITIAL, m, 73) == Regs(0xEDB42DE4, 0x39859DE7, 0xF0667E31, 0x8FC96230, 0x125C24F0);
    assert Rounds(INITIAL, m, 74) == Regs(0x11793F6F, 0xEDB42DE4, 0xCE616779, 0xF0667E31, 0x8FC96230);
    assert Rounds(INITIAL, m, 75) == Regs(0x5EE76897, 0x11793F6F, 0x3B6D0B79, 0xCE616779, 0xF0667E31);
    assert Rounds(INITIAL, m, 76) == Regs(0x63F7DAB7, 0x5EE76897, 0xC45E4FDB, 0x3B6D0B79, 0xCE616779);
    assert Rounds(INITIAL, m, 77) == Regs(0xA079B7D9, 0x63F7DAB7, 0xD7B9DA25, 0xC45E4FDB, 0x3B6D0B79);
    assert Rounds(INITIAL, m, 78) == Regs(0x860D21CC, 0xA079B7D9, 0xD8FDF6AD, 0xD7B9DA25, 0xC45E4FDB);
    assert Rounds(INITIAL, m, 79) == Regs(0x5738D5E1, 0x860D21CC, 0x681E6DF6, 0xD8FDF6AD, 0xD7B9DA25);
  }

  lemma {:induction false} Small(n: nat)
    requires 0 < n
    ensures 24 / Power256(n) % 256 == 0
  {
    Power256Grows(n);
    Quotient(Power256(n));
  }

  lemma {:induction false} Quotient(p: nat)
    requires 256 <= p
    ensures 24 / p == 0
  {
  }

  lemma {:induction false} Power256Grows(n: nat)
    requires 0 < n
    ensures 256 <= Power256(n)
  {
    if 1 < n { Power256Grows(n - 1); }
  }

  lemma {:induction false} ZeroByte(i: nat)
    requires i < 7
    ensures ByteOf(24, i) == 0
  {
    Small(7 - i);
  }

  lemma {:induction false} LastByte()
    ensures ByteOf(24, 7) == 24
  {
    assert Power256(0) == 1;
  }

  /** The length field of twenty-four bits. */
  lemma {:induction false} Length24()
    ensures LengthField(24) == [0, 0, 0, 0, 0, 0, 0, 24]
  {
    var f := LengthField(24);
    LastByte();
    forall i | 0 <= i < 7 ensures f[i] == 0 { ZeroByte(i); }
  }

  /** The padding of three bytes: a one bit, zeros, and twenty-four bits. */
  lemma {:induction false} PaddedAbc(message: seq<bv8>)
    requires message == [0x61, 0x62, 0x63]
    ensures Padded(message) == message + [0x80] + Zeros(52) + [0, 0, 0, 0, 0, 0, 0, 24]
  {
    Length24();
    assert 8 * |message| % TWO_TO_64 == 24 && Gap(3) == 52;
  }

  lemma {:induction false} WordsAbc(block: seq<bv8>)
    requires block == [0x61, 0x62, 0x63] + [0x80] + Zeros(52) + [0, 0, 0, 0, 0, 0, 0, 24]
    ensures |block| == 64 && IsAbc(Words(block))
  {
    assert Word(0x61, 0x62, 0x63, 0x80) == 0x61626380 && Word(0, 0, 0, 0) == 0 && Word(0, 0, 0, 24) == 0x18;
    assert block[0] == 0x61 && block[1] == 0x62 && block[2] == 0x63 && block[3] == 0x80;
    assert forall i :: 4 <= i < 63 ==> block[i] == 0;
    assert block[63] == 24;
    var w := Words(block);
    assert w[15] == 0x18;
    assert forall j :: 1 <= j < 15 ==> w[j] == 0;
  }

  lemma {:induction false} LastSum()
    ensures Plus(INITIAL, LAST) == Regs(0xA9993E36, 0x4706816A, 0xBA3E2571, 0x7850C26C, 0x9CD0D89D)
  {
  }

  lemma {:induction false} CompressedAbc(block: seq<bv8>)
    requires |block| == 64 && IsAbc(Words(block))
    ensures Blocks(INITIAL, block) == Regs(0xA9993E36, 0x4706816A, 0xBA3E2571, 0x7850C26C, 0x9CD0D89D)
  {
    var m := Words(block);
    Rounds80(m);
    assert block[..64] == block && block[64..] == [];
    LastSum();
    assert Compress(INITIAL, block) == Plus(INITIAL, LAST);
    assert Blocks(Compress(INITIAL, block), []) == Compress(INITIAL, block);
  }

  lemma {:induction false} DigestBytes()
    ensures Bytes(Regs(0xA9993E36, 0x4706816A, 0xBA3E2571, 0x7850C26C, 0x9CD0D89D)) == [
              0xA9, 0x99, 0x3E, 0x36, 0x47, 0x06, 0x81, 0x6A, 0xBA, 0x3E, 0x25, 0x71,
              0x78, 0x50, 0xC2, 0x6C, 0x9C, 0xD0, 0xD8, 0x9D]
  {
    assert WordBytes(0xA9993E36) == [0xA9, 0x99, 0x3E, 0x36] && WordBytes(0x4706816A) == [0x47, 0x06, 0x81, 0x6A];
    assert WordBytes(0xBA3E2571) == [0xBA, 0x3E, 0x25, 0x71] && WordBytes(0x7850C26C) == [0x78, 0x50, 0xC2, 0x6C];
    assert WordBytes(0x9CD0D89D) == [0x9C, 0xD0, 0xD8, 0x9D];
  }

  /** The digest of "abc". */
  lemma {:induction false} DigestOfAbc(message: seq<bv8>)
    requires message == [0x61, 0x62, 0x63]
    ensures Sha1(message) == [
              0xA9, 0x99, 0x3E, 0x36, 0x47, 0x06, 0x81, 0x6A, 0xBA, 0x3E, 0x25, 0x71,
              0x78, 0x50, 0xC2, 0x6C, 0x9C, 0xD0, 0xD8, 0x9D]
  {
    PaddedAbc(message);
    WordsAbc(Padded(message));
    CompressedAbc(Padded(message));
    DigestBytes();
  }
}
