// The digest of "abc" in section A.5 of RFC 1321, step by step.
module Md5Example {
  import opened Digest
  import opened Md5
  import opened Md5Stream

  const ABC: seq<octet> := [0x61, 0x62, 0x63]

  // "abc", the bit that ends it, and its length of 24 bits
  function AbcBlock(): (b: Block) {
    ABC + [0x80] + Zeros(52) + [24, 0, 0, 0, 0, 0, 0, 0]
  }

  lemma AbcPadded()
    ensures Padded(ABC) == AbcBlock()
  {
    hide Length64, Zeros;
    AbcLength();
    assert Stop(3) == [0x80] + Zeros(52);
  }

  lemma AbcLength()
    ensures Length64(3) == [24, 0, 0, 0, 0, 0, 0, 0]
  {
    hide ByteOf;
    SmallOctets();
  }

  lemma SmallOctets()
    ensures ByteOf(24) == 24 && ByteOf(0) == 0
  {}

  // Its words
  function Word(k: nat): bv32 {
    if k == 0 then 0x80636261 else if k == 14 then 24 else 0
  }

  lemma Words(k: nat)
    requires k < 16
    ensures X(AbcBlock(), k) == Word(k)
  {
    var b := AbcBlock();
    assert forall i :: 4 <= i < 64 && i != 56 ==> b[i] == 0;
    assert b[0] == 0x61 && b[1] == 0x62 && b[2] == 0x63 && b[3] == 0x80 && b[56] == 24;
  }

  // The registers before step i
  ghost predicate Before(i: nat, r: Regs) {
    i <= 64 && Steps(AbcBlock(), INITIAL, i) == r
  }

  lemma FirstStep()
    ensures Before(0, Regs(0x67452301, 0xEFCDAB89, 0x98BADCFE, 0x10325476))
  {
    Start(AbcBlock(), INITIAL);
  }

  // A step in its parts: its word k, the rotation s, the constant t, the mix f, the new register v
  lemma OneStep(i: nat, r: Regs, k: nat, x: bv32, s: bv6, t: bv32, f: bv32, v: bv32)
    requires i < 64 && Before(i, r) && k < 16 && Pick(i) == k && Word(k) == x
    requires Shift(i) == s && T(i) == t && Mix(i, r.b, r.c, r.d) == f && s < 32
    requires Add(r.b, Rotl(Sum(r.a, f, x, t), s)) == v
    ensures Before(i + 1, Regs(r.d, v, r.b, r.c))
  {
    hide Shift, T, Mix, Rotl, Add, Sum, Pick, X, Word, AbcBlock;
    Words(k);
  }

  lemma Values0()
    ensures Pick(0) == 0 && Word(0) == 0x80636261 && Shift(0) == 7 && T(0) == 0xD76AA478
    ensures Mix(0, 0xEFCDAB89, 0x98BADCFE, 0x10325476) == 0x98BADCFE
    ensures Add(0xEFCDAB89, Rotl(Sum(0x67452301, 0x98BADCFE, 0x80636261, 0xD76AA478), 7)) == 0xD6D117B4
    ensures Pick(1) == 1 && Word(1) == 0 && Shift(1) == 12 && T(1) == 0xE8C7B756
    ensures Mix(1, 0xD6D117B4, 0xEFCDAB89, 0x98BADCFE) == 0xCEEBCBCA
    ensures Add(0xD6D117B4, Rotl(Sum(0x10325476, 0xCEEBCBCA, 0, 0xE8C7B756), 12)) == 0x344A8432
    ensures Pick(2) == 2 && Word(2) == 0 && Shift(2) == 17 && T(2) == 0x242070DB
    ensures Mix(2, 0x344A8432, 0xD6D117B4, 0xEFCDAB89) == 0xDFC52FB9
    ensures Add(0x344A8432, Rotl(Sum(0x98BADCFE, 0xDFC52FB9, 0, 0x242070DB), 17)) == 0x2F6FBD72
    ensures Pick(3) == 3 && Word(3) == 0 && Shift(3) == 22 && T(3) == 0xC1BDCEEE
    ensures Mix(3, 0x2F6FBD72, 0x344A8432, 0xD6D117B4) == 0xF4DA86B6
    ensures Add(0x2F6FBD72, Rotl(Sum(0xEFCDAB89, 0xF4DA86B6, 0, 0xC1BDCEEE), 22)) == 0x7AD956F2
  {}

  lemma Steps0()
    requires Before(0, Regs(0x67452301, 0xEFCDAB89, 0x98BADCFE, 0x10325476))
    ensures Before(4, Regs(0xD6D117B4, 0x7AD956F2, 0x2F6FBD72, 0x344A8432))
  {
    hide Before, Pick, Word, Shift, T, Mix, Add, Rotl, Sum;
    Values0();
    OneStep(0, Regs(0x67452301, 0xEFCDAB89, 0x98BADCFE, 0x10325476), 0, 0x80636261, 7, 0xD76AA478,
            0x98BADCFE, 0xD6D117B4);
    OneStep(1, Regs(0x10325476, 0xD6D117B4, 0xEFCDAB89, 0x98BADCFE), 1, 0, 12, 0xE8C7B756,
            0xCEEBCBCA, 0x344A8432);
    OneStep(2, Regs(0x98BADCFE, 0x344A8432, 0xD6D117B4, 0xEFCDAB89), 2, 0, 17, 0x242070DB,
            0xDFC52FB9, 0x2F6FBD72);
    OneStep(3, Regs(0xEFCDAB89, 0x2F6FBD72, 0x344A8432, 0xD6D117B4), 3, 0, 22, 0xC1BDCEEE,
            0xF4DA86B6, 0x7AD956F2);
  }

  lemma Values4()
    ensures Pick(4) == 4 && Word(4) == 0 && Shift(4) == 7 && T(4) == 0xF57C0FAF
    ensures Mix(4, 0x7AD956F2, 0x2F6FBD72, 0x344A8432) == 0x2E4B9472
    ensures Add(0x7AD956F2, Rotl(Sum(0xD6D117B4, 0x2E4B9472, 0, 0xF57C0FAF), 7)) == 0xC73741EF
    ensures Pick(5) == 5 && Word(5) == 0 && Shift(5) == 12 && T(5) == 0x4787C62A
    ensures Mix(5, 0xC73741EF, 0x7AD956F2, 0x2F6FBD72) == 0x6A59FCF2
    ensures Add(0xC73741EF, Rotl(Sum(0x344A8432, 0x6A59FCF2, 0, 0x4787C62A), 12)) == 0x8BAC3051
    ensures Pick(6) == 6 && Word(6) == 0 && Shift(6) == 17 && T(6) == 0xA8304613
    ensures Mix(6, 0x8BAC3051, 0xC73741EF, 0x7AD956F2) == 0xF37546E3
    ensures Add(0x8BAC3051, Rotl(Sum(0x2F6FBD72, 0xF37546E3, 0, 0xA8304613), 17)) == 0x207DC67B
    ensures Pick(7) == 7 && Word(7) == 0 && Shift(7) == 22 && T(7) == 0xFD469501
    ensures Mix(7, 0x207DC67B, 0x8BAC3051, 0xC73741EF) == 0xC72E01D5
    ensures Add(0x207DC67B, Rotl(Sum(0x7AD956F2, 0xC72E01D5, 0, 0xFD469501), 22)) == 0x928D99F6
  {}

  lemma Steps4()
    requires Before(4, Regs(0xD6D117B4, 0x7AD956F2, 0x2F6FBD72, 0x344A8432))
    ensures Before(8, Regs(0xC73741EF, 0x928D99F6, 0x207DC67B, 0x8BAC3051))
  {
    hide Before, Pick, Word, Shift, T, Mix, Add, Rotl, Sum;
    Values4();
    OneStep(4, Regs(0xD6D117B4, 0x7AD956F2, 0x2F6FBD72, 0x344A8432), 4, 0, 7, 0xF57C0FAF,
            0x2E4B9472, 0xC73741EF);
    OneStep(5, Regs(0x344A8432, 0xC73741EF, 0x7AD956F2, 0x2F6FBD72), 5, 0, 12, 0x4787C62A,
            0x6A59FCF2, 0x8BAC3051);
    OneStep(6, Regs(0x2F6FBD72, 0x8BAC3051, 0xC73741EF, 0x7AD956F2), 6, 0, 17, 0xA8304613,
            0xF37546E3, 0x207DC67B);
    OneStep(7, Regs(0x7AD956F2, 0x207DC67B, 0x8BAC3051, 0xC73741EF), 7, 0, 22, 0xFD469501,
            0xC72E01D5, 0x928D99F6);
  }

  lemma Values8()
    ensures Pick(8) == 8 && Word(8) == 0 && Shift(8) == 7 && T(8) == 0x698098D8
    ensures Mix(8, 0x928D99F6, 0x207DC67B, 0x8BAC3051) == 0x092DA073
    ensures Add(0x928D99F6, Rotl(Sum(0xC73741EF, 0x092DA073, 0, 0x698098D8), 7)) == 0x854B3712
    ensures Pick(9) == 9 && Word(9) == 0 && Shift(9) == 12 && T(9) == 0x8B44F7AF
    ensures Mix(9, 0x854B3712, 0x928D99F6, 0x207DC67B) == 0xA03DD17B
    ensures Add(0x854B3712, Rotl(Sum(0x8BAC3051, 0xA03DD17B, 0, 0x8B44F7AF), 12)) == 0x74E2F284
    ensures Pick(10) == 10 && Word(10) == 0 && Shift(10) == 17 && T(10) == 0xFFFF5BB1
    ensures Mix(10, 0x74E2F284, 0x854B3712, 0x928D99F6) == 0x864F3B72
    ensures Add(0x74E2F284, Rotl(Sum(0x207DC67B, 0x864F3B72, 0, 0xFFFF5BB1), 17)) == 0x3020401C
    ensures Pick(11) == 11 && Word(11) == 0 && Shift(11) == 22 && T(11) == 0x895CD7BE
    ensures Mix(11, 0x3020401C, 0x74E2F284, 0x854B3712) == 0xB56B7706
    ensures Add(0x3020401C, Rotl(Sum(0x928D99F6, 0xB56B7706, 0, 0x895CD7BE), 22)) == 0x5ED49596
  {}

  lemma Steps8()
    requires Before(8, Regs(0xC73741EF, 0x928D99F6, 0x207DC67B, 0x8BAC3051))
    ensures Before(12, Regs(0x854B3712, 0x5ED49596, 0x3020401C, 0x74E2F284))
  {
    hide Before, Pick, Word, Shift, T, Mix, Add, Rotl, Sum;
    Values8();
    OneStep(8, Regs(0xC73741EF, 0x928D99F6, 0x207DC67B, 0x8BAC3051), 8, 0, 7, 0x698098D8,
            0x092DA073, 0x854B3712);
    OneStep(9, Regs(0x8BAC3051, 0x854B3712, 0x928D99F6, 0x207DC67B), 9, 0, 12, 0x8B44F7AF,
            0xA03DD17B, 0x74E2F284);
    OneStep(10, Regs(0x207DC67B, 0x74E2F284, 0x854B3712, 0x928D99F6), 10, 0, 17, 0xFFFF5BB1,
            0x864F3B72, 0x3020401C);
    OneStep(11, Regs(0x928D99F6, 0x3020401C, 0x74E2F284, 0x854B3712), 11, 0, 22, 0x895CD7BE,
            0xB56B7706, 0x5ED49596);
  }

  lemma Values12()
    ensures Pick(12) == 12 && Word(12) == 0 && Shift(12) == 7 && T(12) == 0x6B901122
    ensures Mix(12, 0x5ED49596, 0x3020401C, 0x74E2F284) == 0x30226214
    ensures Add(0x5ED49596, Rotl(Sum(0x854B3712, 0x30226214, 0, 0x6B901122), 7)) == 0xDDA9B9A6
    ensures Pick(13) == 13 && Word(13) == 0 && Shift(13) == 12 && T(13) == 0xFD987193
    ensures Mix(13, 0xDDA9B9A6, 0x5ED49596, 0x3020401C) == 0x7C80D19E
    ensures Add(0xDDA9B9A6, Rotl(Sum(0x74E2F284, 0x7C80D19E, 0, 0xFD987193), 12)) == 0xA1051895
    ensures Pick(14) == 14 && Word(14) == 0x00000018 && Shift(14) == 17 && T(14) == 0xA679438E
    ensures Mix(14, 0xA1051895, 0xDDA9B9A6, 0x5ED49596) == 0xDFD19D86
    ensures Add(0xA1051895, Rotl(Sum(0x3020401C, 0xDFD19D86, 0x00000018, 0xA679438E), 17)) == 0xE396856B
    ensures Pick(15) == 15 && Word(15) == 0 && Shift(15) == 22 && T(15) == 0x49B40821
    ensures Mix(15, 0xE396856B, 0xA1051895, 0xDDA9B9A6) == 0xBD2D3885
    ensures Add(0xE396856B, Rotl(Sum(0x5ED49596, 0xBD2D3885, 0, 0x49B40821), 22)) == 0x72AFF2E0
  {}

  lemma Steps12()
    requires Before(12, Regs(0x854B3712, 0x5ED49596, 0x3020401C, 0x74E2F284))
    ensures Before(16, Regs(0xDDA9B9A6, 0x72AFF2E0, 0xE396856B, 0xA1051895))
  {
    hide Before, Pick, Word, Shift, T, Mix, Add, Rotl, Sum;
    Values12();
    OneStep(12, Regs(0x854B3712, 0x5ED49596, 0x3020401C, 0x74E2F284), 12, 0, 7, 0x6B901122,
            0x30226214, 0xDDA9B9A6);
    OneStep(13, Regs(0x74E2F284, 0xDDA9B9A6, 0x5ED49596, 0x3020401C), 13, 0, 12, 0xFD987193,
            0x7C80D19E, 0xA1051895);
    OneStep(14, Regs(0x3020401C, 0xA1051895, 0xDDA9B9A6, 0x5ED49596), 14, 0x00000018, 17, 0xA679438E,
            0xDFD19D86, 0xE396856B);
    OneStep(15, Regs(0x5ED49596, 0xE396856B, 0xA1051895, 0xDDA9B9A6), 15, 0, 22, 0x49B40821,
            0xBD2D3885, 0x72AFF2E0);
  }

  lemma Values16()
    ensures Pick(16) == 1 && Word(1) == 0 && Shift(16) == 5 && T(16) == 0xF61E2562
    ensures Mix(16, 0x72AFF2E0, 0xE396856B, 0xA1051895) == 0x629795EA
    ensures Add(0x72AFF2E0, Rotl(Sum(0xDDA9B9A6, 0x629795EA, 0, 0xF61E2562), 5)) == 0x3E9E9126
    ensures Pick(17) == 6 && Word(6) == 0 && Shift(17) == 9 && T(17) == 0xC040B340
    ensures Mix(17, 0x3E9E9126, 0x72AFF2E0, 0xE396856B) == 0x32BFF3A2
    ensures Add(0x3E9E9126, Rotl(Sum(0xA1051895, 0x32BFF3A2, 0, 0xC040B340), 9)) == 0x4A1D804E
    ensures Pick(18) == 11 && Word(11) == 0 && Shift(18) == 14 && T(18) == 0x265E5A51
    ensures Mix(18, 0x4A1D804E, 0x3E9E9126, 0x72AFF2E0) == 0x4E1D8146
    ensures Add(0x4A1D804E, Rotl(Sum(0xE396856B, 0x4E1D8146, 0, 0x265E5A51), 14)) == 0xE25E1652
    ensures Pick(19) == 0 && Word(0) == 0x80636261 && Shift(19) == 20 && T(19) == 0xE9B6C7AA
    ensures Mix(19, 0xE25E1652, 0x4A1D804E, 0x3E9E9126) == 0x621F104A
    ensures Add(0xE25E1652, Rotl(Sum(0x72AFF2E0, 0x621F104A, 0x80636261, 0xE9B6C7AA), 20)) == 0xB5B204E4
  {}

  lemma Steps16()
    requires Before(16, Regs(0xDDA9B9A6, 0x72AFF2E0, 0xE396856B, 0xA1051895))
    ensures Before(20, Regs(0x3E9E9126, 0xB5B204E4, 0xE25E1652, 0x4A1D804E))
  {
    hide Before, Pick, Word, Shift, T, Mix, Add, Rotl, Sum;
    Values16();
    OneStep(16, Regs(0xDDA9B9A6, 0x72AFF2E0, 0xE396856B, 0xA1051895), 1, 0, 5, 0xF61E2562,
            0x629795EA, 0x3E9E9126);
    OneStep(17, Regs(0xA1051895, 0x3E9E9126, 0x72AFF2E0, 0xE396856B), 6, 0, 9, 0xC040B340,
            0x32BFF3A2, 0x4A1D804E);
    OneStep(18, Regs(0xE396856B, 0x4A1D804E, 0x3E9E9126, 0x72AFF2E0), 11, 0, 14, 0x265E5A51,
            0x4E1D8146, 0xE25E1652);
    OneStep(19, Regs(0x72AFF2E0, 0xE25E1652, 0x4A1D804E, 0x3E9E9126), 0, 0x80636261, 20, 0xE9B6C7AA,
            0x621F104A, 0xB5B204E4);
  }

  lemma Values20()
    ensures Pick(20) == 5 && Word(5) == 0 && Shift(20) == 5 && T(20) == 0xD62F105D
    ensures Mix(20, 0xB5B204E4, 0xE25E1652, 0x4A1D804E) == 0xA0521654
    ensures Add(0xB5B204E4, Rotl(Sum(0x3E9E9126, 0xA0521654, 0, 0xD62F105D), 5)) == 0x59A8FFDA
    ensures Pick(21) == 10 && Word(10) == 0 && Shift(21) == 9 && T(21) == 0x02441453
    ensures Mix(21, 0x59A8FFDA, 0xB5B204E4, 0xE25E1652) == 0x55A816F6
    ensures Add(0x59A8FFDA, Rotl(Sum(0x4A1D804E, 0x55A816F6, 0, 0x02441453), 9)) == 0x6D002F1E
    ensures Pick(22) == 15 && Word(15) == 0 && Shift(22) == 14 && T(22) == 0xD8A1E681
    ensures Mix(22, 0x6D002F1E, 0x59A8FFDA, 0xB5B204E4) == 0x6D08FF1E
    ensures Add(0x6D002F1E, Rotl(Sum(0xE25E1652, 0x6D08FF1E, 0, 0xD8A1E681), 14)) == 0xABFC7920
    ensures Pick(23) == 4 && Word(4) == 0 && Shift(23) == 20 && T(23) == 0xE7D3FBC8
    ensures Mix(23, 0xABFC7920, 0x6D002F1E, 0x59A8FFDA) == 0x2DA87904
    ensures Add(0xABFC7920, Rotl(Sum(0xB5B204E4, 0x2DA87904, 0, 0xE7D3FBC8), 20)) == 0x47092C07
  {}

  lemma Steps20()
    requires Before(20, Regs(0x3E9E9126, 0xB5B204E4, 0xE25E1652, 0x4A1D804E))
    ensures Before(24, Regs(0x59A8FFDA, 0x47092C07, 0xABFC7920, 0x6D002F1E))
  {
    hide Before, Pick, Word, Shift, T, Mix, Add, Rotl, Sum;
    Values20();
    OneStep(20, Regs(0x3E9E9126, 0xB5B204E4, 0xE25E1652, 0x4A1D804E), 5, 0, 5, 0xD62F105D,
            0xA0521654, 0x59A8FFDA);
    OneStep(21, Regs(0x4A1D804E, 0x59A8FFDA, 0xB5B204E4, 0xE25E1652), 10, 0, 9, 0x02441453,
            0x55A816F6, 0x6D002F1E);
    OneStep(22, Regs(0xE25E1652, 0x6D002F1E, 0x59A8FFDA, 0xB5B204E4), 15, 0, 14, 0xD8A1E681,
            0x6D08FF1E, 0xABFC7920);
    OneStep(23, Regs(0xB5B204E4, 0xABFC7920, 0x6D002F1E, 0x59A8FFDA), 4, 0, 20, 0xE7D3FBC8,
            0x2DA87904, 0x47092C07);
  }

  lemma Values24()
    ensures Pick(24) == 9 && Word(9) == 0 && Shift(24) == 5 && T(24) == 0x21E1CDE6
    ensures Mix(24, 0x47092C07, 0xABFC7920, 0x6D002F1E) == 0xC7FC7C26
    ensures Add(0x47092C07, Rotl(Sum(0x59A8FFDA, 0xC7FC7C26, 0, 0x21E1CDE6), 5)) == 0xB7F268CF
    ensures Pick(25) == 14 && Word(14) == 0x00000018 && Shift(25) == 9 && T(25) == 0xC33707D6
    ensures Mix(25, 0xB7F268CF, 0x47092C07, 0xABFC7920) == 0xE7F16C07
    ensures Add(0xB7F268CF, Rotl(Sum(0x6D002F1E, 0xE7F16C07, 0x00000018, 0xC33707D6), 9)) == 0x09388EFF
    ensures Pick(26) == 3 && Word(3) == 0 && Shift(26) == 14 && T(26) == 0xF4D50D87
    ensures Mix(26, 0x09388EFF, 0xB7F268CF, 0x47092C07) == 0xB1FA4CCF
    ensures Add(0x09388EFF, Rotl(Sum(0xABFC7920, 0xB1FA4CCF, 0, 0xF4D50D87), 14)) == 0xFE1623B1
    ensures Pick(27) == 8 && Word(8) == 0 && Shift(27) == 20 && T(27) == 0x455A14ED
    ensures Mix(27, 0xFE1623B1, 0x09388EFF, 0xB7F268CF) == 0xBE1AA6B1
    ensures Add(0xFE1623B1, Rotl(Sum(0x47092C07, 0xBE1AA6B1, 0, 0x455A14ED), 20)) == 0x786ACB8F
  {}

  lemma Steps24()
    requires Before(24, Regs(0x59A8FFDA, 0x47092C07, 0xABFC7920, 0x6D002F1E))
    ensures Before(28, Regs(0xB7F268CF, 0x786ACB8F, 0xFE1623B1, 0x09388EFF))
  {
    hide Before, Pick, Word, Shift, T, Mix, Add, Rotl, Sum;
    Values24();
    OneStep(24, Regs(0x59A8FFDA, 0x47092C07, 0xABFC7920, 0x6D002F1E), 9, 0, 5, 0x21E1CDE6,
            0xC7FC7C26, 0xB7F268CF);
    OneStep(25, Regs(0x6D002F1E, 0xB7F268CF, 0x47092C07, 0xABFC7920), 14, 0x00000018, 9, 0xC33707D6,
            0xE7F16C07, 0x09388EFF);
    OneStep(26, Regs(0xABFC7920, 0x09388EFF, 0xB7F268CF, 0x47092C07), 3, 0, 14, 0xF4D50D87,
            0xB1FA4CCF, 0xFE1623B1);
    OneStep(27, Regs(0x47092C07, 0xFE1623B1, 0x09388EFF, 0xB7F268CF), 8, 0, 20, 0x455A14ED,
            0xBE1AA6B1, 0x786ACB8F);
  }

  lemma Values28()
    ensures Pick(28) == 13 && Word(13) == 0 && Shift(28) == 5 && T(28) == 0xA9E3E905
    ensures Mix(28, 0x786ACB8F, 0xFE1623B1, 0x09388EFF) == 0xFE2EAB8F
    ensures Add(0x786ACB8F, Rotl(Sum(0xB7F268CF, 0xFE2EAB8F, 0, 0xA9E3E905), 5)) == 0x790A77FB
    ensures Pick(29) == 2 && Word(2) == 0 && Shift(29) == 9 && T(29) == 0xFCEFA3F8
    ensures Mix(29, 0x790A77FB, 0x786ACB8F, 0xFE1623B1) == 0x786AEBBF
    ensures Add(0x790A77FB, Rotl(Sum(0x09388EFF, 0x786AEBBF, 0, 0xFCEFA3F8), 9)) == 0x9F47E4F8
    ensures Pick(30) == 7 && Word(7) == 0 && Shift(30) == 14 && T(30) == 0x676F02D9
    ensures Mix(30, 0x9F47E4F8, 0x790A77FB, 0x786ACB8F) == 0x1942F4F8
    ensures Add(0x9F47E4F8, Rotl(Sum(0xFE1623B1, 0x1942F4F8, 0, 0x676F02D9), 14)) == 0xA62884AA
    ensures Pick(31) == 12 && Word(12) == 0 && Shift(31) == 20 && T(31) == 0x8D2A4C8A
    ensures Mix(31, 0xA62884AA, 0x9F47E4F8, 0x790A77FB) == 0xA64D84AA
    ensures Add(0xA62884AA, Rotl(Sum(0x786ACB8F, 0xA64D84AA, 0, 0x8D2A4C8A), 20)) == 0x726342D3
  {}

  lemma Steps28()
    requires Before(28, Regs(0xB7F268CF, 0x786ACB8F, 0xFE1623B1, 0x09388EFF))
    ensures Before(32, Regs(0x790A77FB, 0x726342D3, 0xA62884AA, 0x9F47E4F8))
  {
    hide Before, Pick, Word, Shift, T, Mix, Add, Rotl, Sum;
    Values28();
    OneStep(28, Regs(0xB7F268CF, 0x786ACB8F, 0xFE1623B1, 0x09388EFF), 13, 0, 5, 0xA9E3E905,
            0xFE2EAB8F, 0x790A77FB);
    OneStep(29, Regs(0x09388EFF, 0x790A77FB, 0x786ACB8F, 0xFE1623B1), 2, 0, 9, 0xFCEFA3F8,
            0x786AEBBF, 0x9F47E4F8);
    OneStep(30, Regs(0xFE1623B1, 0x9F47E4F8, 0x790A77FB, 0x786ACB8F), 7, 0, 14, 0x676F02D9,
            0x1942F4F8, 0xA62884AA);
    OneStep(31, Regs(0x786ACB8F, 0xA62884AA, 0x9F47E4F8, 0x790A77FB), 12, 0, 20, 0x8D2A4C8A,
            0xA64D84AA, 0x726342D3);
  }

  lemma Values32()
    ensures Pick(32) == 5 && Word(5) == 0 && Shift(32) == 4 && T(32) == 0xFFFA3942
    ensures Mix(32, 0x726342D3, 0xA62884AA, 0x9F47E4F8) == 0x4B0C2281
    ensures Add(0x726342D3, Rotl(Sum(0x790A77FB, 0x4B0C2281, 0, 0xFFFA3942), 4)) == 0xB3707EBF
    ensures Pick(33) == 8 && Word(8) == 0 && Shift(33) == 11 && T(33) == 0x8771F681
    ensures Mix(33, 0xB3707EBF, 0x726342D3, 0xA62884AA) == 0x673BB8C6
    ensures Add(0xB3707EBF, Rotl(Sum(0x9F47E4F8, 0x673BB8C6, 0, 0x8771F681), 11)) == 0x60127B2E
    ensures Pick(34) == 11 && Word(11) == 0 && Shift(34) == 16 && T(34) == 0x6D9D6122
    ensures Mix(34, 0x60127B2E, 0xB3707EBF, 0x726342D3) == 0xA1014742
    ensures Add(0x60127B2E, Rotl(Sum(0xA62884AA, 0xA1014742, 0, 0x6D9D6122), 16)) == 0x8D212FF5
    ensures Pick(35) == 14 && Word(14) == 0x00000018 && Shift(35) == 23 && T(35) == 0xFDE5380C
    ensures Mix(35, 0x8D212FF5, 0x60127B2E, 0xB3707EBF) == 0x5E432A64
    ensures Add(0x8D212FF5, Rotl(Sum(0x726342D3, 0x5E432A64, 0x00000018, 0xFDE5380C), 23)) == 0x3B0875C7
  {}

  lemma Steps32()
    requires Before(32, Regs(0x790A77FB, 0x726342D3, 0xA62884AA, 0x9F47E4F8))
    ensures Before(36, Regs(0xB3707EBF, 0x3B0875C7, 0x8D212FF5, 0x60127B2E))
  {
    hide Before, Pick, Word, Shift, T, Mix, Add, Rotl, Sum;
    Values32();
    OneStep(32, Regs(0x790A77FB, 0x726342D3, 0xA62884AA, 0x9F47E4F8), 5, 0, 4, 0xFFFA3942,
            0x4B0C2281, 0xB3707EBF);
    OneStep(33, Regs(0x9F47E4F8, 0xB3707EBF, 0x726342D3, 0xA62884AA), 8, 0, 11, 0x8771F681,
            0x673BB8C6, 0x60127B2E);
    OneStep(34, Regs(0xA62884AA, 0x60127B2E, 0xB3707EBF, 0x726342D3), 11, 0, 16, 0x6D9D6122,
            0xA1014742, 0x8D212FF5);
    OneStep(35, Regs(0x726342D3, 0x8D212FF5, 0x60127B2E, 0xB3707EBF), 14, 0x00000018, 23, 0xFDE5380C,
            0x5E432A64, 0x3B0875C7);
  }

  lemma Values36()
    ensures Pick(36) == 1 && Word(1) == 0 && Shift(36) == 4 && T(36) == 0xA4BEEA44
    ensures Mix(36, 0x3B0875C7, 0x8D212FF5, 0x60127B2E) == 0xD63B211C
    ensures Add(0x3B0875C7, Rotl(Sum(0xB3707EBF, 0xD63B211C, 0, 0xA4BEEA44), 4)) == 0x21B117B9
    ensures Pick(37) == 4 && Word(4) == 0 && Shift(37) == 11 && T(37) == 0x4BDECFA9
    ensures Mix(37, 0x21B117B9, 0x3B0875C7, 0x8D212FF5) == 0x97984D8B
    ensures Add(0x21B117B9, Rotl(Sum(0x60127B2E, 0x97984D8B, 0, 0x4BDECFA9), 11)) == 0x6E7429D5
    ensures Pick(38) == 7 && Word(7) == 0 && Shift(38) == 16 && T(38) == 0xF6BB4B60
    ensures Mix(38, 0x6E7429D5, 0x21B117B9, 0x3B0875C7) == 0x74CD4BAB
    ensures Add(0x6E7429D5, Rotl(Sum(0x8D212FF5, 0x74CD4BAB, 0, 0xF6BB4B60), 16)) == 0x3575227E
    ensures Pick(39) == 10 && Word(10) == 0 && Shift(39) == 23 && T(39) == 0xBEBFBC70
    ensures Mix(39, 0x3575227E, 0x6E7429D5, 0x21B117B9) == 0x7AB01C12
    ensures Add(0x3575227E, Rotl(Sum(0x3B0875C7, 0x7AB01C12, 0, 0xBEBFBC70), 23)) == 0x5A2F5EA5
  {}

  lemma Steps36()
    requires Before(36, Regs(0xB3707EBF, 0x3B0875C7, 0x8D212FF5, 0x60127B2E))
    ensures Before(40, Regs(0x21B117B9, 0x5A2F5EA5, 0x3575227E, 0x6E7429D5))
  {
    hide Before, Pick, Word, Shift, T, Mix, Add, Rotl, Sum;
    Values36();
    OneStep(36, Regs(0xB3707EBF, 0x3B0875C7, 0x8D212FF5, 0x60127B2E), 1, 0, 4, 0xA4BEEA44,
            0xD63B211C, 0x21B117B9);
    OneStep(37, Regs(0x60127B2E, 0x21B117B9, 0x3B0875C7, 0x8D212FF5), 4, 0, 11, 0x4BDECFA9,
            0x97984D8B, 0x6E7429D5);
    OneStep(38, Regs(0x8D212FF5, 0x6E7429D5, 0x21B117B9, 0x3B0875C7), 7, 0, 16, 0xF6BB4B60,
            0x74CD4BAB, 0x3575227E);
    OneStep(39, Regs(0x3B0875C7, 0x3575227E, 0x6E7429D5, 0x21B117B9), 10, 0, 23, 0xBEBFBC70,
            0x7AB01C12, 0x5A2F5EA5);
  }

  lemma Values40()
    ensures Pick(40) == 13 && Word(13) == 0 && Shift(40) == 4 && T(40) == 0x289B7EC6
    ensures Mix(40, 0x5A2F5EA5, 0x3575227E, 0x6E7429D5) == 0x012E550E
    ensures Add(0x5A2F5EA5, Rotl(Sum(0x21B117B9, 0x012E550E, 0, 0x289B7EC6), 4)) == 0x11DE1779
    ensures Pick(41) == 0 && Word(0) == 0x80636261 && Shift(41) == 11 && T(41) == 0xEAA127FA
    ensures Mix(41, 0x11DE1779, 0x5A2F5EA5, 0x3575227E) == 0x7E846BA2
    ensures Add(0x11DE1779, Rotl(Sum(0x6E7429D5, 0x7E846BA2, 0x80636261, 0xEAA127FA), 11)) == 0xFADCAA38
    ensures Pick(42) == 3 && Word(3) == 0 && Shift(42) == 16 && T(42) == 0xD4EF3085
    ensures Mix(42, 0xFADCAA38, 0x11DE1779, 0x5A2F5EA5) == 0xB12DE3E4
    ensures Add(0xFADCAA38, Rotl(Sum(0x3575227E, 0xB12DE3E4, 0, 0xD4EF3085), 16)) == 0x31C465CA
    ensures Pick(43) == 6 && Word(6) == 0 && Shift(43) == 23 && T(43) == 0x04881D05
    ensures Mix(43, 0x31C465CA, 0xFADCAA38, 0x11DE1779) == 0xDAC6D88B
    ensures Add(0x31C465CA, Rotl(Sum(0x5A2F5EA5, 0xDAC6D88B, 0, 0x04881D05), 23)) == 0x4C6124F4
  {}

  lemma Steps40()
    requires Before(40, Regs(0x21B117B9, 0x5A2F5EA5, 0x3575227E, 0x6E7429D5))
    ensures Before(44, Regs(0x11DE1779, 0x4C6124F4, 0x31C465CA, 0xFADCAA38))
  {
    hide Before, Pick, Word, Shift, T, Mix, Add, Rotl, Sum;
    Values40();
    OneStep(40, Regs(0x21B117B9, 0x5A2F5EA5, 0x3575227E, 0x6E7429D5), 13, 0, 4, 0x289B7EC6,
            0x012E550E, 0x11DE1779);
    OneStep(41, Regs(0x6E7429D5, 0x11DE1779, 0x5A2F5EA5, 0x3575227E), 0, 0x80636261, 11, 0xEAA127FA,
            0x7E846BA2, 0xFADCAA38);
    OneStep(42, Regs(0x3575227E, 0xFADCAA38, 0x11DE1779, 0x5A2F5EA5), 3, 0, 16, 0xD4EF3085,
            0xB12DE3E4, 0x31C465CA);
    OneStep(43, Regs(0x5A2F5EA5, 0x31C465CA, 0xFADCAA38, 0x11DE1779), 6, 0, 23, 0x04881D05,
            0xDAC6D88B, 0x4C6124F4);
  }

  lemma Values44()
    ensures Pick(44) == 9 && Word(9) == 0 && Shift(44) == 4 && T(44) == 0xD9D4D039
    ensures Mix(44, 0x4C6124F4, 0x31C465CA, 0xFADCAA38) == 0x8779EB06
    ensures Add(0x4C6124F4, Rotl(Sum(0x11DE1779, 0x8779EB06, 0, 0xD9D4D039), 4)) == 0x7F2E507B
    ensures Pick(45) == 12 && Word(12) == 0 && Shift(45) == 11 && T(45) == 0xE6DB99E5
    ensures Mix(45, 0x7F2E507B, 0x4C6124F4, 0x31C465CA) == 0x028B1145
    ensures Add(0x7F2E507B, Rotl(Sum(0xFADCAA38, 0x028B1145, 0, 0xE6DB99E5), 11)) == 0x99D9679D
    ensures Pick(46) == 15 && Word(15) == 0 && Shift(46) == 16 && T(46) == 0x1FA27CF8
    ensures Mix(46, 0x99D9679D, 0x7F2E507B, 0x4C6124F4) == 0xAA961312
    ensures Add(0x99D9679D, Rotl(Sum(0x31C465CA, 0xAA961312, 0, 0x1FA27CF8), 16)) == 0x8FAE6399
    ensures Pick(47) == 2 && Word(2) == 0 && Shift(47) == 23 && T(47) == 0xC4AC5665
    ensures Mix(47, 0x8FAE6399, 0x99D9679D, 0x7F2E507B) == 0x6959547F
    ensures Add(0x8FAE6399, Rotl(Sum(0x4C6124F4, 0x6959547F, 0, 0xC4AC5665), 23)) == 0x7BEB9700
  {}

  lemma Steps44()
    requires Before(44, Regs(0x11DE1779, 0x4C6124F4, 0x31C465CA, 0xFADCAA38))
    ensures Before(48, Regs(0x7F2E507B, 0x7BEB9700, 0x8FAE6399, 0x99D9679D))
  {
    hide Before, Pick, Word, Shift, T, Mix, Add, Rotl, Sum;
    Values44();
    OneStep(44, Regs(0x11DE1779, 0x4C6124F4, 0x31C465CA, 0xFADCAA38), 9, 0, 4, 0xD9D4D039,
            0x8779EB06, 0x7F2E507B);
    OneStep(45, Regs(0xFADCAA38, 0x7F2E507B, 0x4C6124F4, 0x31C465CA), 12, 0, 11, 0xE6DB99E5,
            0x028B1145, 0x99D9679D);
    OneStep(46, Regs(0x31C465CA, 0x99D9679D, 0x7F2E507B, 0x4C6124F4), 15, 0, 16, 0x1FA27CF8,
            0xAA961312, 0x8FAE6399);
    OneStep(47, Regs(0x4C6124F4, 0x8FAE6399, 0x99D9679D, 0x7F2E507B), 2, 0, 23, 0xC4AC5665,
            0x6959547F, 0x7BEB9700);
  }

  lemma Values48()
    ensures Pick(48) == 0 && Word(0) == 0x80636261 && Shift(48) == 6 && T(48) == 0xF4292244
    ensures Mix(48, 0x7BEB9700, 0x8FAE6399, 0x99D9679D) == 0xF041FCFB
    ensures Add(0x7BEB9700, Rotl(Sum(0x7F2E507B, 0xF041FCFB, 0x80636261, 0xF4292244), 6)) == 0x7B201DF8
    ensures Pick(49) == 7 && Word(7) == 0 && Shift(49) == 10 && T(49) == 0x432AFF97
    ensures Mix(49, 0x7B201DF8, 0x7BEB9700, 0x8FAE6399) == 0x009A0AFE
    ensures Add(0x7B201DF8, Rotl(Sum(0x99D9679D, 0x009A0AFE, 0, 0x432AFF97), 10)) == 0xF4E8E96E
    ensures Pick(50) == 14 && Word(14) == 0x00000018 && Shift(50) == 15 && T(50) == 0xAB9423A7
    ensures Mix(50, 0xF4E8E96E, 0x7B201DF8, 0x7BEB9700) == 0x8FDCF407
    ensures Add(0xF4E8E96E, Rotl(Sum(0x8FAE6399, 0x8FDCF407, 0x00000018, 0xAB9423A7), 15)) == 0xB298CEFD
    ensures Pick(51) == 5 && Word(5) == 0 && Shift(51) == 21 && T(51) == 0xFC93A039
    ensures Mix(51, 0xB298CEFD, 0xF4E8E96E, 0x7B201DF8) == 0x42370791
    ensures Add(0xB298CEFD, Rotl(Sum(0x7BEB9700, 0x42370791, 0, 0xFC93A039), 21)) == 0x8BF025C4
  {}

  lemma Steps48()
    requires Before(48, Regs(0x7F2E507B, 0x7BEB9700, 0x8FAE6399, 0x99D9679D))
    ensures Before(52, Regs(0x7B201DF8, 0x8BF025C4, 0xB298CEFD, 0xF4E8E96E))
  {
    hide Before, Pick, Word, Shift, T, Mix, Add, Rotl, Sum;
    Values48();
    OneStep(48, Regs(0x7F2E507B, 0x7BEB9700, 0x8FAE6399, 0x99D9679D), 0, 0x80636261, 6, 0xF4292244,
            0xF041FCFB, 0x7B201DF8);
    OneStep(49, Regs(0x99D9679D, 0x7B201DF8, 0x7BEB9700, 0x8FAE6399), 7, 0, 10, 0x432AFF97,
            0x009A0AFE, 0xF4E8E96E);
    OneStep(50, Regs(0x8FAE6399, 0xF4E8E96E, 0x7B201DF8, 0x7BEB9700), 14, 0x00000018, 15, 0xAB9423A7,
            0x8FDCF407, 0xB298CEFD);
    OneStep(51, Regs(0x7BEB9700, 0xB298CEFD, 0xF4E8E96E, 0x7B201DF8), 5, 0, 21, 0xFC93A039,
            0x42370791, 0x8BF025C4);
  }

  lemma Values52()
    ensures Pick(52) == 12 && Word(12) == 0 && Shift(52) == 6 && T(52) == 0x655B59C3
    ensures Mix(52, 0x8BF025C4, 0xB298CEFD, 0xF4E8E96E) == 0x396FF928
    ensures Add(0x8BF025C4, Rotl(Sum(0x7B201DF8, 0x396FF928, 0, 0x655B59C3), 6)) == 0x06CC5E8A
    ensures Pick(53) == 3 && Word(3) == 0 && Shift(53) == 10 && T(53) == 0x8F0CCC92
    ensures Mix(53, 0x06CC5E8A, 0x8BF025C4, 0xB298CEFD) == 0xC41F5A4E
    ensures Add(0x06CC5E8A, Rotl(Sum(0xF4E8E96E, 0xC41F5A4E, 0, 0x8F0CCC92), 10)) == 0x5B0D97AA
    ensures Pick(54) == 10 && Word(10) == 0 && Shift(54) == 15 && T(54) == 0xFFEFF47D
    ensures Mix(54, 0x5B0D97AA, 0x06CC5E8A, 0x8BF025C4) == 0x79C38131
    ensures Add(0x5B0D97AA, Rotl(Sum(0xB298CEFD, 0x79C38131, 0, 0xFFEFF47D), 15)) == 0x7D632DD0
    ensures Pick(55) == 1 && Word(1) == 0 && Shift(55) == 21 && T(55) == 0x85845DD1
    ensures Mix(55, 0x7D632DD0, 0x5B0D97AA, 0x06CC5E8A) == 0xA67E3A5F
    ensures Add(0x7D632DD0, Rotl(Sum(0x8BF025C4, 0xA67E3A5F, 0, 0x85845DD1), 21)) == 0x3BFA2C27
  {}

  lemma Steps52()
    requires Before(52, Regs(0x7B201DF8, 0x8BF025C4, 0xB298CEFD, 0xF4E8E96E))
    ensures Before(56, Regs(0x06CC5E8A, 0x3BFA2C27, 0x7D632DD0, 0x5B0D97AA))
  {
    hide Before, Pick, Word, Shift, T, Mix, Add, Rotl, Sum;
    Values52();
    OneStep(52, Regs(0x7B201DF8, 0x8BF025C4, 0xB298CEFD, 0xF4E8E96E), 12, 0, 6, 0x655B59C3,
            0x396FF928, 0x06CC5E8A);
    OneStep(53, Regs(0xF4E8E96E, 0x06CC5E8A, 0x8BF025C4, 0xB298CEFD), 3, 0, 10, 0x8F0CCC92,
            0xC41F5A4E, 0x5B0D97AA);
    OneStep(54, Regs(0xB298CEFD, 0x5B0D97AA, 0x06CC5E8A, 0x8BF025C4), 10, 0, 15, 0xFFEFF47D,
            0x79C38131, 0x7D632DD0);
    OneStep(55, Regs(0x8BF025C4, 0x7D632DD0, 0x5B0D97AA, 0x06CC5E8A), 1, 0, 21, 0x85845DD1,
            0xA67E3A5F, 0x3BFA2C27);
  }

  lemma Values56()
    ensures Pick(56) == 8 && Word(8) == 0 && Shift(56) == 6 && T(56) == 0x6FA87E4F
    ensures Mix(56, 0x3BFA2C27, 0x7D632DD0, 0x5B0D97AA) == 0xC29941A7
    ensures Add(0x3BFA2C27, Rotl(Sum(0x06CC5E8A, 0xC29941A7, 0, 0x6FA87E4F), 6)) == 0x7F81CC35
    ensures Pick(57) == 15 && Word(15) == 0 && Shift(57) == 10 && T(57) == 0xFE2CE6E0
    ensures Mix(57, 0x7F81CC35, 0x3BFA2C27, 0x7D632DD0) == 0xC467F218
    ensures Add(0x7F81CC35, Rotl(Sum(0x5B0D97AA, 0xC467F218, 0, 0xFE2CE6E0), 10)) == 0x094454AB
    ensures Pick(58) == 6 && Word(6) == 0 && Shift(58) == 15 && T(58) == 0xA3014314
    ensures Mix(58, 0x094454AB, 0x7F81CC35, 0x3BFA2C27) == 0xB2C41BCE
    ensures Add(0x094454AB, Rotl(Sum(0x7D632DD0, 0xB2C41BCE, 0, 0xA3014314), 15)) == 0x4F9DBE3F
    ensures Pick(59) == 13 && Word(13) == 0 && Shift(59) == 21 && T(59) == 0x4E0811A1
    ensures Mix(59, 0x4F9DBE3F, 0x094454AB, 0x7F81CC35) == 0xC6BBEB54
    ensures Add(0x4F9DBE3F, Rotl(Sum(0x3BFA2C27, 0xC6BBEB54, 0, 0x4E0811A1), 21)) == 0x7327D604
  {}

  lemma Steps56()
    requires Before(56, Regs(0x06CC5E8A, 0x3BFA2C27, 0x7D632DD0, 0x5B0D97AA))
    ensures Before(60, Regs(0x7F81CC35, 0x7327D604, 0x4F9DBE3F, 0x094454AB))
  {
    hide Before, Pick, Word, Shift, T, Mix, Add, Rotl, Sum;
    Values56();
    OneStep(56, Regs(0x06CC5E8A, 0x3BFA2C27, 0x7D632DD0, 0x5B0D97AA), 8, 0, 6, 0x6FA87E4F,
            0xC29941A7, 0x7F81CC35);
    OneStep(57, Regs(0x5B0D97AA, 0x7F81CC35, 0x3BFA2C27, 0x7D632DD0), 15, 0, 10, 0xFE2CE6E0,
            0xC467F218, 0x094454AB);
    OneStep(58, Regs(0x7D632DD0, 0x094454AB, 0x7F81CC35, 0x3BFA2C27), 6, 0, 15, 0xA3014314,
            0xB2C41BCE, 0x4F9DBE3F);
    OneStep(59, Regs(0x3BFA2C27, 0x4F9DBE3F, 0x094454AB, 0x7F81CC35), 13, 0, 21, 0x4E0811A1,
            0xC6BBEB54, 0x7327D604);
  }

  lemma Values60()
    ensures Pick(60) == 4 && Word(4) == 0 && Shift(60) == 6 && T(60) == 0xF7537E82
    ensures Mix(60, 0x7327D604, 0x4F9DBE3F, 0x094454AB) == 0xB822416B
    ensures Add(0x7327D604, Rotl(Sum(0x7F81CC35, 0xB822416B, 0, 0xF7537E82), 6)) == 0x310ADE8F
    ensures Pick(61) == 11 && Word(11) == 0 && Shift(61) == 10 && T(61) == 0xBD3AF235
    ensures Mix(61, 0x310ADE8F, 0x7327D604, 0x4F9DBE3F) == 0xC24D09CB
    ensures Add(0x310ADE8F, Rotl(Sum(0x094454AB, 0xC24D09CB, 0, 0xBD3AF235), 10)) == 0x624D8CB2
    ensures Pick(62) == 2 && Word(2) == 0 && Shift(62) == 15 && T(62) == 0x2AD7D2BB
    ensures Mix(62, 0x624D8CB2, 0x310ADE8F, 0x7327D604) == 0xDFD77374
    ensures Add(0x624D8CB2, Rotl(Sum(0x4F9DBE3F, 0xDFD77374, 0, 0x2AD7D2BB), 15)) == 0xE484B9D8
    ensures Pick(63) == 9 && Word(9) == 0 && Shift(63) == 21 && T(63) == 0xEB86D391
    ensures Mix(63, 0xE484B9D8, 0x624D8CB2, 0x310ADE8F) == 0x8CB8354A
    ensures Add(0xE484B9D8, Rotl(Sum(0x7327D604, 0x8CB8354A, 0, 0xEB86D391), 21)) == 0xC08226B3
  {}

  lemma Steps60()
    requires Before(60, Regs(0x7F81CC35, 0x7327D604, 0x4F9DBE3F, 0x094454AB))
    ensures Before(64, Regs(0x310ADE8F, 0xC08226B3, 0xE484B9D8, 0x624D8CB2))
  {
    hide Before, Pick, Word, Shift, T, Mix, Add, Rotl, Sum;
    Values60();
    OneStep(60, Regs(0x7F81CC35, 0x7327D604, 0x4F9DBE3F, 0x094454AB), 4, 0, 6, 0xF7537E82,
            0xB822416B, 0x310ADE8F);
    OneStep(61, Regs(0x094454AB, 0x310ADE8F, 0x7327D604, 0x4F9DBE3F), 11, 0, 10, 0xBD3AF235,
            0xC24D09CB, 0x624D8CB2);
    OneStep(62, Regs(0x4F9DBE3F, 0x624D8CB2, 0x310ADE8F, 0x7327D604), 2, 0, 15, 0x2AD7D2BB,
            0xDFD77374, 0xE484B9D8);
    OneStep(63, Regs(0x7327D604, 0xE484B9D8, 0x624D8CB2, 0x310ADE8F), 9, 0, 21, 0xEB86D391,
            0x8CB8354A, 0xC08226B3);
  }

  lemma AllSteps()
    ensures Before(64, Regs(0x310ADE8F, 0xC08226B3, 0xE484B9D8, 0x624D8CB2))
  {
    hide Before;
    FirstStep();
    Steps0();
    Steps4();
    Steps8();
    Steps12();
    Steps16();
    Steps20();
    Steps24();
    Steps28();
    Steps32();
    Steps36();
    Steps40();
    Steps44();
    Steps48();
    Steps52();
    Steps56();
    Steps60();
  }

  lemma LastRegisters()
    ensures Plus(INITIAL, Regs(0x310ADE8F, 0xC08226B3, 0xE484B9D8, 0x624D8CB2))
            == Regs(0x98500190, 0xB04FD23C, 0x7D3F96D6, 0x727FE128)
  {}

  // 900150983cd24fb0d6963f7d28e17f72
  lemma DigestOfAbc()
    ensures Hash(ABC) == [0x90, 0x01, 0x50, 0x98, 0x3C, 0xD2, 0x4F, 0xB0,
                          0xD6, 0x96, 0x3F, 0x7D, 0x28, 0xE1, 0x7F, 0x72]
  {
    hide AbcBlock, Steps, Octets, Plus, INITIAL;
    AbcPadded();
    FoldOne(Compress, INITIAL, AbcBlock());
    AllSteps();
    LastRegisters();
    AbcOctets();
  }

  lemma AbcOctets()
    ensures Octets(0x98500190) == [0x90, 0x01, 0x50, 0x98]
    ensures Octets(0xB04FD23C) == [0x3C, 0xD2, 0x4F, 0xB0]
    ensures Octets(0x7D3F96D6) == [0xD6, 0x96, 0x3F, 0x7D]
    ensures Octets(0x727FE128) == [0x28, 0xE1, 0x7F, 0x72]
  {}
}
