// The first example of section 7.3 of RFC 3174: the digest of "abc", word by word
// and round by round.
module Sha1Example {
  import opened Digest
  import opened Sha1
  import opened Sha1Stream

  const ABC: seq<octet> := [0x61, 0x62, 0x63]

  // "abc", the bit that ends it, and its length of 24 bits
  function AbcBlock(): (b: Block) {
    ABC + [0x80] + Zeros(52) + [0, 0, 0, 0, 0, 0, 0, 24]
  }

  lemma AbcPadded()
    ensures Padded(ABC) == AbcBlock()
  {
    hide Length64, Zeros;
    AbcLength();
    assert Stop(3) == [0x80] + Zeros(52);
  }

  lemma AbcLength()
    ensures Length64(3) == [0, 0, 0, 0, 0, 0, 0, 24]
  {
    hide ByteOf;
    SmallOctets();
  }

  lemma SmallOctets()
    ensures ByteOf(24) == 24 && ByteOf(0) == 0
  {}

  // --------------------------------------------------------- the schedule

  // The schedule of this block
  function Word(t: nat): bv32
    requires t < 80
  {
    match t

    case 0 => 0x61626380
    case 1 => 0x00000000
    case 2 => 0x00000000
    case 3 => 0x00000000
    case 4 => 0x00000000
    case 5 => 0x00000000
    case 6 => 0x00000000
    case 7 => 0x00000000
    case 8 => 0x00000000
    case 9 => 0x00000000
    case 10 => 0x00000000
    case 11 => 0x00000000
    case 12 => 0x00000000
    case 13 => 0x00000000
    case 14 => 0x00000000
    case 15 => 0x00000018
    case 16 => 0xC2C4C700
    case 17 => 0x00000000
    case 18 => 0x00000030
    case 19 => 0x85898E01
    case 20 => 0x00000000
    case 21 => 0x00000060
    case 22 => 0x0B131C03
    case 23 => 0x00000030
    case 24 => 0x85898EC1
    case 25 => 0x16263806
    case 26 => 0x00000000
    case 27 => 0x00000180
    case 28 => 0x2C4C700C
    case 29 => 0x000000F0
    case 30 => 0x93AFB507
    case 31 => 0x5898E048
    case 32 => 0x8E9A9202
    case 33 => 0x00000600
    case 34 => 0xB131C0F0
    case 35 => 0x16263BC6
    case 36 => 0x4EBED41E
    case 37 => 0x626380A1
    case 38 => 0x16263806
    case 39 => 0x000018C0
    case 40 => 0xD2E138C4
    case 41 => 0x00000F00
    case 42 => 0x3AFB5079
    case 43 => 0x898E04E5
    case 44 => 0xE2BA3C2B
    case 45 => 0x000060C0
    case 46 => 0x053A37CD
    case 47 => 0x74458547
    case 48 => 0xDA9415ED
    case 49 => 0x26380A16
    case 50 => 0x626383A1
    case 51 => 0x4EBF54DE
    case 52 => 0x3835B44B
    case 53 => 0x0000F600
    case 54 => 0x1E84C7A3
    case 55 => 0x98E04D98
    case 56 => 0x651D16A0
    case 57 => 0x62658CA1
    case 58 => 0x458544D6
    case 59 => 0x44584CB7
    case 60 => 0x7BA06619
    case 61 => 0x6380AEA2
    case 62 => 0x0AE55269
    case 63 => 0x627B49A1
    case 64 => 0x7CD45C9D
    case 65 => 0x000F0000
    case 66 => 0xFB50753A
    case 67 => 0xEC6765E8
    case 68 => 0xBA3C2BE2
    case 69 => 0x0060C000
    case 70 => 0x3A37CD05
    case 71 => 0x458546F4
    case 72 => 0xB8599DD6
    case 73 => 0x380A1A26
    case 74 => 0x01E02203
    case 75 => 0xE7CC3456
    case 76 => 0xE6E60B69
    case 77 => 0x00F60A00
    case 78 => 0x5795EF4F
    case _ => 0x822E0879
  }

  lemma FirstWords(t: nat)
    requires t < 16
    ensures W(AbcBlock(), t) == Word(t)
  {
    var b := AbcBlock();
    assert forall i :: 4 <= i < 63 ==> b[i] == 0;
    assert b[0] == 0x61 && b[1] == 0x62 && b[2] == 0x63 && b[3] == 0x80 && b[63] == 24;
  }

  lemma Words16(t: nat)
    requires 16 <= t < 24
    ensures Mixed(Word(t - 3), Word(t - 8), Word(t - 14), Word(t - 16)) == Word(t)
  {
    match t
    case 16 =>
    case 17 =>
    case 18 =>
    case 19 =>
    case 20 =>
    case 21 =>
    case 22 =>
    case _ =>
  }

  lemma Words24(t: nat)
    requires 24 <= t < 32
    ensures Mixed(Word(t - 3), Word(t - 8), Word(t - 14), Word(t - 16)) == Word(t)
  {
    match t
    case 24 =>
    case 25 =>
    case 26 =>
    case 27 =>
    case 28 =>
    case 29 =>
    case 30 =>
    case _ =>
  }

  lemma Words32(t: nat)
    requires 32 <= t < 40
    ensures Mixed(Word(t - 3), Word(t - 8), Word(t - 14), Word(t - 16)) == Word(t)
  {
    match t
    case 32 =>
    case 33 =>
    case 34 =>
    case 35 =>
    case 36 =>
    case 37 =>
    case 38 =>
    case _ =>
  }

  lemma Words40(t: nat)
    requires 40 <= t < 48
    ensures Mixed(Word(t - 3), Word(t - 8), Word(t - 14), Word(t - 16)) == Word(t)
  {
    match t
    case 40 =>
    case 41 =>
    case 42 =>
    case 43 =>
    case 44 =>
    case 45 =>
    case 46 =>
    case _ =>
  }

  lemma Words48(t: nat)
    requires 48 <= t < 56
    ensures Mixed(Word(t - 3), Word(t - 8), Word(t - 14), Word(t - 16)) == Word(t)
  {
    match t
    case 48 =>
    case 49 =>
    case 50 =>
    case 51 =>
    case 52 =>
    case 53 =>
    case 54 =>
    case _ =>
  }

  lemma Words56(t: nat)
    requires 56 <= t < 64
    ensures Mixed(Word(t - 3), Word(t - 8), Word(t - 14), Word(t - 16)) == Word(t)
  {
    match t
    case 56 =>
    case 57 =>
    case 58 =>
    case 59 =>
    case 60 =>
    case 61 =>
    case 62 =>
    case _ =>
  }

  lemma Words64(t: nat)
    requires 64 <= t < 72
    ensures Mixed(Word(t - 3), Word(t - 8), Word(t - 14), Word(t - 16)) == Word(t)
  {
    match t
    case 64 =>
    case 65 =>
    case 66 =>
    case 67 =>
    case 68 =>
    case 69 =>
    case 70 =>
    case _ =>
  }

  lemma Words72(t: nat)
    requires 72 <= t < 80
    ensures Mixed(Word(t - 3), Word(t - 8), Word(t - 14), Word(t - 16)) == Word(t)
  {
    match t
    case 72 =>
    case 73 =>
    case 74 =>
    case 75 =>
    case 76 =>
    case 77 =>
    case 78 =>
    case _ =>
  }

  lemma NextWord(t: nat)
    requires 16 <= t < 80
    ensures Mixed(Word(t - 3), Word(t - 8), Word(t - 14), Word(t - 16)) == Word(t)
  {
    hide Mixed, Word;
    if t < 24 {
      Words16(t);
    } else if t < 32 {
      Words24(t);
    } else if t < 40 {
      Words32(t);
    } else if t < 48 {
      Words40(t);
    } else if t < 56 {
      Words48(t);
    } else if t < 64 {
      Words56(t);
    } else if t < 72 {
      Words64(t);
    } else {
      Words72(t);
    }
  }

  lemma {:induction false} Schedule(t: nat)
    requires t < 80
    ensures W(AbcBlock(), t) == Word(t)
  {
    hide Mixed, Word, AbcBlock;
    if t < 16 {
      FirstWords(t);
    } else {
      Schedule(t - 3);
      Schedule(t - 8);
      Schedule(t - 14);
      Schedule(t - 16);
      NextWord(t);
    }
  }

  // ------------------------------------------------------------ the rounds

  // The registers before round t
  function Registers(t: nat): Regs
    requires t <= 80
  {
    match t

    case 0 => Regs(0x67452301, 0xEFCDAB89, 0x98BADCFE, 0x10325476, 0xC3D2E1F0)
    case 1 => Regs(0x0116FC33, 0x67452301, 0x7BF36AE2, 0x98BADCFE, 0x10325476)
    case 2 => Regs(0x8990536D, 0x0116FC33, 0x59D148C0, 0x7BF36AE2, 0x98BADCFE)
    case 3 => Regs(0xA1390F08, 0x8990536D, 0xC045BF0C, 0x59D148C0, 0x7BF36AE2)
    case 4 => Regs(0xCDD8E11B, 0xA1390F08, 0x626414DB, 0xC045BF0C, 0x59D148C0)
    case 5 => Regs(0xCFD499DE, 0xCDD8E11B, 0x284E43C2, 0x626414DB, 0xC045BF0C)
    case 6 => Regs(0x3FC7CA40, 0xCFD499DE, 0xF3763846, 0x284E43C2, 0x626414DB)
    case 7 => Regs(0x993E30C1, 0x3FC7CA40, 0xB3F52677, 0xF3763846, 0x284E43C2)
    case 8 => Regs(0x9E8C07D4, 0x993E30C1, 0x0FF1F290, 0xB3F52677, 0xF3763846)
    case 9 => Regs(0x4B6AE328, 0x9E8C07D4, 0x664F8C30, 0x0FF1F290, 0xB3F52677)
    case 10 => Regs(0x8351F929, 0x4B6AE328, 0x27A301F5, 0x664F8C30, 0x0FF1F290)
    case 11 => Regs(0xFBDA9E89, 0x8351F929, 0x12DAB8CA, 0x27A301F5, 0x664F8C30)
    case 12 => Regs(0x63188FE4, 0xFBDA9E89, 0x60D47E4A, 0x12DAB8CA, 0x27A301F5)
    case 13 => Regs(0x4607B664, 0x63188FE4, 0x7EF6A7A2, 0x60D47E4A, 0x12DAB8CA)
    case 14 => Regs(0x9128F695, 0x4607B664, 0x18C623F9, 0x7EF6A7A2, 0x60D47E4A)
    case 15 => Regs(0x196BEE77, 0x9128F695, 0x1181ED99, 0x18C623F9, 0x7EF6A7A2)
    case 16 => Regs(0x20BDD62F, 0x196BEE77, 0x644A3DA5, 0x1181ED99, 0x18C623F9)
    case 17 => Regs(0x4E925823, 0x20BDD62F, 0xC65AFB9D, 0x644A3DA5, 0x1181ED99)
    case 18 => Regs(0x82AA6728, 0x4E925823, 0xC82F758B, 0xC65AFB9D, 0x644A3DA5)
    case 19 => Regs(0xDC64901D, 0x82AA6728, 0xD3A49608, 0xC82F758B, 0xC65AFB9D)
    case 20 => Regs(0xFD9E1D7D, 0xDC64901D, 0x20AA99CA, 0xD3A49608, 0xC82F758B)
    case 21 => Regs(0x1A37B0CA, 0xFD9E1D7D, 0x77192407, 0x20AA99CA, 0xD3A49608)
    case 22 => Regs(0x33A23BFC, 0x1A37B0CA, 0x7F67875F, 0x77192407, 0x20AA99CA)
    case 23 => Regs(0x21283486, 0x33A23BFC, 0x868DEC32, 0x7F67875F, 0x77192407)
    case 24 => Regs(0xD541F12D, 0x21283486, 0x0CE88EFF, 0x868DEC32, 0x7F67875F)
    case 25 => Regs(0xC7567DC6, 0xD541F12D, 0x884A0D21, 0x0CE88EFF, 0x868DEC32)
    case 26 => Regs(0x48413BA4, 0xC7567DC6, 0x75507C4B, 0x884A0D21, 0x0CE88EFF)
    case 27 => Regs(0xBE35FBD5, 0x48413BA4, 0xB1D59F71, 0x75507C4B, 0x884A0D21)
    case 28 => Regs(0x4AA84D97, 0xBE35FBD5, 0x12104EE9, 0xB1D59F71, 0x75507C4B)
    case 29 => Regs(0x8370B52E, 0x4AA84D97, 0x6F8D7EF5, 0x12104EE9, 0xB1D59F71)
    case 30 => Regs(0xC5FBAF5D, 0x8370B52E, 0xD2AA1365, 0x6F8D7EF5, 0x12104EE9)
    case 31 => Regs(0x1267B407, 0xC5FBAF5D, 0xA0DC2D4B, 0xD2AA1365, 0x6F8D7EF5)
    case 32 => Regs(0x3B845D33, 0x1267B407, 0x717EEBD7, 0xA0DC2D4B, 0xD2AA1365)
    case 33 => Regs(0x046FAA0A, 0x3B845D33, 0xC499ED01, 0x717EEBD7, 0xA0DC2D4B)
    case 34 => Regs(0x2C0EBC11, 0x046FAA0A, 0xCEE1174C, 0xC499ED01, 0x717EEBD7)
    case 35 => Regs(0x21796AD4, 0x2C0EBC11, 0x811BEA82, 0xCEE1174C, 0xC499ED01)
    case 36 => Regs(0xDCBBB0CB, 0x21796AD4, 0x4B03AF04, 0x811BEA82, 0xCEE1174C)
    case 37 => Regs(0x0F511FD8, 0xDCBBB0CB, 0x085E5AB5, 0x4B03AF04, 0x811BEA82)
    case 38 => Regs(0xDC63973F, 0x0F511FD8, 0xF72EEC32, 0x085E5AB5, 0x4B03AF04)
    case 39 => Regs(0x4C986405, 0xDC63973F, 0x03D447F6, 0xF72EEC32, 0x085E5AB5)
    case 40 => Regs(0x32DE1CBA, 0x4C986405, 0xF718E5CF, 0x03D447F6, 0xF72EEC32)
    case 41 => Regs(0xFC87DEDF, 0x32DE1CBA, 0x53261901, 0xF718E5CF, 0x03D447F6)
    case 42 => Regs(0x970A0D5C, 0xFC87DEDF, 0x8CB7872E, 0x53261901, 0xF718E5CF)
    case 43 => Regs(0x7F193DC5, 0x970A0D5C, 0xFF21F7B7, 0x8CB7872E, 0x53261901)
    case 44 => Regs(0xEE1B1AAF, 0x7F193DC5, 0x25C28357, 0xFF21F7B7, 0x8CB7872E)
    case 45 => Regs(0x40F28E09, 0xEE1B1AAF, 0x5FC64F71, 0x25C28357, 0xFF21F7B7)
    case 46 => Regs(0x1C51E1F2, 0x40F28E09, 0xFB86C6AB, 0x5FC64F71, 0x25C28357)
    case 47 => Regs(0xA01B846C, 0x1C51E1F2, 0x503CA382, 0xFB86C6AB, 0x5FC64F71)
    case 48 => Regs(0xBEAD02CA, 0xA01B846C, 0x8714787C, 0x503CA382, 0xFB86C6AB)
    case 49 => Regs(0xBAF39337, 0xBEAD02CA, 0x2806E11B, 0x8714787C, 0x503CA382)
    case 50 => Regs(0x120731C5, 0xBAF39337, 0xAFAB40B2, 0x2806E11B, 0x8714787C)
    case 51 => Regs(0x641DB2CE, 0x120731C5, 0xEEBCE4CD, 0xAFAB40B2, 0x2806E11B)
    case 52 => Regs(0x3847AD66, 0x641DB2CE, 0x4481CC71, 0xEEBCE4CD, 0xAFAB40B2)
    case 53 => Regs(0xE490436D, 0x3847AD66, 0x99076CB3, 0x4481CC71, 0xEEBCE4CD)
    case 54 => Regs(0x27E9F1D8, 0xE490436D, 0x8E11EB59, 0x99076CB3, 0x4481CC71)
    case 55 => Regs(0x7B71F76D, 0x27E9F1D8, 0x792410DB, 0x8E11EB59, 0x99076CB3)
    case 56 => Regs(0x5E6456AF, 0x7B71F76D, 0x09FA7C76, 0x792410DB, 0x8E11EB59)
    case 57 => Regs(0xC846093F, 0x5E6456AF, 0x5EDC7DDB, 0x09FA7C76, 0x792410DB)
    case 58 => Regs(0xD262FF50, 0xC846093F, 0xD79915AB, 0x5EDC7DDB, 0x09FA7C76)
    case 59 => Regs(0x09D785FD, 0xD262FF50, 0xF211824F, 0xD79915AB, 0x5EDC7DDB)
    case 60 => Regs(0x3F52DE5A, 0x09D785FD, 0x3498BFD4, 0xF211824F, 0xD79915AB)
    case 61 => Regs(0xD756C147, 0x3F52DE5A, 0x4275E17F, 0x3498BFD4, 0xF211824F)
    case 62 => Regs(0x548C9CB2, 0xD756C147, 0x8FD4B796, 0x4275E17F, 0x3498BFD4)
    case 63 => Regs(0xB66C020B, 0x548C9CB2, 0xF5D5B051, 0x8FD4B796, 0x4275E17F)
    case 64 => Regs(0x6B61C9E1, 0xB66C020B, 0x9523272C, 0xF5D5B051, 0x8FD4B796)
    case 65 => Regs(0x19DFA7AC, 0x6B61C9E1, 0xED9B0082, 0x9523272C, 0xF5D5B051)
    case 66 => Regs(0x101655F9, 0x19DFA7AC, 0x5AD87278, 0xED9B0082, 0x9523272C)
    case 67 => Regs(0x0C3DF2B4, 0x101655F9, 0x0677E9EB, 0x5AD87278, 0xED9B0082)
    case 68 => Regs(0x78DD4D2B, 0x0C3DF2B4, 0x4405957E, 0x0677E9EB, 0x5AD87278)
    case 69 => Regs(0x497093C0, 0x78DD4D2B, 0x030F7CAD, 0x4405957E, 0x0677E9EB)
    case 70 => Regs(0x3F2588C2, 0x497093C0, 0xDE37534A, 0x030F7CAD, 0x4405957E)
    case 71 => Regs(0xC199F8C7, 0x3F2588C2, 0x125C24F0, 0xDE37534A, 0x030F7CAD)
    case 72 => Regs(0x39859DE7, 0xC199F8C7, 0x8FC96230, 0x125C24F0, 0xDE37534A)
    case 73 => Regs(0xEDB42DE4, 0x39859DE7, 0xF0667E31, 0x8FC96230, 0x125C24F0)
    case 74 => Regs(0x11793F6F, 0xEDB42DE4, 0xCE616779, 0xF0667E31, 0x8FC96230)
    case 75 => Regs(0x5EE76897, 0x11793F6F, 0x3B6D0B79, 0xCE616779, 0xF0667E31)
    case 76 => Regs(0x63F7DAB7, 0x5EE76897, 0xC45E4FDB, 0x3B6D0B79, 0xCE616779)
    case 77 => Regs(0xA079B7D9, 0x63F7DAB7, 0xD7B9DA25, 0xC45E4FDB, 0x3B6D0B79)
    case 78 => Regs(0x860D21CC, 0xA079B7D9, 0xD8FDF6AD, 0xD7B9DA25, 0xC45E4FDB)
    case 79 => Regs(0x5738D5E1, 0x860D21CC, 0x681E6DF6, 0xD8FDF6AD, 0xD7B9DA25)
    case _ => Regs(0x42541B35, 0x5738D5E1, 0x21834873, 0x681E6DF6, 0xD8FDF6AD)
  }

  lemma Rounds0(t: nat)
    requires 0 <= t < 5
    ensures Round(Registers(t), t, Word(t)) == Registers(t + 1)
  {
    match t
    case 0 =>
    case 1 =>
    case 2 =>
    case 3 =>
    case _ =>
  }

  lemma Rounds5(t: nat)
    requires 5 <= t < 10
    ensures Round(Registers(t), t, Word(t)) == Registers(t + 1)
  {
    match t
    case 5 =>
    case 6 =>
    case 7 =>
    case 8 =>
    case _ =>
  }

  lemma Rounds10(t: nat)
    requires 10 <= t < 15
    ensures Round(Registers(t), t, Word(t)) == Registers(t + 1)
  {
    match t
    case 10 =>
    case 11 =>
    case 12 =>
    case 13 =>
    case _ =>
  }

  lemma Rounds15(t: nat)
    requires 15 <= t < 20
    ensures Round(Registers(t), t, Word(t)) == Registers(t + 1)
  {
    match t
    case 15 =>
    case 16 =>
    case 17 =>
    case 18 =>
    case _ =>
  }

  lemma Rounds20(t: nat)
    requires 20 <= t < 25
    ensures Round(Registers(t), t, Word(t)) == Registers(t + 1)
  {
    match t
    case 20 =>
    case 21 =>
    case 22 =>
    case 23 =>
    case _ =>
  }

  lemma Rounds25(t: nat)
    requires 25 <= t < 30
    ensures Round(Registers(t), t, Word(t)) == Registers(t + 1)
  {
    match t
    case 25 =>
    case 26 =>
    case 27 =>
    case 28 =>
    case _ =>
  }

  lemma Rounds30(t: nat)
    requires 30 <= t < 35
    ensures Round(Registers(t), t, Word(t)) == Registers(t + 1)
  {
    match t
    case 30 =>
    case 31 =>
    case 32 =>
    case 33 =>
    case _ =>
  }

  lemma Rounds35(t: nat)
    requires 35 <= t < 40
    ensures Round(Registers(t), t, Word(t)) == Registers(t + 1)
  {
    match t
    case 35 =>
    case 36 =>
    case 37 =>
    case 38 =>
    case _ =>
  }

  lemma Rounds40(t: nat)
    requires 40 <= t < 45
    ensures Round(Registers(t), t, Word(t)) == Registers(t + 1)
  {
    match t
    case 40 =>
    case 41 =>
    case 42 =>
    case 43 =>
    case _ =>
  }

  lemma Rounds45(t: nat)
    requires 45 <= t < 50
    ensures Round(Registers(t), t, Word(t)) == Registers(t + 1)
  {
    match t
    case 45 =>
    case 46 =>
    case 47 =>
    case 48 =>
    case _ =>
  }

  lemma Rounds50(t: nat)
    requires 50 <= t < 55
    ensures Round(Registers(t), t, Word(t)) == Registers(t + 1)
  {
    match t
    case 50 =>
    case 51 =>
    case 52 =>
    case 53 =>
    case _ =>
  }

  lemma Rounds55(t: nat)
    requires 55 <= t < 60
    ensures Round(Registers(t), t, Word(t)) == Registers(t + 1)
  {
    match t
    case 55 =>
    case 56 =>
    case 57 =>
    case 58 =>
    case _ =>
  }

  lemma Rounds60(t: nat)
    requires 60 <= t < 65
    ensures Round(Registers(t), t, Word(t)) == Registers(t + 1)
  {
    match t
    case 60 =>
    case 61 =>
    case 62 =>
    case 63 =>
    case _ =>
  }

  lemma Rounds65(t: nat)
    requires 65 <= t < 70
    ensures Round(Registers(t), t, Word(t)) == Registers(t + 1)
  {
    match t
    case 65 =>
    case 66 =>
    case 67 =>
    case 68 =>
    case _ =>
  }

  lemma Rounds70(t: nat)
    requires 70 <= t < 75
    ensures Round(Registers(t), t, Word(t)) == Registers(t + 1)
  {
    match t
    case 70 =>
    case 71 =>
    case 72 =>
    case 73 =>
    case _ =>
  }

  lemma Rounds75(t: nat)
    requires 75 <= t < 80
    ensures Round(Registers(t), t, Word(t)) == Registers(t + 1)
  {
    match t
    case 75 =>
    case 76 =>
    case 77 =>
    case 78 =>
    case _ =>
  }

  lemma NextRound(t: nat)
    requires t < 80
    ensures Round(Registers(t), t, Word(t)) == Registers(t + 1)
  {
    hide Round, Word, Registers;
    if t < 5 {
      Rounds0(t);
    } else if t < 10 {
      Rounds5(t);
    } else if t < 15 {
      Rounds10(t);
    } else if t < 20 {
      Rounds15(t);
    } else if t < 25 {
      Rounds20(t);
    } else if t < 30 {
      Rounds25(t);
    } else if t < 35 {
      Rounds30(t);
    } else if t < 40 {
      Rounds35(t);
    } else if t < 45 {
      Rounds40(t);
    } else if t < 50 {
      Rounds45(t);
    } else if t < 55 {
      Rounds50(t);
    } else if t < 60 {
      Rounds55(t);
    } else if t < 65 {
      Rounds60(t);
    } else if t < 70 {
      Rounds65(t);
    } else if t < 75 {
      Rounds70(t);
    } else {
      Rounds75(t);
    }
  }

  lemma {:induction false} AllRounds(t: nat)
    requires t <= 80
    ensures Rounds(AbcBlock(), INITIAL, t) == Registers(t)
  {
    hide Round, Word, W, AbcBlock, Registers, INITIAL;
    if t > 0 {
      AllRounds(t - 1);
      Schedule(t - 1);
      NextRound(t - 1);
    } else {
      FirstRegisters();
    }
  }

  lemma FirstRegisters()
    ensures INITIAL == Registers(0)
  {}

  lemma LastRegisters()
    ensures Plus(INITIAL, Registers(80)) == Regs(0xA9993E36, 0x4706816A, 0xBA3E2571, 0x7850C26C, 0x9CD0D89D)
  {}

  // A999 3E36 4706 816A BA3E 2571 7850 C26C 9CD0 D89D
  lemma DigestOfAbc()
    ensures Hash(ABC) ==
            [0xA9, 0x99, 0x3E, 0x36, 0x47, 0x06, 0x81, 0x6A, 0xBA, 0x3E,
             0x25, 0x71, 0x78, 0x50, 0xC2, 0x6C, 0x9C, 0xD0, 0xD8, 0x9D]
  {
    hide AbcBlock, Rounds, Octets, Plus, Registers, W, INITIAL;
    AbcPadded();
    FoldOne(Compress, INITIAL, AbcBlock());
    AllRounds(80);
    LastRegisters();
    AbcOctets();
  }

  lemma AbcOctets()
    ensures Octets(0xA9993E36) == [0xA9, 0x99, 0x3E, 0x36]
    ensures Octets(0x4706816A) == [0x47, 0x06, 0x81, 0x6A]
    ensures Octets(0xBA3E2571) == [0xBA, 0x3E, 0x25, 0x71]
    ensures Octets(0x7850C26C) == [0x78, 0x50, 0xC2, 0x6C]
    ensures Octets(0x9CD0D89D) == [0x9C, 0xD0, 0xD8, 0x9D]
  {}
}
