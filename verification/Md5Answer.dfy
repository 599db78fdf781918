/** The known answer of RFC 1321, section A.5: the digest of "abc", step by step. */
module Md5Answer {
  import opened Machine
  import opened Md5Rfc
  import Md5

  const ABC: seq<byte> := [0x61, 0x62, 0x63]

  function Padded(i: nat): byte {
    match i
    case 0 => 0x61
    case 1 => 0x62
    case 2 => 0x63
    case 3 => 0x80
    case 56 => 24
    case _ => 0
  }

  /** The padded message: the text, 0x80, zeros, and its length of 24 bits. */
  const PADDED: seq<byte> := seq(64, i requires 0 <= i < 64 => Padded(i))

  /** The words of the padded message. */
  const BLOCK: seq<Word> := seq(16, k requires 0 <= k < 16 => InBlock(k))

  function InBlock(k: nat): Word {
    match k
    case 0 => Word(0x80636261)
    case 14 => Word(24)
    case _ => Word(0)
  }

  lemma AbcPadded()
    ensures Pad(ABC) == PADDED
  {
    var zeros, length := Zeros(52), LengthBytes(3);
    assert length == [24, 0, 0, 0, 0, 0, 0, 0];
    assert Pad(ABC) == ABC + [0x80] + zeros + length;
    hide LengthBytes;
    forall i | 0 <= i < 64
      ensures Pad(ABC)[i] == PADDED[i]
    {
    }
  }

  lemma AbcWords()
    ensures Words(PADDED) == BLOCK
  {
    assert AsWord(0x80636261) == Word(0x80636261) && AsWord(24) == Word(24) && AsWord(0) == Word(0);
    hide AsWord;
    forall j | 0 <= j < 16
      ensures Words(PADDED)[j] == BLOCK[j]
    {
      AbcWordAt(j);
    }
  }

  lemma AbcWordAt(j: nat)
    requires j < 16
    ensures WordAt(PADDED, 4 * j) == if j == 0 then 0x80636261 else if j == 14 then 24 else 0
  {
    hide AsWord;
  }

  /** One step; f, sum and r are the values of the function, of the sum before the rotation, and of the new word. */
  lemma Advance(n: nat, a: bv32, b: bv32, c: bv32, d: bv32, x: bv32, f: bv32, sum: bv32, r: bv32)
    requires n < 64 && Steps(n, BLOCK, INITIAL) == Chain(Word(a), Word(b), Word(c), Word(d))
    requires InBlock(WordIndex(n)) == Word(x) && Mix(n, Word(b), Word(c), Word(d)) == Word(f)
    requires Sum(Word(a), Word(f), Word(x), Sine(n)) == Word(sum)
    requires Plus(Md5.Rotate(Word(sum), RotateCount(n)), Word(b)) == Word(r)
    ensures Steps(n + 1, BLOCK, INITIAL) == Chain(Word(d), Word(r), Word(b), Word(c))
  {
    hide Mix, WordIndex, RotateCount, Sine, Sum, Plus, RotateLeft, Md5.Rotate;
    Md5.RotateIsCircular(Word(sum), RotateCount(n));
  }

  lemma Sines1To4()
    ensures Sine(0) == Word(0xd76aa478) && Sine(1) == Word(0xe8c7b756)
    ensures Sine(2) == Word(0x242070db) && Sine(3) == Word(0xc1bdceee)
  {
  }

  lemma Sines5To8()
    ensures Sine(4) == Word(0xf57c0faf) && Sine(5) == Word(0x4787c62a)
    ensures Sine(6) == Word(0xa8304613) && Sine(7) == Word(0xfd469501)
  {
  }

  lemma Sines9To12()
    ensures Sine(8) == Word(0x698098d8) && Sine(9) == Word(0x8b44f7af)
    ensures Sine(10) == Word(0xffff5bb1) && Sine(11) == Word(0x895cd7be)
  {
  }

  lemma Sines13To16()
    ensures Sine(12) == Word(0x6b901122) && Sine(13) == Word(0xfd987193)
    ensures Sine(14) == Word(0xa679438e) && Sine(15) == Word(0x49b40821)
  {
  }

  lemma Sines17To20()
    ensures Sine(16) == Word(0xf61e2562) && Sine(17) == Word(0xc040b340)
    ensures Sine(18) == Word(0x265e5a51) && Sine(19) == Word(0xe9b6c7aa)
  {
  }

  lemma Sines21To24()
    ensures Sine(20) == Word(0xd62f105d) && Sine(21) == Word(0x02441453)
    ensures Sine(22) == Word(0xd8a1e681) && Sine(23) == Word(0xe7d3fbc8)
  {
  }

  lemma Sines25To28()
    ensures Sine(24) == Word(0x21e1cde6) && Sine(25) == Word(0xc33707d6)
    ensures Sine(26) == Word(0xf4d50d87) && Sine(27) == Word(0x455a14ed)
  {
  }

  lemma Sines29To32()
    ensures Sine(28) == Word(0xa9e3e905) && Sine(29) == Word(0xfcefa3f8)
    ensures Sine(30) == Word(0x676f02d9) && Sine(31) == Word(0x8d2a4c8a)
  {
  }

  lemma Sines33To36()
    ensures Sine(32) == Word(0xfffa3942) && Sine(33) == Word(0x8771f681)
    ensures Sine(34) == Word(0x6d9d6122) && Sine(35) == Word(0xfde5380c)
  {
  }

  lemma Sines37To40()
    ensures Sine(36) == Word(0xa4beea44) && Sine(37) == Word(0x4bdecfa9)
    ensures Sine(38) == Word(0xf6bb4b60) && Sine(39) == Word(0xbebfbc70)
  {
  }

  lemma Sines41To44()
    ensures Sine(40) == Word(0x289b7ec6) && Sine(41) == Word(0xeaa127fa)
    ensures Sine(42) == Word(0xd4ef3085) && Sine(43) == Word(0x04881d05)
  {
  }

  lemma Sines45To48()
    ensures Sine(44) == Word(0xd9d4d039) && Sine(45) == Word(0xe6db99e5)
    ensures Sine(46) == Word(0x1fa27cf8) && Sine(47) == Word(0xc4ac5665)
  {
  }

  lemma Sines49To52()
    ensures Sine(48) == Word(0xf4292244) && Sine(49) == Word(0x432aff97)
    ensures Sine(50) == Word(0xab9423a7) && Sine(51) == Word(0xfc93a039)
  {
  }

  lemma Sines53To56()
    ensures Sine(52) == Word(0x655b59c3) && Sine(53) == Word(0x8f0ccc92)
    ensures Sine(54) == Word(0xffeff47d) && Sine(55) == Word(0x85845dd1)
  {
  }

  lemma Sines57To60()
    ensures Sine(56) == Word(0x6fa87e4f) && Sine(57) == Word(0xfe2ce6e0)
    ensures Sine(58) == Word(0xa3014314) && Sine(59) == Word(0x4e0811a1)
  {
  }

  lemma Sines61To64()
    ensures Sine(60) == Word(0xf7537e82) && Sine(61) == Word(0xbd3af235)
    ensures Sine(62) == Word(0x2ad7d2bb) && Sine(63) == Word(0xeb86d391)
  {
  }

  lemma Steps1To4()
    ensures Steps(4, BLOCK, INITIAL) == Chain(Word(0xd6d117b4), Word(0x7ad956f2), Word(0x2f6fbd72), Word(0x344a8432))
  {
    Md5.NoSteps(BLOCK, INITIAL);
    hide Steps, Sine;
    Sines1To4();
    Advance(0, 0x67452301, 0xefcdab89, 0x98badcfe, 0x10325476, 0x80636261, 0x98badcfe, 0x57ce06d8, 0xd6d117b4);
    Advance(1, 0x10325476, 0xd6d117b4, 0xefcdab89, 0x98badcfe, 0, 0xceebcbca, 0xc7e5d796, 0x344a8432);
    Advance(2, 0x98badcfe, 0x344a8432, 0xd6d117b4, 0xefcdab89, 0, 0xdfc52fb9, 0x9ca07d92, 0x2f6fbd72);
    Advance(3, 0xefcdab89, 0x2f6fbd72, 0x344a8432, 0xd6d117b4, 0, 0xf4da86b6, 0xa666012d, 0x7ad956f2);
  }

  lemma Steps5To8()
    requires Steps(4, BLOCK, INITIAL) == Chain(Word(0xd6d117b4), Word(0x7ad956f2), Word(0x2f6fbd72), Word(0x344a8432))
    ensures Steps(8, BLOCK, INITIAL) == Chain(Word(0xc73741ef), Word(0x928d99f6), Word(0x207dc67b), Word(0x8bac3051))
  {
    hide Steps, Sine;
    Sines5To8();
    Advance(4, 0xd6d117b4, 0x7ad956f2, 0x2f6fbd72, 0x344a8432, 0, 0x2e4b9472, 0xfa98bbd5, 0xc73741ef);
    Advance(5, 0x344a8432, 0xc73741ef, 0x7ad956f2, 0x2f6fbd72, 0, 0x6a59fcf2, 0xe62c474e, 0x8bac3051);
    Advance(6, 0x2f6fbd72, 0x8bac3051, 0xc73741ef, 0x7ad956f2, 0, 0xf37546e3, 0xcb154a68, 0x207dc67b);
    Advance(7, 0x7ad956f2, 0x207dc67b, 0x8bac3051, 0xc73741ef, 0, 0xc72e01d5, 0x3f4dedc8, 0x928d99f6);
  }

  lemma Steps9To12()
    requires Steps(8, BLOCK, INITIAL) == Chain(Word(0xc73741ef), Word(0x928d99f6), Word(0x207dc67b), Word(0x8bac3051))
    ensures Steps(12, BLOCK, INITIAL) == Chain(Word(0x854b3712), Word(0x5ed49596), Word(0x3020401c), Word(0x74e2f284))
  {
    hide Steps, Sine;
    Sines9To12();
    Advance(8, 0xc73741ef, 0x928d99f6, 0x207dc67b, 0x8bac3051, 0, 0x092da073, 0x39e57b3a, 0x854b3712);
    Advance(9, 0x8bac3051, 0x854b3712, 0x928d99f6, 0x207dc67b, 0, 0xa03dd17b, 0xb72ef97b, 0x74e2f284);
    Advance(10, 0x207dc67b, 0x74e2f284, 0x854b3712, 0x928d99f6, 0, 0x864f3b72, 0xa6cc5d9e, 0x3020401c);
    Advance(11, 0x928d99f6, 0x3020401c, 0x74e2f284, 0x854b3712, 0, 0xb56b7706, 0xd155e8ba, 0x5ed49596);
  }

  lemma Steps13To16()
    requires Steps(12, BLOCK, INITIAL) == Chain(Word(0x854b3712), Word(0x5ed49596), Word(0x3020401c), Word(0x74e2f284))
    ensures Steps(16, BLOCK, INITIAL) == Chain(Word(0xdda9b9a6), Word(0x72aff2e0), Word(0xe396856b), Word(0xa1051895))
  {
    hide Steps, Sine;
    Sines13To16();
    Advance(12, 0x854b3712, 0x5ed49596, 0x3020401c, 0x74e2f284, 0, 0x30226214, 0x20fdaa48, 0xdda9b9a6);
    Advance(13, 0x74e2f284, 0xdda9b9a6, 0x5ed49596, 0x3020401c, 0, 0x7c80d19e, 0xeefc35b5, 0xa1051895);
    Advance(14, 0x3020401c, 0xa1051895, 0xdda9b9a6, 0x5ed49596, 24, 0xdfd19d86, 0xb66b2148, 0xe396856b);
    Advance(15, 0x5ed49596, 0xe396856b, 0xa1051895, 0xdda9b9a6, 0, 0xbd2d3885, 0x65b5d63c, 0x72aff2e0);
  }

  lemma Steps17To20()
    requires Steps(16, BLOCK, INITIAL) == Chain(Word(0xdda9b9a6), Word(0x72aff2e0), Word(0xe396856b), Word(0xa1051895))
    ensures Steps(20, BLOCK, INITIAL) == Chain(Word(0x3e9e9126), Word(0xb5b204e4), Word(0xe25e1652), Word(0x4a1d804e))
  {
    hide Steps, Sine;
    Sines17To20();
    Advance(16, 0xdda9b9a6, 0x72aff2e0, 0xe396856b, 0xa1051895, 0, 0x629795ea, 0x365f74f2, 0x3e9e9126);
    Advance(17, 0xa1051895, 0x3e9e9126, 0x72aff2e0, 0xe396856b, 0, 0x32bff3a2, 0x9405bf77, 0x4a1d804e);
    Advance(18, 0xe396856b, 0x4a1d804e, 0x3e9e9126, 0x72aff2e0, 0, 0x4e1d8146, 0x58126102, 0xe25e1652);
    Advance(19, 0x72aff2e0, 0xe25e1652, 0x4a1d804e, 0x3e9e9126, 0x80636261, 0x621f104a, 0x3ee92d35, 0xb5b204e4);
  }

  lemma Steps21To24()
    requires Steps(20, BLOCK, INITIAL) == Chain(Word(0x3e9e9126), Word(0xb5b204e4), Word(0xe25e1652), Word(0x4a1d804e))
    ensures Steps(24, BLOCK, INITIAL) == Chain(Word(0x59a8ffda), Word(0x47092c07), Word(0xabfc7920), Word(0x6d002f1e))
  {
    hide Steps, Sine;
    Sines21To24();
    Advance(20, 0x3e9e9126, 0xb5b204e4, 0xe25e1652, 0x4a1d804e, 0, 0xa0521654, 0xb51fb7d7, 0x59a8ffda);
    Advance(21, 0x4a1d804e, 0x59a8ffda, 0xb5b204e4, 0xe25e1652, 0, 0x55a816f6, 0xa209ab97, 0x6d002f1e);
    Advance(22, 0xe25e1652, 0x6d002f1e, 0x59a8ffda, 0xb5b204e4, 0, 0x6d08ff1e, 0x2808fbf1, 0xabfc7920);
    Advance(23, 0xb5b204e4, 0xabfc7920, 0x6d002f1e, 0x59a8ffda, 0, 0x2da87904, 0xcb2e79b0, 0x47092c07);
  }

  lemma Steps25To28()
    requires Steps(24, BLOCK, INITIAL) == Chain(Word(0x59a8ffda), Word(0x47092c07), Word(0xabfc7920), Word(0x6d002f1e))
    ensures Steps(28, BLOCK, INITIAL) == Chain(Word(0xb7f268cf), Word(0x786acb8f), Word(0xfe1623b1), Word(0x09388eff))
  {
    hide Steps, Sine;
    Sines25To28();
    Advance(24, 0x59a8ffda, 0x47092c07, 0xabfc7920, 0x6d002f1e, 0, 0xc7fc7c26, 0x438749e6, 0xb7f268cf);
    Advance(25, 0x6d002f1e, 0xb7f268cf, 0x47092c07, 0xabfc7920, 24, 0xe7f16c07, 0x1828a313, 0x09388eff);
    Advance(26, 0xabfc7920, 0x09388eff, 0xb7f268cf, 0x47092c07, 0, 0xb1fa4ccf, 0x52cbd376, 0xfe1623b1);
    Advance(27, 0x47092c07, 0xfe1623b1, 0x09388eff, 0xb7f268cf, 0, 0xbe1aa6b1, 0x4a7de7a5, 0x786acb8f);
  }

  lemma Steps29To32()
    requires Steps(28, BLOCK, INITIAL) == Chain(Word(0xb7f268cf), Word(0x786acb8f), Word(0xfe1623b1), Word(0x09388eff))
    ensures Steps(32, BLOCK, INITIAL) == Chain(Word(0x790a77fb), Word(0x726342d3), Word(0xa62884aa), Word(0x9f47e4f8))
  {
    hide Steps, Sine;
    Sines29To32();
    Advance(28, 0xb7f268cf, 0x786acb8f, 0xfe1623b1, 0x09388eff, 0, 0xfe2eab8f, 0x6004fd63, 0x790a77fb);
    Advance(29, 0x09388eff, 0x790a77fb, 0x786acb8f, 0xfe1623b1, 0, 0x786aebbf, 0x7e931eb6, 0x9f47e4f8);
    Advance(30, 0xfe1623b1, 0x9f47e4f8, 0x790a77fb, 0x786acb8f, 0, 0x1942f4f8, 0x7ec81b82, 0xa62884aa);
    Advance(31, 0x786acb8f, 0xa62884aa, 0x9f47e4f8, 0x790a77fb, 0, 0xa64d84aa, 0xabe29cc3, 0x726342d3);
  }

  lemma Steps33To36()
    requires Steps(32, BLOCK, INITIAL) == Chain(Word(0x790a77fb), Word(0x726342d3), Word(0xa62884aa), Word(0x9f47e4f8))
    ensures Steps(36, BLOCK, INITIAL) == Chain(Word(0xb3707ebf), Word(0x3b0875c7), Word(0x8d212ff5), Word(0x60127b2e))
  {
    hide Steps, Sine;
    Sines33To36();
    Advance(32, 0x790a77fb, 0x726342d3, 0xa62884aa, 0x9f47e4f8, 0, 0x4b0c2281, 0xc410d3be, 0xb3707ebf);
    Advance(33, 0x9f47e4f8, 0xb3707ebf, 0x726342d3, 0xa62884aa, 0, 0x673bb8c6, 0x8df5943f, 0x60127b2e);
    Advance(34, 0xa62884aa, 0x60127b2e, 0xb3707ebf, 0x726342d3, 0, 0xa1014742, 0xb4c72d0e, 0x8d212ff5);
    Advance(35, 0x726342d3, 0x8d212ff5, 0x60127b2e, 0xb3707ebf, 24, 0x5e432a64, 0xce8ba55b, 0x3b0875c7);
  }

  lemma Steps37To40()
    requires Steps(36, BLOCK, INITIAL) == Chain(Word(0xb3707ebf), Word(0x3b0875c7), Word(0x8d212ff5), Word(0x60127b2e))
    ensures Steps(40, BLOCK, INITIAL) == Chain(Word(0x21b117b9), Word(0x5a2f5ea5), Word(0x3575227e), Word(0x6e7429d5))
  {
    hide Steps, Sine;
    Sines37To40();
    Advance(36, 0xb3707ebf, 0x3b0875c7, 0x8d212ff5, 0x60127b2e, 0, 0xd63b211c, 0x2e6a8a1f, 0x21b117b9);
    Advance(37, 0x60127b2e, 0x21b117b9, 0x3b0875c7, 0x8d212ff5, 0, 0x97984d8b, 0x43899862, 0x6e7429d5);
    Advance(38, 0x8d212ff5, 0x6e7429d5, 0x21b117b9, 0x3b0875c7, 0, 0x74cd4bab, 0xf8a9c700, 0x3575227e);
    Advance(39, 0x3b0875c7, 0x3575227e, 0x6e7429d5, 0x21b117b9, 0, 0x7ab01c12, 0x74784e49, 0x5a2f5ea5);
  }

  lemma Steps41To44()
    requires Steps(40, BLOCK, INITIAL) == Chain(Word(0x21b117b9), Word(0x5a2f5ea5), Word(0x3575227e), Word(0x6e7429d5))
    ensures Steps(44, BLOCK, INITIAL) == Chain(Word(0x11de1779), Word(0x4c6124f4), Word(0x31c465ca), Word(0xfadcaa38))
  {
    hide Steps, Sine;
    Sines41To44();
    Advance(40, 0x21b117b9, 0x5a2f5ea5, 0x3575227e, 0x6e7429d5, 0, 0x012e550e, 0x4b7aeb8d, 0x11de1779);
    Advance(41, 0x6e7429d5, 0x11de1779, 0x5a2f5ea5, 0x3575227e, 0x80636261, 0x7e846ba2, 0x57fd1fd2, 0xfadcaa38);
    Advance(42, 0x3575227e, 0xfadcaa38, 0x11de1779, 0x5a2f5ea5, 0, 0xb12de3e4, 0xbb9236e7, 0x31c465ca);
    Advance(43, 0x5a2f5ea5, 0x31c465ca, 0xfadcaa38, 0x11de1779, 0, 0xdac6d88b, 0x397e5435, 0x4c6124f4);
  }

  lemma Steps45To48()
    requires Steps(44, BLOCK, INITIAL) == Chain(Word(0x11de1779), Word(0x4c6124f4), Word(0x31c465ca), Word(0xfadcaa38))
    ensures Steps(48, BLOCK, INITIAL) == Chain(Word(0x7f2e507b), Word(0x7beb9700), Word(0x8fae6399), Word(0x99d9679d))
  {
    hide Steps, Sine;
    Sines45To48();
    Advance(44, 0x11de1779, 0x4c6124f4, 0x31c465ca, 0xfadcaa38, 0, 0x8779eb06, 0x732cd2b8, 0x7f2e507b);
    Advance(45, 0xfadcaa38, 0x7f2e507b, 0x4c6124f4, 0x31c465ca, 0, 0x028b1145, 0xe4435562, 0x99d9679d);
    Advance(46, 0x31c465ca, 0x99d9679d, 0x7f2e507b, 0x4c6124f4, 0, 0xaa961312, 0xfbfcf5d4, 0x8fae6399);
    Advance(47, 0x4c6124f4, 0x8fae6399, 0x99d9679d, 0x7f2e507b, 0, 0x6959547f, 0x7a66cfd8, 0x7beb9700);
  }

  lemma Steps49To52()
    requires Steps(48, BLOCK, INITIAL) == Chain(Word(0x7f2e507b), Word(0x7beb9700), Word(0x8fae6399), Word(0x99d9679d))
    ensures Steps(52, BLOCK, INITIAL) == Chain(Word(0x7b201df8), Word(0x8bf025c4), Word(0xb298cefd), Word(0xf4e8e96e))
  {
    hide Steps, Sine;
    Sines49To52();
    Advance(48, 0x7f2e507b, 0x7beb9700, 0x8fae6399, 0x99d9679d, 0x80636261, 0xf041fcfb, 0xe3fcd21b, 0x7b201df8);
    Advance(49, 0x99d9679d, 0x7b201df8, 0x7beb9700, 0x8fae6399, 0, 0x009a0afe, 0xdd9e7232, 0xf4e8e96e);
    Advance(50, 0x8fae6399, 0xf4e8e96e, 0x7b201df8, 0x7beb9700, 24, 0x8fdcf407, 0xcb1f7b5f, 0xb298cefd);
    Advance(51, 0x7beb9700, 0xb298cefd, 0xf4e8e96e, 0x7b201df8, 0, 0x42370791, 0xbab63eca, 0x8bf025c4);
  }

  lemma Steps53To56()
    requires Steps(52, BLOCK, INITIAL) == Chain(Word(0x7b201df8), Word(0x8bf025c4), Word(0xb298cefd), Word(0xf4e8e96e))
    ensures Steps(56, BLOCK, INITIAL) == Chain(Word(0x06cc5e8a), Word(0x3bfa2c27), Word(0x7d632dd0), Word(0x5b0d97aa))
  {
    hide Steps, Sine;
    Sines53To56();
    Advance(52, 0x7b201df8, 0x8bf025c4, 0xb298cefd, 0xf4e8e96e, 0, 0x396ff928, 0x19eb70e3, 0x06cc5e8a);
    Advance(53, 0xf4e8e96e, 0x06cc5e8a, 0x8bf025c4, 0xb298cefd, 0, 0xc41f5a4e, 0x4815104e, 0x5b0d97aa);
    Advance(54, 0xb298cefd, 0x5b0d97aa, 0x06cc5e8a, 0x8bf025c4, 0, 0x79c38131, 0x2c4c44ab, 0x7d632dd0);
    Advance(55, 0x8bf025c4, 0x7d632dd0, 0x5b0d97aa, 0x06cc5e8a, 0, 0xa67e3a5f, 0xb7f2bdf4, 0x3bfa2c27);
  }

  lemma Steps57To60()
    requires Steps(56, BLOCK, INITIAL) == Chain(Word(0x06cc5e8a), Word(0x3bfa2c27), Word(0x7d632dd0), Word(0x5b0d97aa))
    ensures Steps(60, BLOCK, INITIAL) == Chain(Word(0x7f81cc35), Word(0x7327d604), Word(0x4f9dbe3f), Word(0x094454ab))
  {
    hide Steps, Sine;
    Sines57To60();
    Advance(56, 0x06cc5e8a, 0x3bfa2c27, 0x7d632dd0, 0x5b0d97aa, 0, 0xc29941a7, 0x390e1e80, 0x7f81cc35);
    Advance(57, 0x5b0d97aa, 0x7f81cc35, 0x3bfa2c27, 0x7d632dd0, 0, 0xc467f218, 0x1da270a2, 0x094454ab);
    Advance(58, 0x7d632dd0, 0x094454ab, 0x7f81cc35, 0x3bfa2c27, 0, 0xb2c41bce, 0xd3288cb2, 0x4f9dbe3f);
    Advance(59, 0x3bfa2c27, 0x4f9dbe3f, 0x094454ab, 0x7f81cc35, 0, 0xc6bbeb54, 0x50be291c, 0x7327d604);
  }

  lemma Steps61To64()
    requires Steps(60, BLOCK, INITIAL) == Chain(Word(0x7f81cc35), Word(0x7327d604), Word(0x4f9dbe3f), Word(0x094454ab))
    ensures Steps(64, BLOCK, INITIAL) == Chain(Word(0x310ade8f), Word(0xc08226b3), Word(0xe484b9d8), Word(0x624d8cb2))
  {
    hide Steps, Sine;
    Sines61To64();
    Advance(60, 0x7f81cc35, 0x7327d604, 0x4f9dbe3f, 0x094454ab, 0, 0xb822416b, 0x2ef78c22, 0x310ade8f);
    Advance(61, 0x094454ab, 0x310ade8f, 0x7327d604, 0x4f9dbe3f, 0, 0xc24d09cb, 0x88cc50ab, 0x624d8cb2);
    Advance(62, 0x4f9dbe3f, 0x624d8cb2, 0x310ade8f, 0x7327d604, 0, 0xdfd77374, 0x5a4d046e, 0xe484b9d8);
    Advance(63, 0x7327d604, 0xe484b9d8, 0x624d8cb2, 0x310ade8f, 0, 0x8cb8354a, 0xeb66dedf, 0xc08226b3);
  }

  lemma AbcCompressed()
    ensures Compress(INITIAL, PADDED) == Chain(Word(0x98500190), Word(0xb04fd23c), Word(0x7d3f96d6), Word(0x727fe128))
  {
    hide Steps, Words;
    AbcWords();
    Steps1To4();
    Steps5To8();
    Steps9To12();
    Steps13To16();
    Steps17To20();
    Steps21To24();
    Steps25To28();
    Steps29To32();
    Steps33To36();
    Steps37To40();
    Steps41To44();
    Steps45To48();
    Steps49To52();
    Steps53To56();
    Steps57To60();
    Steps61To64();
  }

  /** MD5("abc") = 900150983cd24fb0d6963f7d28e17f72 */
  lemma DigestOfAbc()
    ensures Digest([0x61, 0x62, 0x63]) ==
      [0x90, 0x01, 0x50, 0x98, 0x3c, 0xd2, 0x4f, 0xb0,
       0xd6, 0x96, 0x3f, 0x7d, 0x28, 0xe1, 0x7f, 0x72]
  {
    AbcPadded();
    AbcCompressed();
    hide Compress, Pad, WordBytes, AsInt;
    assert PADDED[..0] == [] && PADDED[0..] == PADDED;
    assert Absorb([]) == INITIAL;
    assert Absorb(PADDED) == Compress(INITIAL, PADDED);
    LastBytes();
  }

  lemma LastBytes()
    ensures ChainBytes(Chain(Word(0x98500190), Word(0xb04fd23c), Word(0x7d3f96d6), Word(0x727fe128))) ==
      [0x90, 0x01, 0x50, 0x98, 0x3c, 0xd2, 0x4f, 0xb0,
       0xd6, 0x96, 0x3f, 0x7d, 0x28, 0xe1, 0x7f, 0x72]
  {
    assert AsInt(Word(0x98500190)) == 0x98500190 && WordBytes(0x98500190) == [0x90, 0x01, 0x50, 0x98];
    assert AsInt(Word(0xb04fd23c)) == 0xb04fd23c && WordBytes(0xb04fd23c) == [0x3c, 0xd2, 0x4f, 0xb0];
    assert AsInt(Word(0x7d3f96d6)) == 0x7d3f96d6 && WordBytes(0x7d3f96d6) == [0xd6, 0x96, 0x3f, 0x7d];
    assert AsInt(Word(0x727fe128)) == 0x727fe128 && WordBytes(0x727fe128) == [0x28, 0xe1, 0x7f, 0x72];
  }
}
