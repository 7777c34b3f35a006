/** The answer RFC 1321 gives in its appendix A.5 for the message "abc", step by step: it fixes every
    constant, shift and index the definition of a step takes from its tables. */
module Md5KnownAnswer {
  import opened LittleEndian
  import opened MachineWords
  import opened Md5Standard

  /** The one block of the padded message. */
  const ABC: seq<Word32> :=
    [0x80636261, 0x00000000, 0x00000000, 0x00000000, 0x00000000, 0x00000000, 0x00000000, 0x00000000,
     0x00000000, 0x00000000, 0x00000000, 0x00000000, 0x00000000, 0x00000000, 0x00000018, 0x00000000]

  const START: Registers := Registers(0x67452301, 0xefcdab89, 0x98badcfe, 0x10325476)

  /** Step i from its parts: the mixed registers, the message word, the constant and the shift. */
  lemma StepFromParts(i: nat, r: Registers, mix: Word32, w: Word32, t: Word32, s: bv6, b: Word32)
    requires i < 64 && 0 < s < 32
    requires Mix(i / 16, r.b, r.c, r.d) == mix && ABC[WordIndex(i)] == w && T[i] == t && ShiftAmount(i) == s
    requires Plus(RotateLeft(Plus(r.a, Plus(Plus(mix, w), t)), s), r.b) == b
    ensures Steps(i, START, ABC) == r ==> Steps(i + 1, START, ABC) == Registers(r.d, b, r.b, r.c)
  {
    hide Mix, Plus, RotateLeft, WordIndex, ShiftAmount;
  }

  lemma Steps0()
    requires Steps(0, START, ABC) == Registers(0x67452301, 0xefcdab89, 0x98badcfe, 0x10325476)
    ensures Steps(2, START, ABC) == Registers(0x98badcfe, 0x344a8432, 0xd6d117b4, 0xefcdab89)
  {
    hide Steps;
    StepFromParts(0, Registers(0x67452301, 0xefcdab89, 0x98badcfe, 0x10325476),
                  0x98badcfe, 0x80636261, 0xd76aa478, 7, 0xd6d117b4);
    StepFromParts(1, Registers(0x10325476, 0xd6d117b4, 0xefcdab89, 0x98badcfe),
                  0xceebcbca, 0x00000000, 0xe8c7b756, 12, 0x344a8432);
  }

  lemma Steps2()
    requires Steps(2, START, ABC) == Registers(0x98badcfe, 0x344a8432, 0xd6d117b4, 0xefcdab89)
    ensures Steps(4, START, ABC) == Registers(0xd6d117b4, 0x7ad956f2, 0x2f6fbd72, 0x344a8432)
  {
    hide Steps;
    StepFromParts(2, Registers(0x98badcfe, 0x344a8432, 0xd6d117b4, 0xefcdab89),
                  0xdfc52fb9, 0x00000000, 0x242070db, 17, 0x2f6fbd72);
    StepFromParts(3, Registers(0xefcdab89, 0x2f6fbd72, 0x344a8432, 0xd6d117b4),
                  0xf4da86b6, 0x00000000, 0xc1bdceee, 22, 0x7ad956f2);
  }

  lemma Steps4()
    requires Steps(4, START, ABC) == Registers(0xd6d117b4, 0x7ad956f2, 0x2f6fbd72, 0x344a8432)
    ensures Steps(6, START, ABC) == Registers(0x2f6fbd72, 0x8bac3051, 0xc73741ef, 0x7ad956f2)
  {
    hide Steps;
    StepFromParts(4, Registers(0xd6d117b4, 0x7ad956f2, 0x2f6fbd72, 0x344a8432),
                  0x2e4b9472, 0x00000000, 0xf57c0faf, 7, 0xc73741ef);
    StepFromParts(5, Registers(0x344a8432, 0xc73741ef, 0x7ad956f2, 0x2f6fbd72),
                  0x6a59fcf2, 0x00000000, 0x4787c62a, 12, 0x8bac3051);
  }

  lemma Steps6()
    requires Steps(6, START, ABC) == Registers(0x2f6fbd72, 0x8bac3051, 0xc73741ef, 0x7ad956f2)
    ensures Steps(8, START, ABC) == Registers(0xc73741ef, 0x928d99f6, 0x207dc67b, 0x8bac3051)
  {
    hide Steps;
    StepFromParts(6, Registers(0x2f6fbd72, 0x8bac3051, 0xc73741ef, 0x7ad956f2),
                  0xf37546e3, 0x00000000, 0xa8304613, 17, 0x207dc67b);
    StepFromParts(7, Registers(0x7ad956f2, 0x207dc67b, 0x8bac3051, 0xc73741ef),
                  0xc72e01d5, 0x00000000, 0xfd469501, 22, 0x928d99f6);
  }

  lemma Steps8()
    requires Steps(8, START, ABC) == Registers(0xc73741ef, 0x928d99f6, 0x207dc67b, 0x8bac3051)
    ensures Steps(10, START, ABC) == Registers(0x207dc67b, 0x74e2f284, 0x854b3712, 0x928d99f6)
  {
    hide Steps;
    StepFromParts(8, Registers(0xc73741ef, 0x928d99f6, 0x207dc67b, 0x8bac3051),
                  0x092da073, 0x00000000, 0x698098d8, 7, 0x854b3712);
    StepFromParts(9, Registers(0x8bac3051, 0x854b3712, 0x928d99f6, 0x207dc67b),
                  0xa03dd17b, 0x00000000, 0x8b44f7af, 12, 0x74e2f284);
  }

  lemma Steps10()
    requires Steps(10, START, ABC) == Registers(0x207dc67b, 0x74e2f284, 0x854b3712, 0x928d99f6)
    ensures Steps(12, START, ABC) == Registers(0x854b3712, 0x5ed49596, 0x3020401c, 0x74e2f284)
  {
    hide Steps;
    StepFromParts(10, Registers(0x207dc67b, 0x74e2f284, 0x854b3712, 0x928d99f6),
                  0x864f3b72, 0x00000000, 0xffff5bb1, 17, 0x3020401c);
    StepFromParts(11, Registers(0x928d99f6, 0x3020401c, 0x74e2f284, 0x854b3712),
                  0xb56b7706, 0x00000000, 0x895cd7be, 22, 0x5ed49596);
  }

  lemma Steps12()
    requires Steps(12, START, ABC) == Registers(0x854b3712, 0x5ed49596, 0x3020401c, 0x74e2f284)
    ensures Steps(14, START, ABC) == Registers(0x3020401c, 0xa1051895, 0xdda9b9a6, 0x5ed49596)
  {
    hide Steps;
    StepFromParts(12, Registers(0x854b3712, 0x5ed49596, 0x3020401c, 0x74e2f284),
                  0x30226214, 0x00000000, 0x6b901122, 7, 0xdda9b9a6);
    StepFromParts(13, Registers(0x74e2f284, 0xdda9b9a6, 0x5ed49596, 0x3020401c),
                  0x7c80d19e, 0x00000000, 0xfd987193, 12, 0xa1051895);
  }

  lemma Steps14()
    requires Steps(14, START, ABC) == Registers(0x3020401c, 0xa1051895, 0xdda9b9a6, 0x5ed49596)
    ensures Steps(16, START, ABC) == Registers(0xdda9b9a6, 0x72aff2e0, 0xe396856b, 0xa1051895)
  {
    hide Steps;
    StepFromParts(14, Registers(0x3020401c, 0xa1051895, 0xdda9b9a6, 0x5ed49596),
                  0xdfd19d86, 0x00000018, 0xa679438e, 17, 0xe396856b);
    StepFromParts(15, Registers(0x5ed49596, 0xe396856b, 0xa1051895, 0xdda9b9a6),
                  0xbd2d3885, 0x00000000, 0x49b40821, 22, 0x72aff2e0);
  }

  lemma Steps16()
    requires Steps(16, START, ABC) == Registers(0xdda9b9a6, 0x72aff2e0, 0xe396856b, 0xa1051895)
    ensures Steps(18, START, ABC) == Registers(0xe396856b, 0x4a1d804e, 0x3e9e9126, 0x72aff2e0)
  {
    hide Steps;
    StepFromParts(16, Registers(0xdda9b9a6, 0x72aff2e0, 0xe396856b, 0xa1051895),
                  0x629795ea, 0x00000000, 0xf61e2562, 5, 0x3e9e9126);
    StepFromParts(17, Registers(0xa1051895, 0x3e9e9126, 0x72aff2e0, 0xe396856b),
                  0x32bff3a2, 0x00000000, 0xc040b340, 9, 0x4a1d804e);
  }

  lemma Steps18()
    requires Steps(18, START, ABC) == Registers(0xe396856b, 0x4a1d804e, 0x3e9e9126, 0x72aff2e0)
    ensures Steps(20, START, ABC) == Registers(0x3e9e9126, 0xb5b204e4, 0xe25e1652, 0x4a1d804e)
  {
    hide Steps;
    StepFromParts(18, Registers(0xe396856b, 0x4a1d804e, 0x3e9e9126, 0x72aff2e0),
                  0x4e1d8146, 0x00000000, 0x265e5a51, 14, 0xe25e1652);
    StepFromParts(19, Registers(0x72aff2e0, 0xe25e1652, 0x4a1d804e, 0x3e9e9126),
                  0x621f104a, 0x80636261, 0xe9b6c7aa, 20, 0xb5b204e4);
  }

  lemma Steps20()
    requires Steps(20, START, ABC) == Registers(0x3e9e9126, 0xb5b204e4, 0xe25e1652, 0x4a1d804e)
    ensures Steps(22, START, ABC) == Registers(0xe25e1652, 0x6d002f1e, 0x59a8ffda, 0xb5b204e4)
  {
    hide Steps;
    StepFromParts(20, Registers(0x3e9e9126, 0xb5b204e4, 0xe25e1652, 0x4a1d804e),
                  0xa0521654, 0x00000000, 0xd62f105d, 5, 0x59a8ffda);
    StepFromParts(21, Registers(0x4a1d804e, 0x59a8ffda, 0xb5b204e4, 0xe25e1652),
                  0x55a816f6, 0x00000000, 0x02441453, 9, 0x6d002f1e);
  }

  lemma Steps22()
    requires Steps(22, START, ABC) == Registers(0xe25e1652, 0x6d002f1e, 0x59a8ffda, 0xb5b204e4)
    ensures Steps(24, START, ABC) == Registers(0x59a8ffda, 0x47092c07, 0xabfc7920, 0x6d002f1e)
  {
    hide Steps;
    StepFromParts(22, Registers(0xe25e1652, 0x6d002f1e, 0x59a8ffda, 0xb5b204e4),
                  0x6d08ff1e, 0x00000000, 0xd8a1e681, 14, 0xabfc7920);
    StepFromParts(23, Registers(0xb5b204e4, 0xabfc7920, 0x6d002f1e, 0x59a8ffda),
                  0x2da87904, 0x00000000, 0xe7d3fbc8, 20, 0x47092c07);
  }

  lemma Steps24()
    requires Steps(24, START, ABC) == Registers(0x59a8ffda, 0x47092c07, 0xabfc7920, 0x6d002f1e)
    ensures Steps(26, START, ABC) == Registers(0xabfc7920, 0x09388eff, 0xb7f268cf, 0x47092c07)
  {
    hide Steps;
    StepFromParts(24, Registers(0x59a8ffda, 0x47092c07, 0xabfc7920, 0x6d002f1e),
                  0xc7fc7c26, 0x00000000, 0x21e1cde6, 5, 0xb7f268cf);
    StepFromParts(25, Registers(0x6d002f1e, 0xb7f268cf, 0x47092c07, 0xabfc7920),
                  0xe7f16c07, 0x00000018, 0xc33707d6, 9, 0x09388eff);
  }

  lemma Steps26()
    requires Steps(26, START, ABC) == Registers(0xabfc7920, 0x09388eff, 0xb7f268cf, 0x47092c07)
    ensures Steps(28, START, ABC) == Registers(0xb7f268cf, 0x786acb8f, 0xfe1623b1, 0x09388eff)
  {
    hide Steps;
    StepFromParts(26, Registers(0xabfc7920, 0x09388eff, 0xb7f268cf, 0x47092c07),
                  0xb1fa4ccf, 0x00000000, 0xf4d50d87, 14, 0xfe1623b1);
    StepFromParts(27, Registers(0x47092c07, 0xfe1623b1, 0x09388eff, 0xb7f268cf),
                  0xbe1aa6b1, 0x00000000, 0x455a14ed, 20, 0x786acb8f);
  }

  lemma Steps28()
    requires Steps(28, START, ABC) == Registers(0xb7f268cf, 0x786acb8f, 0xfe1623b1, 0x09388eff)
    ensures Steps(30, START, ABC) == Registers(0xfe1623b1, 0x9f47e4f8, 0x790a77fb, 0x786acb8f)
  {
    hide Steps;
    StepFromParts(28, Registers(0xb7f268cf, 0x786acb8f, 0xfe1623b1, 0x09388eff),
                  0xfe2eab8f, 0x00000000, 0xa9e3e905, 5, 0x790a77fb);
    StepFromParts(29, Registers(0x09388eff, 0x790a77fb, 0x786acb8f, 0xfe1623b1),
                  0x786aebbf, 0x00000000, 0xfcefa3f8, 9, 0x9f47e4f8);
  }

  lemma Steps30()
    requires Steps(30, START, ABC) == Registers(0xfe1623b1, 0x9f47e4f8, 0x790a77fb, 0x786acb8f)
    ensures Steps(32, START, ABC) == Registers(0x790a77fb, 0x726342d3, 0xa62884aa, 0x9f47e4f8)
  {
    hide Steps;
    StepFromParts(30, Registers(0xfe1623b1, 0x9f47e4f8, 0x790a77fb, 0x786acb8f),
                  0x1942f4f8, 0x00000000, 0x676f02d9, 14, 0xa62884aa);
    StepFromParts(31, Registers(0x786acb8f, 0xa62884aa, 0x9f47e4f8, 0x790a77fb),
                  0xa64d84aa, 0x00000000, 0x8d2a4c8a, 20, 0x726342d3);
  }

  lemma Steps32()
    requires Steps(32, START, ABC) == Registers(0x790a77fb, 0x726342d3, 0xa62884aa, 0x9f47e4f8)
    ensures Steps(34, START, ABC) == Registers(0xa62884aa, 0x60127b2e, 0xb3707ebf, 0x726342d3)
  {
    hide Steps;
    StepFromParts(32, Registers(0x790a77fb, 0x726342d3, 0xa62884aa, 0x9f47e4f8),
                  0x4b0c2281, 0x00000000, 0xfffa3942, 4, 0xb3707ebf);
    StepFromParts(33, Registers(0x9f47e4f8, 0xb3707ebf, 0x726342d3, 0xa62884aa),
                  0x673bb8c6, 0x00000000, 0x8771f681, 11, 0x60127b2e);
  }

  lemma Steps34()
    requires Steps(34, START, ABC) == Registers(0xa62884aa, 0x60127b2e, 0xb3707ebf, 0x726342d3)
    ensures Steps(36, START, ABC) == Registers(0xb3707ebf, 0x3b0875c7, 0x8d212ff5, 0x60127b2e)
  {
    hide Steps;
    StepFromParts(34, Registers(0xa62884aa, 0x60127b2e, 0xb3707ebf, 0x726342d3),
                  0xa1014742, 0x00000000, 0x6d9d6122, 16, 0x8d212ff5);
    StepFromParts(35, Registers(0x726342d3, 0x8d212ff5, 0x60127b2e, 0xb3707ebf),
                  0x5e432a64, 0x00000018, 0xfde5380c, 23, 0x3b0875c7);
  }

  lemma Steps36()
    requires Steps(36, START, ABC) == Registers(0xb3707ebf, 0x3b0875c7, 0x8d212ff5, 0x60127b2e)
    ensures Steps(38, START, ABC) == Registers(0x8d212ff5, 0x6e7429d5, 0x21b117b9, 0x3b0875c7)
  {
    hide Steps;
    StepFromParts(36, Registers(0xb3707ebf, 0x3b0875c7, 0x8d212ff5, 0x60127b2e),
                  0xd63b211c, 0x00000000, 0xa4beea44, 4, 0x21b117b9);
    StepFromParts(37, Registers(0x60127b2e, 0x21b117b9, 0x3b0875c7, 0x8d212ff5),
                  0x97984d8b, 0x00000000, 0x4bdecfa9, 11, 0x6e7429d5);
  }

  lemma Steps38()
    requires Steps(38, START, ABC) == Registers(0x8d212ff5, 0x6e7429d5, 0x21b117b9, 0x3b0875c7)
    ensures Steps(40, START, ABC) == Registers(0x21b117b9, 0x5a2f5ea5, 0x3575227e, 0x6e7429d5)
  {
    hide Steps;
    StepFromParts(38, Registers(0x8d212ff5, 0x6e7429d5, 0x21b117b9, 0x3b0875c7),
                  0x74cd4bab, 0x00000000, 0xf6bb4b60, 16, 0x3575227e);
    StepFromParts(39, Registers(0x3b0875c7, 0x3575227e, 0x6e7429d5, 0x21b117b9),
                  0x7ab01c12, 0x00000000, 0xbebfbc70, 23, 0x5a2f5ea5);
  }

  lemma Steps40()
    requires Steps(40, START, ABC) == Registers(0x21b117b9, 0x5a2f5ea5, 0x3575227e, 0x6e7429d5)
    ensures Steps(42, START, ABC) == Registers(0x3575227e, 0xfadcaa38, 0x11de1779, 0x5a2f5ea5)
  {
    hide Steps;
    StepFromParts(40, Registers(0x21b117b9, 0x5a2f5ea5, 0x3575227e, 0x6e7429d5),
                  0x012e550e, 0x00000000, 0x289b7ec6, 4, 0x11de1779);
    StepFromParts(41, Registers(0x6e7429d5, 0x11de1779, 0x5a2f5ea5, 0x3575227e),
                  0x7e846ba2, 0x80636261, 0xeaa127fa, 11, 0xfadcaa38);
  }

  lemma Steps42()
    requires Steps(42, START, ABC) == Registers(0x3575227e, 0xfadcaa38, 0x11de1779, 0x5a2f5ea5)
    ensures Steps(44, START, ABC) == Registers(0x11de1779, 0x4c6124f4, 0x31c465ca, 0xfadcaa38)
  {
    hide Steps;
    StepFromParts(42, Registers(0x3575227e, 0xfadcaa38, 0x11de1779, 0x5a2f5ea5),
                  0xb12de3e4, 0x00000000, 0xd4ef3085, 16, 0x31c465ca);
    StepFromParts(43, Registers(0x5a2f5ea5, 0x31c465ca, 0xfadcaa38, 0x11de1779),
                  0xdac6d88b, 0x00000000, 0x04881d05, 23, 0x4c6124f4);
  }

  lemma Steps44()
    requires Steps(44, START, ABC) == Registers(0x11de1779, 0x4c6124f4, 0x31c465ca, 0xfadcaa38)
    ensures Steps(46, START, ABC) == Registers(0x31c465ca, 0x99d9679d, 0x7f2e507b, 0x4c6124f4)
  {
    hide Steps;
    StepFromParts(44, Registers(0x11de1779, 0x4c6124f4, 0x31c465ca, 0xfadcaa38),
                  0x8779eb06, 0x00000000, 0xd9d4d039, 4, 0x7f2e507b);
    StepFromParts(45, Registers(0xfadcaa38, 0x7f2e507b, 0x4c6124f4, 0x31c465ca),
                  0x028b1145, 0x00000000, 0xe6db99e5, 11, 0x99d9679d);
  }

  lemma Steps46()
    requires Steps(46, START, ABC) == Registers(0x31c465ca, 0x99d9679d, 0x7f2e507b, 0x4c6124f4)
    ensures Steps(48, START, ABC) == Registers(0x7f2e507b, 0x7beb9700, 0x8fae6399, 0x99d9679d)
  {
    hide Steps;
    StepFromParts(46, Registers(0x31c465ca, 0x99d9679d, 0x7f2e507b, 0x4c6124f4),
                  0xaa961312, 0x00000000, 0x1fa27cf8, 16, 0x8fae6399);
    StepFromParts(47, Registers(0x4c6124f4, 0x8fae6399, 0x99d9679d, 0x7f2e507b),
                  0x6959547f, 0x00000000, 0xc4ac5665, 23, 0x7beb9700);
  }

  lemma Steps48()
    requires Steps(48, START, ABC) == Registers(0x7f2e507b, 0x7beb9700, 0x8fae6399, 0x99d9679d)
    ensures Steps(50, START, ABC) == Registers(0x8fae6399, 0xf4e8e96e, 0x7b201df8, 0x7beb9700)
  {
    hide Steps;
    StepFromParts(48, Registers(0x7f2e507b, 0x7beb9700, 0x8fae6399, 0x99d9679d),
                  0xf041fcfb, 0x80636261, 0xf4292244, 6, 0x7b201df8);
    StepFromParts(49, Registers(0x99d9679d, 0x7b201df8, 0x7beb9700, 0x8fae6399),
                  0x009a0afe, 0x00000000, 0x432aff97, 10, 0xf4e8e96e);
  }

  lemma Steps50()
    requires Steps(50, START, ABC) == Registers(0x8fae6399, 0xf4e8e96e, 0x7b201df8, 0x7beb9700)
    ensures Steps(52, START, ABC) == Registers(0x7b201df8, 0x8bf025c4, 0xb298cefd, 0xf4e8e96e)
  {
    hide Steps;
    StepFromParts(50, Registers(0x8fae6399, 0xf4e8e96e, 0x7b201df8, 0x7beb9700),
                  0x8fdcf407, 0x00000018, 0xab9423a7, 15, 0xb298cefd);
    StepFromParts(51, Registers(0x7beb9700, 0xb298cefd, 0xf4e8e96e, 0x7b201df8),
                  0x42370791, 0x00000000, 0xfc93a039, 21, 0x8bf025c4);
  }

  lemma Steps52()
    requires Steps(52, START, ABC) == Registers(0x7b201df8, 0x8bf025c4, 0xb298cefd, 0xf4e8e96e)
    ensures Steps(54, START, ABC) == Registers(0xb298cefd, 0x5b0d97aa, 0x06cc5e8a, 0x8bf025c4)
  {
    hide Steps;
    StepFromParts(52, Registers(0x7b201df8, 0x8bf025c4, 0xb298cefd, 0xf4e8e96e),
                  0x396ff928, 0x00000000, 0x655b59c3, 6, 0x06cc5e8a);
    StepFromParts(53, Registers(0xf4e8e96e, 0x06cc5e8a, 0x8bf025c4, 0xb298cefd),
                  0xc41f5a4e, 0x00000000, 0x8f0ccc92, 10, 0x5b0d97aa);
  }

  lemma Steps54()
    requires Steps(54, START, ABC) == Registers(0xb298cefd, 0x5b0d97aa, 0x06cc5e8a, 0x8bf025c4)
    ensures Steps(56, START, ABC) == Registers(0x06cc5e8a, 0x3bfa2c27, 0x7d632dd0, 0x5b0d97aa)
  {
    hide Steps;
    StepFromParts(54, Registers(0xb298cefd, 0x5b0d97aa, 0x06cc5e8a, 0x8bf025c4),
                  0x79c38131, 0x00000000, 0xffeff47d, 15, 0x7d632dd0);
    StepFromParts(55, Registers(0x8bf025c4, 0x7d632dd0, 0x5b0d97aa, 0x06cc5e8a),
                  0xa67e3a5f, 0x00000000, 0x85845dd1, 21, 0x3bfa2c27);
  }

  lemma Steps56()
    requires Steps(56, START, ABC) == Registers(0x06cc5e8a, 0x3bfa2c27, 0x7d632dd0, 0x5b0d97aa)
    ensures Steps(58, START, ABC) == Registers(0x7d632dd0, 0x094454ab, 0x7f81cc35, 0x3bfa2c27)
  {
    hide Steps;
    StepFromParts(56, Registers(0x06cc5e8a, 0x3bfa2c27, 0x7d632dd0, 0x5b0d97aa),
                  0xc29941a7, 0x00000000, 0x6fa87e4f, 6, 0x7f81cc35);
    StepFromParts(57, Registers(0x5b0d97aa, 0x7f81cc35, 0x3bfa2c27, 0x7d632dd0),
                  0xc467f218, 0x00000000, 0xfe2ce6e0, 10, 0x094454ab);
  }

  lemma Steps58()
    requires Steps(58, START, ABC) == Registers(0x7d632dd0, 0x094454ab, 0x7f81cc35, 0x3bfa2c27)
    ensures Steps(60, START, ABC) == Registers(0x7f81cc35, 0x7327d604, 0x4f9dbe3f, 0x094454ab)
  {
    hide Steps;
    StepFromParts(58, Registers(0x7d632dd0, 0x094454ab, 0x7f81cc35, 0x3bfa2c27),
                  0xb2c41bce, 0x00000000, 0xa3014314, 15, 0x4f9dbe3f);
    StepFromParts(59, Registers(0x3bfa2c27, 0x4f9dbe3f, 0x094454ab, 0x7f81cc35),
                  0xc6bbeb54, 0x00000000, 0x4e0811a1, 21, 0x7327d604);
  }

  lemma Steps60()
    requires Steps(60, START, ABC) == Registers(0x7f81cc35, 0x7327d604, 0x4f9dbe3f, 0x094454ab)
    ensures Steps(62, START, ABC) == Registers(0x4f9dbe3f, 0x624d8cb2, 0x310ade8f, 0x7327d604)
  {
    hide Steps;
    StepFromParts(60, Registers(0x7f81cc35, 0x7327d604, 0x4f9dbe3f, 0x094454ab),
                  0xb822416b, 0x00000000, 0xf7537e82, 6, 0x310ade8f);
    StepFromParts(61, Registers(0x094454ab, 0x310ade8f, 0x7327d604, 0x4f9dbe3f),
                  0xc24d09cb, 0x00000000, 0xbd3af235, 10, 0x624d8cb2);
  }

  lemma Steps62()
    requires Steps(62, START, ABC) == Registers(0x4f9dbe3f, 0x624d8cb2, 0x310ade8f, 0x7327d604)
    ensures Steps(64, START, ABC) == Registers(0x310ade8f, 0xc08226b3, 0xe484b9d8, 0x624d8cb2)
  {
    hide Steps;
    StepFromParts(62, Registers(0x4f9dbe3f, 0x624d8cb2, 0x310ade8f, 0x7327d604),
                  0xdfd77374, 0x00000000, 0x2ad7d2bb, 15, 0xe484b9d8);
    StepFromParts(63, Registers(0x7327d604, 0xe484b9d8, 0x624d8cb2, 0x310ade8f),
                  0x8cb8354a, 0x00000000, 0xeb86d391, 21, 0xc08226b3);
  }

  lemma AllSteps()
    ensures Steps(64, START, ABC) == Registers(0x310ade8f, 0xc08226b3, 0xe484b9d8, 0x624d8cb2)
  {
    hide Steps;
    NoSteps();
    Steps0();
    Steps2();
    Steps4();
    Steps6();
    Steps8();
    Steps10();
    Steps12();
    Steps14();
    Steps16();
    Steps18();
    Steps20();
    Steps22();
    Steps24();
    Steps26();
    Steps28();
    Steps30();
    Steps32();
    Steps34();
    Steps36();
    Steps38();
    Steps40();
    Steps42();
    Steps44();
    Steps46();
    Steps48();
    Steps50();
    Steps52();
    Steps54();
    Steps56();
    Steps58();
    Steps60();
    Steps62();
  }

  lemma NoSteps()
    ensures Steps(0, START, ABC) == START
  {
  }

  const MESSAGE: seq<Byte> := [0x61, 0x62, 0x63]

  lemma PaddedBytes()
    ensures var p := Pad(MESSAGE);
            && |p| == 64 && p[..4] == [0x61, 0x62, 0x63, 0x80] && p[56] == 24
            && (forall k :: 4 <= k < 56 ==> p[k] == 0) && forall k :: 57 <= k < 64 ==> p[k] == 0
  {
    hide Word, ByteOf, Encode, BitLength;
    LengthBytes();
  }

  /** Padding and decoding "abc" gives that block. */
  lemma PaddedMessage()
    ensures |Pad(MESSAGE)| == 64 && Decode(Pad(MESSAGE)) == ABC
  {
    hide Word, ByteOf, Pad, Encode, BitLength;
    var p := Pad(MESSAGE);
    PaddedBytes();
    BlockWords();
    assert p[0] == p[..4][0] && p[1] == p[..4][1] && p[2] == p[..4][2] && p[3] == p[..4][3];
    forall i | 0 <= i < 16
      ensures Decode(p)[i] == ABC[i]
    {
      Zeros(i);
    }
  }

  lemma Zeros(i: nat)
    requires i < 16
    ensures ABC[i] == if i == 0 then 0x80636261 else if i == 14 then 24 else 0
  {
  }

  lemma LengthBytes()
    ensures Encode(BitLength(3)) == [24, 0, 0, 0, 0, 0, 0, 0]
  {
    hide ByteOf;
    assert BitLength(3) == [24, 0];
    SmallBytes();
  }

  lemma SmallBytes()
    ensures ByteOf(24, 0) == 24 && ByteOf(24, 1) == 0 && ByteOf(24, 2) == 0 && ByteOf(24, 3) == 0
    ensures forall k :: 0 <= k < 4 ==> ByteOf(0, k) == 0
  {
  }

  lemma BlockWords()
    ensures Word(0x61, 0x62, 0x63, 0x80) == 0x80636261 && Word(0, 0, 0, 0) == 0 && Word(24, 0, 0, 0) == 24
  {
  }

  /** MD5 ("abc") = 900150983cd24fb0d6963f7d28e17f72 */
  lemma KnownDigest()
    ensures Digest(MESSAGE) ==
            [0x90, 0x01, 0x50, 0x98, 0x3c, 0xd2, 0x4f, 0xb0,
             0xd6, 0x96, 0x3f, 0x7d, 0x28, 0xe1, 0x7f, 0x72]
  {
    hide Steps, Pad, Decode, ByteOf, Plus;
    var p := Pad(MESSAGE);
    PaddedMessage();
    AllSteps();
    assert p[..64] == p && p[64..] == [];
    var out := Steps(64, START, ABC);
    Sums();
    assert Compress(INIT, p) == Added(INIT, out);
    assert Fold(INIT, p) == Compress(INIT, p);
    DigestBytes();
  }

  lemma Sums()
    ensures Added(INIT, Registers(0x310ade8f, 0xc08226b3, 0xe484b9d8, 0x624d8cb2)) ==
            [0x98500190, 0xb04fd23c, 0x7d3f96d6, 0x727fe128]
  {
  }

  lemma DigestBytes()
    ensures Encode([0x98500190, 0xb04fd23c, 0x7d3f96d6, 0x727fe128]) ==
            [0x90, 0x01, 0x50, 0x98, 0x3c, 0xd2, 0x4f, 0xb0,
             0xd6, 0x96, 0x3f, 0x7d, 0x28, 0xe1, 0x7f, 0x72]
  {
  }
}
