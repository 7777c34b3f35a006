/** The answer FIPS 180-2 gives in its appendix C.1 for the message "abc", with the constants the
    source loads into K: it fixes every constant, rotation and sum of the schedule and of the rounds. */
module Sha512KnownAnswer {
  import opened Sha512

  /** What _LoadK loads. */
  const K: seq<Word64> :=
    [0x428a2f98d728ae22, 0x7137449123ef65cd, 0xb5c0fbcfec4d3b2f, 0xe9b5dba58189dbbc,
     0x3956c25bf348b538, 0x59f111f1b605d019, 0x923f82a4af194f9b, 0xab1c5ed5da6d8118] +
    [0xd807aa98a3030242, 0x12835b0145706fbe, 0x243185be4ee4b28c, 0x550c7dc3d5ffb4e2,
     0x72be5d74f27b896f, 0x80deb1fe3b1696b1, 0x9bdc06a725c71235, 0xc19bf174cf692694] +
    [0xe49b69c19ef14ad2, 0xefbe4786384f25e3, 0x0fc19dc68b8cd5b5, 0x240ca1cc77ac9c65,
     0x2de92c6f592b0275, 0x4a7484aa6ea6e483, 0x5cb0a9dcbd41fbd4, 0x76f988da831153b5] +
    [0x983e5152ee66dfab, 0xa831c66d2db43210, 0xb00327c898fb213f, 0xbf597fc7beef0ee4,
     0xc6e00bf33da88fc2, 0xd5a79147930aa725, 0x06ca6351e003826f, 0x142929670a0e6e70] +
    [0x27b70a8546d22ffc, 0x2e1b21385c26c926, 0x4d2c6dfc5ac42aed, 0x53380d139d95b3df,
     0x650a73548baf63de, 0x766a0abb3c77b2a8, 0x81c2c92e47edaee6, 0x92722c851482353b] +
    [0xa2bfe8a14cf10364, 0xa81a664bbc423001, 0xc24b8b70d0f89791, 0xc76c51a30654be30,
     0xd192e819d6ef5218, 0xd69906245565a910, 0xf40e35855771202a, 0x106aa07032bbd1b8] +
    [0x19a4c116b8d2d0c8, 0x1e376c085141ab53, 0x2748774cdf8eeb99, 0x34b0bcb5e19b48a8,
     0x391c0cb3c5c95a63, 0x4ed8aa4ae3418acb, 0x5b9cca4f7763e373, 0x682e6ff3d6b2b8a3] +
    [0x748f82ee5defb2fc, 0x78a5636f43172f60, 0x84c87814a1f0ab72, 0x8cc702081a6439ec,
     0x90befffa23631e28, 0xa4506cebde82bde9, 0xbef9a3f7b2c67915, 0xc67178f2e372532b] +
    [0xca273eceea26619c, 0xd186b8c721c0c207, 0xeada7dd6cde0eb1e, 0xf57d4f7fee6ed178,
     0x06f067aa72176fba, 0x0a637dc5a2c898a6, 0x113f9804bef90dae, 0x1b710b35131c471b] +
    [0x28db77f523047d84, 0x32caab7b40c72493, 0x3c9ebe0a15c9bebc, 0x431d67c49c100d4c,
     0x4cc5d4becb3e42b6, 0x597f299cfc657e2a, 0x5fcb6fab3ad6faec, 0x6c44198c4a475817]

  /** The one block of the padded message. */
  ghost predicate IsBlock(m: seq<Word64>) {
    |m| == 16 && m[0] == 0x6162638000000000 && m[15] == 24 && forall i :: 0 < i < 15 ==> m[i] == 0
  }

  // ----- the schedule

  /** Schedule word t from the four words it is made of. */
  lemma WordFrom(m: seq<Word64>, t: nat, w2: Word64, w7: Word64, w15: Word64, w16: Word64, w: Word64)
    requires |m| == 16 <= t < 80
    requires W(m, t - 2) == w2 && W(m, t - 7) == w7 && W(m, t - 15) == w15 && W(m, t - 16) == w16
    requires Next(w2, w7, w15, w16) == w
    ensures W(m, t) == w
  {
    hide Next;
  }

  lemma Words0(m: seq<Word64>)
    requires IsBlock(m)
    ensures W(m, 0) == 0x6162638000000000 && W(m, 1) == 0x0000000000000000 && W(m, 2) == 0x0000000000000000
    ensures W(m, 3) == 0x0000000000000000 && W(m, 4) == 0x0000000000000000 && W(m, 5) == 0x0000000000000000
    ensures W(m, 6) == 0x0000000000000000 && W(m, 7) == 0x0000000000000000 && W(m, 8) == 0x0000000000000000
    ensures W(m, 9) == 0x0000000000000000 && W(m, 10) == 0x0000000000000000 && W(m, 11) == 0x0000000000000000
    ensures W(m, 12) == 0x0000000000000000 && W(m, 13) == 0x0000000000000000 && W(m, 14) == 0x0000000000000000
    ensures W(m, 15) == 0x0000000000000018
  {
  }

  lemma Words16(m: seq<Word64>)
    requires IsBlock(m)
    ensures W(m, 16) == 0x6162638000000000 && W(m, 17) == 0x00030000000000c0 && W(m, 18) == 0x0a9699a24c700003
    ensures W(m, 19) == 0x00000c0060000603 && W(m, 20) == 0x549ef62639858996 && W(m, 21) == 0x00c0003300003c00
    ensures W(m, 22) == 0x1497007a8a0e9dbc && W(m, 23) == 0x62e56500cc0780f0
  {
    hide W;
    Words0(m);
    WordFrom(m, 16, 0x0000000000000000, 0x0000000000000000, 0x0000000000000000, 0x6162638000000000,
             0x6162638000000000);
    WordFrom(m, 17, 0x0000000000000018, 0x0000000000000000, 0x0000000000000000, 0x0000000000000000,
             0x00030000000000c0);
    WordFrom(m, 18, 0x6162638000000000, 0x0000000000000000, 0x0000000000000000, 0x0000000000000000,
             0x0a9699a24c700003);
    WordFrom(m, 19, 0x00030000000000c0, 0x0000000000000000, 0x0000000000000000, 0x0000000000000000,
             0x00000c0060000603);
    WordFrom(m, 20, 0x0a9699a24c700003, 0x0000000000000000, 0x0000000000000000, 0x0000000000000000,
             0x549ef62639858996);
    WordFrom(m, 21, 0x00000c0060000603, 0x0000000000000000, 0x0000000000000000, 0x0000000000000000,
             0x00c0003300003c00);
    WordFrom(m, 22, 0x549ef62639858996, 0x0000000000000018, 0x0000000000000000, 0x0000000000000000,
             0x1497007a8a0e9dbc);
    WordFrom(m, 23, 0x00c0003300003c00, 0x6162638000000000, 0x0000000000000000, 0x0000000000000000,
             0x62e56500cc0780f0);
  }

  lemma Words24(m: seq<Word64>)
    requires IsBlock(m)
    ensures W(m, 24) == 0x7760dd475a538797 && W(m, 25) == 0xf1554b711c1c0003 && W(m, 26) == 0xca2993a4345d9ff2
    ensures W(m, 27) == 0x5e0e66b5c783dd32 && W(m, 28) == 0xe25a625d00494b62 && W(m, 29) == 0x9f44486fb1e4fbd2
    ensures W(m, 30) == 0xb31b8c2b06085f2f && W(m, 31) == 0x0e987660934142f6
  {
    hide W;
    Words0(m);
    Words16(m);
    WordFrom(m, 24, 0x1497007a8a0e9dbc, 0x00030000000000c0, 0x0000000000000000, 0x0000000000000000,
             0x7760dd475a538797);
    WordFrom(m, 25, 0x62e56500cc0780f0, 0x0a9699a24c700003, 0x0000000000000000, 0x0000000000000000,
             0xf1554b711c1c0003);
    WordFrom(m, 26, 0x7760dd475a538797, 0x00000c0060000603, 0x0000000000000000, 0x0000000000000000,
             0xca2993a4345d9ff2);
    WordFrom(m, 27, 0xf1554b711c1c0003, 0x549ef62639858996, 0x0000000000000000, 0x0000000000000000,
             0x5e0e66b5c783dd32);
    WordFrom(m, 28, 0xca2993a4345d9ff2, 0x00c0003300003c00, 0x0000000000000000, 0x0000000000000000,
             0xe25a625d00494b62);
    WordFrom(m, 29, 0x5e0e66b5c783dd32, 0x1497007a8a0e9dbc, 0x0000000000000000, 0x0000000000000000,
             0x9f44486fb1e4fbd2);
    WordFrom(m, 30, 0xe25a625d00494b62, 0x62e56500cc0780f0, 0x0000000000000018, 0x0000000000000000,
             0xb31b8c2b06085f2f);
    WordFrom(m, 31, 0x9f44486fb1e4fbd2, 0x7760dd475a538797, 0x6162638000000000, 0x0000000000000018,
             0x0e987660934142f6);
  }

  lemma Words32(m: seq<Word64>)
    requires IsBlock(m)
    ensures W(m, 32) == 0xa4af2cfd09fbb924 && W(m, 33) == 0xad289e2e0bd53186 && W(m, 34) == 0x3c74563aa2f9673e
    ensures W(m, 35) == 0x6ccdcd14cc14b53f && W(m, 36) == 0xc3f925b337f22bde && W(m, 37) == 0x5bcc77a75ad95b54
    ensures W(m, 38) == 0x3ec2257adca09a52 && W(m, 39) == 0x28246960001fc5eb
  {
    hide W;
    Words16(m);
    Words24(m);
    WordFrom(m, 32, 0xb31b8c2b06085f2f, 0xf1554b711c1c0003, 0x00030000000000c0, 0x6162638000000000,
             0xa4af2cfd09fbb924);
    WordFrom(m, 33, 0x0e987660934142f6, 0xca2993a4345d9ff2, 0x0a9699a24c700003, 0x00030000000000c0,
             0xad289e2e0bd53186);
    WordFrom(m, 34, 0xa4af2cfd09fbb924, 0x5e0e66b5c783dd32, 0x00000c0060000603, 0x0a9699a24c700003,
             0x3c74563aa2f9673e);
    WordFrom(m, 35, 0xad289e2e0bd53186, 0xe25a625d00494b62, 0x549ef62639858996, 0x00000c0060000603,
             0x6ccdcd14cc14b53f);
    WordFrom(m, 36, 0x3c74563aa2f9673e, 0x9f44486fb1e4fbd2, 0x00c0003300003c00, 0x549ef62639858996,
             0xc3f925b337f22bde);
    WordFrom(m, 37, 0x6ccdcd14cc14b53f, 0xb31b8c2b06085f2f, 0x1497007a8a0e9dbc, 0x00c0003300003c00,
             0x5bcc77a75ad95b54);
    WordFrom(m, 38, 0xc3f925b337f22bde, 0x0e987660934142f6, 0x62e56500cc0780f0, 0x1497007a8a0e9dbc,
             0x3ec2257adca09a52);
    WordFrom(m, 39, 0x5bcc77a75ad95b54, 0xa4af2cfd09fbb924, 0x7760dd475a538797, 0x62e56500cc0780f0,
             0x28246960001fc5eb);
  }

  lemma Words40(m: seq<Word64>)
    requires IsBlock(m)
    ensures W(m, 40) == 0x04e33a75ce2be88a && W(m, 41) == 0x7d5314b3c359e0e7 && W(m, 42) == 0xaef7a285ff251266
    ensures W(m, 43) == 0x0b8472581deea04f && W(m, 44) == 0xb174e26eddc7b033 && W(m, 45) == 0x5d63bae58ddd88de
    ensures W(m, 46) == 0x4c044007b744ccbb && W(m, 47) == 0xe6a9aa4d74dc7d43
  {
    hide W;
    Words24(m);
    Words32(m);
    WordFrom(m, 40, 0x3ec2257adca09a52, 0xad289e2e0bd53186, 0xf1554b711c1c0003, 0x7760dd475a538797,
             0x04e33a75ce2be88a);
    WordFrom(m, 41, 0x28246960001fc5eb, 0x3c74563aa2f9673e, 0xca2993a4345d9ff2, 0xf1554b711c1c0003,
             0x7d5314b3c359e0e7);
    WordFrom(m, 42, 0x04e33a75ce2be88a, 0x6ccdcd14cc14b53f, 0x5e0e66b5c783dd32, 0xca2993a4345d9ff2,
             0xaef7a285ff251266);
    WordFrom(m, 43, 0x7d5314b3c359e0e7, 0xc3f925b337f22bde, 0xe25a625d00494b62, 0x5e0e66b5c783dd32,
             0x0b8472581deea04f);
    WordFrom(m, 44, 0xaef7a285ff251266, 0x5bcc77a75ad95b54, 0x9f44486fb1e4fbd2, 0xe25a625d00494b62,
             0xb174e26eddc7b033);
    WordFrom(m, 45, 0x0b8472581deea04f, 0x3ec2257adca09a52, 0xb31b8c2b06085f2f, 0x9f44486fb1e4fbd2,
             0x5d63bae58ddd88de);
    WordFrom(m, 46, 0xb174e26eddc7b033, 0x28246960001fc5eb, 0x0e987660934142f6, 0xb31b8c2b06085f2f,
             0x4c044007b744ccbb);
    WordFrom(m, 47, 0x5d63bae58ddd88de, 0x04e33a75ce2be88a, 0xa4af2cfd09fbb924, 0x0e987660934142f6,
             0xe6a9aa4d74dc7d43);
  }

  lemma Words48(m: seq<Word64>)
    requires IsBlock(m)
    ensures W(m, 48) == 0xebeaf1237248019c && W(m, 49) == 0x361e80b2d00f3193 && W(m, 50) == 0x2e9839125df3b175
    ensures W(m, 51) == 0x3319629293ad5363 && W(m, 52) == 0x9cbc5d89ac1b89d5 && W(m, 53) == 0x275e23ffeeca50b7
    ensures W(m, 54) == 0x3b80d680bf69ef58 && W(m, 55) == 0x0d0696933945a125
  {
    hide W;
    Words32(m);
    Words40(m);
    WordFrom(m, 48, 0x4c044007b744ccbb, 0x7d5314b3c359e0e7, 0xad289e2e0bd53186, 0xa4af2cfd09fbb924,
             0xebeaf1237248019c);
    WordFrom(m, 49, 0xe6a9aa4d74dc7d43, 0xaef7a285ff251266, 0x3c74563aa2f9673e, 0xad289e2e0bd53186,
             0x361e80b2d00f3193);
    WordFrom(m, 50, 0xebeaf1237248019c, 0x0b8472581deea04f, 0x6ccdcd14cc14b53f, 0x3c74563aa2f9673e,
             0x2e9839125df3b175);
    WordFrom(m, 51, 0x361e80b2d00f3193, 0xb174e26eddc7b033, 0xc3f925b337f22bde, 0x6ccdcd14cc14b53f,
             0x3319629293ad5363);
    WordFrom(m, 52, 0x2e9839125df3b175, 0x5d63bae58ddd88de, 0x5bcc77a75ad95b54, 0xc3f925b337f22bde,
             0x9cbc5d89ac1b89d5);
    WordFrom(m, 53, 0x3319629293ad5363, 0x4c044007b744ccbb, 0x3ec2257adca09a52, 0x5bcc77a75ad95b54,
             0x275e23ffeeca50b7);
    WordFrom(m, 54, 0x9cbc5d89ac1b89d5, 0xe6a9aa4d74dc7d43, 0x28246960001fc5eb, 0x3ec2257adca09a52,
             0x3b80d680bf69ef58);
    WordFrom(m, 55, 0x275e23ffeeca50b7, 0xebeaf1237248019c, 0x04e33a75ce2be88a, 0x28246960001fc5eb,
             0x0d0696933945a125);
  }

  lemma Words56(m: seq<Word64>)
    requires IsBlock(m)
    ensures W(m, 56) == 0x7533eabcb786ff00 && W(m, 57) == 0xb89826cee6fbf0e5 && W(m, 58) == 0x249b4fbcad623e9f
    ensures W(m, 59) == 0x4aea9df2b02d6f1e && W(m, 60) == 0x2cc57475a55e8d8f && W(m, 61) == 0xb2574ae938d8be89
    ensures W(m, 62) == 0xc1b35a57b16d6aea && W(m, 63) == 0xcc4918b5949206bb
  {
    hide W;
    Words40(m);
    Words48(m);
    WordFrom(m, 56, 0x3b80d680bf69ef58, 0x361e80b2d00f3193, 0x7d5314b3c359e0e7, 0x04e33a75ce2be88a,
             0x7533eabcb786ff00);
    WordFrom(m, 57, 0x0d0696933945a125, 0x2e9839125df3b175, 0xaef7a285ff251266, 0x7d5314b3c359e0e7,
             0xb89826cee6fbf0e5);
    WordFrom(m, 58, 0x7533eabcb786ff00, 0x3319629293ad5363, 0x0b8472581deea04f, 0xaef7a285ff251266,
             0x249b4fbcad623e9f);
    WordFrom(m, 59, 0xb89826cee6fbf0e5, 0x9cbc5d89ac1b89d5, 0xb174e26eddc7b033, 0x0b8472581deea04f,
             0x4aea9df2b02d6f1e);
    WordFrom(m, 60, 0x249b4fbcad623e9f, 0x275e23ffeeca50b7, 0x5d63bae58ddd88de, 0xb174e26eddc7b033,
             0x2cc57475a55e8d8f);
    WordFrom(m, 61, 0x4aea9df2b02d6f1e, 0x3b80d680bf69ef58, 0x4c044007b744ccbb, 0x5d63bae58ddd88de,
             0xb2574ae938d8be89);
    WordFrom(m, 62, 0x2cc57475a55e8d8f, 0x0d0696933945a125, 0xe6a9aa4d74dc7d43, 0x4c044007b744ccbb,
             0xc1b35a57b16d6aea);
    WordFrom(m, 63, 0xb2574ae938d8be89, 0x7533eabcb786ff00, 0xebeaf1237248019c, 0xe6a9aa4d74dc7d43,
             0xcc4918b5949206bb);
  }

  lemma Words64(m: seq<Word64>)
    requires IsBlock(m)
    ensures W(m, 64) == 0x5099c3add79f90ec && W(m, 65) == 0x5ea81d78e7660bf1 && W(m, 66) == 0xebee6267405ac2a9
    ensures W(m, 67) == 0xb01f21926108a4ab && W(m, 68) == 0x786433dd2fe65556 && W(m, 69) == 0xc54a6eaa24a0552c
    ensures W(m, 70) == 0xb3c8f1530bdbaa9e && W(m, 71) == 0xbb8abfe56f469338
  {
    hide W;
    Words48(m);
    Words56(m);
    WordFrom(m, 64, 0xc1b35a57b16d6aea, 0xb89826cee6fbf0e5, 0x361e80b2d00f3193, 0xebeaf1237248019c,
             0x5099c3add79f90ec);
    WordFrom(m, 65, 0xcc4918b5949206bb, 0x249b4fbcad623e9f, 0x2e9839125df3b175, 0x361e80b2d00f3193,
             0x5ea81d78e7660bf1);
    WordFrom(m, 66, 0x5099c3add79f90ec, 0x4aea9df2b02d6f1e, 0x3319629293ad5363, 0x2e9839125df3b175,
             0xebee6267405ac2a9);
    WordFrom(m, 67, 0x5ea81d78e7660bf1, 0x2cc57475a55e8d8f, 0x9cbc5d89ac1b89d5, 0x3319629293ad5363,
             0xb01f21926108a4ab);
    WordFrom(m, 68, 0xebee6267405ac2a9, 0xb2574ae938d8be89, 0x275e23ffeeca50b7, 0x9cbc5d89ac1b89d5,
             0x786433dd2fe65556);
    WordFrom(m, 69, 0xb01f21926108a4ab, 0xc1b35a57b16d6aea, 0x3b80d680bf69ef58, 0x275e23ffeeca50b7,
             0xc54a6eaa24a0552c);
    WordFrom(m, 70, 0x786433dd2fe65556, 0xcc4918b5949206bb, 0x0d0696933945a125, 0x3b80d680bf69ef58,
             0xb3c8f1530bdbaa9e);
    WordFrom(m, 71, 0xc54a6eaa24a0552c, 0x5099c3add79f90ec, 0x7533eabcb786ff00, 0x0d0696933945a125,
             0xbb8abfe56f469338);
  }

  lemma Words72(m: seq<Word64>)
    requires IsBlock(m)
    ensures W(m, 72) == 0xf63d4265cc1c5a78 && W(m, 73) == 0xbe8355ea73129afb && W(m, 74) == 0x49e2db8ebdcfbeb5
    ensures W(m, 75) == 0x82269d4a883a3d99 && W(m, 76) == 0xfdf53df3011f362b && W(m, 77) == 0x464af5671d71c12e
    ensures W(m, 78) == 0xe449b68198ec611c && W(m, 79) == 0x92aeeed1a7bcf7d2
  {
    hide W;
    Words56(m);
    Words64(m);
    WordFrom(m, 72, 0xb3c8f1530bdbaa9e, 0x5ea81d78e7660bf1, 0xb89826cee6fbf0e5, 0x7533eabcb786ff00,
             0xf63d4265cc1c5a78);
    WordFrom(m, 73, 0xbb8abfe56f469338, 0xebee6267405ac2a9, 0x249b4fbcad623e9f, 0xb89826cee6fbf0e5,
             0xbe8355ea73129afb);
    WordFrom(m, 74, 0xf63d4265cc1c5a78, 0xb01f21926108a4ab, 0x4aea9df2b02d6f1e, 0x249b4fbcad623e9f,
             0x49e2db8ebdcfbeb5);
    WordFrom(m, 75, 0xbe8355ea73129afb, 0x786433dd2fe65556, 0x2cc57475a55e8d8f, 0x4aea9df2b02d6f1e,
             0x82269d4a883a3d99);
    WordFrom(m, 76, 0x49e2db8ebdcfbeb5, 0xc54a6eaa24a0552c, 0xb2574ae938d8be89, 0x2cc57475a55e8d8f,
             0xfdf53df3011f362b);
    WordFrom(m, 77, 0x82269d4a883a3d99, 0xb3c8f1530bdbaa9e, 0xc1b35a57b16d6aea, 0xb2574ae938d8be89,
             0x464af5671d71c12e);
    WordFrom(m, 78, 0xfdf53df3011f362b, 0xbb8abfe56f469338, 0xcc4918b5949206bb, 0xc1b35a57b16d6aea,
             0xe449b68198ec611c);
    WordFrom(m, 79, 0x464af5671d71c12e, 0xf63d4265cc1c5a78, 0x5099c3add79f90ec, 0xcc4918b5949206bb,
             0x92aeeed1a7bcf7d2);
  }

  // ----- the rounds

  /** Round t from the variables before it, its constant and its schedule word. */
  lemma RoundFrom(c: seq<Word64>, m: seq<Word64>, s: Vars, t: nat, v: Vars, k: Word64, w: Word64, a: Word64, e: Word64)
    requires |c| == 80 && |m| == 16 && t < 80 && c[t] == k && W(m, t) == w
    requires Rounds(c, m, s, t) == v
    requires Round(v, k, w) == Vars(a, v.a, v.b, v.c, e, v.e, v.f, v.g)
    ensures Rounds(c, m, s, t + 1) == Vars(a, v.a, v.b, v.c, e, v.e, v.f, v.g)
  {
    hide Round, W;
  }

  lemma RoundsStart(c: seq<Word64>, m: seq<Word64>, s: Vars)
    requires |c| == 80 && |m| == 16 && s == INITIAL
    ensures Rounds(c, m, s, 0) ==
            Vars(0x6a09e667f3bcc908, 0xbb67ae8584caa73b, 0x3c6ef372fe94f82b, 0xa54ff53a5f1d36f1,
                 0x510e527fade682d1, 0x9b05688c2b3e6c1f, 0x1f83d9abfb41bd6b, 0x5be0cd19137e2179)
  {
    hide Round;
  }

  lemma Rounds0(c: seq<Word64>, m: seq<Word64>, s: Vars)
    requires c == K && IsBlock(m) && s == INITIAL
    ensures Rounds(c, m, s, 2) ==
            Vars(0x1320f8c9fb872cc0, 0xf6afceb8bcfcddf5, 0x6a09e667f3bcc908, 0xbb67ae8584caa73b,
                 0xc3d4ebfd48650ffa, 0x58cb02347ab51f91, 0x510e527fade682d1, 0x9b05688c2b3e6c1f)
  {
    hide W, Rounds;
    RoundsStart(c, m, s);
    Words0(m);
    RoundFrom(c, m, s, 0, Vars(0x6a09e667f3bcc908, 0xbb67ae8584caa73b, 0x3c6ef372fe94f82b, 0xa54ff53a5f1d36f1,
                            0x510e527fade682d1, 0x9b05688c2b3e6c1f, 0x1f83d9abfb41bd6b, 0x5be0cd19137e2179),
              0x428a2f98d728ae22, 0x6162638000000000, 0xf6afceb8bcfcddf5, 0x58cb02347ab51f91);
    RoundFrom(c, m, s, 1, Vars(0xf6afceb8bcfcddf5, 0x6a09e667f3bcc908, 0xbb67ae8584caa73b, 0x3c6ef372fe94f82b,
                            0x58cb02347ab51f91, 0x510e527fade682d1, 0x9b05688c2b3e6c1f, 0x1f83d9abfb41bd6b),
              0x7137449123ef65cd, 0x0000000000000000, 0x1320f8c9fb872cc0, 0xc3d4ebfd48650ffa);
  }

  lemma Rounds2(c: seq<Word64>, m: seq<Word64>, s: Vars)
    requires c == K && IsBlock(m) && s == INITIAL
    ensures Rounds(c, m, s, 4) ==
            Vars(0x5a83cb3e80050e82, 0xebcffc07203d91f3, 0x1320f8c9fb872cc0, 0xf6afceb8bcfcddf5,
                 0x0b47b4bb1928990e, 0xdfa9b239f2697812, 0xc3d4ebfd48650ffa, 0x58cb02347ab51f91)
  {
    hide W, Rounds;
    Rounds0(c, m, s);
    Words0(m);
    RoundFrom(c, m, s, 2, Vars(0x1320f8c9fb872cc0, 0xf6afceb8bcfcddf5, 0x6a09e667f3bcc908, 0xbb67ae8584caa73b,
                            0xc3d4ebfd48650ffa, 0x58cb02347ab51f91, 0x510e527fade682d1, 0x9b05688c2b3e6c1f),
              0xb5c0fbcfec4d3b2f, 0x0000000000000000, 0xebcffc07203d91f3, 0xdfa9b239f2697812);
    RoundFrom(c, m, s, 3, Vars(0xebcffc07203d91f3, 0x1320f8c9fb872cc0, 0xf6afceb8bcfcddf5, 0x6a09e667f3bcc908,
                            0xdfa9b239f2697812, 0xc3d4ebfd48650ffa, 0x58cb02347ab51f91, 0x510e527fade682d1),
              0xe9b5dba58189dbbc, 0x0000000000000000, 0x5a83cb3e80050e82, 0x0b47b4bb1928990e);
  }

  lemma Rounds4(c: seq<Word64>, m: seq<Word64>, s: Vars)
    requires c == K && IsBlock(m) && s == INITIAL
    ensures Rounds(c, m, s, 8) ==
            Vars(0x8093d195e0054fa3, 0xc4875b0c7abc076b, 0xaf573b02403e89cd, 0xb680953951604860,
                 0x86f67263a0f0ec0a, 0x5a6c781f54dcc00c, 0x96f60209b6dc35ba, 0x745aca4a342ed2e2)
  {
    hide W, Rounds;
    Rounds2(c, m, s);
    Words0(m);
    RoundFrom(c, m, s, 4, Vars(0x5a83cb3e80050e82, 0xebcffc07203d91f3, 0x1320f8c9fb872cc0, 0xf6afceb8bcfcddf5,
                            0x0b47b4bb1928990e, 0xdfa9b239f2697812, 0xc3d4ebfd48650ffa, 0x58cb02347ab51f91),
              0x3956c25bf348b538, 0x0000000000000000, 0xb680953951604860, 0x745aca4a342ed2e2);
    RoundFrom(c, m, s, 5, Vars(0xb680953951604860, 0x5a83cb3e80050e82, 0xebcffc07203d91f3, 0x1320f8c9fb872cc0,
                            0x745aca4a342ed2e2, 0x0b47b4bb1928990e, 0xdfa9b239f2697812, 0xc3d4ebfd48650ffa),
              0x59f111f1b605d019, 0x0000000000000000, 0xaf573b02403e89cd, 0x96f60209b6dc35ba);
    RoundFrom(c, m, s, 6, Vars(0xaf573b02403e89cd, 0xb680953951604860, 0x5a83cb3e80050e82, 0xebcffc07203d91f3,
                            0x96f60209b6dc35ba, 0x745aca4a342ed2e2, 0x0b47b4bb1928990e, 0xdfa9b239f2697812),
              0x923f82a4af194f9b, 0x0000000000000000, 0xc4875b0c7abc076b, 0x5a6c781f54dcc00c);
    RoundFrom(c, m, s, 7, Vars(0xc4875b0c7abc076b, 0xaf573b02403e89cd, 0xb680953951604860, 0x5a83cb3e80050e82,
                            0x5a6c781f54dcc00c, 0x96f60209b6dc35ba, 0x745aca4a342ed2e2, 0x0b47b4bb1928990e),
              0xab1c5ed5da6d8118, 0x0000000000000000, 0x8093d195e0054fa3, 0x86f67263a0f0ec0a);
  }

  lemma Rounds8(c: seq<Word64>, m: seq<Word64>, s: Vars)
    requires c == K && IsBlock(m) && s == INITIAL
    ensures Rounds(c, m, s, 12) ==
            Vars(0xdb0a9963f80c2eaa, 0x69854c4aa0f25b59, 0x81782d4a5db48f03, 0xf1eca5544cb89225,
                 0x475975b91a7a462c, 0xd375471bde1ba3f4, 0x00091f460be46c52, 0xd0403c398fc40002)
  {
    hide W, Rounds;
    Rounds4(c, m, s);
    Words0(m);
    RoundFrom(c, m, s, 8, Vars(0x8093d195e0054fa3, 0xc4875b0c7abc076b, 0xaf573b02403e89cd, 0xb680953951604860,
                            0x86f67263a0f0ec0a, 0x5a6c781f54dcc00c, 0x96f60209b6dc35ba, 0x745aca4a342ed2e2),
              0xd807aa98a3030242, 0x0000000000000000, 0xf1eca5544cb89225, 0xd0403c398fc40002);
    RoundFrom(c, m, s, 9, Vars(0xf1eca5544cb89225, 0x8093d195e0054fa3, 0xc4875b0c7abc076b, 0xaf573b02403e89cd,
                            0xd0403c398fc40002, 0x86f67263a0f0ec0a, 0x5a6c781f54dcc00c, 0x96f60209b6dc35ba),
              0x12835b0145706fbe, 0x0000000000000000, 0x81782d4a5db48f03, 0x00091f460be46c52);
    RoundFrom(c, m, s, 10, Vars(0x81782d4a5db48f03, 0xf1eca5544cb89225, 0x8093d195e0054fa3, 0xc4875b0c7abc076b,
                             0x00091f460be46c52, 0xd0403c398fc40002, 0x86f67263a0f0ec0a, 0x5a6c781f54dcc00c),
              0x243185be4ee4b28c, 0x0000000000000000, 0x69854c4aa0f25b59, 0xd375471bde1ba3f4);
    RoundFrom(c, m, s, 11, Vars(0x69854c4aa0f25b59, 0x81782d4a5db48f03, 0xf1eca5544cb89225, 0x8093d195e0054fa3,
                             0xd375471bde1ba3f4, 0x00091f460be46c52, 0xd0403c398fc40002, 0x86f67263a0f0ec0a),
              0x550c7dc3d5ffb4e2, 0x0000000000000000, 0xdb0a9963f80c2eaa, 0x475975b91a7a462c);
  }

  lemma Rounds12(c: seq<Word64>, m: seq<Word64>, s: Vars)
    requires c == K && IsBlock(m) && s == INITIAL
    ensures Rounds(c, m, s, 16) ==
            Vars(0x0ae07c86b1181c75, 0xfa967eed85a08028, 0x44249631255d2ca0, 0x5e41214388186c14,
                 0xa77b7c035dd4c161, 0x874bfe5f6aae9f2f, 0x860acf9effba6f61, 0xcdf3bff2883fc9d9)
  {
    hide W, Rounds;
    Rounds8(c, m, s);
    Words0(m);
    RoundFrom(c, m, s, 12, Vars(0xdb0a9963f80c2eaa, 0x69854c4aa0f25b59, 0x81782d4a5db48f03, 0xf1eca5544cb89225,
                             0x475975b91a7a462c, 0xd375471bde1ba3f4, 0x00091f460be46c52, 0xd0403c398fc40002),
              0x72be5d74f27b896f, 0x0000000000000000, 0x5e41214388186c14, 0xcdf3bff2883fc9d9);
    RoundFrom(c, m, s, 13, Vars(0x5e41214388186c14, 0xdb0a9963f80c2eaa, 0x69854c4aa0f25b59, 0x81782d4a5db48f03,
                             0xcdf3bff2883fc9d9, 0x475975b91a7a462c, 0xd375471bde1ba3f4, 0x00091f460be46c52),
              0x80deb1fe3b1696b1, 0x0000000000000000, 0x44249631255d2ca0, 0x860acf9effba6f61);
    RoundFrom(c, m, s, 14, Vars(0x44249631255d2ca0, 0x5e41214388186c14, 0xdb0a9963f80c2eaa, 0x69854c4aa0f25b59,
                             0x860acf9effba6f61, 0xcdf3bff2883fc9d9, 0x475975b91a7a462c, 0xd375471bde1ba3f4),
              0x9bdc06a725c71235, 0x0000000000000000, 0xfa967eed85a08028, 0x874bfe5f6aae9f2f);
    RoundFrom(c, m, s, 15, Vars(0xfa967eed85a08028, 0x44249631255d2ca0, 0x5e41214388186c14, 0xdb0a9963f80c2eaa,
                             0x874bfe5f6aae9f2f, 0x860acf9effba6f61, 0xcdf3bff2883fc9d9, 0x475975b91a7a462c),
              0xc19bf174cf692694, 0x0000000000000018, 0x0ae07c86b1181c75, 0xa77b7c035dd4c161);
  }

  lemma Rounds16(c: seq<Word64>, m: seq<Word64>, s: Vars)
    requires c == K && IsBlock(m) && s == INITIAL
    ensures Rounds(c, m, s, 20) ==
            Vars(0x9a3fb4d38ab6cf06, 0x3c4b4104168e3edb, 0x4725be249ad19e6b, 0xcaf81a425d800537,
                 0xf14998dd5f70767e, 0x29695fd88d81dbd0, 0xf47e8353f8047455, 0x2deecc6b39d64d78)
  {
    hide W, Rounds;
    Rounds12(c, m, s);
    Words16(m);
    RoundFrom(c, m, s, 16, Vars(0x0ae07c86b1181c75, 0xfa967eed85a08028, 0x44249631255d2ca0, 0x5e41214388186c14,
                             0xa77b7c035dd4c161, 0x874bfe5f6aae9f2f, 0x860acf9effba6f61, 0xcdf3bff2883fc9d9),
              0xe49b69c19ef14ad2, 0x6162638000000000, 0xcaf81a425d800537, 0x2deecc6b39d64d78);
    RoundFrom(c, m, s, 17, Vars(0xcaf81a425d800537, 0x0ae07c86b1181c75, 0xfa967eed85a08028, 0x44249631255d2ca0,
                             0x2deecc6b39d64d78, 0xa77b7c035dd4c161, 0x874bfe5f6aae9f2f, 0x860acf9effba6f61),
              0xefbe4786384f25e3, 0x00030000000000c0, 0x4725be249ad19e6b, 0xf47e8353f8047455);
    RoundFrom(c, m, s, 18, Vars(0x4725be249ad19e6b, 0xcaf81a425d800537, 0x0ae07c86b1181c75, 0xfa967eed85a08028,
                             0xf47e8353f8047455, 0x2deecc6b39d64d78, 0xa77b7c035dd4c161, 0x874bfe5f6aae9f2f),
              0x0fc19dc68b8cd5b5, 0x0a9699a24c700003, 0x3c4b4104168e3edb, 0x29695fd88d81dbd0);
    RoundFrom(c, m, s, 19, Vars(0x3c4b4104168e3edb, 0x4725be249ad19e6b, 0xcaf81a425d800537, 0x0ae07c86b1181c75,
                             0x29695fd88d81dbd0, 0xf47e8353f8047455, 0x2deecc6b39d64d78, 0xa77b7c035dd4c161),
              0x240ca1cc77ac9c65, 0x00000c0060000603, 0x9a3fb4d38ab6cf06, 0xf14998dd5f70767e);
  }

  lemma Rounds20(c: seq<Word64>, m: seq<Word64>, s: Vars)
    requires c == K && IsBlock(m) && s == INITIAL
    ensures Rounds(c, m, s, 24) ==
            Vars(0x4f6877b58fe55484, 0x3e2644567b709a78, 0xda34d6673d452dcf, 0x8dc5ae65569d3855,
                 0xc66005f87db55233, 0x0ac2b11da8f571c6, 0x8e30ff09ad488753, 0x4bb9e66d1145bfdc)
  {
    hide W, Rounds;
    Rounds16(c, m, s);
    Words16(m);
    RoundFrom(c, m, s, 20, Vars(0x9a3fb4d38ab6cf06, 0x3c4b4104168e3edb, 0x4725be249ad19e6b, 0xcaf81a425d800537,
                             0xf14998dd5f70767e, 0x29695fd88d81dbd0, 0xf47e8353f8047455, 0x2deecc6b39d64d78),
              0x2de92c6f592b0275, 0x549ef62639858996, 0x8dc5ae65569d3855, 0x4bb9e66d1145bfdc);
    RoundFrom(c, m, s, 21, Vars(0x8dc5ae65569d3855, 0x9a3fb4d38ab6cf06, 0x3c4b4104168e3edb, 0x4725be249ad19e6b,
                             0x4bb9e66d1145bfdc, 0xf14998dd5f70767e, 0x29695fd88d81dbd0, 0xf47e8353f8047455),
              0x4a7484aa6ea6e483, 0x00c0003300003c00, 0xda34d6673d452dcf, 0x8e30ff09ad488753);
    RoundFrom(c, m, s, 22, Vars(0xda34d6673d452dcf, 0x8dc5ae65569d3855, 0x9a3fb4d38ab6cf06, 0x3c4b4104168e3edb,
                             0x8e30ff09ad488753, 0x4bb9e66d1145bfdc, 0xf14998dd5f70767e, 0x29695fd88d81dbd0),
              0x5cb0a9dcbd41fbd4, 0x1497007a8a0e9dbc, 0x3e2644567b709a78, 0x0ac2b11da8f571c6);
    RoundFrom(c, m, s, 23, Vars(0x3e2644567b709a78, 0xda34d6673d452dcf, 0x8dc5ae65569d3855, 0x9a3fb4d38ab6cf06,
                             0x0ac2b11da8f571c6, 0x8e30ff09ad488753, 0x4bb9e66d1145bfdc, 0xf14998dd5f70767e),
              0x76f988da831153b5, 0x62e56500cc0780f0, 0x4f6877b58fe55484, 0xc66005f87db55233);
  }

  lemma Rounds24(c: seq<Word64>, m: seq<Word64>, s: Vars)
    requires c == K && IsBlock(m) && s == INITIAL
    ensures Rounds(c, m, s, 28) ==
            Vars(0xeab4a9e5771b8d09, 0x884c3bc27bc4f941, 0x0bc5f791f8e6816b, 0x9aff71163fa3a940,
                 0x09068a4e255a0dac, 0xe6e48c9a8e948365, 0x6ddf1fd7edcce336, 0xd3ecf13769180e6f)
  {
    hide W, Rounds;
    Rounds20(c, m, s);
    Words24(m);
    RoundFrom(c, m, s, 24, Vars(0x4f6877b58fe55484, 0x3e2644567b709a78, 0xda34d6673d452dcf, 0x8dc5ae65569d3855,
                             0xc66005f87db55233, 0x0ac2b11da8f571c6, 0x8e30ff09ad488753, 0x4bb9e66d1145bfdc),
              0x983e5152ee66dfab, 0x7760dd475a538797, 0x9aff71163fa3a940, 0xd3ecf13769180e6f);
    RoundFrom(c, m, s, 25, Vars(0x9aff71163fa3a940, 0x4f6877b58fe55484, 0x3e2644567b709a78, 0xda34d6673d452dcf,
                             0xd3ecf13769180e6f, 0xc66005f87db55233, 0x0ac2b11da8f571c6, 0x8e30ff09ad488753),
              0xa831c66d2db43210, 0xf1554b711c1c0003, 0x0bc5f791f8e6816b, 0x6ddf1fd7edcce336);
    RoundFrom(c, m, s, 26, Vars(0x0bc5f791f8e6816b, 0x9aff71163fa3a940, 0x4f6877b58fe55484, 0x3e2644567b709a78,
                             0x6ddf1fd7edcce336, 0xd3ecf13769180e6f, 0xc66005f87db55233, 0x0ac2b11da8f571c6),
              0xb00327c898fb213f, 0xca2993a4345d9ff2, 0x884c3bc27bc4f941, 0xe6e48c9a8e948365);
    RoundFrom(c, m, s, 27, Vars(0x884c3bc27bc4f941, 0x0bc5f791f8e6816b, 0x9aff71163fa3a940, 0x4f6877b58fe55484,
                             0xe6e48c9a8e948365, 0x6ddf1fd7edcce336, 0xd3ecf13769180e6f, 0xc66005f87db55233),
              0xbf597fc7beef0ee4, 0x5e0e66b5c783dd32, 0xeab4a9e5771b8d09, 0x09068a4e255a0dac);
  }

  lemma Rounds28(c: seq<Word64>, m: seq<Word64>, s: Vars)
    requires c == K && IsBlock(m) && s == INITIAL
    ensures Rounds(c, m, s, 32) ==
            Vars(0xff4d3f1f0d46a736, 0x4c4fbbb75f1873a6, 0x74bf40f869094c63, 0xe62349090f47d30a,
                 0x3cd388e119e8162e, 0x73e025d91b9efea3, 0xf0aec2fe1437f085, 0x0fcdf99710f21584)
  {
    hide W, Rounds;
    Rounds24(c, m, s);
    Words24(m);
    RoundFrom(c, m, s, 28, Vars(0xeab4a9e5771b8d09, 0x884c3bc27bc4f941, 0x0bc5f791f8e6816b, 0x9aff71163fa3a940,
                             0x09068a4e255a0dac, 0xe6e48c9a8e948365, 0x6ddf1fd7edcce336, 0xd3ecf13769180e6f),
              0xc6e00bf33da88fc2, 0xe25a625d00494b62, 0xe62349090f47d30a, 0x0fcdf99710f21584);
    RoundFrom(c, m, s, 29, Vars(0xe62349090f47d30a, 0xeab4a9e5771b8d09, 0x884c3bc27bc4f941, 0x0bc5f791f8e6816b,
                             0x0fcdf99710f21584, 0x09068a4e255a0dac, 0xe6e48c9a8e948365, 0x6ddf1fd7edcce336),
              0xd5a79147930aa725, 0x9f44486fb1e4fbd2, 0x74bf40f869094c63, 0xf0aec2fe1437f085);
    RoundFrom(c, m, s, 30, Vars(0x74bf40f869094c63, 0xe62349090f47d30a, 0xeab4a9e5771b8d09, 0x884c3bc27bc4f941,
                             0xf0aec2fe1437f085, 0x0fcdf99710f21584, 0x09068a4e255a0dac, 0xe6e48c9a8e948365),
              0x06ca6351e003826f, 0xb31b8c2b06085f2f, 0x4c4fbbb75f1873a6, 0x73e025d91b9efea3);
    RoundFrom(c, m, s, 31, Vars(0x4c4fbbb75f1873a6, 0x74bf40f869094c63, 0xe62349090f47d30a, 0xeab4a9e5771b8d09,
                             0x73e025d91b9efea3, 0xf0aec2fe1437f085, 0x0fcdf99710f21584, 0x09068a4e255a0dac),
              0x142929670a0e6e70, 0x0e987660934142f6, 0xff4d3f1f0d46a736, 0x3cd388e119e8162e);
  }

  lemma Rounds32(c: seq<Word64>, m: seq<Word64>, s: Vars)
    requires c == K && IsBlock(m) && s == INITIAL
    ensures Rounds(c, m, s, 36) ==
            Vars(0x1a081afc59fdbc2c, 0x2c59ec7743632621, 0x60d4e6995ed91fe6, 0xa0509015ca08c8d4,
                 0xf098082f502b44cd, 0x0fbae670fa780fd3, 0xefabbd8bf47c041a, 0xe1034573654a106f)
  {
    hide W, Rounds;
    Rounds28(c, m, s);
    Words32(m);
    RoundFrom(c, m, s, 32, Vars(0xff4d3f1f0d46a736, 0x4c4fbbb75f1873a6, 0x74bf40f869094c63, 0xe62349090f47d30a,
                             0x3cd388e119e8162e, 0x73e025d91b9efea3, 0xf0aec2fe1437f085, 0x0fcdf99710f21584),
              0x27b70a8546d22ffc, 0xa4af2cfd09fbb924, 0xa0509015ca08c8d4, 0xe1034573654a106f);
    RoundFrom(c, m, s, 33, Vars(0xa0509015ca08c8d4, 0xff4d3f1f0d46a736, 0x4c4fbbb75f1873a6, 0x74bf40f869094c63,
                             0xe1034573654a106f, 0x3cd388e119e8162e, 0x73e025d91b9efea3, 0xf0aec2fe1437f085),
              0x2e1b21385c26c926, 0xad289e2e0bd53186, 0x60d4e6995ed91fe6, 0xefabbd8bf47c041a);
    RoundFrom(c, m, s, 34, Vars(0x60d4e6995ed91fe6, 0xa0509015ca08c8d4, 0xff4d3f1f0d46a736, 0x4c4fbbb75f1873a6,
                             0xefabbd8bf47c041a, 0xe1034573654a106f, 0x3cd388e119e8162e, 0x73e025d91b9efea3),
              0x4d2c6dfc5ac42aed, 0x3c74563aa2f9673e, 0x2c59ec7743632621, 0x0fbae670fa780fd3);
    RoundFrom(c, m, s, 35, Vars(0x2c59ec7743632621, 0x60d4e6995ed91fe6, 0xa0509015ca08c8d4, 0xff4d3f1f0d46a736,
                             0x0fbae670fa780fd3, 0xefabbd8bf47c041a, 0xe1034573654a106f, 0x3cd388e119e8162e),
              0x53380d139d95b3df, 0x6ccdcd14cc14b53f, 0x1a081afc59fdbc2c, 0xf098082f502b44cd);
  }

  lemma Rounds36(c: seq<Word64>, m: seq<Word64>, s: Vars)
    requires c == K && IsBlock(m) && s == INITIAL
    ensures Rounds(c, m, s, 40) ==
            Vars(0x8e01e125b855d225, 0xb3bb8542b3376de5, 0x002bb8e4cd989567, 0x88df85b0bbe77514,
                 0x0c710a47ba6a567b, 0xb49596c20feba7de, 0x66adcfa249ac7bbd, 0x8fbfd0162bbf4675)
  {
    hide W, Rounds;
    Rounds32(c, m, s);
    Words32(m);
    RoundFrom(c, m, s, 36, Vars(0x1a081afc59fdbc2c, 0x2c59ec7743632621, 0x60d4e6995ed91fe6, 0xa0509015ca08c8d4,
                             0xf098082f502b44cd, 0x0fbae670fa780fd3, 0xefabbd8bf47c041a, 0xe1034573654a106f),
              0x650a73548baf63de, 0xc3f925b337f22bde, 0x88df85b0bbe77514, 0x8fbfd0162bbf4675);
    RoundFrom(c, m, s, 37, Vars(0x88df85b0bbe77514, 0x1a081afc59fdbc2c, 0x2c59ec7743632621, 0x60d4e6995ed91fe6,
                             0x8fbfd0162bbf4675, 0xf098082f502b44cd, 0x0fbae670fa780fd3, 0xefabbd8bf47c041a),
              0x766a0abb3c77b2a8, 0x5bcc77a75ad95b54, 0x002bb8e4cd989567, 0x66adcfa249ac7bbd);
    RoundFrom(c, m, s, 38, Vars(0x002bb8e4cd989567, 0x88df85b0bbe77514, 0x1a081afc59fdbc2c, 0x2c59ec7743632621,
                             0x66adcfa249ac7bbd, 0x8fbfd0162bbf4675, 0xf098082f502b44cd, 0x0fbae670fa780fd3),
              0x81c2c92e47edaee6, 0x3ec2257adca09a52, 0xb3bb8542b3376de5, 0xb49596c20feba7de);
    RoundFrom(c, m, s, 39, Vars(0xb3bb8542b3376de5, 0x002bb8e4cd989567, 0x88df85b0bbe77514, 0x1a081afc59fdbc2c,
                             0xb49596c20feba7de, 0x66adcfa249ac7bbd, 0x8fbfd0162bbf4675, 0xf098082f502b44cd),
              0x92722c851482353b, 0x28246960001fc5eb, 0x8e01e125b855d225, 0x0c710a47ba6a567b);
  }

  lemma Rounds40(c: seq<Word64>, m: seq<Word64>, s: Vars)
    requires c == K && IsBlock(m) && s == INITIAL
    ensures Rounds(c, m, s, 44) ==
            Vars(0x35d7e7f41defcbd5, 0xbc05ba8de5d3c480, 0xe96f89dd48cbd851, 0xb01521dd6a6be12c,
                 0xcc5100997f5710f2, 0x639cb938e14dc190, 0xf0996439e7b50cb1, 0x169008b3a4bb170b)
  {
    hide W, Rounds;
    Rounds36(c, m, s);
    Words40(m);
    RoundFrom(c, m, s, 40, Vars(0x8e01e125b855d225, 0xb3bb8542b3376de5, 0x002bb8e4cd989567, 0x88df85b0bbe77514,
                             0x0c710a47ba6a567b, 0xb49596c20feba7de, 0x66adcfa249ac7bbd, 0x8fbfd0162bbf4675),
              0xa2bfe8a14cf10364, 0x04e33a75ce2be88a, 0xb01521dd6a6be12c, 0x169008b3a4bb170b);
    RoundFrom(c, m, s, 41, Vars(0xb01521dd6a6be12c, 0x8e01e125b855d225, 0xb3bb8542b3376de5, 0x002bb8e4cd989567,
                             0x169008b3a4bb170b, 0x0c710a47ba6a567b, 0xb49596c20feba7de, 0x66adcfa249ac7bbd),
              0xa81a664bbc423001, 0x7d5314b3c359e0e7, 0xe96f89dd48cbd851, 0xf0996439e7b50cb1);
    RoundFrom(c, m, s, 42, Vars(0xe96f89dd48cbd851, 0xb01521dd6a6be12c, 0x8e01e125b855d225, 0xb3bb8542b3376de5,
                             0xf0996439e7b50cb1, 0x169008b3a4bb170b, 0x0c710a47ba6a567b, 0xb49596c20feba7de),
              0xc24b8b70d0f89791, 0xaef7a285ff251266, 0xbc05ba8de5d3c480, 0x639cb938e14dc190);
    RoundFrom(c, m, s, 43, Vars(0xbc05ba8de5d3c480, 0xe96f89dd48cbd851, 0xb01521dd6a6be12c, 0x8e01e125b855d225,
                             0x639cb938e14dc190, 0xf0996439e7b50cb1, 0x169008b3a4bb170b, 0x0c710a47ba6a567b),
              0xc76c51a30654be30, 0x0b8472581deea04f, 0x35d7e7f41defcbd5, 0xcc5100997f5710f2);
  }

  lemma Rounds44(c: seq<Word64>, m: seq<Word64>, s: Vars)
    requires c == K && IsBlock(m) && s == INITIAL
    ensures Rounds(c, m, s, 48) ==
            Vars(0x6b69fc1bb482feac, 0xf61e672694de2d67, 0x021fbadbabab5ac6, 0xc47c9d5c7ea8a234,
                 0x35264334c03ac8ad, 0xc6bc35740d8daa9a, 0xe95c2a57572d64d9, 0x858d832ae0e8911c)
  {
    hide W, Rounds;
    Rounds40(c, m, s);
    Words40(m);
    RoundFrom(c, m, s, 44, Vars(0x35d7e7f41defcbd5, 0xbc05ba8de5d3c480, 0xe96f89dd48cbd851, 0xb01521dd6a6be12c,
                             0xcc5100997f5710f2, 0x639cb938e14dc190, 0xf0996439e7b50cb1, 0x169008b3a4bb170b),
              0xd192e819d6ef5218, 0xb174e26eddc7b033, 0xc47c9d5c7ea8a234, 0x858d832ae0e8911c);
    RoundFrom(c, m, s, 45, Vars(0xc47c9d5c7ea8a234, 0x35d7e7f41defcbd5, 0xbc05ba8de5d3c480, 0xe96f89dd48cbd851,
                             0x858d832ae0e8911c, 0xcc5100997f5710f2, 0x639cb938e14dc190, 0xf0996439e7b50cb1),
              0xd69906245565a910, 0x5d63bae58ddd88de, 0x021fbadbabab5ac6, 0xe95c2a57572d64d9);
    RoundFrom(c, m, s, 46, Vars(0x021fbadbabab5ac6, 0xc47c9d5c7ea8a234, 0x35d7e7f41defcbd5, 0xbc05ba8de5d3c480,
                             0xe95c2a57572d64d9, 0x858d832ae0e8911c, 0xcc5100997f5710f2, 0x639cb938e14dc190),
              0xf40e35855771202a, 0x4c044007b744ccbb, 0xf61e672694de2d67, 0xc6bc35740d8daa9a);
    RoundFrom(c, m, s, 47, Vars(0xf61e672694de2d67, 0x021fbadbabab5ac6, 0xc47c9d5c7ea8a234, 0x35d7e7f41defcbd5,
                             0xc6bc35740d8daa9a, 0xe95c2a57572d64d9, 0x858d832ae0e8911c, 0xcc5100997f5710f2),
              0x106aa07032bbd1b8, 0xe6a9aa4d74dc7d43, 0x6b69fc1bb482feac, 0x35264334c03ac8ad);
  }

  lemma Rounds48(c: seq<Word64>, m: seq<Word64>, s: Vars)
    requires c == K && IsBlock(m) && s == INITIAL
    ensures Rounds(c, m, s, 52) ==
            Vars(0xd43f83727325dd77, 0x813a43dd2c502043, 0xca9bd862c5050918, 0x571f323d96b3a047,
                 0x483f80a82eaee23e, 0x07a0d8ef821c5e1a, 0xdfe091dab182e645, 0x271580ed6c3e5650)
  {
    hide W, Rounds;
    Rounds44(c, m, s);
    Words48(m);
    RoundFrom(c, m, s, 48, Vars(0x6b69fc1bb482feac, 0xf61e672694de2d67, 0x021fbadbabab5ac6, 0xc47c9d5c7ea8a234,
                             0x35264334c03ac8ad, 0xc6bc35740d8daa9a, 0xe95c2a57572d64d9, 0x858d832ae0e8911c),
              0x19a4c116b8d2d0c8, 0xebeaf1237248019c, 0x571f323d96b3a047, 0x271580ed6c3e5650);
    RoundFrom(c, m, s, 49, Vars(0x571f323d96b3a047, 0x6b69fc1bb482feac, 0xf61e672694de2d67, 0x021fbadbabab5ac6,
                             0x271580ed6c3e5650, 0x35264334c03ac8ad, 0xc6bc35740d8daa9a, 0xe95c2a57572d64d9),
              0x1e376c085141ab53, 0x361e80b2d00f3193, 0xca9bd862c5050918, 0xdfe091dab182e645);
    RoundFrom(c, m, s, 50, Vars(0xca9bd862c5050918, 0x571f323d96b3a047, 0x6b69fc1bb482feac, 0xf61e672694de2d67,
                             0xdfe091dab182e645, 0x271580ed6c3e5650, 0x35264334c03ac8ad, 0xc6bc35740d8daa9a),
              0x2748774cdf8eeb99, 0x2e9839125df3b175, 0x813a43dd2c502043, 0x07a0d8ef821c5e1a);
    RoundFrom(c, m, s, 51, Vars(0x813a43dd2c502043, 0xca9bd862c5050918, 0x571f323d96b3a047, 0x6b69fc1bb482feac,
                             0x07a0d8ef821c5e1a, 0xdfe091dab182e645, 0x271580ed6c3e5650, 0x35264334c03ac8ad),
              0x34b0bcb5e19b48a8, 0x3319629293ad5363, 0xd43f83727325dd77, 0x483f80a82eaee23e);
  }

  lemma Rounds52(c: seq<Word64>, m: seq<Word64>, s: Vars)
    requires c == K && IsBlock(m) && s == INITIAL
    ensures Rounds(c, m, s, 56) ==
            Vars(0x63b460e42748817e, 0xf650857b5babda4d, 0xd63f68037ddf06aa, 0x03df11b32d42e203,
                 0xc6b4dd2a9931c509, 0x9ccfb31a86df0f86, 0xa6781efe1aa1ce02, 0x504f94e40591cffa)
  {
    hide W, Rounds;
    Rounds48(c, m, s);
    Words48(m);
    RoundFrom(c, m, s, 52, Vars(0xd43f83727325dd77, 0x813a43dd2c502043, 0xca9bd862c5050918, 0x571f323d96b3a047,
                             0x483f80a82eaee23e, 0x07a0d8ef821c5e1a, 0xdfe091dab182e645, 0x271580ed6c3e5650),
              0x391c0cb3c5c95a63, 0x9cbc5d89ac1b89d5, 0x03df11b32d42e203, 0x504f94e40591cffa);
    RoundFrom(c, m, s, 53, Vars(0x03df11b32d42e203, 0xd43f83727325dd77, 0x813a43dd2c502043, 0xca9bd862c5050918,
                             0x504f94e40591cffa, 0x483f80a82eaee23e, 0x07a0d8ef821c5e1a, 0xdfe091dab182e645),
              0x4ed8aa4ae3418acb, 0x275e23ffeeca50b7, 0xd63f68037ddf06aa, 0xa6781efe1aa1ce02);
    RoundFrom(c, m, s, 54, Vars(0xd63f68037ddf06aa, 0x03df11b32d42e203, 0xd43f83727325dd77, 0x813a43dd2c502043,
                             0xa6781efe1aa1ce02, 0x504f94e40591cffa, 0x483f80a82eaee23e, 0x07a0d8ef821c5e1a),
              0x5b9cca4f7763e373, 0x3b80d680bf69ef58, 0xf650857b5babda4d, 0x9ccfb31a86df0f86);
    RoundFrom(c, m, s, 55, Vars(0xf650857b5babda4d, 0xd63f68037ddf06aa, 0x03df11b32d42e203, 0xd43f83727325dd77,
                             0x9ccfb31a86df0f86, 0xa6781efe1aa1ce02, 0x504f94e40591cffa, 0x483f80a82eaee23e),
              0x682e6ff3d6b2b8a3, 0x0d0696933945a125, 0x63b460e42748817e, 0xc6b4dd2a9931c509);
  }

  lemma Rounds56(c: seq<Word64>, m: seq<Word64>, s: Vars)
    requires c == K && IsBlock(m) && s == INITIAL
    ensures Rounds(c, m, s, 60) ==
            Vars(0x2c074484ef1eac8c, 0x581ecb3355dcd9b8, 0x4b81c3aec976ea4b, 0x7a52912943d52b05,
                 0x4797cde4ed370692, 0x6a3c9b0f71c8bf36, 0x70505988124351ac, 0xd2e89bbd91e00be0)
  {
    hide W, Rounds;
    Rounds52(c, m, s);
    Words56(m);
    RoundFrom(c, m, s, 56, Vars(0x63b460e42748817e, 0xf650857b5babda4d, 0xd63f68037ddf06aa, 0x03df11b32d42e203,
                             0xc6b4dd2a9931c509, 0x9ccfb31a86df0f86, 0xa6781efe1aa1ce02, 0x504f94e40591cffa),
              0x748f82ee5defb2fc, 0x7533eabcb786ff00, 0x7a52912943d52b05, 0xd2e89bbd91e00be0);
    RoundFrom(c, m, s, 57, Vars(0x7a52912943d52b05, 0x63b460e42748817e, 0xf650857b5babda4d, 0xd63f68037ddf06aa,
                             0xd2e89bbd91e00be0, 0xc6b4dd2a9931c509, 0x9ccfb31a86df0f86, 0xa6781efe1aa1ce02),
              0x78a5636f43172f60, 0xb89826cee6fbf0e5, 0x4b81c3aec976ea4b, 0x70505988124351ac);
    RoundFrom(c, m, s, 58, Vars(0x4b81c3aec976ea4b, 0x7a52912943d52b05, 0x63b460e42748817e, 0xf650857b5babda4d,
                             0x70505988124351ac, 0xd2e89bbd91e00be0, 0xc6b4dd2a9931c509, 0x9ccfb31a86df0f86),
              0x84c87814a1f0ab72, 0x249b4fbcad623e9f, 0x581ecb3355dcd9b8, 0x6a3c9b0f71c8bf36);
    RoundFrom(c, m, s, 59, Vars(0x581ecb3355dcd9b8, 0x4b81c3aec976ea4b, 0x7a52912943d52b05, 0x63b460e42748817e,
                             0x6a3c9b0f71c8bf36, 0x70505988124351ac, 0xd2e89bbd91e00be0, 0xc6b4dd2a9931c509),
              0x8cc702081a6439ec, 0x4aea9df2b02d6f1e, 0x2c074484ef1eac8c, 0x4797cde4ed370692);
  }

  lemma Rounds60(c: seq<Word64>, m: seq<Word64>, s: Vars)
    requires c == K && IsBlock(m) && s == INITIAL
    ensures Rounds(c, m, s, 64) ==
            Vars(0xab44e86276478d85, 0xa81dedbb9f19e643, 0xcfcd928c5424e2b6, 0x3857dfd2fc37d3ba,
                 0xcd881ee59ca6bc53, 0x84058865d60a05fa, 0x09aee5bda1644de5, 0xa6af4e9c9f807e51)
  {
    hide W, Rounds;
    Rounds56(c, m, s);
    Words56(m);
    RoundFrom(c, m, s, 60, Vars(0x2c074484ef1eac8c, 0x581ecb3355dcd9b8, 0x4b81c3aec976ea4b, 0x7a52912943d52b05,
                             0x4797cde4ed370692, 0x6a3c9b0f71c8bf36, 0x70505988124351ac, 0xd2e89bbd91e00be0),
              0x90befffa23631e28, 0x2cc57475a55e8d8f, 0x3857dfd2fc37d3ba, 0xa6af4e9c9f807e51);
    RoundFrom(c, m, s, 61, Vars(0x3857dfd2fc37d3ba, 0x2c074484ef1eac8c, 0x581ecb3355dcd9b8, 0x4b81c3aec976ea4b,
                             0xa6af4e9c9f807e51, 0x4797cde4ed370692, 0x6a3c9b0f71c8bf36, 0x70505988124351ac),
              0xa4506cebde82bde9, 0xb2574ae938d8be89, 0xcfcd928c5424e2b6, 0x09aee5bda1644de5);
    RoundFrom(c, m, s, 62, Vars(0xcfcd928c5424e2b6, 0x3857dfd2fc37d3ba, 0x2c074484ef1eac8c, 0x581ecb3355dcd9b8,
                             0x09aee5bda1644de5, 0xa6af4e9c9f807e51, 0x4797cde4ed370692, 0x6a3c9b0f71c8bf36),
              0xbef9a3f7b2c67915, 0xc1b35a57b16d6aea, 0xa81dedbb9f19e643, 0x84058865d60a05fa);
    RoundFrom(c, m, s, 63, Vars(0xa81dedbb9f19e643, 0xcfcd928c5424e2b6, 0x3857dfd2fc37d3ba, 0x2c074484ef1eac8c,
                             0x84058865d60a05fa, 0x09aee5bda1644de5, 0xa6af4e9c9f807e51, 0x4797cde4ed370692),
              0xc67178f2e372532b, 0xcc4918b5949206bb, 0xab44e86276478d85, 0xcd881ee59ca6bc53);
  }

  lemma Rounds64(c: seq<Word64>, m: seq<Word64>, s: Vars)
    requires c == K && IsBlock(m) && s == INITIAL
    ensures Rounds(c, m, s, 68) ==
            Vars(0x54ba35cf56a0340e, 0x46c4210ab2cc155d, 0xeeb9c21bb0102598, 0x5a806d7e9821a501,
                 0x1c66f46d95690bcf, 0x29fab5a7bff53366, 0x3b5fed0d6a1f96e1, 0xaa84b086688a5c45)
  {
    hide W, Rounds;
    Rounds60(c, m, s);
    Words64(m);
    RoundFrom(c, m, s, 64, Vars(0xab44e86276478d85, 0xa81dedbb9f19e643, 0xcfcd928c5424e2b6, 0x3857dfd2fc37d3ba,
                             0xcd881ee59ca6bc53, 0x84058865d60a05fa, 0x09aee5bda1644de5, 0xa6af4e9c9f807e51),
              0xca273eceea26619c, 0x5099c3add79f90ec, 0x5a806d7e9821a501, 0xaa84b086688a5c45);
    RoundFrom(c, m, s, 65, Vars(0x5a806d7e9821a501, 0xab44e86276478d85, 0xa81dedbb9f19e643, 0xcfcd928c5424e2b6,
                             0xaa84b086688a5c45, 0xcd881ee59ca6bc53, 0x84058865d60a05fa, 0x09aee5bda1644de5),
              0xd186b8c721c0c207, 0x5ea81d78e7660bf1, 0xeeb9c21bb0102598, 0x3b5fed0d6a1f96e1);
    RoundFrom(c, m, s, 66, Vars(0xeeb9c21bb0102598, 0x5a806d7e9821a501, 0xab44e86276478d85, 0xa81dedbb9f19e643,
                             0x3b5fed0d6a1f96e1, 0xaa84b086688a5c45, 0xcd881ee59ca6bc53, 0x84058865d60a05fa),
              0xeada7dd6cde0eb1e, 0xebee6267405ac2a9, 0x46c4210ab2cc155d, 0x29fab5a7bff53366);
    RoundFrom(c, m, s, 67, Vars(0x46c4210ab2cc155d, 0xeeb9c21bb0102598, 0x5a806d7e9821a501, 0xab44e86276478d85,
                             0x29fab5a7bff53366, 0x3b5fed0d6a1f96e1, 0xaa84b086688a5c45, 0xcd881ee59ca6bc53),
              0xf57d4f7fee6ed178, 0xb01f21926108a4ab, 0x54ba35cf56a0340e, 0x1c66f46d95690bcf);
  }

  lemma Rounds68(c: seq<Word64>, m: seq<Word64>, s: Vars)
    requires c == K && IsBlock(m) && s == INITIAL
    ensures Rounds(c, m, s, 72) ==
            Vars(0xf15e9664b2803575, 0x7652c579cb60f19c, 0xfb6aaae5d0b6a447, 0x181839d609c79748,
                 0x947c3dfafee570ef, 0xaff62c9665ff80fa, 0xe3711cb6564d112d, 0x0ada78ba2d446140)
  {
    hide W, Rounds;
    Rounds64(c, m, s);
    Words64(m);
    RoundFrom(c, m, s, 68, Vars(0x54ba35cf56a0340e, 0x46c4210ab2cc155d, 0xeeb9c21bb0102598, 0x5a806d7e9821a501,
                             0x1c66f46d95690bcf, 0x29fab5a7bff53366, 0x3b5fed0d6a1f96e1, 0xaa84b086688a5c45),
              0x06f067aa72176fba, 0x786433dd2fe65556, 0x181839d609c79748, 0x0ada78ba2d446140);
    RoundFrom(c, m, s, 69, Vars(0x181839d609c79748, 0x54ba35cf56a0340e, 0x46c4210ab2cc155d, 0xeeb9c21bb0102598,
                             0x0ada78ba2d446140, 0x1c66f46d95690bcf, 0x29fab5a7bff53366, 0x3b5fed0d6a1f96e1),
              0x0a637dc5a2c898a6, 0xc54a6eaa24a0552c, 0xfb6aaae5d0b6a447, 0xe3711cb6564d112d);
    RoundFrom(c, m, s, 70, Vars(0xfb6aaae5d0b6a447, 0x181839d609c79748, 0x54ba35cf56a0340e, 0x46c4210ab2cc155d,
                             0xe3711cb6564d112d, 0x0ada78ba2d446140, 0x1c66f46d95690bcf, 0x29fab5a7bff53366),
              0x113f9804bef90dae, 0xb3c8f1530bdbaa9e, 0x7652c579cb60f19c, 0xaff62c9665ff80fa);
    RoundFrom(c, m, s, 71, Vars(0x7652c579cb60f19c, 0xfb6aaae5d0b6a447, 0x181839d609c79748, 0x54ba35cf56a0340e,
                             0xaff62c9665ff80fa, 0xe3711cb6564d112d, 0x0ada78ba2d446140, 0x1c66f46d95690bcf),
              0x1b710b35131c471b, 0xbb8abfe56f469338, 0xf15e9664b2803575, 0x947c3dfafee570ef);
  }

  lemma Rounds72(c: seq<Word64>, m: seq<Word64>, s: Vars)
    requires c == K && IsBlock(m) && s == INITIAL
    ensures Rounds(c, m, s, 76) ==
            Vars(0xc8960e6be864b916, 0x33d48dabb5521de2, 0x20878dcd29cdfaf5, 0x358406d165aee9ab,
                 0x995019a6ff3ba3de, 0x2ba18245b50de4cf, 0x054d3536539948d0, 0x8c7b5fd91a794ca0)
  {
    hide W, Rounds;
    Rounds68(c, m, s);
    Words72(m);
    RoundFrom(c, m, s, 72, Vars(0xf15e9664b2803575, 0x7652c579cb60f19c, 0xfb6aaae5d0b6a447, 0x181839d609c79748,
                             0x947c3dfafee570ef, 0xaff62c9665ff80fa, 0xe3711cb6564d112d, 0x0ada78ba2d446140),
              0x28db77f523047d84, 0xf63d4265cc1c5a78, 0x358406d165aee9ab, 0x8c7b5fd91a794ca0);
    RoundFrom(c, m, s, 73, Vars(0x358406d165aee9ab, 0xf15e9664b2803575, 0x7652c579cb60f19c, 0xfb6aaae5d0b6a447,
                             0x8c7b5fd91a794ca0, 0x947c3dfafee570ef, 0xaff62c9665ff80fa, 0xe3711cb6564d112d),
              0x32caab7b40c72493, 0xbe8355ea73129afb, 0x20878dcd29cdfaf5, 0x054d3536539948d0);
    RoundFrom(c, m, s, 74, Vars(0x20878dcd29cdfaf5, 0x358406d165aee9ab, 0xf15e9664b2803575, 0x7652c579cb60f19c,
                             0x054d3536539948d0, 0x8c7b5fd91a794ca0, 0x947c3dfafee570ef, 0xaff62c9665ff80fa),
              0x3c9ebe0a15c9bebc, 0x49e2db8ebdcfbeb5, 0x33d48dabb5521de2, 0x2ba18245b50de4cf);
    RoundFrom(c, m, s, 75, Vars(0x33d48dabb5521de2, 0x20878dcd29cdfaf5, 0x358406d165aee9ab, 0xf15e9664b2803575,
                             0x2ba18245b50de4cf, 0x054d3536539948d0, 0x8c7b5fd91a794ca0, 0x947c3dfafee570ef),
              0x431d67c49c100d4c, 0x82269d4a883a3d99, 0xc8960e6be864b916, 0x995019a6ff3ba3de);
  }

  lemma Rounds76(c: seq<Word64>, m: seq<Word64>, s: Vars)
    requires c == K && IsBlock(m) && s == INITIAL
    ensures Rounds(c, m, s, 80) ==
            Vars(0x73a54f399fa4b1b2, 0x10d9c4c4295599f6, 0xd67806db8b148677, 0x654ef9abec389ca9,
                 0xd08446aa79693ed7, 0x9bb4d39778c07f9e, 0x25c96a7768fb2aa3, 0xceb9fc3691ce8326)
  {
    hide W, Rounds;
    Rounds72(c, m, s);
    Words72(m);
    RoundFrom(c, m, s, 76, Vars(0xc8960e6be864b916, 0x33d48dabb5521de2, 0x20878dcd29cdfaf5, 0x358406d165aee9ab,
                             0x995019a6ff3ba3de, 0x2ba18245b50de4cf, 0x054d3536539948d0, 0x8c7b5fd91a794ca0),
              0x4cc5d4becb3e42b6, 0xfdf53df3011f362b, 0x654ef9abec389ca9, 0xceb9fc3691ce8326);
    RoundFrom(c, m, s, 77, Vars(0x654ef9abec389ca9, 0xc8960e6be864b916, 0x33d48dabb5521de2, 0x20878dcd29cdfaf5,
                             0xceb9fc3691ce8326, 0x995019a6ff3ba3de, 0x2ba18245b50de4cf, 0x054d3536539948d0),
              0x597f299cfc657e2a, 0x464af5671d71c12e, 0xd67806db8b148677, 0x25c96a7768fb2aa3);
    RoundFrom(c, m, s, 78, Vars(0xd67806db8b148677, 0x654ef9abec389ca9, 0xc8960e6be864b916, 0x33d48dabb5521de2,
                             0x25c96a7768fb2aa3, 0xceb9fc3691ce8326, 0x995019a6ff3ba3de, 0x2ba18245b50de4cf),
              0x5fcb6fab3ad6faec, 0xe449b68198ec611c, 0x10d9c4c4295599f6, 0x9bb4d39778c07f9e);
    RoundFrom(c, m, s, 79, Vars(0x10d9c4c4295599f6, 0xd67806db8b148677, 0x654ef9abec389ca9, 0xc8960e6be864b916,
                             0x9bb4d39778c07f9e, 0x25c96a7768fb2aa3, 0xceb9fc3691ce8326, 0x995019a6ff3ba3de),
              0x6c44198c4a475817, 0x92aeeed1a7bcf7d2, 0x73a54f399fa4b1b2, 0xd08446aa79693ed7);
  }

  // ----- the message "abc"

  const MESSAGE: seq<Byte> := [0x61, 0x62, 0x63]

  lemma LengthBytes()
    ensures BigEndian(24, 8) == [0, 0, 0, 0, 0, 0, 0, 24]
  {
  }

  lemma PaddedMessage()
    ensures var p := Padded(MESSAGE);
            && |p| == BLOCK && p[0] == 0x61 && p[1] == 0x62 && p[2] == 0x63 && p[3] == 0x80 && p[127] == 24
            && forall i :: 4 <= i < 127 ==> p[i] == 0
  {
    hide BigEndian;
    LengthBytes();
  }

  lemma AsWords(n: nat)
    ensures n == 0x6162638000000000 ==> n as bv64 == 0x6162638000000000
    ensures n == 0 ==> n as bv64 == 0
    ensures n == 24 ==> n as bv64 == 24
  {
  }

  lemma PackedNumbers(p: seq<Byte>)
    requires p == Padded(MESSAGE)
    ensures |p| == BLOCK
    ensures PackWord(p, 0) == 0x6162638000000000 && PackWord(p, 120) == 24
    ensures forall i :: 0 < i < 15 ==> PackWord(p, 8 * i) == 0
  {
    hide Padded, ZeroBytes;
    PaddedMessage();
  }

  lemma PackedMessage(p: seq<Byte>)
    requires p == Padded(MESSAGE)
    ensures |p| == BLOCK && IsBlock(Words(PackBlock(p, 0)))
  {
    hide Padded, ZeroBytes, PackWord;
    PackedNumbers(p);
    forall i | 0 <= i < 16 {
      AsWords(PackWord(p, 8 * i));
    }
  }

  /** The single block message of FIPS 180-2, appendix C.1. */
  lemma KnownDigest()
    ensures |Padded(MESSAGE)| == BLOCK
    ensures HashOf(K, INITIAL, Padded(MESSAGE), 1) ==
            Vars(0xddaf35a193617aba, 0xcc417349ae204131, 0x12e6fa4e89a97ea2, 0x0a9eeee64b55d39a,
                 0x2192992a274fc1a8, 0x36ba3c23a3feebbd, 0x454d4423643ce80e, 0x2a9ac94fa54ca49f)
  {
    hide Padded, PackBlock, Words, Rounds, IsBlock;
    var p := Padded(MESSAGE);
    PackedMessage(p);
    Rounds76(K, Words(PackBlock(p, 0)), INITIAL);
    LastSum();
  }

  lemma LastSum()
    ensures Sum(INITIAL, Vars(0x73a54f399fa4b1b2, 0x10d9c4c4295599f6, 0xd67806db8b148677, 0x654ef9abec389ca9,
                              0xd08446aa79693ed7, 0x9bb4d39778c07f9e, 0x25c96a7768fb2aa3, 0xceb9fc3691ce8326)) ==
            Vars(0xddaf35a193617aba, 0xcc417349ae204131, 0x12e6fa4e89a97ea2, 0x0a9eeee64b55d39a,
                 0x2192992a274fc1a8, 0x36ba3c23a3feebbd, 0x454d4423643ce80e, 0x2a9ac94fa54ca49f)
  {
  }
}
