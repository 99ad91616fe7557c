/** `hashNumber` of 42, computed eight rounds at a time. */
module Sha256Vector {
  import opened Bytes
  import opened ShaPadding
  import opened ShaWords
  import opened ShaEights
  import opened Sha256

  function NextEight(x: Eight, y: Eight): (z: Eight) {
    var n0 := NextWord(y.w6, y.w1, x.w1, x.w0);
    var n1 := NextWord(y.w7, y.w2, x.w2, x.w1);
    var n2 := NextWord(n0, y.w3, x.w3, x.w2);
    var n3 := NextWord(n1, y.w4, x.w4, x.w3);
    var n4 := NextWord(n2, y.w5, x.w5, x.w4);
    var n5 := NextWord(n3, y.w6, x.w6, x.w5);
    Eight(n0, n1, n2, n3, n4, n5, NextWord(n4, y.w7, x.w7, x.w6), NextWord(n5, n0, y.w0, x.w7))
  }

  function EightRounds(h: Hash, k: Eight, w: Eight): (r: Hash) {
    Round(Round(Round(Round(Round(Round(Round(Round(h, k.w0, w.w0), k.w1, w.w1), k.w2, w.w2), k.w3, w.w3),
      k.w4, w.w4), k.w5, w.w5), k.w6, w.w6), k.w7, w.w7)
  }

  function WordsAt(block: bytes, t: nat): (w: Eight)
    requires |block| == 64 && t + 8 <= 64
  {
    Eight(Schedule(block, t), Schedule(block, t + 1), Schedule(block, t + 2), Schedule(block, t + 3),
          Schedule(block, t + 4), Schedule(block, t + 5), Schedule(block, t + 6), Schedule(block, t + 7))
  }

  function ConstantsAt(t: nat): (k: Eight)
    requires t + 8 <= 64
  {
    Eight(Constant(t), Constant(t + 1), Constant(t + 2), Constant(t + 3),
          Constant(t + 4), Constant(t + 5), Constant(t + 6), Constant(t + 7))
  }

  lemma ScheduleNext(block: bytes, t: nat)
    requires |block| == 64 && 16 <= t < 64
    ensures Schedule(block, t) ==
              NextWord(Schedule(block, t - 2), Schedule(block, t - 7), Schedule(block, t - 15), Schedule(block, t - 16))
  {
  }

  lemma WordsNext(block: bytes, t: nat)
    requires |block| == 64 && 16 <= t <= 56
    ensures WordsAt(block, t) == NextEight(WordsAt(block, t - 16), WordsAt(block, t - 8))
  {
    hide Schedule, NextWord;
    ScheduleNext(block, t);
    ScheduleNext(block, t + 1);
    ScheduleNext(block, t + 2);
    ScheduleNext(block, t + 3);
    ScheduleNext(block, t + 4);
    ScheduleNext(block, t + 5);
    ScheduleNext(block, t + 6);
    ScheduleNext(block, t + 7);
  }

  lemma RoundsNext(h: Hash, block: bytes, t: nat)
    requires |block| == 64 && t < 64
    ensures Rounds(h, block, t + 1) == Round(Rounds(h, block, t), Constant(t), Schedule(block, t))
  {
    hide Round, Schedule, Constant;
  }

  lemma RoundsEight(h: Hash, block: bytes, t: nat)
    requires |block| == 64 && t + 8 <= 64
    ensures Rounds(h, block, t + 8) == EightRounds(Rounds(h, block, t), ConstantsAt(t), WordsAt(block, t))
  {
    hide Rounds, Round, Schedule, Constant;
    RoundsNext(h, block, t);
    RoundsNext(h, block, t + 1);
    RoundsNext(h, block, t + 2);
    RoundsNext(h, block, t + 3);
    RoundsNext(h, block, t + 4);
    RoundsNext(h, block, t + 5);
    RoundsNext(h, block, t + 6);
    RoundsNext(h, block, t + 7);
  }

  lemma NoRounds(h: Hash, block: bytes)
    requires |block| == 64
    ensures Rounds(h, block, 0) == h
  {
  }

  lemma SpelledWords(block: Block, t: nat, x: Eight)
    requires t <= 8 && block[4 * t..4 * t + 32] == Spelled(x)
    ensures WordsAt(block, t) == x
  {
    hide Word, Spelled;
    WordsSpelled(block, t, x);
  }

  const Words0: Eight := Eight(0x34328000, 0x00000000, 0x00000000, 0x00000000, 0x00000000, 0x00000000, 0x00000000, 0x00000000)
  const Words1: Eight := Eight(0x00000000, 0x00000000, 0x00000000, 0x00000000, 0x00000000, 0x00000000, 0x00000000, 0x00000010)
  const Words2: Eight := Eight(0x34328000, 0x000a0000, 0x100d103f, 0x40000284, 0x2a1c6943, 0x0102a800, 0xb9837767, 0x3532c00b)
  const Words3: Eight := Eight(0xd57b4b2c, 0x4816c0ce, 0x0cc6b144, 0xe28951fc, 0x8f8c5e57, 0x3c7cc6a8, 0xf9f9952d, 0x77f789c8)
  const Words4: Eight := Eight(0xf457d276, 0x7abff64f, 0x060023e5, 0x6ec4de4d, 0x264b23c3, 0xf58b6f1c, 0xc7da5720, 0x95a9c3dd)
  const Words5: Eight := Eight(0xd722369b, 0x4d974f3f, 0x8b21e9c7, 0x00bb10fe, 0xb56f3848, 0x103fcc47, 0x870674b5, 0x76c90f4d)
  const Words6: Eight := Eight(0xa30e343d, 0x6e69cdcf, 0x84032512, 0x4def12cc, 0x293248b1, 0xb47b881b, 0x85517230, 0x8ec8a1e0)
  const Words7: Eight := Eight(0x81f11ee4, 0xfa8df509, 0xbdc93d24, 0xb7ddcf3b, 0xa23abd94, 0xdaac3c9b, 0xf70750cf, 0x74cb1d69)

  const State0: Hash := Hash(0x6a09e667, 0xbb67ae85, 0x3c6ef372, 0xa54ff53a, 0x510e527f, 0x9b05688c, 0x1f83d9ab, 0x5be0cd19)
  const State1: Hash := Hash(0x89aca1e6, 0xc668655d, 0xafd1abc6, 0xb49c3a04, 0x0fb4d288, 0xe31e48fe, 0x8ca8f04c, 0xb476e829)
  const State2: Hash := Hash(0xce53dea8, 0xac960b35, 0x6d5e804d, 0xc0123a90, 0xe1d59416, 0x8339d0c5, 0x46f223b4, 0xd0a95c5f)
  const State3: Hash := Hash(0x58c84906, 0x8596d814, 0x7516d0d5, 0x0bc7d029, 0x8f97baa2, 0x1a35299c, 0xd97765d9, 0x828b955a)
  const State4: Hash := Hash(0xb6d60a98, 0x14e91454, 0x08af7c17, 0x93b755fa, 0x897d97a1, 0xa926ea1b, 0xc1c535a5, 0xf8d3bb04)
  const State5: Hash := Hash(0xc4340f4f, 0xac184cd5, 0xf7ace76b, 0x62d0abcb, 0x612a15c9, 0x1c8e64f6, 0x95cc5e61, 0xf85cadf0)
  const State6: Hash := Hash(0xbfa8891f, 0x2d75732e, 0xa1c439ce, 0x75ce6323, 0xeb0cc7e2, 0xd257cda6, 0xc251126c, 0xbef8de20)
  const State7: Hash := Hash(0xb699cbed, 0xd822765a, 0xe855fc28, 0x211dffbe, 0x2220c118, 0xa1797e20, 0x6dc9a259, 0xea695d79)
  const State8: Hash := Hash(0x093d764d, 0x4eeee008, 0x6c31525c, 0x2bc01e44, 0xc491368b, 0x29d51faf, 0x4b9402ba, 0xbf59b330)

  const Keys0: Eight := Eight(0x428a2f98, 0x71374491, 0xb5c0fbcf, 0xe9b5dba5, 0x3956c25b, 0x59f111f1, 0x923f82a4, 0xab1c5ed5)
  const Keys1: Eight := Eight(0xd807aa98, 0x12835b01, 0x243185be, 0x550c7dc3, 0x72be5d74, 0x80deb1fe, 0x9bdc06a7, 0xc19bf174)
  const Keys2: Eight := Eight(0xe49b69c1, 0xefbe4786, 0x0fc19dc6, 0x240ca1cc, 0x2de92c6f, 0x4a7484aa, 0x5cb0a9dc, 0x76f988da)
  const Keys3: Eight := Eight(0x983e5152, 0xa831c66d, 0xb00327c8, 0xbf597fc7, 0xc6e00bf3, 0xd5a79147, 0x06ca6351, 0x14292967)
  const Keys4: Eight := Eight(0x27b70a85, 0x2e1b2138, 0x4d2c6dfc, 0x53380d13, 0x650a7354, 0x766a0abb, 0x81c2c92e, 0x92722c85)
  const Keys5: Eight := Eight(0xa2bfe8a1, 0xa81a664b, 0xc24b8b70, 0xc76c51a3, 0xd192e819, 0xd6990624, 0xf40e3585, 0x106aa070)
  const Keys6: Eight := Eight(0x19a4c116, 0x1e376c08, 0x2748774c, 0x34b0bcb5, 0x391c0cb3, 0x4ed8aa4a, 0x5b9cca4f, 0x682e6ff3)
  const Keys7: Eight := Eight(0x748f82ee, 0x78a5636f, 0x84c87814, 0x8cc70208, 0x90befffa, 0xa4506ceb, 0xbef9a3f7, 0xc67178f2)

  lemma Words2Are()
    ensures NextEight(Words0, Words1) == Words2
  {
    assert NextWord(0x00000000, 0x00000000, 0x00000000, 0x34328000) == 0x34328000;
    assert NextWord(0x00000010, 0x00000000, 0x00000000, 0x00000000) == 0x000a0000;
    assert NextWord(0x34328000, 0x00000000, 0x00000000, 0x00000000) == 0x100d103f;
    assert NextWord(0x000a0000, 0x00000000, 0x00000000, 0x00000000) == 0x40000284;
    assert NextWord(0x100d103f, 0x00000000, 0x00000000, 0x00000000) == 0x2a1c6943;
    assert NextWord(0x40000284, 0x00000000, 0x00000000, 0x00000000) == 0x0102a800;
    assert NextWord(0x2a1c6943, 0x00000010, 0x00000000, 0x00000000) == 0xb9837767;
    assert NextWord(0x0102a800, 0x34328000, 0x00000000, 0x00000000) == 0x3532c00b;
  }

  lemma Words3Are()
    ensures NextEight(Words1, Words2) == Words3
  {
    assert NextWord(0xb9837767, 0x000a0000, 0x00000000, 0x00000000) == 0xd57b4b2c;
    assert NextWord(0x3532c00b, 0x100d103f, 0x00000000, 0x00000000) == 0x4816c0ce;
    assert NextWord(0xd57b4b2c, 0x40000284, 0x00000000, 0x00000000) == 0x0cc6b144;
    assert NextWord(0x4816c0ce, 0x2a1c6943, 0x00000000, 0x00000000) == 0xe28951fc;
    assert NextWord(0x0cc6b144, 0x0102a800, 0x00000000, 0x00000000) == 0x8f8c5e57;
    assert NextWord(0xe28951fc, 0xb9837767, 0x00000000, 0x00000000) == 0x3c7cc6a8;
    assert NextWord(0x8f8c5e57, 0x3532c00b, 0x00000010, 0x00000000) == 0xf9f9952d;
    assert NextWord(0x3c7cc6a8, 0xd57b4b2c, 0x34328000, 0x00000010) == 0x77f789c8;
  }

  lemma Words4Are()
    ensures NextEight(Words2, Words3) == Words4
  {
    assert NextWord(0xf9f9952d, 0x4816c0ce, 0x000a0000, 0x34328000) == 0xf457d276;
    assert NextWord(0x77f789c8, 0x0cc6b144, 0x100d103f, 0x000a0000) == 0x7abff64f;
    assert NextWord(0xf457d276, 0xe28951fc, 0x40000284, 0x100d103f) == 0x060023e5;
    assert NextWord(0x7abff64f, 0x8f8c5e57, 0x2a1c6943, 0x40000284) == 0x6ec4de4d;
    assert NextWord(0x060023e5, 0x3c7cc6a8, 0x0102a800, 0x2a1c6943) == 0x264b23c3;
    assert NextWord(0x6ec4de4d, 0xf9f9952d, 0xb9837767, 0x0102a800) == 0xf58b6f1c;
    assert NextWord(0x264b23c3, 0x77f789c8, 0x3532c00b, 0xb9837767) == 0xc7da5720;
    assert NextWord(0xf58b6f1c, 0xf457d276, 0xd57b4b2c, 0x3532c00b) == 0x95a9c3dd;
  }

  lemma Words5Are()
    ensures NextEight(Words3, Words4) == Words5
  {
    assert NextWord(0xc7da5720, 0x7abff64f, 0x4816c0ce, 0xd57b4b2c) == 0xd722369b;
    assert NextWord(0x95a9c3dd, 0x060023e5, 0x0cc6b144, 0x4816c0ce) == 0x4d974f3f;
    assert NextWord(0xd722369b, 0x6ec4de4d, 0xe28951fc, 0x0cc6b144) == 0x8b21e9c7;
    assert NextWord(0x4d974f3f, 0x264b23c3, 0x8f8c5e57, 0xe28951fc) == 0x00bb10fe;
    assert NextWord(0x8b21e9c7, 0xf58b6f1c, 0x3c7cc6a8, 0x8f8c5e57) == 0xb56f3848;
    assert NextWord(0x00bb10fe, 0xc7da5720, 0xf9f9952d, 0x3c7cc6a8) == 0x103fcc47;
    assert NextWord(0xb56f3848, 0x95a9c3dd, 0x77f789c8, 0xf9f9952d) == 0x870674b5;
    assert NextWord(0x103fcc47, 0xd722369b, 0xf457d276, 0x77f789c8) == 0x76c90f4d;
  }

  lemma Words6Are()
    ensures NextEight(Words4, Words5) == Words6
  {
    assert NextWord(0x870674b5, 0x4d974f3f, 0x7abff64f, 0xf457d276) == 0xa30e343d;
    assert NextWord(0x76c90f4d, 0x8b21e9c7, 0x060023e5, 0x7abff64f) == 0x6e69cdcf;
    assert NextWord(0xa30e343d, 0x00bb10fe, 0x6ec4de4d, 0x060023e5) == 0x84032512;
    assert NextWord(0x6e69cdcf, 0xb56f3848, 0x264b23c3, 0x6ec4de4d) == 0x4def12cc;
    assert NextWord(0x84032512, 0x103fcc47, 0xf58b6f1c, 0x264b23c3) == 0x293248b1;
    assert NextWord(0x4def12cc, 0x870674b5, 0xc7da5720, 0xf58b6f1c) == 0xb47b881b;
    assert NextWord(0x293248b1, 0x76c90f4d, 0x95a9c3dd, 0xc7da5720) == 0x85517230;
    assert NextWord(0xb47b881b, 0xa30e343d, 0xd722369b, 0x95a9c3dd) == 0x8ec8a1e0;
  }

  lemma Words7Are()
    ensures NextEight(Words5, Words6) == Words7
  {
    assert NextWord(0x85517230, 0x6e69cdcf, 0x4d974f3f, 0xd722369b) == 0x81f11ee4;
    assert NextWord(0x8ec8a1e0, 0x84032512, 0x8b21e9c7, 0x4d974f3f) == 0xfa8df509;
    assert NextWord(0x81f11ee4, 0x4def12cc, 0x00bb10fe, 0x8b21e9c7) == 0xbdc93d24;
    assert NextWord(0xfa8df509, 0x293248b1, 0xb56f3848, 0x00bb10fe) == 0xb7ddcf3b;
    assert NextWord(0xbdc93d24, 0xb47b881b, 0x103fcc47, 0xb56f3848) == 0xa23abd94;
    assert NextWord(0xb7ddcf3b, 0x85517230, 0x870674b5, 0x103fcc47) == 0xdaac3c9b;
    assert NextWord(0xa23abd94, 0x8ec8a1e0, 0x76c90f4d, 0x870674b5) == 0xf70750cf;
    assert NextWord(0xdaac3c9b, 0x81f11ee4, 0xa30e343d, 0x76c90f4d) == 0x74cb1d69;
  }

  lemma Keys0Are()
    ensures ConstantsAt(0) == Keys0
  {
  }

  lemma Keys1Are()
    ensures ConstantsAt(8) == Keys1
  {
  }

  lemma Keys2Are()
    ensures ConstantsAt(16) == Keys2
  {
  }

  lemma Keys3Are()
    ensures ConstantsAt(24) == Keys3
  {
  }

  lemma Keys4Are()
    ensures ConstantsAt(32) == Keys4
  {
  }

  lemma Keys5Are()
    ensures ConstantsAt(40) == Keys5
  {
  }

  lemma Keys6Are()
    ensures ConstantsAt(48) == Keys6
  {
  }

  lemma Keys7Are()
    ensures ConstantsAt(56) == Keys7
  {
  }

  // ----- where the constants come from -----

  /** `k` is the first 32 bits of the fractional part of the cube root of `p`, which is `x` / 2^32 rounded
      down to 32 bits behind the point. */
  predicate CubeRoot(k: bv32, x: nat, p: nat) {
    k as int == x % 0x1_0000_0000 && x * x * x <= p * 0x1_0000_0000_0000_0000_0000_0000 < (x + 1) * (x + 1) * (x + 1)
  }

  predicate SquareRoot(k: bv32, x: nat, p: nat) {
    k as int == x % 0x1_0000_0000 && x * x <= p * 0x1_0000_0000_0000_0000 < (x + 1) * (x + 1)
  }

  /** The initial value is made of the square roots of the first eight primes (section 5.3.3 of FIPS 180-4). */
  lemma InitialRoots()
    ensures SquareRoot(H0.a, 0x16a09e667, 2) && SquareRoot(H0.b, 0x1bb67ae85, 3) && SquareRoot(H0.c, 0x23c6ef372, 5) && SquareRoot(H0.d, 0x2a54ff53a, 7)
    ensures SquareRoot(H0.e, 0x3510e527f, 11) && SquareRoot(H0.f, 0x39b05688c, 13) && SquareRoot(H0.g, 0x41f83d9ab, 17) && SquareRoot(H0.h, 0x45be0cd19, 19)
  {
  }

  lemma Keys0Roots()
    ensures CubeRoot(Keys0.w0, 0x1428a2f98, 2) && CubeRoot(Keys0.w1, 0x171374491, 3) && CubeRoot(Keys0.w2, 0x1b5c0fbcf, 5) && CubeRoot(Keys0.w3, 0x1e9b5dba5, 7)
    ensures CubeRoot(Keys0.w4, 0x23956c25b, 11) && CubeRoot(Keys0.w5, 0x259f111f1, 13) && CubeRoot(Keys0.w6, 0x2923f82a4, 17) && CubeRoot(Keys0.w7, 0x2ab1c5ed5, 19)
  {
  }

  lemma Keys1Roots()
    ensures CubeRoot(Keys1.w0, 0x2d807aa98, 23) && CubeRoot(Keys1.w1, 0x312835b01, 29) && CubeRoot(Keys1.w2, 0x3243185be, 31) && CubeRoot(Keys1.w3, 0x3550c7dc3, 37)
    ensures CubeRoot(Keys1.w4, 0x372be5d74, 41) && CubeRoot(Keys1.w5, 0x380deb1fe, 43) && CubeRoot(Keys1.w6, 0x39bdc06a7, 47) && CubeRoot(Keys1.w7, 0x3c19bf174, 53)
  {
  }

  lemma Keys2Roots()
    ensures CubeRoot(Keys2.w0, 0x3e49b69c1, 59) && CubeRoot(Keys2.w1, 0x3efbe4786, 61) && CubeRoot(Keys2.w2, 0x40fc19dc6, 67) && CubeRoot(Keys2.w3, 0x4240ca1cc, 71)
    ensures CubeRoot(Keys2.w4, 0x42de92c6f, 73) && CubeRoot(Keys2.w5, 0x44a7484aa, 79) && CubeRoot(Keys2.w6, 0x45cb0a9dc, 83) && CubeRoot(Keys2.w7, 0x476f988da, 89)
  {
  }

  lemma Keys3Roots()
    ensures CubeRoot(Keys3.w0, 0x4983e5152, 97) && CubeRoot(Keys3.w1, 0x4a831c66d, 101) && CubeRoot(Keys3.w2, 0x4b00327c8, 103) && CubeRoot(Keys3.w3, 0x4bf597fc7, 107)
    ensures CubeRoot(Keys3.w4, 0x4c6e00bf3, 109) && CubeRoot(Keys3.w5, 0x4d5a79147, 113) && CubeRoot(Keys3.w6, 0x506ca6351, 127) && CubeRoot(Keys3.w7, 0x514292967, 131)
  {
  }

  lemma Keys4Roots()
    ensures CubeRoot(Keys4.w0, 0x527b70a85, 137) && CubeRoot(Keys4.w1, 0x52e1b2138, 139) && CubeRoot(Keys4.w2, 0x54d2c6dfc, 149) && CubeRoot(Keys4.w3, 0x553380d13, 151)
    ensures CubeRoot(Keys4.w4, 0x5650a7354, 157) && CubeRoot(Keys4.w5, 0x5766a0abb, 163) && CubeRoot(Keys4.w6, 0x581c2c92e, 167) && CubeRoot(Keys4.w7, 0x592722c85, 173)
  {
  }

  lemma Keys5Roots()
    ensures CubeRoot(Keys5.w0, 0x5a2bfe8a1, 179) && CubeRoot(Keys5.w1, 0x5a81a664b, 181) && CubeRoot(Keys5.w2, 0x5c24b8b70, 191) && CubeRoot(Keys5.w3, 0x5c76c51a3, 193)
    ensures CubeRoot(Keys5.w4, 0x5d192e819, 197) && CubeRoot(Keys5.w5, 0x5d6990624, 199) && CubeRoot(Keys5.w6, 0x5f40e3585, 211) && CubeRoot(Keys5.w7, 0x6106aa070, 223)
  {
  }

  lemma Keys6Roots()
    ensures CubeRoot(Keys6.w0, 0x619a4c116, 227) && CubeRoot(Keys6.w1, 0x61e376c08, 229) && CubeRoot(Keys6.w2, 0x62748774c, 233) && CubeRoot(Keys6.w3, 0x634b0bcb5, 239)
    ensures CubeRoot(Keys6.w4, 0x6391c0cb3, 241) && CubeRoot(Keys6.w5, 0x64ed8aa4a, 251) && CubeRoot(Keys6.w6, 0x65b9cca4f, 257) && CubeRoot(Keys6.w7, 0x6682e6ff3, 263)
  {
  }

  lemma Keys7Roots()
    ensures CubeRoot(Keys7.w0, 0x6748f82ee, 269) && CubeRoot(Keys7.w1, 0x678a5636f, 271) && CubeRoot(Keys7.w2, 0x684c87814, 277) && CubeRoot(Keys7.w3, 0x68cc70208, 281)
    ensures CubeRoot(Keys7.w4, 0x690befffa, 283) && CubeRoot(Keys7.w5, 0x6a4506ceb, 293) && CubeRoot(Keys7.w6, 0x6bef9a3f7, 307) && CubeRoot(Keys7.w7, 0x6c67178f2, 311)
  {
  }

  lemma State1Is()
    ensures EightRounds(State0, Keys0, Words0) == State1
  {
    hide Round;
    RoundIs(Hash(0x6a09e667, 0xbb67ae85, 0x3c6ef372, 0xa54ff53a, 0x510e527f, 0x9b05688c, 0x1f83d9ab, 0x5be0cd19),
            0x428a2f98, 0x34328000, 0x27aa6d68, 0x08909ae5, 0x303b084d, 0xccfa62a2);
    RoundIs(Hash(0x303b084d, 0x6a09e667, 0xbb67ae85, 0x3c6ef372, 0xccfa62a2, 0x510e527f, 0x9b05688c, 0x1f83d9ab),
            0x71374491, 0x00000000, 0x8625900a, 0x1c722550, 0xa297b55a, 0xc294837c);
    RoundIs(Hash(0xa297b55a, 0x303b084d, 0x6a09e667, 0xbb67ae85, 0xc294837c, 0xccfa62a2, 0x510e527f, 0x9b05688c),
            0xb5c0fbcf, 0x00000000, 0xf934757a, 0x7ec137b0, 0x77f5ad2a, 0xb49c23ff);
    RoundIs(Hash(0x77f5ad2a, 0xa297b55a, 0x303b084d, 0x6a09e667, 0xb49c23ff, 0xc294837c, 0xccfa62a2, 0x510e527f),
            0xe9b5dba5, 0x00000000, 0xd2ef8e71, 0x54d22a82, 0x27c1b8f3, 0x3cf974d8);
    RoundIs(Hash(0x27c1b8f3, 0x77f5ad2a, 0xa297b55a, 0x303b084d, 0x3cf974d8, 0xb49c23ff, 0xc294837c, 0xccfa62a2),
            0x3956c25b, 0x00000000, 0x843bdfdc, 0x30605a28, 0xb49c3a04, 0xb476e829);
    RoundIs(Hash(0xb49c3a04, 0x27c1b8f3, 0x77f5ad2a, 0xa297b55a, 0xb476e829, 0x3cf974d8, 0xb49c23ff, 0xc294837c),
            0x59f111f1, 0x00000000, 0xea113af2, 0xc5c070d4, 0xafd1abc6, 0x8ca8f04c);
    RoundIs(Hash(0xafd1abc6, 0xb49c3a04, 0x27c1b8f3, 0x77f5ad2a, 0x8ca8f04c, 0xb476e829, 0x3cf974d8, 0xb49c23ff),
            0x923f82a4, 0x00000000, 0x6b289bd4, 0x5b3fc989, 0xc668655d, 0xe31e48fe);
    RoundIs(Hash(0xc668655d, 0xafd1abc6, 0xb49c3a04, 0x27c1b8f3, 0xe31e48fe, 0x8ca8f04c, 0xb476e829, 0x3cf974d8),
            0xab1c5ed5, 0x00000000, 0xe7f31995, 0xa1b98851, 0x89aca1e6, 0x0fb4d288);
  }

  lemma State2Is()
    ensures EightRounds(State1, Keys1, Words1) == State2
  {
    hide Round;
    RoundIs(Hash(0x89aca1e6, 0xc668655d, 0xafd1abc6, 0xb49c3a04, 0x0fb4d288, 0xe31e48fe, 0x8ca8f04c, 0xb476e829),
            0xd807aa98, 0x00000000, 0xbaf15564, 0xafc1a100, 0x6ab2f664, 0x6f8d8f68);
    RoundIs(Hash(0x6ab2f664, 0x89aca1e6, 0xc668655d, 0xafd1abc6, 0x6f8d8f68, 0x0fb4d288, 0xe31e48fe, 0x8ca8f04c),
            0x12835b01, 0x00000000, 0xb93781a6, 0x2cff5f08, 0xe636e0ae, 0x69092d6c);
    RoundIs(Hash(0xe636e0ae, 0x6ab2f664, 0x89aca1e6, 0xc668655d, 0x69092d6c, 0x6f8d8f68, 0x0fb4d288, 0xe31e48fe),
            0x243185be, 0x00000000, 0x0fcd6248, 0x522f12ea, 0x61fc7532, 0xd635c7a5);
    RoundIs(Hash(0x61fc7532, 0xe636e0ae, 0x6ab2f664, 0x89aca1e6, 0xd635c7a5, 0x69092d6c, 0x6f8d8f68, 0x0fb4d288),
            0x550c7dc3, 0x00000000, 0x474c2104, 0x22efcf4e, 0x6a3bf052, 0xd0f8c2ea);
    RoundIs(Hash(0x6a3bf052, 0x61fc7532, 0xe636e0ae, 0x6ab2f664, 0xd0f8c2ea, 0xd635c7a5, 0x69092d6c, 0x6f8d8f68),
            0x72be5d74, 0x00000000, 0x65f665fb, 0x5a1bd495, 0xc0123a90, 0xd0a95c5f);
    RoundIs(Hash(0xc0123a90, 0x6a3bf052, 0x61fc7532, 0xe636e0ae, 0xd0a95c5f, 0xd0f8c2ea, 0xd635c7a5, 0x69092d6c),
            0x80deb1fe, 0x00000000, 0x60bb4306, 0x0ca33d47, 0x6d5e804d, 0x46f223b4);
    RoundIs(Hash(0x6d5e804d, 0xc0123a90, 0x6a3bf052, 0x61fc7532, 0x46f223b4, 0xd0a95c5f, 0xd0f8c2ea, 0xd635c7a5),
            0x9bdc06a7, 0x00000000, 0x213d5b93, 0x8b58afa2, 0xac960b35, 0x8339d0c5);
    RoundIs(Hash(0xac960b35, 0x6d5e804d, 0xc0123a90, 0x6a3bf052, 0x8339d0c5, 0x46f223b4, 0xd0a95c5f, 0xd0f8c2ea),
            0xc19bf174, 0x00000010, 0x7799a3c4, 0x56ba3ae4, 0xce53dea8, 0xe1d59416);
  }

  lemma State3Is()
    ensures EightRounds(State2, Keys2, Words2) == State3
  {
    hide Round;
    RoundIs(Hash(0xce53dea8, 0xac960b35, 0x6d5e804d, 0xc0123a90, 0xe1d59416, 0x8339d0c5, 0x46f223b4, 0xd0a95c5f),
            0xe49b69c1, 0x34328000, 0xa43c6156, 0x75feb03a, 0x1a3b1190, 0x644e9be6);
    RoundIs(Hash(0x1a3b1190, 0xce53dea8, 0xac960b35, 0x6d5e804d, 0x644e9be6, 0xe1d59416, 0x8339d0c5, 0x46f223b4),
            0xefbe4786, 0x000a0000, 0xdc407bcf, 0xf45b7184, 0xd09bed53, 0x499efc1c);
    RoundIs(Hash(0xd09bed53, 0x1a3b1190, 0xce53dea8, 0xac960b35, 0x499efc1c, 0x644e9be6, 0xe1d59416, 0x8339d0c5),
            0x0fc19dc6, 0x100d103f, 0xc1295cdb, 0xcb290e59, 0x8c526b34, 0x6dbf6810);
    RoundIs(Hash(0x8c526b34, 0xd09bed53, 0x1a3b1190, 0xce53dea8, 0x6dbf6810, 0x499efc1c, 0x644e9be6, 0xe1d59416),
            0x240ca1cc, 0x40000284, 0x2bd076d7, 0xcb37937f, 0xf7080a56, 0xfa24557f);
    RoundIs(Hash(0xf7080a56, 0x8c526b34, 0xd09bed53, 0x1a3b1190, 0xfa24557f, 0x6dbf6810, 0x499efc1c, 0x644e9be6),
            0x2de92c6f, 0x2a1c6943, 0x685083ca, 0xa3774c5f, 0x0bc7d029, 0x828b955a);
    RoundIs(Hash(0x0bc7d029, 0xf7080a56, 0x8c526b34, 0xd09bed53, 0x828b955a, 0xfa24557f, 0x6dbf6810, 0x499efc1c),
            0x4a7484aa, 0x0102a800, 0x08db7886, 0x6c3b584f, 0x7516d0d5, 0xd97765d9);
    RoundIs(Hash(0x7516d0d5, 0x0bc7d029, 0xf7080a56, 0x8c526b34, 0xd97765d9, 0x828b955a, 0xfa24557f, 0x6dbf6810),
            0x5cb0a9dc, 0xb9837767, 0x8de2be68, 0xf7b419ac, 0x8596d814, 0x1a35299c);
    RoundIs(Hash(0x8596d814, 0x7516d0d5, 0x0bc7d029, 0xf7080a56, 0x1a35299c, 0xd97765d9, 0x828b955a, 0xfa24557f),
            0x76f988da, 0x3532c00b, 0x988fb04c, 0xc03898ba, 0x58c84906, 0x8f97baa2);
  }

  lemma State4Is()
    ensures EightRounds(State3, Keys3, Words3) == State4
  {
    hide Round;
    RoundIs(Hash(0x58c84906, 0x8596d814, 0x7516d0d5, 0x0bc7d029, 0x8f97baa2, 0x1a35299c, 0xd97765d9, 0x828b955a),
            0x983e5152, 0xd57b4b2c, 0x606d9d0b, 0x54bba574, 0xb529427f, 0x6c356d34);
    RoundIs(Hash(0xb529427f, 0x58c84906, 0x8596d814, 0x7516d0d5, 0x6c356d34, 0x8f97baa2, 0x1a35299c, 0xd97765d9),
            0xa831c66d, 0x4816c0ce, 0x5560deeb, 0xf1464f17, 0x46a72e02, 0xca77afc0);
    RoundIs(Hash(0x46a72e02, 0xb529427f, 0x58c84906, 0x8596d814, 0xca77afc0, 0x6c356d34, 0x8f97baa2, 0x1a35299c),
            0xb00327c8, 0x0cc6b144, 0xe59baff9, 0xd1ad41a9, 0xb748f1a2, 0x6b32880d);
    RoundIs(Hash(0xb748f1a2, 0x46a72e02, 0xb529427f, 0x58c84906, 0x6b32880d, 0xca77afc0, 0x6c356d34, 0x8f97baa2),
            0xbf597fc7, 0xe28951fc, 0x2cf82459, 0xba2a6f14, 0xe722936d, 0x85c06d5f);
    RoundIs(Hash(0xe722936d, 0xb748f1a2, 0x46a72e02, 0xb529427f, 0x85c06d5f, 0x6b32880d, 0xca77afc0, 0x6c356d34),
            0xc6e00bf3, 0x8f8c5e57, 0x43aa7885, 0x500cdd75, 0x93b755fa, 0xf8d3bb04);
    RoundIs(Hash(0x93b755fa, 0xe722936d, 0xb748f1a2, 0x46a72e02, 0xf8d3bb04, 0x85c06d5f, 0x6b32880d, 0xca77afc0),
            0xd5a79147, 0x3c7cc6a8, 0x7b1e07a3, 0x8d917474, 0x08af7c17, 0xc1c535a5);
    RoundIs(Hash(0x08af7c17, 0x93b755fa, 0xe722936d, 0xb748f1a2, 0xc1c535a5, 0xf8d3bb04, 0x85c06d5f, 0x6b32880d),
            0x06ca6351, 0xf9f9952d, 0xf1ddf879, 0x230b1bdb, 0x14e91454, 0xa926ea1b);
    RoundIs(Hash(0x14e91454, 0x08af7c17, 0x93b755fa, 0xe722936d, 0xa926ea1b, 0xc1c535a5, 0xf8d3bb04, 0x85c06d5f),
            0x14292967, 0x77f789c8, 0xa25b0434, 0x147b0664, 0xb6d60a98, 0x897d97a1);
  }

  lemma State5Is()
    ensures EightRounds(State4, Keys4, Words4) == State5
  {
    hide Round;
    RoundIs(Hash(0xb6d60a98, 0x14e91454, 0x08af7c17, 0x93b755fa, 0x897d97a1, 0xa926ea1b, 0xc1c535a5, 0xf8d3bb04),
            0x27b70a85, 0xf457d276, 0xab66432c, 0x364972e1, 0xe1afb60d, 0x3f1d9926);
    RoundIs(Hash(0xe1afb60d, 0xb6d60a98, 0x14e91454, 0x08af7c17, 0x3f1d9926, 0x897d97a1, 0xa926ea1b, 0xc1c535a5),
            0x2e1b2138, 0x7abff64f, 0x26d7472d, 0x2bcbed94, 0x52a334c1, 0x2f86c344);
    RoundIs(Hash(0x52a334c1, 0xe1afb60d, 0xb6d60a98, 0x14e91454, 0x2f86c344, 0x3f1d9926, 0x897d97a1, 0xa926ea1b),
            0x4d2c6dfc, 0x060023e5, 0x672b5b63, 0x711893ec, 0xd843ef4f, 0x7c146fb7);
    RoundIs(Hash(0xd843ef4f, 0x52a334c1, 0xe1afb60d, 0xb6d60a98, 0x7c146fb7, 0x2f86c344, 0x3f1d9926, 0x897d97a1),
            0x53380d13, 0x6ec4de4d, 0x9bb05e92, 0x5476bcfa, 0xf0271b8c, 0x5286692a);
    RoundIs(Hash(0xf0271b8c, 0xd843ef4f, 0x52a334c1, 0xe1afb60d, 0x5286692a, 0x7c146fb7, 0x2f86c344, 0x3f1d9926),
            0x650a7354, 0x264b23c3, 0x16acf7e3, 0x4c23b3e8, 0x62d0abcb, 0xf85cadf0);
    RoundIs(Hash(0x62d0abcb, 0xf0271b8c, 0xd843ef4f, 0x52a334c1, 0xf85cadf0, 0x5286692a, 0x7c146fb7, 0x2f86c344),
            0x766a0abb, 0xf58b6f1c, 0x432929a0, 0xb483bdcb, 0xf7ace76b, 0x95cc5e61);
    RoundIs(Hash(0xf7ace76b, 0x62d0abcb, 0xf0271b8c, 0xd843ef4f, 0x95cc5e61, 0xf85cadf0, 0x5286692a, 0x7c146fb7),
            0x81c2c92e, 0xc7da5720, 0x444a75a7, 0x67cdd72e, 0xac184cd5, 0x1c8e64f6);
    RoundIs(Hash(0xac184cd5, 0xf7ace76b, 0x62d0abcb, 0xf0271b8c, 0x1c8e64f6, 0x95cc5e61, 0xf85cadf0, 0x5286692a),
            0x92722c85, 0x95a9c3dd, 0x7102fa3d, 0x53311512, 0xc4340f4f, 0x612a15c9);
  }

  lemma State6Is()
    ensures EightRounds(State5, Keys5, Words5) == State6
  {
    hide Round;
    RoundIs(Hash(0xc4340f4f, 0xac184cd5, 0xf7ace76b, 0x62d0abcb, 0x612a15c9, 0x1c8e64f6, 0x95cc5e61, 0xf85cadf0),
            0xa2bfe8a1, 0xd722369b, 0x10af85b1, 0x3f8a6cb2, 0x5039f263, 0x7380317c);
    RoundIs(Hash(0x5039f263, 0xc4340f4f, 0xac184cd5, 0xf7ace76b, 0x7380317c, 0x612a15c9, 0x1c8e64f6, 0x95cc5e61),
            0xa81a664b, 0x4d974f3f, 0x16e538af, 0x6515be5e, 0x7bfaf70d, 0x0e92201a);
    RoundIs(Hash(0x7bfaf70d, 0x5039f263, 0xc4340f4f, 0xac184cd5, 0x0e92201a, 0x7380317c, 0x612a15c9, 0x1c8e64f6),
            0xc24b8b70, 0x8b21e9c7, 0xf00fa7c9, 0x5d824f4a, 0x4d91f713, 0x9c27f49e);
    RoundIs(Hash(0x4d91f713, 0x7bfaf70d, 0x5039f263, 0xc4340f4f, 0x9c27f49e, 0x0e92201a, 0x7380317c, 0x612a15c9),
            0xc76c51a3, 0x00bb10fe, 0x932cee46, 0x85dc5380, 0x190941c6, 0x5760fd95);
    RoundIs(Hash(0x190941c6, 0x4d91f713, 0x7bfaf70d, 0x5039f263, 0x5760fd95, 0x9c27f49e, 0x0e92201a, 0x7380317c),
            0xd192e819, 0xb56f3848, 0x6ebeebbd, 0x070f7766, 0x75ce6323, 0xbef8de20);
    RoundIs(Hash(0x75ce6323, 0x190941c6, 0x4d91f713, 0x7bfaf70d, 0xbef8de20, 0x5760fd95, 0x9c27f49e, 0x0e92201a),
            0xd6990624, 0x103fcc47, 0x46561b5f, 0x5b6e1e6f, 0xa1c439ce, 0xc251126c);
    RoundIs(Hash(0xa1c439ce, 0x75ce6323, 0x190941c6, 0x4d91f713, 0xc251126c, 0xbef8de20, 0x5760fd95, 0x9c27f49e),
            0xf40e3585, 0x870674b5, 0x84c5d693, 0xa8af9c9b, 0x2d75732e, 0xd257cda6);
    RoundIs(Hash(0x2d75732e, 0xa1c439ce, 0x75ce6323, 0x190941c6, 0xd257cda6, 0xc251126c, 0xbef8de20, 0x5760fd95),
            0x106aa070, 0x76c90f4d, 0xd203861c, 0xeda50303, 0xbfa8891f, 0xeb0cc7e2);
  }

  lemma State7Is()
    ensures EightRounds(State6, Keys6, Words6) == State7
  {
    hide Round;
    RoundIs(Hash(0xbfa8891f, 0x2d75732e, 0xa1c439ce, 0x75ce6323, 0xeb0cc7e2, 0xd257cda6, 0xc251126c, 0xbef8de20),
            0x19a4c116, 0xa30e343d, 0x2f944d13, 0xb317db0b, 0xe2ac281e, 0xa562b036);
    RoundIs(Hash(0xe2ac281e, 0xbfa8891f, 0x2d75732e, 0xa1c439ce, 0xa562b036, 0xeb0cc7e2, 0xd257cda6, 0xc251126c),
            0x1e376c08, 0x6e69cdcf, 0xaf2157a9, 0xf8a88e0a, 0xa7c9e5b3, 0x50e59177);
    RoundIs(Hash(0xa7c9e5b3, 0xe2ac281e, 0xbfa8891f, 0x2d75732e, 0x50e59177, 0xa562b036, 0xeb0cc7e2, 0xd257cda6),
            0x2748774c, 0x84032512, 0xaa6d7219, 0x8ba232db, 0x360fa4f4, 0xd7e2e547);
    RoundIs(Hash(0x360fa4f4, 0xa7c9e5b3, 0xe2ac281e, 0xbfa8891f, 0xd7e2e547, 0x50e59177, 0xa562b036, 0xeb0cc7e2),
            0x34b0bcb5, 0x4def12cc, 0x2564fcfc, 0xbb3f2e4e, 0xe0a42b4a, 0xe50d861b);
    RoundIs(Hash(0xe0a42b4a, 0x360fa4f4, 0xa7c9e5b3, 0xe2ac281e, 0xe50d861b, 0xd7e2e547, 0x50e59177, 0xa562b036),
            0x391c0cb3, 0x293248b1, 0x07bd355b, 0x1960ca63, 0x211dffbe, 0xea695d79);
    RoundIs(Hash(0x211dffbe, 0xe0a42b4a, 0x360fa4f4, 0xa7c9e5b3, 0xea695d79, 0xe50d861b, 0xd7e2e547, 0x50e59177),
            0x4ed8aa4a, 0xb47b881b, 0xc5ffbca6, 0x22563f82, 0xe855fc28, 0x6dc9a259);
    RoundIs(Hash(0xe855fc28, 0x211dffbe, 0xe0a42b4a, 0x360fa4f4, 0x6dc9a259, 0xea695d79, 0xe50d861b, 0xd7e2e547),
            0x5b9cca4f, 0x85517230, 0x6b69d92c, 0x6cb89d2e, 0xd822765a, 0xa1797e20);
    RoundIs(Hash(0xd822765a, 0xe855fc28, 0x211dffbe, 0xe0a42b4a, 0xa1797e20, 0x6dc9a259, 0xea695d79, 0xe50d861b),
            0x682e6ff3, 0x8ec8a1e0, 0x417c95ce, 0x751d361f, 0xb699cbed, 0x2220c118);
  }

  lemma State8Is()
    ensures EightRounds(State7, Keys7, Words7) == State8
  {
    hide Round;
    RoundIs(Hash(0xb699cbed, 0xd822765a, 0xe855fc28, 0x211dffbe, 0x2220c118, 0xa1797e20, 0x6dc9a259, 0xea695d79),
            0x748f82ee, 0x81f11ee4, 0xa2bfac99, 0x4df66f57, 0xf0b61bf0, 0xc3ddac57);
    RoundIs(Hash(0xf0b61bf0, 0xb699cbed, 0xd822765a, 0xe855fc28, 0xc3ddac57, 0x2220c118, 0xa1797e20, 0x6dc9a259),
            0x78a5636f, 0xfa8df509, 0x3e3ef3e6, 0x2c781c86, 0x6ab7106c, 0x2694f00e);
    RoundIs(Hash(0x6ab7106c, 0xf0b61bf0, 0xb699cbed, 0xd822765a, 0x2694f00e, 0xc3ddac57, 0x2220c118, 0xa1797e20),
            0x84c87814, 0xbdc93d24, 0x59e65abb, 0x38463bf5, 0x922c96b0, 0x3208d115);
    RoundIs(Hash(0x922c96b0, 0x6ab7106c, 0xf0b61bf0, 0xb699cbed, 0x3208d115, 0x2694f00e, 0xc3ddac57, 0x2220c118),
            0x8cc70208, 0xb7ddcf3b, 0xbca27768, 0x160b8970, 0xd2ae00d8, 0x733c4355);
    RoundIs(Hash(0xd2ae00d8, 0x922c96b0, 0x6ab7106c, 0xf0b61bf0, 0x733c4355, 0x3208d115, 0x2694f00e, 0xc3ddac57),
            0x90befffa, 0xa23abd94, 0xcea39740, 0x5d1c8704, 0x2bc01e44, 0xbf59b330);
    RoundIs(Hash(0x2bc01e44, 0xd2ae00d8, 0x922c96b0, 0x6ab7106c, 0xbf59b330, 0x733c4355, 0x3208d115, 0x2694f00e),
            0xa4506ceb, 0xdaac3c9b, 0xe0dcf24e, 0x8b54600e, 0x6c31525c, 0x4b9402ba);
    RoundIs(Hash(0x6c31525c, 0x2bc01e44, 0xd2ae00d8, 0x922c96b0, 0x4b9402ba, 0xbf59b330, 0x733c4355, 0x3208d115),
            0xbef9a3f7, 0xf70750cf, 0x97a888ff, 0xb7465709, 0x4eeee008, 0x29d51faf);
    RoundIs(Hash(0x4eeee008, 0x6c31525c, 0x2bc01e44, 0xd2ae00d8, 0x29d51faf, 0x4b9402ba, 0xbf59b330, 0x733c4355),
            0xc67178f2, 0x74cb1d69, 0xf1e335b3, 0x175a409a, 0x093d764d, 0xc491368b);
  }

  /** A round by its two sums. */
  lemma RoundIs(x: Hash, k: bv32, w: bv32, t1: bv32, t2: bv32, a: bv32, e: bv32)
    requires Add(Add(Add(Add(x.h, CodeS1(x.e)), Ch(x.e, x.f, x.g)), k), w) == t1
    requires Add(CodeS0(x.a), Maj(x.a, x.b, x.c)) == t2 && Add(t1, t2) == a && Add(x.d, t1) == e
    ensures Round(x, k, w) == Hash(a, x.a, x.b, x.c, e, x.e, x.f, x.g)
  {
    hide BigSigma0, BigSigma1, CodeS0, CodeS1, CodeLittleS0, CodeLittleS1, SmallSigma0, SmallSigma1, Ch, Maj, Add;
    CodeSigmas(x.e);
    CodeSigmas(x.a);
  }

  lemma Words0Low()
    ensures WordBytes(0x34328000) + WordBytes(0x00000000) + WordBytes(0x00000000) + WordBytes(0x00000000) ==
              [0x34, 0x32, 0x80, 0x00, 0x00, 0x00, 0x00, 0x00, 0x00, 0x00, 0x00, 0x00, 0x00, 0x00, 0x00, 0x00]
  {
    assert WordBytes(0x34328000) == [0x34, 0x32, 0x80, 0x00];
    assert WordBytes(0x00000000) == [0x00, 0x00, 0x00, 0x00];
  }

  lemma Words0High()
    ensures WordBytes(0x00000000) + WordBytes(0x00000000) + WordBytes(0x00000000) + WordBytes(0x00000000) ==
              [0x00, 0x00, 0x00, 0x00, 0x00, 0x00, 0x00, 0x00, 0x00, 0x00, 0x00, 0x00, 0x00, 0x00, 0x00, 0x00]
  {
    assert WordBytes(0x00000000) == [0x00, 0x00, 0x00, 0x00];
  }

  lemma Words0Spelled()
    ensures Spelled(Words0) ==
              [0x34, 0x32, 0x80, 0x00, 0x00, 0x00, 0x00, 0x00, 0x00, 0x00, 0x00, 0x00, 0x00, 0x00, 0x00, 0x00,
               0x00, 0x00, 0x00, 0x00, 0x00, 0x00, 0x00, 0x00, 0x00, 0x00, 0x00, 0x00, 0x00, 0x00, 0x00, 0x00]
  {
    hide WordBytes;
    Words0Low();
    Words0High();
  }

  lemma Words1Low()
    ensures WordBytes(0x00000000) + WordBytes(0x00000000) + WordBytes(0x00000000) + WordBytes(0x00000000) ==
              [0x00, 0x00, 0x00, 0x00, 0x00, 0x00, 0x00, 0x00, 0x00, 0x00, 0x00, 0x00, 0x00, 0x00, 0x00, 0x00]
  {
    assert WordBytes(0x00000000) == [0x00, 0x00, 0x00, 0x00];
  }

  lemma Words1High()
    ensures WordBytes(0x00000000) + WordBytes(0x00000000) + WordBytes(0x00000000) + WordBytes(0x00000010) ==
              [0x00, 0x00, 0x00, 0x00, 0x00, 0x00, 0x00, 0x00, 0x00, 0x00, 0x00, 0x00, 0x00, 0x00, 0x00, 0x10]
  {
    assert WordBytes(0x00000000) == [0x00, 0x00, 0x00, 0x00];
    assert WordBytes(0x00000010) == [0x00, 0x00, 0x00, 0x10];
  }

  lemma Words1Spelled()
    ensures Spelled(Words1) ==
              [0x00, 0x00, 0x00, 0x00, 0x00, 0x00, 0x00, 0x00, 0x00, 0x00, 0x00, 0x00, 0x00, 0x00, 0x00, 0x00,
               0x00, 0x00, 0x00, 0x00, 0x00, 0x00, 0x00, 0x00, 0x00, 0x00, 0x00, 0x00, 0x00, 0x00, 0x00, 0x10]
  {
    hide WordBytes;
    Words1Low();
    Words1High();
  }

  lemma Compressed(block: Block)
    requires WordsAt(block, 0) == Words0 && WordsAt(block, 8) == Words1
    ensures Rounds(H0, block, 64) == State8
  {
    hide Rounds, WordsAt, EightRounds, NextEight, ConstantsAt;
    NoRounds(H0, block);
    RoundsEight(H0, block, 0);
    Keys0Are();
    State1Is();
    RoundsEight(H0, block, 8);
    Keys1Are();
    State2Is();
    WordsNext(block, 16);
    Words2Are();
    RoundsEight(H0, block, 16);
    Keys2Are();
    State3Is();
    WordsNext(block, 24);
    Words3Are();
    RoundsEight(H0, block, 24);
    Keys3Are();
    State4Is();
    WordsNext(block, 32);
    Words4Are();
    RoundsEight(H0, block, 32);
    Keys4Are();
    State5Is();
    WordsNext(block, 40);
    Words5Are();
    RoundsEight(H0, block, 40);
    Keys5Are();
    State6Is();
    WordsNext(block, 48);
    Words6Are();
    RoundsEight(H0, block, 48);
    Keys6Are();
    State7Is();
    WordsNext(block, 56);
    Words7Are();
    RoundsEight(H0, block, 56);
    Keys7Are();
    State8Is();
  }

  /** The text "42", padded. */
  lemma Padded()
    ensures var s := Pad([0x34, 0x32]); |s| == 64 && s[0..32] == Spelled(Words0) && s[32..64] == Spelled(Words1)
  {
    hide Spelled, U64;
    Words0Spelled();
    Words1Spelled();
    BitCount();
  }

  lemma BitCount()
    ensures U64(16) == [0, 0, 0, 0, 0, 0, 0, 0x10]
  {
  }

  lemma FirstBytes()
    ensures Sum(H0, State8).a == 0x73475cb4 && Sum(H0, State8).b == 0x0a568e8d
    ensures WordBytes(0x73475cb4) == [0x73, 0x47, 0x5c, 0xb4] && WordBytes(0x0a568e8d) == [0x0a, 0x56, 0x8e, 0x8d]
  {
  }

  lemma OneBlock(s: Block)
    ensures FoldBlocks(Compress, H0, Blocks(s)) == Compress(H0, s)
  {
    hide Compress;
    assert s[..64] == s && s[64..] == [];
    assert Blocks(s) == [s];
    assert [s][1..] == [];
  }

  lemma FirstFive(h: Hash)
    ensures HashBytes(h)[..5] == WordBytes(h.a) + WordBytes(h.b)[..1]
  {
    hide WordBytes;
  }

  lemma DigestOf(s: bytes)
    ensures Digest(s) == HashBytes(FoldBlocks(Compress, H0, Blocks(Pad(s))))
  {
    hide Compress, Pad, HashBytes, Blocks;
  }

  /** The first five bytes of the SHA-256 of "42". */
  lemma DigestStart()
    ensures Digest([0x34, 0x32])[..5] == [0x73, 0x47, 0x5c, 0xb4, 0x0a]
  {
    hide Pad, Spelled, WordsAt, Rounds, Digest, HashBytes, WordBytes, Compress, Blocks, Sum;
    Padded();
    var s: Block := Pad([0x34, 0x32]);
    SpelledWords(s, 0, Words0);
    SpelledWords(s, 8, Words1);
    Compressed(s);
    CompressOf(s);
    OneBlock(s);
    DigestOf([0x34, 0x32]);
    FirstFive(Sum(H0, State8));
    FirstBytes();
  }

  lemma CompressOf(s: Block)
    ensures Compress(H0, s) == Sum(H0, Rounds(H0, s, 64))
  {
    hide Rounds, Sum;
  }

  /** `hashNumber(42)` is "73475cb40a". */
  lemma HashOf42()
    ensures HashNumber(42) == Ascii("73475cb40a")
  {
    hide Digest, Hex;
    assert Decimal(42) == [0x34, 0x32] by { assert Decimal(4) == [0x34]; }
    DigestStart();
    HexOf();
  }

  lemma HexOf()
    ensures Hex([0x73, 0x47, 0x5c, 0xb4, 0x0a]) == Ascii("73475cb40a")
  {
    var none: bytes := [];
    assert Hex(none) == [];
    assert [0x0a][1..] == none;
    assert [0xb4, 0x0a][1..] == [0x0a];
    assert [0x5c, 0xb4, 0x0a][1..] == [0xb4, 0x0a];
    assert [0x47, 0x5c, 0xb4, 0x0a][1..] == [0x5c, 0xb4, 0x0a];
    assert [0x73, 0x47, 0x5c, 0xb4, 0x0a][1..] == [0x47, 0x5c, 0xb4, 0x0a];
  }
}
