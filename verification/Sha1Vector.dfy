/** Eight 32-bit words at a time. */
module ShaEights {
  import opened Bytes
  import opened ShaPadding
  import opened ShaWords

  datatype Eight = Eight(w0: bv32, w1: bv32, w2: bv32, w3: bv32, w4: bv32, w5: bv32, w6: bv32, w7: bv32)

  /** Most significant byte first. */
  function Spelled(x: Eight): (s: bytes)
    ensures |s| == 32
  {
    (WordBytes(x.w0) + WordBytes(x.w1) + WordBytes(x.w2) + WordBytes(x.w3))
    + (WordBytes(x.w4) + WordBytes(x.w5) + WordBytes(x.w6) + WordBytes(x.w7))
  }

  function WordOf(block: bytes, t: nat): (w: bv32)
    requires |block| == 64 && t < 16
  {
    Word(block[4 * t], block[4 * t + 1], block[4 * t + 2], block[4 * t + 3])
  }

  lemma WordSpelled(block: Block, t: nat, w: bv32)
    requires t < 16 && block[4 * t..4 * t + 4] == WordBytes(w)
    ensures WordOf(block, t) == w
  {
    hide Word, WordBytes;
    var s := WordBytes(w);
    assert block[4 * t] == s[0] && block[4 * t + 1] == s[1] && block[4 * t + 2] == s[2] && block[4 * t + 3] == s[3];
    WordRoundTrip(w);
  }

  lemma SubSlice(s: bytes, k: nat, n: nat, i: nat, j: nat)
    requires i <= j <= n && k + n <= |s|
    ensures s[k..k + n][i..j] == s[k + i..k + j]
  {
    var part := s[k..k + n];
    assert forall x :: 0 <= x < j - i ==> part[i..j][x] == s[k + i..k + j][x];
  }

  lemma FourParts(p: bytes, q: bytes, r: bytes, u: bytes)
    requires |p| == |q| == |r| == |u| == 4
    ensures var s := p + q + r + u; s[0..4] == p && s[4..8] == q && s[8..12] == r && s[12..16] == u
  {
  }

  lemma FourSpelled(block: Block, t: nat, a: bv32, b: bv32, c: bv32, d: bv32)
    requires t <= 12 && block[4 * t..4 * t + 16] == WordBytes(a) + WordBytes(b) + WordBytes(c) + WordBytes(d)
    ensures WordOf(block, t) == a && WordOf(block, t + 1) == b && WordOf(block, t + 2) == c && WordOf(block, t + 3) == d
  {
    hide WordOf, WordBytes;
    FourParts(WordBytes(a), WordBytes(b), WordBytes(c), WordBytes(d));
    var k := 4 * t;
    SubSlice(block, k, 16, 0, 4);
    SubSlice(block, k, 16, 4, 8);
    SubSlice(block, k, 16, 8, 12);
    SubSlice(block, k, 16, 12, 16);
    WordSpelled(block, t, a);
    WordSpelled(block, t + 1, b);
    WordSpelled(block, t + 2, c);
    WordSpelled(block, t + 3, d);
  }

  lemma WordsSpelled(block: Block, t: nat, x: Eight)
    requires t <= 8 && block[4 * t..4 * t + 32] == Spelled(x)
    ensures x == Eight(WordOf(block, t), WordOf(block, t + 1), WordOf(block, t + 2), WordOf(block, t + 3),
                       WordOf(block, t + 4), WordOf(block, t + 5), WordOf(block, t + 6), WordOf(block, t + 7))
  {
    hide WordOf, WordBytes;
    var s, k := block[4 * t..4 * t + 32], 4 * t;
    assert s[..16] == block[k..k + 16] && s[16..] == block[k + 16..k + 32];
    FourSpelled(block, t, x.w0, x.w1, x.w2, x.w3);
    FourSpelled(block, t + 4, x.w4, x.w5, x.w6, x.w7);
  }
}

/** The example of section 1.3 of RFC 6455, computed eight rounds at a time: the one place where the hash is
    held against bytes that do not come from its own definition. */
module Sha1Vector {
  import opened Bytes
  import opened ShaPadding
  import opened ShaWords
  import opened ShaEights
  import opened Sha1

  /** Eight words of a schedule from the sixteen before them. */
  function NextEight(x: Eight, y: Eight): (z: Eight) {
    var n0 := NextWord(y.w5, y.w0, x.w2, x.w0);
    var n1 := NextWord(y.w6, y.w1, x.w3, x.w1);
    var n2 := NextWord(y.w7, y.w2, x.w4, x.w2);
    var n3 := NextWord(n0, y.w3, x.w5, x.w3);
    var n4 := NextWord(n1, y.w4, x.w6, x.w4);
    Eight(n0, n1, n2, n3, n4, NextWord(n2, y.w5, x.w7, x.w5), NextWord(n3, y.w6, y.w0, x.w6), NextWord(n4, y.w7, y.w1, x.w7))
  }

  function EightRounds(h: Hash, t: nat, w: Eight): (r: Hash) {
    Round(Round(Round(Round(Round(Round(Round(Round(h, t, w.w0), t + 1, w.w1), t + 2, w.w2), t + 3, w.w3),
      t + 4, w.w4), t + 5, w.w5), t + 6, w.w6), t + 7, w.w7)
  }

  function WordsAt(block: bytes, t: nat): (w: Eight)
    requires |block| == 64 && t + 8 <= 80
  {
    Eight(Schedule(block, t), Schedule(block, t + 1), Schedule(block, t + 2), Schedule(block, t + 3),
          Schedule(block, t + 4), Schedule(block, t + 5), Schedule(block, t + 6), Schedule(block, t + 7))
  }

  lemma ScheduleNext(block: bytes, t: nat)
    requires |block| == 64 && 16 <= t < 80
    ensures Schedule(block, t) ==
              NextWord(Schedule(block, t - 3), Schedule(block, t - 8), Schedule(block, t - 14), Schedule(block, t - 16))
  {
  }

  lemma WordsNext(block: bytes, t: nat)
    requires |block| == 64 && 16 <= t <= 72
    ensures WordsAt(block, t) == NextEight(WordsAt(block, t - 16), WordsAt(block, t - 8))
  {
    hide Schedule, NextWord;
    ScheduleNext(block, t);
    ScheduleNext(block, t + 1);
    ScheduleNext(block, t + 2);
    ScheduleNext(block, t + 3);
    ScheduleNext(block, t + 4);
    ScheduleNext(block, t + 5);
    ScheduleNext(block, t + 6);
    ScheduleNext(block, t + 7);
  }

  lemma RoundsNext(h: Hash, block: bytes, t: nat)
    requires |block| == 64 && t < 80
    ensures Rounds(h, block, t + 1) == Round(Rounds(h, block, t), t, Schedule(block, t))
  {
    hide Round, Schedule;
  }

  lemma RoundsEight(h: Hash, block: bytes, t: nat)
    requires |block| == 64 && t + 8 <= 80
    ensures Rounds(h, block, t + 8) == EightRounds(Rounds(h, block, t), t, WordsAt(block, t))
  {
    hide Rounds, Round, Schedule;
    RoundsNext(h, block, t);
    RoundsNext(h, block, t + 1);
    RoundsNext(h, block, t + 2);
    RoundsNext(h, block, t + 3);
    RoundsNext(h, block, t + 4);
    RoundsNext(h, block, t + 5);
    RoundsNext(h, block, t + 6);
    RoundsNext(h, block, t + 7);
  }

  lemma NoRounds(h: Hash, block: bytes)
    requires |block| == 64
    ensures Rounds(h, block, 0) == h
  {
  }

  /** A step of the calculation: words and state at `t` give those eight rounds on. */
  predicate Reaches(h: Hash, block: bytes, t: nat, x: Hash, y: Eight, z: Eight)
    requires |block| == 64 && t + 16 <= 80
  {
    Rounds(h, block, t) == x && WordsAt(block, t) == y && WordsAt(block, t + 8) == z
  }

  lemma Reach(h: Hash, block: bytes, t: nat, x: Hash, y: Eight, z: Eight)
    requires |block| == 64 && t + 24 <= 80 && Reaches(h, block, t, x, y, z)
    ensures Reaches(h, block, t + 8, EightRounds(x, t, y), z, NextEight(y, z))
  {
    hide Rounds, WordsAt, EightRounds, NextEight;
    RoundsEight(h, block, t);
    WordsNext(block, t + 16);
  }

  // ----- the first block -----

  const FirstWords0: Eight := Eight(0x6447686c, 0x49484e68, 0x62584273, 0x5a534275, 0x6232356a, 0x5a513d3d, 0x32353845, 0x41464135)
  const FirstWords1: Eight := Eight(0x2d453931, 0x342d3437, 0x44412d39, 0x3543412d, 0x43354142, 0x30444338, 0x35423131, 0x80000000)
  const FirstWords2: Eight := Eight(0x363ca02c, 0x24e81236, 0x8856b441, 0x06fb3c92, 0x6fb4bcb6, 0x460b16e3, 0x599219ae, 0x35bf9369)
  const FirstWords3: Eight := Eight(0x3267458e, 0xf828fd04, 0x753a96a7, 0x6336f612, 0xc3d66383, 0x06eb86f9, 0x73b4fd42, 0xa503c5b8)
  const FirstWords4: Eight := Eight(0x15cdae35, 0x531e5dc5, 0x6fb6b7d0, 0x6c16e4ac, 0x4ddd36bd, 0x35d36946, 0xe8ae8b9c, 0x4a933ad0)
  const FirstWords5: Eight := Eight(0xce8628b4, 0x415dba9e, 0x2792f049, 0x8e9b79e7, 0x79c425c5, 0x6353b49d, 0x00994218, 0x8a950ed1)
  const FirstWords6: Eight := Eight(0xaf5d0b99, 0xfd9883de, 0x1ed8ffeb, 0xf007ff28, 0x425e3674, 0x059631c0, 0xad6c3c31, 0x860b71d7)
  const FirstWords7: Eight := Eight(0x87bfc548, 0x3e64f92d, 0x8d0ab761, 0x34e1ee35, 0x0acf5108, 0xc2b479da, 0x6c93370a, 0xf7935ba1)
  const FirstWords8: Eight := Eight(0xe91c91c1, 0xbed165a2, 0x4c3e4abe, 0x50d96238, 0xb6587dde, 0x1a2ee6e6, 0x2d335896, 0xf3495d0b)
  const FirstWords9: Eight := Eight(0xf30e0a1d, 0x32ce5459, 0x7165e3b8, 0xab05ff94, 0xc5949f0b, 0xbcd84e4a, 0x07720392, 0xff3ff806)

  const FirstState0: Hash := Hash(0x67452301, 0xefcdab89, 0x98badcfe, 0x10325476, 0xc3d2e1f0)
  const FirstState1: Hash := Hash(0x2e0ce601, 0x73553e84, 0x5cc82e5a, 0xb7631f04, 0x14f80e6b)
  const FirstState2: Hash := Hash(0xa004c468, 0xe922cc9d, 0xab86825b, 0xd86f6caf, 0x8d33ae61)
  const FirstState3: Hash := Hash(0x250e26ef, 0xbeafd554, 0xb44bc2d5, 0xd4611c28, 0x0246ae5f)
  const FirstState4: Hash := Hash(0xa6680a1f, 0xb7dabc8b, 0x4206d8f9, 0xc6aec70d, 0x95c7df60)
  const FirstState5: Hash := Hash(0x2ba2c83e, 0xd0869081, 0x1a1d8209, 0xd3334889, 0x2779e4f2)
  const FirstState6: Hash := Hash(0xabe1748a, 0xdee4b7a8, 0x5cbfccd3, 0x97d7cd14, 0xdb71a8f5)
  const FirstState7: Hash := Hash(0x7e1242f2, 0x50c9104c, 0x131822b1, 0x49b1a4e5, 0x4439fd9c)
  const FirstState8: Hash := Hash(0x685e2ff6, 0x840054d3, 0xe43c0363, 0x3350802e, 0x921cb616)
  const FirstState9: Hash := Hash(0x7e65e044, 0x80d59773, 0x81ce06df, 0xa59b8126, 0x33e1963b)
  const FirstState10: Hash := Hash(0xf48a5426, 0x835995e1, 0x25c11efb, 0x4a45c402, 0x9a73c2f2)

  lemma FirstWordsAre()
    ensures NextEight(FirstWords0, FirstWords1) == FirstWords2
    ensures NextEight(FirstWords1, FirstWords2) == FirstWords3
    ensures NextEight(FirstWords2, FirstWords3) == FirstWords4
    ensures NextEight(FirstWords3, FirstWords4) == FirstWords5
    ensures NextEight(FirstWords4, FirstWords5) == FirstWords6
    ensures NextEight(FirstWords5, FirstWords6) == FirstWords7
    ensures NextEight(FirstWords6, FirstWords7) == FirstWords8
    ensures NextEight(FirstWords7, FirstWords8) == FirstWords9
  {
  }

  lemma FirstState1Is()
    ensures EightRounds(FirstState0, 0, FirstWords0) == FirstState1
  {
    assert Round(Hash(0x67452301, 0xefcdab89, 0x98badcfe, 0x10325476, 0xc3d2e1f0), 0, 0x6447686c) == Hash(0x03fc011f, 0x67452301, 0x7bf36ae2, 0x98badcfe, 0x10325476);
    assert Round(Hash(0x03fc011f, 0x67452301, 0x7bf36ae2, 0x98badcfe, 0x10325476), 1, 0x49484e68) == Hash(0x2f793f55, 0x03fc011f, 0x59d148c0, 0x7bf36ae2, 0x98badcfe);
    assert Round(Hash(0x2f793f55, 0x03fc011f, 0x59d148c0, 0x7bf36ae2, 0x98badcfe), 2, 0x62584273) == Hash(0xbe90ee8f, 0x2f793f55, 0xc0ff0047, 0x59d148c0, 0x7bf36ae2);
    assert Round(Hash(0xbe90ee8f, 0x2f793f55, 0xc0ff0047, 0x59d148c0, 0x7bf36ae2), 3, 0x5a534275) == Hash(0x53e039ac, 0xbe90ee8f, 0x4bde4fd5, 0xc0ff0047, 0x59d148c0);
    assert Round(Hash(0x53e039ac, 0xbe90ee8f, 0x4bde4fd5, 0xc0ff0047, 0x59d148c0), 4, 0x6232356a) == Hash(0xdd8c7c12, 0x53e039ac, 0xefa43ba3, 0x4bde4fd5, 0xc0ff0047);
    assert Round(Hash(0xdd8c7c12, 0x53e039ac, 0xefa43ba3, 0x4bde4fd5, 0xc0ff0047), 5, 0x5a513d3d) == Hash(0x7320b969, 0xdd8c7c12, 0x14f80e6b, 0xefa43ba3, 0x4bde4fd5);
    assert Round(Hash(0x7320b969, 0xdd8c7c12, 0x14f80e6b, 0xefa43ba3, 0x4bde4fd5), 6, 0x32353845) == Hash(0x73553e84, 0x7320b969, 0xb7631f04, 0x14f80e6b, 0xefa43ba3);
    assert Round(Hash(0x73553e84, 0x7320b969, 0xb7631f04, 0x14f80e6b, 0xefa43ba3), 7, 0x41464135) == Hash(0x2e0ce601, 0x73553e84, 0x5cc82e5a, 0xb7631f04, 0x14f80e6b);
  }

  lemma FirstState2Is()
    ensures EightRounds(FirstState1, 8, FirstWords1) == FirstState2
  {
    assert Round(Hash(0x2e0ce601, 0x73553e84, 0x5cc82e5a, 0xb7631f04, 0x14f80e6b), 8, 0x2d453931) == Hash(0x32beb05a, 0x2e0ce601, 0x1cd54fa1, 0x5cc82e5a, 0xb7631f04);
    assert Round(Hash(0x32beb05a, 0x2e0ce601, 0x1cd54fa1, 0x5cc82e5a, 0xb7631f04), 9, 0x342d3437) == Hash(0xfaad2675, 0x32beb05a, 0x4b833980, 0x1cd54fa1, 0x5cc82e5a);
    assert Round(Hash(0xfaad2675, 0x32beb05a, 0x4b833980, 0x1cd54fa1, 0x5cc82e5a), 10, 0x44412d39) == Hash(0x5ff4238c, 0xfaad2675, 0x8cafac16, 0x4b833980, 0x1cd54fa1);
    assert Round(Hash(0x5ff4238c, 0xfaad2675, 0x8cafac16, 0x4b833980, 0x1cd54fa1), 11, 0x3543412d) == Hash(0x34ceb986, 0x5ff4238c, 0x7eab499d, 0x8cafac16, 0x4b833980);
    assert Round(Hash(0x34ceb986, 0x5ff4238c, 0x7eab499d, 0x8cafac16, 0x4b833980), 12, 0x43354142) == Hash(0x61bdb2bf, 0x34ceb986, 0x17fd08e3, 0x7eab499d, 0x8cafac16);
    assert Round(Hash(0x61bdb2bf, 0x34ceb986, 0x17fd08e3, 0x7eab499d, 0x8cafac16), 13, 0x30444338) == Hash(0xae1a096e, 0x61bdb2bf, 0x8d33ae61, 0x17fd08e3, 0x7eab499d);
    assert Round(Hash(0xae1a096e, 0x61bdb2bf, 0x8d33ae61, 0x17fd08e3, 0x7eab499d), 14, 0x35423131) == Hash(0xe922cc9d, 0xae1a096e, 0xd86f6caf, 0x8d33ae61, 0x17fd08e3);
    assert Round(Hash(0xe922cc9d, 0xae1a096e, 0xd86f6caf, 0x8d33ae61, 0x17fd08e3), 15, 0x80000000) == Hash(0xa004c468, 0xe922cc9d, 0xab86825b, 0xd86f6caf, 0x8d33ae61);
  }

  lemma FirstState3Is()
    ensures EightRounds(FirstState2, 16, FirstWords2) == FirstState3
  {
    assert Round(Hash(0xa004c468, 0xe922cc9d, 0xab86825b, 0xd86f6caf, 0x8d33ae61), 16, 0x363ca02c) == Hash(0xd7daf575, 0xa004c468, 0x7a48b327, 0xab86825b, 0xd86f6caf);
    assert Round(Hash(0xd7daf575, 0xa004c468, 0x7a48b327, 0xab86825b, 0xd86f6caf), 17, 0x24e81236) == Hash(0x7ebb296b, 0xd7daf575, 0x2801311a, 0x7a48b327, 0xab86825b);
    assert Round(Hash(0x7ebb296b, 0xd7daf575, 0x2801311a, 0x7a48b327, 0xab86825b), 18, 0x8856b441) == Hash(0x8dc510b6, 0x7ebb296b, 0x75f6bd5d, 0x2801311a, 0x7a48b327);
    assert Round(Hash(0x8dc510b6, 0x7ebb296b, 0x75f6bd5d, 0x2801311a, 0x7a48b327), 19, 0x06fb3c92) == Hash(0x091ab97c, 0x8dc510b6, 0xdfaeca5a, 0x75f6bd5d, 0x2801311a);
    assert Round(Hash(0x091ab97c, 0x8dc510b6, 0xdfaeca5a, 0x75f6bd5d, 0x2801311a), 20, 0x6fb4bcb6) == Hash(0x518470a3, 0x091ab97c, 0xa371442d, 0xdfaeca5a, 0x75f6bd5d);
    assert Round(Hash(0x518470a3, 0x091ab97c, 0xa371442d, 0xdfaeca5a, 0x75f6bd5d), 21, 0x460b16e3) == Hash(0xd12f0b56, 0x518470a3, 0x0246ae5f, 0xa371442d, 0xdfaeca5a);
    assert Round(Hash(0xd12f0b56, 0x518470a3, 0x0246ae5f, 0xa371442d, 0xdfaeca5a), 22, 0x599219ae) == Hash(0xbeafd554, 0xd12f0b56, 0xd4611c28, 0x0246ae5f, 0xa371442d);
    assert Round(Hash(0xbeafd554, 0xd12f0b56, 0xd4611c28, 0x0246ae5f, 0xa371442d), 23, 0x35bf9369) == Hash(0x250e26ef, 0xbeafd554, 0xb44bc2d5, 0xd4611c28, 0x0246ae5f);
  }

  lemma FirstState4Is()
    ensures EightRounds(FirstState3, 24, FirstWords3) == FirstState4
  {
    assert Round(Hash(0x250e26ef, 0xbeafd554, 0xb44bc2d5, 0xd4611c28, 0x0246ae5f), 24, 0x3267458e) == Hash(0x23d1c91b, 0x250e26ef, 0x2fabf555, 0xb44bc2d5, 0xd4611c28);
    assert Round(Hash(0x23d1c91b, 0x250e26ef, 0x2fabf555, 0xb44bc2d5, 0xd4611c28), 25, 0xf828fd04) == Hash(0x748b39a0, 0x23d1c91b, 0xc94389bb, 0x2fabf555, 0xb44bc2d5);
    assert Round(Hash(0x748b39a0, 0x23d1c91b, 0xc94389bb, 0x2fabf555, 0xb44bc2d5), 26, 0x753a96a7) == Hash(0xef012f20, 0x748b39a0, 0xc8f47246, 0xc94389bb, 0x2fabf555);
    assert Round(Hash(0xef012f20, 0x748b39a0, 0xc8f47246, 0xc94389bb, 0x2fabf555), 27, 0x6336f612) == Hash(0x571f7d82, 0xef012f20, 0x1d22ce68, 0xc8f47246, 0xc94389bb);
    assert Round(Hash(0x571f7d82, 0xef012f20, 0x1d22ce68, 0xc8f47246, 0xc94389bb), 28, 0xc3d66383) == Hash(0x1abb1c37, 0x571f7d82, 0x3bc04bc8, 0x1d22ce68, 0xc8f47246);
    assert Round(Hash(0x1abb1c37, 0x571f7d82, 0x3bc04bc8, 0x1d22ce68, 0xc8f47246), 29, 0x06eb86f9) == Hash(0x081b63e5, 0x1abb1c37, 0x95c7df60, 0x3bc04bc8, 0x1d22ce68);
    assert Round(Hash(0x081b63e5, 0x1abb1c37, 0x95c7df60, 0x3bc04bc8, 0x1d22ce68), 30, 0x73b4fd42) == Hash(0xb7dabc8b, 0x081b63e5, 0xc6aec70d, 0x95c7df60, 0x3bc04bc8);
    assert Round(Hash(0xb7dabc8b, 0x081b63e5, 0xc6aec70d, 0x95c7df60, 0x3bc04bc8), 31, 0xa503c5b8) == Hash(0xa6680a1f, 0xb7dabc8b, 0x4206d8f9, 0xc6aec70d, 0x95c7df60);
  }

  lemma FirstState5Is()
    ensures EightRounds(FirstState4, 32, FirstWords4) == FirstState5
  {
    assert Round(Hash(0xa6680a1f, 0xb7dabc8b, 0x4206d8f9, 0xc6aec70d, 0x95c7df60), 32, 0x15cdae35) == Hash(0x1ae360a9, 0xa6680a1f, 0xedf6af22, 0x4206d8f9, 0xc6aec70d);
    assert Round(Hash(0x1ae360a9, 0xa6680a1f, 0xedf6af22, 0x4206d8f9, 0xc6aec70d), 33, 0x531e5dc5) == Hash(0xeeaba35a, 0x1ae360a9, 0xe99a0287, 0xedf6af22, 0x4206d8f9);
    assert Round(Hash(0xeeaba35a, 0x1ae360a9, 0xe99a0287, 0xedf6af22, 0x4206d8f9), 34, 0x6fb6b7d0) == Hash(0x149bb4d3, 0xeeaba35a, 0x46b8d82a, 0xe99a0287, 0xedf6af22);
    assert Round(Hash(0x149bb4d3, 0xeeaba35a, 0x46b8d82a, 0xe99a0287, 0xedf6af22), 35, 0x6c16e4ac) == Hash(0x9de793c8, 0x149bb4d3, 0xbbaae8d6, 0x46b8d82a, 0xe99a0287);
    assert Round(Hash(0x9de793c8, 0x149bb4d3, 0xbbaae8d6, 0x46b8d82a, 0xe99a0287), 36, 0x4ddd36bd) == Hash(0x4ccd2227, 0x9de793c8, 0xc526ed34, 0xbbaae8d6, 0x46b8d82a);
    assert Round(Hash(0x4ccd2227, 0x9de793c8, 0xc526ed34, 0xbbaae8d6, 0x46b8d82a), 37, 0x35d36946) == Hash(0x68760824, 0x4ccd2227, 0x2779e4f2, 0xc526ed34, 0xbbaae8d6);
    assert Round(Hash(0x68760824, 0x4ccd2227, 0x2779e4f2, 0xc526ed34, 0xbbaae8d6), 38, 0xe8ae8b9c) == Hash(0xd0869081, 0x68760824, 0xd3334889, 0x2779e4f2, 0xc526ed34);
    assert Round(Hash(0xd0869081, 0x68760824, 0xd3334889, 0x2779e4f2, 0xc526ed34), 39, 0x4a933ad0) == Hash(0x2ba2c83e, 0xd0869081, 0x1a1d8209, 0xd3334889, 0x2779e4f2);
  }

  lemma FirstState6Is()
    ensures EightRounds(FirstState5, 40, FirstWords5) == FirstState6
  {
    assert Round(Hash(0x2ba2c83e, 0xd0869081, 0x1a1d8209, 0xd3334889, 0x2779e4f2), 40, 0xce8628b4) == Hash(0xcb8c52d0, 0x2ba2c83e, 0x7421a420, 0x1a1d8209, 0xd3334889);
    assert Round(Hash(0xcb8c52d0, 0x2ba2c83e, 0x7421a420, 0x1a1d8209, 0xd3334889), 41, 0x415dba9e) == Hash(0x4f589a44, 0xcb8c52d0, 0x8ae8b20f, 0x7421a420, 0x1a1d8209);
    assert Round(Hash(0x4f589a44, 0xcb8c52d0, 0x8ae8b20f, 0x7421a420, 0x1a1d8209), 42, 0x2792f049) == Hash(0x868829b7, 0x4f589a44, 0x32e314b4, 0x8ae8b20f, 0x7421a420);
    assert Round(Hash(0x868829b7, 0x4f589a44, 0x32e314b4, 0x8ae8b20f, 0x7421a420), 43, 0x8e9b79e7) == Hash(0x6dc6a3d7, 0x868829b7, 0x13d62691, 0x32e314b4, 0x8ae8b20f);
    assert Round(Hash(0x6dc6a3d7, 0x868829b7, 0x13d62691, 0x32e314b4, 0x8ae8b20f), 44, 0x79c425c5) == Hash(0x5f5f3452, 0x6dc6a3d7, 0xe1a20a6d, 0x13d62691, 0x32e314b4);
    assert Round(Hash(0x5f5f3452, 0x6dc6a3d7, 0xe1a20a6d, 0x13d62691, 0x32e314b4), 45, 0x6353b49d) == Hash(0x72ff334d, 0x5f5f3452, 0xdb71a8f5, 0xe1a20a6d, 0x13d62691);
    assert Round(Hash(0x72ff334d, 0x5f5f3452, 0xdb71a8f5, 0xe1a20a6d, 0x13d62691), 46, 0x00994218) == Hash(0xdee4b7a8, 0x72ff334d, 0x97d7cd14, 0xdb71a8f5, 0xe1a20a6d);
    assert Round(Hash(0xdee4b7a8, 0x72ff334d, 0x97d7cd14, 0xdb71a8f5, 0xe1a20a6d), 47, 0x8a950ed1) == Hash(0xabe1748a, 0xdee4b7a8, 0x5cbfccd3, 0x97d7cd14, 0xdb71a8f5);
  }

  lemma FirstState7Is()
    ensures EightRounds(FirstState6, 48, FirstWords6) == FirstState7
  {
    assert Round(Hash(0xabe1748a, 0xdee4b7a8, 0x5cbfccd3, 0x97d7cd14, 0xdb71a8f5), 48, 0xaf5d0b99) == Hash(0x7510d04f, 0xabe1748a, 0x37b92dea, 0x5cbfccd3, 0x97d7cd14);
    assert Round(Hash(0x7510d04f, 0xabe1748a, 0x37b92dea, 0x5cbfccd3, 0x97d7cd14), 49, 0xfd9883de) == Hash(0x065f8486, 0x7510d04f, 0xaaf85d22, 0x37b92dea, 0x5cbfccd3);
    assert Round(Hash(0x065f8486, 0x7510d04f, 0xaaf85d22, 0x37b92dea, 0x5cbfccd3), 50, 0x1ed8ffeb) == Hash(0x0e5d77c4, 0x065f8486, 0xdd443413, 0xaaf85d22, 0x37b92dea);
    assert Round(Hash(0x0e5d77c4, 0x065f8486, 0xdd443413, 0xaaf85d22, 0x37b92dea), 51, 0xf007ff28) == Hash(0x10e7f671, 0x0e5d77c4, 0x8197e121, 0xdd443413, 0xaaf85d22);
    assert Round(Hash(0x10e7f671, 0x0e5d77c4, 0x8197e121, 0xdd443413, 0xaaf85d22), 52, 0x425e3674) == Hash(0x26c69395, 0x10e7f671, 0x03975df1, 0x8197e121, 0xdd443413);
    assert Round(Hash(0x26c69395, 0x10e7f671, 0x03975df1, 0x8197e121, 0xdd443413), 53, 0x059631c0) == Hash(0x4c608ac4, 0x26c69395, 0x4439fd9c, 0x03975df1, 0x8197e121);
    assert Round(Hash(0x4c608ac4, 0x26c69395, 0x4439fd9c, 0x03975df1, 0x8197e121), 54, 0xad6c3c31) == Hash(0x50c9104c, 0x4c608ac4, 0x49b1a4e5, 0x4439fd9c, 0x03975df1);
    assert Round(Hash(0x50c9104c, 0x4c608ac4, 0x49b1a4e5, 0x4439fd9c, 0x03975df1), 55, 0x860b71d7) == Hash(0x7e1242f2, 0x50c9104c, 0x131822b1, 0x49b1a4e5, 0x4439fd9c);
  }

  lemma FirstState8Is()
    ensures EightRounds(FirstState7, 56, FirstWords7) == FirstState8
  {
    assert Round(Hash(0x7e1242f2, 0x50c9104c, 0x131822b1, 0x49b1a4e5, 0x4439fd9c), 56, 0x87bfc548) == Hash(0x6ef6fef4, 0x7e1242f2, 0x14324413, 0x131822b1, 0x49b1a4e5);
    assert Round(Hash(0x6ef6fef4, 0x7e1242f2, 0x14324413, 0x131822b1, 0x49b1a4e5), 57, 0x3e64f92d) == Hash(0x0c247c2e, 0x6ef6fef4, 0x9f8490bc, 0x14324413, 0x131822b1);
    assert Round(Hash(0x0c247c2e, 0x6ef6fef4, 0x9f8490bc, 0x14324413, 0x131822b1), 58, 0x8d0ab761) == Hash(0xd284f163, 0x0c247c2e, 0x1bbdbfbd, 0x9f8490bc, 0x14324413);
    assert Round(Hash(0xd284f163, 0x0c247c2e, 0x1bbdbfbd, 0x9f8490bc, 0x14324413), 59, 0x34e1ee35) == Hash(0x4872d85a, 0xd284f163, 0x83091f0b, 0x1bbdbfbd, 0x9f8490bc);
    assert Round(Hash(0x4872d85a, 0xd284f163, 0x83091f0b, 0x1bbdbfbd, 0x9f8490bc), 60, 0x0acf5108) == Hash(0xcd4200b8, 0x4872d85a, 0xf4a13c58, 0x83091f0b, 0x1bbdbfbd);
    assert Round(Hash(0xcd4200b8, 0x4872d85a, 0xf4a13c58, 0x83091f0b, 0x1bbdbfbd), 61, 0xc2b479da) == Hash(0x90f00d8f, 0xcd4200b8, 0x921cb616, 0xf4a13c58, 0x83091f0b);
    assert Round(Hash(0x90f00d8f, 0xcd4200b8, 0x921cb616, 0xf4a13c58, 0x83091f0b), 62, 0x6c93370a) == Hash(0x840054d3, 0x90f00d8f, 0x3350802e, 0x921cb616, 0xf4a13c58);
    assert Round(Hash(0x840054d3, 0x90f00d8f, 0x3350802e, 0x921cb616, 0xf4a13c58), 63, 0xf7935ba1) == Hash(0x685e2ff6, 0x840054d3, 0xe43c0363, 0x3350802e, 0x921cb616);
  }

  lemma FirstState9Is()
    ensures EightRounds(FirstState8, 64, FirstWords8) == FirstState9
  {
    assert Round(Hash(0x685e2ff6, 0x840054d3, 0xe43c0363, 0x3350802e, 0x921cb616), 64, 0xe91c91c1) == Hash(0xa4cee018, 0x685e2ff6, 0xe1001534, 0xe43c0363, 0x3350802e);
    assert Round(Hash(0xa4cee018, 0x685e2ff6, 0xe1001534, 0xe43c0363, 0x3350802e), 65, 0xbed165a2) == Hash(0xc3c2e45b, 0xa4cee018, 0x9a178bfd, 0xe1001534, 0xe43c0363);
    assert Round(Hash(0xc3c2e45b, 0xa4cee018, 0x9a178bfd, 0xe1001534, 0xe43c0363), 66, 0x4c3e4abe) == Hash(0x53131a40, 0xc3c2e45b, 0x2933b806, 0x9a178bfd, 0xe1001534);
    assert Round(Hash(0x53131a40, 0xc3c2e45b, 0x2933b806, 0x9a178bfd, 0xe1001534), 67, 0x50d96238) == Hash(0xcf8658ec, 0x53131a40, 0xf0f0b916, 0x2933b806, 0x9a178bfd);
    assert Round(Hash(0xcf8658ec, 0x53131a40, 0xf0f0b916, 0x2933b806, 0x9a178bfd), 68, 0xb6587dde) == Hash(0x966e049a, 0xcf8658ec, 0x14c4c690, 0xf0f0b916, 0x2933b806);
    assert Round(Hash(0x966e049a, 0xcf8658ec, 0x14c4c690, 0xf0f0b916, 0x2933b806), 69, 0x1a2ee6e6) == Hash(0x07381b7e, 0x966e049a, 0x33e1963b, 0x14c4c690, 0xf0f0b916);
    assert Round(Hash(0x07381b7e, 0x966e049a, 0x33e1963b, 0x14c4c690, 0xf0f0b916), 70, 0x2d335896) == Hash(0x80d59773, 0x07381b7e, 0xa59b8126, 0x33e1963b, 0x14c4c690);
    assert Round(Hash(0x80d59773, 0x07381b7e, 0xa59b8126, 0x33e1963b, 0x14c4c690), 71, 0xf3495d0b) == Hash(0x7e65e044, 0x80d59773, 0x81ce06df, 0xa59b8126, 0x33e1963b);
  }

  lemma FirstState10Is()
    ensures EightRounds(FirstState9, 72, FirstWords9) == FirstState10
  {
    assert Round(Hash(0x7e65e044, 0x80d59773, 0x81ce06df, 0xa59b8126, 0x33e1963b), 72, 0xf30e0a1d) == Hash(0x628e7b47, 0x7e65e044, 0xe03565dc, 0x81ce06df, 0xa59b8126);
    assert Round(Hash(0x628e7b47, 0x7e65e044, 0xe03565dc, 0x81ce06df, 0xa59b8126), 73, 0x32ce5459) == Hash(0x143a8388, 0x628e7b47, 0x1f997811, 0xe03565dc, 0x81ce06df);
    assert Round(Hash(0x143a8388, 0x628e7b47, 0x1f997811, 0xe03565dc, 0x81ce06df), 74, 0x7165e3b8) == Hash(0xe20983f9, 0x143a8388, 0xd8a39ed1, 0x1f997811, 0xe03565dc);
    assert Round(Hash(0xe20983f9, 0x143a8388, 0xd8a39ed1, 0x1f997811, 0xe03565dc), 75, 0xab05ff94) == Hash(0x69cf0bca, 0xe20983f9, 0x050ea0e2, 0xd8a39ed1, 0x1f997811);
    assert Round(Hash(0x69cf0bca, 0xe20983f9, 0x050ea0e2, 0xd8a39ed1, 0x1f997811), 76, 0xc5949f0b) == Hash(0x29171009, 0x69cf0bca, 0x788260fe, 0x050ea0e2, 0xd8a39ed1);
    assert Round(Hash(0x29171009, 0x69cf0bca, 0x788260fe, 0x050ea0e2, 0xd8a39ed1), 77, 0xbcd84e4a) == Hash(0x97047bec, 0x29171009, 0x9a73c2f2, 0x788260fe, 0x050ea0e2);
    assert Round(Hash(0x97047bec, 0x29171009, 0x9a73c2f2, 0x788260fe, 0x050ea0e2), 78, 0x07720392) == Hash(0x835995e1, 0x97047bec, 0x4a45c402, 0x9a73c2f2, 0x788260fe);
    assert Round(Hash(0x835995e1, 0x97047bec, 0x4a45c402, 0x9a73c2f2, 0x788260fe), 79, 0xff3ff806) == Hash(0xf48a5426, 0x835995e1, 0x25c11efb, 0x4a45c402, 0x9a73c2f2);
  }

  // ----- the second block -----

  const SecondWords0: Eight := Eight(0x00000000, 0x00000000, 0x00000000, 0x00000000, 0x00000000, 0x00000000, 0x00000000, 0x00000000)
  const SecondWords1: Eight := Eight(0x00000000, 0x00000000, 0x00000000, 0x00000000, 0x00000000, 0x00000000, 0x00000000, 0x000001e0)
  const SecondWords2: Eight := Eight(0x00000000, 0x00000000, 0x000003c0, 0x00000000, 0x00000000, 0x00000780, 0x00000000, 0x000003c0)
  const SecondWords3: Eight := Eight(0x00000f00, 0x00000000, 0x00000000, 0x00001e00, 0x00000000, 0x00000cc0, 0x00003c00, 0x00000440)
  const SecondWords4: Eight := Eight(0x00000000, 0x00007800, 0x00000f00, 0x00003300, 0x0000f000, 0x00000f00, 0x00000000, 0x0001ef00)
  const SecondWords5: Eight := Eight(0x00000000, 0x0000cc00, 0x0003c000, 0x00004380, 0x00000000, 0x00078f00, 0x0000ff00, 0x00032680)
  const SecondWords6: Eight := Eight(0x000f0000, 0x0000f000, 0x00003300, 0x001eff00, 0x00000000, 0x000cb800, 0x003c0000, 0x00040b00)
  const SecondWords7: Eight := Eight(0x0000f000, 0x0078ff00, 0x000ff000, 0x00338700, 0x00f00000, 0x000fc300, 0x0000f000, 0x01efbb00)
  const SecondWords8: Eight := Eight(0x00000000, 0x00cc0000, 0x03c0f000, 0x00438000, 0x00000000, 0x078f0000, 0x00ff0000, 0x03269e00)
  const SecondWords9: Eight := Eight(0x0f000000, 0x00f0f000, 0x00333c00, 0x1eff8800, 0x00000000, 0x0cb88800, 0x3c00f000, 0x040a4a00)

  const SecondState0: Hash := Hash(0x5bcf7727, 0x7327416a, 0xbe7bfbf9, 0x5a781878, 0x5e46a4e2)
  const SecondState1: Hash := Hash(0x25c018be, 0xb3bbcafe, 0xe4e97bee, 0xb90f74bc, 0xc5615548)
  const SecondState2: Hash := Hash(0x986df268, 0x990b7be7, 0xab50fce7, 0x195db4b7, 0x4941806b)
  const SecondState3: Hash := Hash(0x53c73650, 0x3e5179e7, 0x103ef3e6, 0xc48c56ca, 0x4a8022d4)
  const SecondState4: Hash := Hash(0x3cf6eb58, 0xf4ddd7b7, 0xc90fb815, 0xbd5f2d4f, 0xe4c9f7db)
  const SecondState5: Hash := Hash(0x6f698f1a, 0xc6ff0cd3, 0xde5ab7bc, 0x5f6f3cbb, 0x1da48a85)
  const SecondState6: Hash := Hash(0xa3ef857e, 0xc8cda3da, 0xcef6480e, 0xff1ef4d7, 0xc7a4d2b3)
  const SecondState7: Hash := Hash(0xa1b68141, 0x660dd0b1, 0x0b1cef5e, 0xe795018d, 0xd7f8a8f6)
  const SecondState8: Hash := Hash(0xa5937450, 0xd5ef1ed7, 0xc444cbe3, 0xddd22788, 0x558467c6)
  const SecondState9: Hash := Hash(0xc90888ca, 0xf6d1afee, 0x6fce9fe5, 0x538d8f6e, 0x025e9447)
  const SecondState10: Hash := Hash(0x57aad805, 0x4d3b0dac, 0xd27a4a0d, 0x74c040cd, 0x54782008)

  lemma SecondWordsAre()
    ensures NextEight(SecondWords0, SecondWords1) == SecondWords2
    ensures NextEight(SecondWords1, SecondWords2) == SecondWords3
    ensures NextEight(SecondWords2, SecondWords3) == SecondWords4
    ensures NextEight(SecondWords3, SecondWords4) == SecondWords5
    ensures NextEight(SecondWords4, SecondWords5) == SecondWords6
    ensures NextEight(SecondWords5, SecondWords6) == SecondWords7
    ensures NextEight(SecondWords6, SecondWords7) == SecondWords8
    ensures NextEight(SecondWords7, SecondWords8) == SecondWords9
  {
  }

  lemma SecondState1Is()
    ensures EightRounds(SecondState0, 0, SecondWords0) == SecondState1
  {
    assert Round(Hash(0x5bcf7727, 0x7327416a, 0xbe7bfbf9, 0x5a781878, 0x5e46a4e2), 0, 0x00000000) == Hash(0x6d335cde, 0x5bcf7727, 0x9cc9d05a, 0xbe7bfbf9, 0x5a781878);
    assert Round(Hash(0x6d335cde, 0x5bcf7727, 0x9cc9d05a, 0xbe7bfbf9, 0x5a781878), 1, 0x00000000) == Hash(0x186006b8, 0x6d335cde, 0xd6f3ddc9, 0x9cc9d05a, 0xbe7bfbf9);
    assert Round(Hash(0x186006b8, 0x6d335cde, 0xd6f3ddc9, 0x9cc9d05a, 0xbe7bfbf9), 2, 0x00000000) == Hash(0xf9fb295d, 0x186006b8, 0x9b4cd737, 0xd6f3ddc9, 0x9cc9d05a);
    assert Round(Hash(0xf9fb295d, 0x186006b8, 0x9b4cd737, 0xd6f3ddc9, 0x9cc9d05a), 3, 0x00000000) == Hash(0x15855523, 0xf9fb295d, 0x061801ae, 0x9b4cd737, 0xd6f3ddc9);
    assert Round(Hash(0x15855523, 0xf9fb295d, 0x061801ae, 0x9b4cd737, 0xd6f3ddc9), 4, 0x00000000) == Hash(0xe43dd2f2, 0x15855523, 0x7e7eca57, 0x061801ae, 0x9b4cd737);
    assert Round(Hash(0xe43dd2f2, 0x15855523, 0x7e7eca57, 0x061801ae, 0x9b4cd737), 5, 0x00000000) == Hash(0x93a5efbb, 0xe43dd2f2, 0xc5615548, 0x7e7eca57, 0x061801ae);
    assert Round(Hash(0x93a5efbb, 0xe43dd2f2, 0xc5615548, 0x7e7eca57, 0x061801ae), 6, 0x00000000) == Hash(0xb3bbcafe, 0x93a5efbb, 0xb90f74bc, 0xc5615548, 0x7e7eca57);
    assert Round(Hash(0xb3bbcafe, 0x93a5efbb, 0xb90f74bc, 0xc5615548, 0x7e7eca57), 7, 0x00000000) == Hash(0x25c018be, 0xb3bbcafe, 0xe4e97bee, 0xb90f74bc, 0xc5615548);
  }

  lemma SecondState2Is()
    ensures EightRounds(SecondState1, 8, SecondWords1) == SecondState2
  {
    assert Round(Hash(0x25c018be, 0xb3bbcafe, 0xe4e97bee, 0xb90f74bc, 0xc5615548), 8, 0x00000000) == Hash(0x80946593, 0x25c018be, 0xaceef2bf, 0xe4e97bee, 0xb90f74bc);
    assert Round(Hash(0x80946593, 0x25c018be, 0xaceef2bf, 0xe4e97bee, 0xb90f74bc), 9, 0x00000000) == Hash(0x0b0814c3, 0x80946593, 0x8970062f, 0xaceef2bf, 0xe4e97bee);
    assert Round(Hash(0x0b0814c3, 0x80946593, 0x8970062f, 0xaceef2bf, 0xe4e97bee), 10, 0x00000000) == Hash(0x4ce92417, 0x0b0814c3, 0xe0251964, 0x8970062f, 0xaceef2bf);
    assert Round(Hash(0x4ce92417, 0x0b0814c3, 0xe0251964, 0x8970062f, 0xaceef2bf), 11, 0x00000000) == Hash(0x250601ad, 0x4ce92417, 0xc2c20530, 0xe0251964, 0x8970062f);
    assert Round(Hash(0x250601ad, 0x4ce92417, 0xc2c20530, 0xe0251964, 0x8970062f), 12, 0x00000000) == Hash(0x6576d2dc, 0x250601ad, 0xd33a4905, 0xc2c20530, 0xe0251964);
    assert Round(Hash(0x6576d2dc, 0x250601ad, 0xd33a4905, 0xc2c20530, 0xe0251964), 13, 0x00000000) == Hash(0xad43f39e, 0x6576d2dc, 0x4941806b, 0xd33a4905, 0xc2c20530);
    assert Round(Hash(0xad43f39e, 0x6576d2dc, 0x4941806b, 0xd33a4905, 0xc2c20530), 14, 0x00000000) == Hash(0x990b7be7, 0xad43f39e, 0x195db4b7, 0x4941806b, 0xd33a4905);
    assert Round(Hash(0x990b7be7, 0xad43f39e, 0x195db4b7, 0x4941806b, 0xd33a4905), 15, 0x000001e0) == Hash(0x986df268, 0x990b7be7, 0xab50fce7, 0x195db4b7, 0x4941806b);
  }

  lemma SecondState3Is()
    ensures EightRounds(SecondState2, 16, SecondWords2) == SecondState3
  {
    assert Round(Hash(0x986df268, 0x990b7be7, 0xab50fce7, 0x195db4b7, 0x4941806b), 16, 0x00000000) == Hash(0x3ad7440e, 0x986df268, 0xe642def9, 0xab50fce7, 0x195db4b7);
    assert Round(Hash(0x3ad7440e, 0x986df268, 0xe642def9, 0xab50fce7, 0x195db4b7), 17, 0x00000000) == Hash(0x72198f06, 0x3ad7440e, 0x261b7c9a, 0xe642def9, 0xab50fce7);
    assert Round(Hash(0x72198f06, 0x3ad7440e, 0x261b7c9a, 0xe642def9, 0xab50fce7), 18, 0x000003c0) == Hash(0x2f193a09, 0x72198f06, 0x8eb5d103, 0x261b7c9a, 0xe642def9);
    assert Round(Hash(0x2f193a09, 0x72198f06, 0x8eb5d103, 0x261b7c9a, 0xe642def9), 19, 0x00000000) == Hash(0x2a008b51, 0x2f193a09, 0x9c8663c1, 0x8eb5d103, 0x261b7c9a);
    assert Round(Hash(0x2a008b51, 0x2f193a09, 0x9c8663c1, 0x8eb5d103, 0x261b7c9a), 20, 0x00000000) == Hash(0x12315b2b, 0x2a008b51, 0x4bc64e82, 0x9c8663c1, 0x8eb5d103);
    assert Round(Hash(0x12315b2b, 0x2a008b51, 0x4bc64e82, 0x9c8663c1, 0x8eb5d103), 21, 0x00000780) == Hash(0x40fbcf98, 0x12315b2b, 0x4a8022d4, 0x4bc64e82, 0x9c8663c1);
    assert Round(Hash(0x40fbcf98, 0x12315b2b, 0x4a8022d4, 0x4bc64e82, 0x9c8663c1), 22, 0x00000000) == Hash(0x3e5179e7, 0x40fbcf98, 0xc48c56ca, 0x4a8022d4, 0x4bc64e82);
    assert Round(Hash(0x3e5179e7, 0x40fbcf98, 0xc48c56ca, 0x4a8022d4, 0x4bc64e82), 23, 0x000003c0) == Hash(0x53c73650, 0x3e5179e7, 0x103ef3e6, 0xc48c56ca, 0x4a8022d4);
  }

  lemma SecondState4Is()
    ensures EightRounds(SecondState3, 24, SecondWords3) == SecondState4
  {
    assert Round(Hash(0x53c73650, 0x3e5179e7, 0x103ef3e6, 0xc48c56ca, 0x4a8022d4), 24, 0x00000f00) == Hash(0x1d24c44a, 0x53c73650, 0xcf945e79, 0x103ef3e6, 0xc48c56ca);
    assert Round(Hash(0x1d24c44a, 0x53c73650, 0xcf945e79, 0x103ef3e6, 0xc48c56ca), 25, 0x00000000) == Hash(0x646c677d, 0x1d24c44a, 0x14f1cd94, 0xcf945e79, 0x103ef3e6);
    assert Round(Hash(0x646c677d, 0x1d24c44a, 0x14f1cd94, 0xcf945e79, 0x103ef3e6), 26, 0x00000000) == Hash(0xd2e726da, 0x646c677d, 0x87493112, 0x14f1cd94, 0xcf945e79);
    assert Round(Hash(0xd2e726da, 0x646c677d, 0x87493112, 0x14f1cd94, 0xcf945e79), 27, 0x00001e00) == Hash(0x9327df6f, 0xd2e726da, 0x591b19df, 0x87493112, 0x14f1cd94);
    assert Round(Hash(0x9327df6f, 0xd2e726da, 0x591b19df, 0x87493112, 0x14f1cd94), 28, 0x00000000) == Hash(0xf57cb53e, 0x9327df6f, 0xb4b9c9b6, 0x591b19df, 0x87493112);
    assert Round(Hash(0xf57cb53e, 0x9327df6f, 0xb4b9c9b6, 0x591b19df, 0x87493112), 29, 0x00000cc0) == Hash(0x243ee057, 0xf57cb53e, 0xe4c9f7db, 0xb4b9c9b6, 0x591b19df);
    assert Round(Hash(0x243ee057, 0xf57cb53e, 0xe4c9f7db, 0xb4b9c9b6, 0x591b19df), 30, 0x00003c00) == Hash(0xf4ddd7b7, 0x243ee057, 0xbd5f2d4f, 0xe4c9f7db, 0xb4b9c9b6);
    assert Round(Hash(0xf4ddd7b7, 0x243ee057, 0xbd5f2d4f, 0xe4c9f7db, 0xb4b9c9b6), 31, 0x00000440) == Hash(0x3cf6eb58, 0xf4ddd7b7, 0xc90fb815, 0xbd5f2d4f, 0xe4c9f7db);
  }

  lemma SecondState5Is()
    ensures EightRounds(SecondState4, 32, SecondWords4) == SecondState5
  {
    assert Round(Hash(0x3cf6eb58, 0xf4ddd7b7, 0xc90fb815, 0xbd5f2d4f, 0xe4c9f7db), 32, 0x00000000) == Hash(0x730e9170, 0x3cf6eb58, 0xfd3775ed, 0xc90fb815, 0xbd5f2d4f);
    assert Round(Hash(0x730e9170, 0x3cf6eb58, 0xfd3775ed, 0xc90fb815, 0xbd5f2d4f), 33, 0x00007800) == Hash(0x96d9e59e, 0x730e9170, 0x0f3dbad6, 0xfd3775ed, 0xc90fb815);
    assert Round(Hash(0x96d9e59e, 0x730e9170, 0x0f3dbad6, 0xfd3775ed, 0xc90fb815), 34, 0x00000f00) == Hash(0x942ac4d3, 0x96d9e59e, 0x1cc3a45c, 0x0f3dbad6, 0xfd3775ed);
    assert Round(Hash(0x942ac4d3, 0x96d9e59e, 0x1cc3a45c, 0x0f3dbad6, 0xfd3775ed), 35, 0x00003300) == Hash(0x76922a14, 0x942ac4d3, 0xa5b67967, 0x1cc3a45c, 0x0f3dbad6);
    assert Round(Hash(0x76922a14, 0x942ac4d3, 0xa5b67967, 0x1cc3a45c, 0x0f3dbad6), 36, 0x0000f000) == Hash(0x7dbcf2ed, 0x76922a14, 0xe50ab134, 0xa5b67967, 0x1cc3a45c);
    assert Round(Hash(0x7dbcf2ed, 0x76922a14, 0xe50ab134, 0xa5b67967, 0x1cc3a45c), 37, 0x00000f00) == Hash(0x796adef3, 0x7dbcf2ed, 0x1da48a85, 0xe50ab134, 0xa5b67967);
    assert Round(Hash(0x796adef3, 0x7dbcf2ed, 0x1da48a85, 0xe50ab134, 0xa5b67967), 38, 0x00000000) == Hash(0xc6ff0cd3, 0x796adef3, 0x5f6f3cbb, 0x1da48a85, 0xe50ab134);
    assert Round(Hash(0xc6ff0cd3, 0x796adef3, 0x5f6f3cbb, 0x1da48a85, 0xe50ab134), 39, 0x0001ef00) == Hash(0x6f698f1a, 0xc6ff0cd3, 0xde5ab7bc, 0x5f6f3cbb, 0x1da48a85);
  }

  lemma SecondState6Is()
    ensures EightRounds(SecondState5, 40, SecondWords5) == SecondState6
  {
    assert Round(Hash(0x6f698f1a, 0xc6ff0cd3, 0xde5ab7bc, 0x5f6f3cbb, 0x1da48a85), 40, 0x00000000) == Hash(0x78716769, 0x6f698f1a, 0xf1bfc334, 0xde5ab7bc, 0x5f6f3cbb);
    assert Round(Hash(0x78716769, 0x6f698f1a, 0xf1bfc334, 0xde5ab7bc, 0x5f6f3cbb), 41, 0x0000cc00) == Hash(0xfc343a02, 0x78716769, 0x9bda63c6, 0xf1bfc334, 0xde5ab7bc);
    assert Round(Hash(0xfc343a02, 0x78716769, 0x9bda63c6, 0xf1bfc334, 0xde5ab7bc), 42, 0x0003c000) == Hash(0xedfcd85b, 0xfc343a02, 0x5e1c59da, 0x9bda63c6, 0xf1bfc334);
    assert Round(Hash(0xedfcd85b, 0xfc343a02, 0x5e1c59da, 0x9bda63c6, 0xf1bfc334), 43, 0x00004380) == Hash(0x1e934acf, 0xedfcd85b, 0xbf0d0e80, 0x5e1c59da, 0x9bda63c6);
    assert Round(Hash(0x1e934acf, 0xedfcd85b, 0xbf0d0e80, 0x5e1c59da, 0x9bda63c6), 44, 0x00000000) == Hash(0xfc7bd35f, 0x1e934acf, 0xfb7f3616, 0xbf0d0e80, 0x5e1c59da);
    assert Round(Hash(0xfc7bd35f, 0x1e934acf, 0xfb7f3616, 0xbf0d0e80, 0x5e1c59da), 45, 0x00078f00) == Hash(0x3bd9203b, 0xfc7bd35f, 0xc7a4d2b3, 0xfb7f3616, 0xbf0d0e80);
    assert Round(Hash(0x3bd9203b, 0xfc7bd35f, 0xc7a4d2b3, 0xfb7f3616, 0xbf0d0e80), 46, 0x0000ff00) == Hash(0xc8cda3da, 0x3bd9203b, 0xff1ef4d7, 0xc7a4d2b3, 0xfb7f3616);
    assert Round(Hash(0xc8cda3da, 0x3bd9203b, 0xff1ef4d7, 0xc7a4d2b3, 0xfb7f3616), 47, 0x00032680) == Hash(0xa3ef857e, 0xc8cda3da, 0xcef6480e, 0xff1ef4d7, 0xc7a4d2b3);
  }

  lemma SecondState7Is()
    ensures EightRounds(SecondState6, 48, SecondWords6) == SecondState7
  {
    assert Round(Hash(0xa3ef857e, 0xc8cda3da, 0xcef6480e, 0xff1ef4d7, 0xc7a4d2b3), 48, 0x000f0000) == Hash(0xa39f2041, 0xa3ef857e, 0xb23368f6, 0xcef6480e, 0xff1ef4d7);
    assert Round(Hash(0xa39f2041, 0xa3ef857e, 0xb23368f6, 0xcef6480e, 0xff1ef4d7), 49, 0x0000f000) == Hash(0xa516f265, 0xa39f2041, 0xa8fbe15f, 0xb23368f6, 0xcef6480e);
    assert Round(Hash(0xa516f265, 0xa39f2041, 0xa8fbe15f, 0xb23368f6, 0xcef6480e), 50, 0x00003300) == Hash(0xa3abe4f5, 0xa516f265, 0x68e7c810, 0xa8fbe15f, 0xb23368f6);
    assert Round(Hash(0xa3abe4f5, 0xa516f265, 0x68e7c810, 0xa8fbe15f, 0xb23368f6), 51, 0x001eff00) == Hash(0x5fe2a3db, 0xa3abe4f5, 0x6945bc99, 0x68e7c810, 0xa8fbe15f);
    assert Round(Hash(0x5fe2a3db, 0xa3abe4f5, 0x6945bc99, 0x68e7c810, 0xa8fbe15f), 52, 0x00000000) == Hash(0x9e540637, 0x5fe2a3db, 0x68eaf93d, 0x6945bc99, 0x68e7c810);
    assert Round(Hash(0x9e540637, 0x5fe2a3db, 0x68eaf93d, 0x6945bc99, 0x68e7c810), 53, 0x000cb800) == Hash(0x2c73bd78, 0x9e540637, 0xd7f8a8f6, 0x68eaf93d, 0x6945bc99);
    assert Round(Hash(0x2c73bd78, 0x9e540637, 0xd7f8a8f6, 0x68eaf93d, 0x6945bc99), 54, 0x003c0000) == Hash(0x660dd0b1, 0x2c73bd78, 0xe795018d, 0xd7f8a8f6, 0x68eaf93d);
    assert Round(Hash(0x660dd0b1, 0x2c73bd78, 0xe795018d, 0xd7f8a8f6, 0x68eaf93d), 55, 0x00040b00) == Hash(0xa1b68141, 0x660dd0b1, 0x0b1cef5e, 0xe795018d, 0xd7f8a8f6);
  }

  lemma SecondState8Is()
    ensures EightRounds(SecondState7, 56, SecondWords7) == SecondState8
  {
    assert Round(Hash(0xa1b68141, 0x660dd0b1, 0x0b1cef5e, 0xe795018d, 0xd7f8a8f6), 56, 0x0000f000) == Hash(0x05033fa3, 0xa1b68141, 0x5983742c, 0x0b1cef5e, 0xe795018d);
    assert Round(Hash(0x05033fa3, 0xa1b68141, 0x5983742c, 0x0b1cef5e, 0xe795018d), 57, 0x0078ff00) == Hash(0x21289715, 0x05033fa3, 0x686da050, 0x5983742c, 0x0b1cef5e);
    assert Round(Hash(0x21289715, 0x05033fa3, 0x686da050, 0x5983742c, 0x0b1cef5e), 58, 0x000ff000) == Hash(0x085eb2fe, 0x21289715, 0xc140cfe8, 0x686da050, 0x5983742c);
    assert Round(Hash(0x085eb2fe, 0x21289715, 0xc140cfe8, 0x686da050, 0x5983742c), 59, 0x00338700) == Hash(0x56119f19, 0x085eb2fe, 0x484a25c5, 0xc140cfe8, 0x686da050);
    assert Round(Hash(0x56119f19, 0x085eb2fe, 0x484a25c5, 0xc140cfe8, 0x686da050), 60, 0x00f00000) == Hash(0x77489e23, 0x56119f19, 0x8217acbf, 0x484a25c5, 0xc140cfe8);
    assert Round(Hash(0x77489e23, 0x56119f19, 0x8217acbf, 0x484a25c5, 0xc140cfe8), 61, 0x000fc300) == Hash(0x11132f8f, 0x77489e23, 0x558467c6, 0x8217acbf, 0x484a25c5);
    assert Round(Hash(0x11132f8f, 0x77489e23, 0x558467c6, 0x8217acbf, 0x484a25c5), 62, 0x0000f000) == Hash(0xd5ef1ed7, 0x11132f8f, 0xddd22788, 0x558467c6, 0x8217acbf);
    assert Round(Hash(0xd5ef1ed7, 0x11132f8f, 0xddd22788, 0x558467c6, 0x8217acbf), 63, 0x01efbb00) == Hash(0xa5937450, 0xd5ef1ed7, 0xc444cbe3, 0xddd22788, 0x558467c6);
  }

  lemma SecondState9Is()
    ensures EightRounds(SecondState8, 64, SecondWords8) == SecondState9
  {
    assert Round(Hash(0xa5937450, 0xd5ef1ed7, 0xc444cbe3, 0xddd22788, 0x558467c6), 64, 0x00000000) == Hash(0x9ecfa66c, 0xa5937450, 0xf57bc7b5, 0xc444cbe3, 0xddd22788);
    assert Round(Hash(0x9ecfa66c, 0xa5937450, 0xf57bc7b5, 0xc444cbe3, 0xddd22788), 65, 0x00cc0000) == Hash(0x17a22ef7, 0x9ecfa66c, 0x2964dd14, 0xf57bc7b5, 0xc444cbe3);
    assert Round(Hash(0x17a22ef7, 0x9ecfa66c, 0x2964dd14, 0xf57bc7b5, 0xc444cbe3), 66, 0x03c0f000) == Hash(0xc97f1968, 0x17a22ef7, 0x27b3e99b, 0x2964dd14, 0xf57bc7b5);
    assert Round(Hash(0xc97f1968, 0x17a22ef7, 0x27b3e99b, 0x2964dd14, 0xf57bc7b5), 67, 0x00438000) == Hash(0x097a511c, 0xc97f1968, 0xc5e88bbd, 0x27b3e99b, 0x2964dd14);
    assert Round(Hash(0x097a511c, 0xc97f1968, 0xc5e88bbd, 0x27b3e99b, 0x2964dd14), 68, 0x00000000) == Hash(0x4e363db9, 0x097a511c, 0x325fc65a, 0xc5e88bbd, 0x27b3e99b);
    assert Round(Hash(0x4e363db9, 0x097a511c, 0x325fc65a, 0xc5e88bbd, 0x27b3e99b), 69, 0x078f0000) == Hash(0xbf3a7f95, 0x4e363db9, 0x025e9447, 0x325fc65a, 0xc5e88bbd);
    assert Round(Hash(0xbf3a7f95, 0x4e363db9, 0x025e9447, 0x325fc65a, 0xc5e88bbd), 70, 0x00ff0000) == Hash(0xf6d1afee, 0xbf3a7f95, 0x538d8f6e, 0x025e9447, 0x325fc65a);
    assert Round(Hash(0xf6d1afee, 0xbf3a7f95, 0x538d8f6e, 0x025e9447, 0x325fc65a), 71, 0x03269e00) == Hash(0xc90888ca, 0xf6d1afee, 0x6fce9fe5, 0x538d8f6e, 0x025e9447);
  }

  lemma SecondState10Is()
    ensures EightRounds(SecondState9, 72, SecondWords9) == SecondState10
  {
    assert Round(Hash(0xc90888ca, 0xf6d1afee, 0x6fce9fe5, 0x538d8f6e, 0x025e9447), 72, 0x0f000000) == Hash(0xc7652edb, 0xc90888ca, 0xbdb46bfb, 0x6fce9fe5, 0x538d8f6e);
    assert Round(Hash(0xc7652edb, 0xc90888ca, 0xbdb46bfb, 0x6fce9fe5, 0x538d8f6e), 73, 0x00f0f000) == Hash(0x26f99990, 0xc7652edb, 0xb2422232, 0xbdb46bfb, 0x6fce9fe5);
    assert Round(Hash(0x26f99990, 0xc7652edb, 0xb2422232, 0xbdb46bfb, 0x6fce9fe5), 74, 0x00333c00) == Hash(0xe22b36d1, 0x26f99990, 0xf1d94bb6, 0xb2422232, 0xbdb46bfb);
    assert Round(Hash(0xe22b36d1, 0x26f99990, 0xf1d94bb6, 0xb2422232, 0xbdb46bfb), 75, 0x1eff8800) == Hash(0x51e08021, 0xe22b36d1, 0x09be6664, 0xf1d94bb6, 0xb2422232);
    assert Round(Hash(0x51e08021, 0xe22b36d1, 0x09be6664, 0xf1d94bb6, 0xb2422232), 76, 0x00000000) == Hash(0xd3010335, 0x51e08021, 0x788acdb4, 0x09be6664, 0xf1d94bb6);
    assert Round(Hash(0xd3010335, 0x51e08021, 0x788acdb4, 0x09be6664, 0xf1d94bb6), 77, 0x0cb88800) == Hash(0x49e92837, 0xd3010335, 0x54782008, 0x788acdb4, 0x09be6664);
    assert Round(Hash(0x49e92837, 0xd3010335, 0x54782008, 0x788acdb4, 0x09be6664), 78, 0x3c00f000) == Hash(0x4d3b0dac, 0x49e92837, 0x74c040cd, 0x54782008, 0x788acdb4);
    assert Round(Hash(0x4d3b0dac, 0x49e92837, 0x74c040cd, 0x54782008, 0x788acdb4), 79, 0x040a4a00) == Hash(0x57aad805, 0x4d3b0dac, 0xd27a4a0d, 0x74c040cd, 0x54782008);
  }

  lemma FirstCompressed(block: Block)
    requires WordsAt(block, 0) == FirstWords0 && WordsAt(block, 8) == FirstWords1
    ensures Rounds(FirstState0, block, 80) == FirstState10
  {
    hide Rounds, WordsAt, EightRounds, NextEight;
    NoRounds(FirstState0, block);
    FirstWordsAre();
    Reach(FirstState0, block, 0, FirstState0, FirstWords0, FirstWords1);
    FirstState1Is();
    Reach(FirstState0, block, 8, FirstState1, FirstWords1, FirstWords2);
    FirstState2Is();
    Reach(FirstState0, block, 16, FirstState2, FirstWords2, FirstWords3);
    FirstState3Is();
    Reach(FirstState0, block, 24, FirstState3, FirstWords3, FirstWords4);
    FirstState4Is();
    Reach(FirstState0, block, 32, FirstState4, FirstWords4, FirstWords5);
    FirstState5Is();
    Reach(FirstState0, block, 40, FirstState5, FirstWords5, FirstWords6);
    FirstState6Is();
    Reach(FirstState0, block, 48, FirstState6, FirstWords6, FirstWords7);
    FirstState7Is();
    Reach(FirstState0, block, 56, FirstState7, FirstWords7, FirstWords8);
    FirstState8Is();
    RoundsEight(FirstState0, block, 64);
    FirstState9Is();
    RoundsEight(FirstState0, block, 72);
    FirstState10Is();
  }

  lemma SecondCompressed(block: Block)
    requires WordsAt(block, 0) == SecondWords0 && WordsAt(block, 8) == SecondWords1
    ensures Rounds(SecondState0, block, 80) == SecondState10
  {
    hide Rounds, WordsAt, EightRounds, NextEight;
    NoRounds(SecondState0, block);
    SecondWordsAre();
    Reach(SecondState0, block, 0, SecondState0, SecondWords0, SecondWords1);
    SecondState1Is();
    Reach(SecondState0, block, 8, SecondState1, SecondWords1, SecondWords2);
    SecondState2Is();
    Reach(SecondState0, block, 16, SecondState2, SecondWords2, SecondWords3);
    SecondState3Is();
    Reach(SecondState0, block, 24, SecondState3, SecondWords3, SecondWords4);
    SecondState4Is();
    Reach(SecondState0, block, 32, SecondState4, SecondWords4, SecondWords5);
    SecondState5Is();
    Reach(SecondState0, block, 40, SecondState5, SecondWords5, SecondWords6);
    SecondState6Is();
    Reach(SecondState0, block, 48, SecondState6, SecondWords6, SecondWords7);
    SecondState7Is();
    Reach(SecondState0, block, 56, SecondState7, SecondWords7, SecondWords8);
    SecondState8Is();
    RoundsEight(SecondState0, block, 64);
    SecondState9Is();
    RoundsEight(SecondState0, block, 72);
    SecondState10Is();
  }

  // ----- bytes and words -----

  lemma SpelledWords(block: Block, t: nat, x: Eight)
    requires t <= 8 && block[4 * t..4 * t + 32] == Spelled(x)
    ensures WordsAt(block, t) == x
  {
    hide Word, Spelled;
    WordsSpelled(block, t, x);
  }

  lemma FirstWords0Low()
    ensures WordBytes(0x6447686c) + WordBytes(0x49484e68) + WordBytes(0x62584273) + WordBytes(0x5a534275) ==
              [0x64, 0x47, 0x68, 0x6c, 0x49, 0x48, 0x4e, 0x68, 0x62, 0x58, 0x42, 0x73, 0x5a, 0x53, 0x42, 0x75]
  {
    assert WordBytes(0x6447686c) == [0x64, 0x47, 0x68, 0x6c];
    assert WordBytes(0x49484e68) == [0x49, 0x48, 0x4e, 0x68];
    assert WordBytes(0x62584273) == [0x62, 0x58, 0x42, 0x73];
    assert WordBytes(0x5a534275) == [0x5a, 0x53, 0x42, 0x75];
  }

  lemma FirstWords0High()
    ensures WordBytes(0x6232356a) + WordBytes(0x5a513d3d) + WordBytes(0x32353845) + WordBytes(0x41464135) ==
              [0x62, 0x32, 0x35, 0x6a, 0x5a, 0x51, 0x3d, 0x3d, 0x32, 0x35, 0x38, 0x45, 0x41, 0x46, 0x41, 0x35]
  {
    assert WordBytes(0x6232356a) == [0x62, 0x32, 0x35, 0x6a];
    assert WordBytes(0x5a513d3d) == [0x5a, 0x51, 0x3d, 0x3d];
    assert WordBytes(0x32353845) == [0x32, 0x35, 0x38, 0x45];
    assert WordBytes(0x41464135) == [0x41, 0x46, 0x41, 0x35];
  }

  lemma FirstWords0Spelled()
    ensures Spelled(FirstWords0) ==
              [0x64, 0x47, 0x68, 0x6c, 0x49, 0x48, 0x4e, 0x68, 0x62, 0x58, 0x42, 0x73, 0x5a, 0x53, 0x42, 0x75,
               0x62, 0x32, 0x35, 0x6a, 0x5a, 0x51, 0x3d, 0x3d, 0x32, 0x35, 0x38, 0x45, 0x41, 0x46, 0x41, 0x35]
  {
    hide WordBytes;
    FirstWords0Low();
    FirstWords0High();
  }

  lemma FirstWords1Low()
    ensures WordBytes(0x2d453931) + WordBytes(0x342d3437) + WordBytes(0x44412d39) + WordBytes(0x3543412d) ==
              [0x2d, 0x45, 0x39, 0x31, 0x34, 0x2d, 0x34, 0x37, 0x44, 0x41, 0x2d, 0x39, 0x35, 0x43, 0x41, 0x2d]
  {
    assert WordBytes(0x2d453931) == [0x2d, 0x45, 0x39, 0x31];
    assert WordBytes(0x342d3437) == [0x34, 0x2d, 0x34, 0x37];
    assert WordBytes(0x44412d39) == [0x44, 0x41, 0x2d, 0x39];
    assert WordBytes(0x3543412d) == [0x35, 0x43, 0x41, 0x2d];
  }

  lemma FirstWords1High()
    ensures WordBytes(0x43354142) + WordBytes(0x30444338) + WordBytes(0x35423131) + WordBytes(0x80000000) ==
              [0x43, 0x35, 0x41, 0x42, 0x30, 0x44, 0x43, 0x38, 0x35, 0x42, 0x31, 0x31, 0x80, 0x00, 0x00, 0x00]
  {
    assert WordBytes(0x43354142) == [0x43, 0x35, 0x41, 0x42];
    assert WordBytes(0x30444338) == [0x30, 0x44, 0x43, 0x38];
    assert WordBytes(0x35423131) == [0x35, 0x42, 0x31, 0x31];
    assert WordBytes(0x80000000) == [0x80, 0x00, 0x00, 0x00];
  }

  lemma FirstWords1Spelled()
    ensures Spelled(FirstWords1) ==
              [0x2d, 0x45, 0x39, 0x31, 0x34, 0x2d, 0x34, 0x37, 0x44, 0x41, 0x2d, 0x39, 0x35, 0x43, 0x41, 0x2d,
               0x43, 0x35, 0x41, 0x42, 0x30, 0x44, 0x43, 0x38, 0x35, 0x42, 0x31, 0x31, 0x80, 0x00, 0x00, 0x00]
  {
    hide WordBytes;
    FirstWords1Low();
    FirstWords1High();
  }

  lemma SecondWords0Low()
    ensures WordBytes(0x00000000) + WordBytes(0x00000000) + WordBytes(0x00000000) + WordBytes(0x00000000) ==
              [0x00, 0x00, 0x00, 0x00, 0x00, 0x00, 0x00, 0x00, 0x00, 0x00, 0x00, 0x00, 0x00, 0x00, 0x00, 0x00]
  {
    assert WordBytes(0x00000000) == [0x00, 0x00, 0x00, 0x00];
  }

  lemma SecondWords0High()
    ensures WordBytes(0x00000000) + WordBytes(0x00000000) + WordBytes(0x00000000) + WordBytes(0x00000000) ==
              [0x00, 0x00, 0x00, 0x00, 0x00, 0x00, 0x00, 0x00, 0x00, 0x00, 0x00, 0x00, 0x00, 0x00, 0x00, 0x00]
  {
    assert WordBytes(0x00000000) == [0x00, 0x00, 0x00, 0x00];
  }

  lemma SecondWords0Spelled()
    ensures Spelled(SecondWords0) ==
              [0x00, 0x00, 0x00, 0x00, 0x00, 0x00, 0x00, 0x00, 0x00, 0x00, 0x00, 0x00, 0x00, 0x00, 0x00, 0x00,
               0x00, 0x00, 0x00, 0x00, 0x00, 0x00, 0x00, 0x00, 0x00, 0x00, 0x00, 0x00, 0x00, 0x00, 0x00, 0x00]
  {
    hide WordBytes;
    SecondWords0Low();
    SecondWords0High();
  }

  lemma SecondWords1Low()
    ensures WordBytes(0x00000000) + WordBytes(0x00000000) + WordBytes(0x00000000) + WordBytes(0x00000000) ==
              [0x00, 0x00, 0x00, 0x00, 0x00, 0x00, 0x00, 0x00, 0x00, 0x00, 0x00, 0x00, 0x00, 0x00, 0x00, 0x00]
  {
    assert WordBytes(0x00000000) == [0x00, 0x00, 0x00, 0x00];
  }

  lemma SecondWords1High()
    ensures WordBytes(0x00000000) + WordBytes(0x00000000) + WordBytes(0x00000000) + WordBytes(0x000001e0) ==
              [0x00, 0x00, 0x00, 0x00, 0x00, 0x00, 0x00, 0x00, 0x00, 0x00, 0x00, 0x00, 0x00, 0x00, 0x01, 0xe0]
  {
    assert WordBytes(0x00000000) == [0x00, 0x00, 0x00, 0x00];
    assert WordBytes(0x000001e0) == [0x00, 0x00, 0x01, 0xe0];
  }

  lemma SecondWords1Spelled()
    ensures Spelled(SecondWords1) ==
              [0x00, 0x00, 0x00, 0x00, 0x00, 0x00, 0x00, 0x00, 0x00, 0x00, 0x00, 0x00, 0x00, 0x00, 0x00, 0x00,
               0x00, 0x00, 0x00, 0x00, 0x00, 0x00, 0x00, 0x00, 0x00, 0x00, 0x00, 0x00, 0x00, 0x00, 0x01, 0xe0]
  {
    hide WordBytes;
    SecondWords1Low();
    SecondWords1High();
  }

  // The example key, and the fixed identifier in two parts.
  function Key(): (s: bytes)
    ensures |s| == 24
  {
    [0x64, 0x47, 0x68, 0x6c, 0x49, 0x48, 0x4e, 0x68, 0x62, 0x58, 0x42, 0x73, 0x5a, 0x53, 0x42, 0x75,
     0x62, 0x32, 0x35, 0x6a, 0x5a, 0x51, 0x3d, 0x3d]
  }

  function IdStart(): (s: bytes)
    ensures |s| == 8
  {
    [0x32, 0x35, 0x38, 0x45, 0x41, 0x46, 0x41, 0x35]
  }

  function Front(): (s: bytes)
    ensures |s| == 32
  {
    Key() + IdStart()
  }

  function Back(): (s: bytes)
    ensures |s| == 28
  {
    [0x2d, 0x45, 0x39, 0x31, 0x34, 0x2d, 0x34, 0x37, 0x44, 0x41, 0x2d, 0x39, 0x35, 0x43, 0x41, 0x2d,
     0x43, 0x35, 0x41, 0x42, 0x30, 0x44, 0x43, 0x38, 0x35, 0x42, 0x31, 0x31]
  }

  function Example(): (s: bytes) { Front() + Back() }

  lemma PaddedParts(front: bytes, back: bytes)
    requires |front| == 32 && |back| == 28
    ensures var s := Pad(front + back);
            |s| == 128 && s[..32] == front && s[32..64] == back + [0x80, 0, 0, 0]
            && s[64..96] == Zeros(32) && s[96..] == Zeros(24) + U64(480)
  {
    hide ToBigEndian;
  }

  lemma ExampleParts()
    ensures var s := Pad(Example());
            |s| == 128 && s[..32] == Spelled(FirstWords0) && s[32..64] == Spelled(FirstWords1)
            && s[64..96] == Spelled(SecondWords0) && s[96..] == Spelled(SecondWords1)
  {
    hide Spelled, Pad, Front, Back;
    PaddedParts(Front(), Back());
    FrontSpelled();
    BackSpelled();
    ZerosSpelled();
    LengthSpelled();
  }

  lemma FrontSpelled()
    ensures Front() == Spelled(FirstWords0)
  {
    hide Spelled;
    FirstWords0Spelled();
  }

  lemma BackSpelled()
    ensures Back() + [0x80, 0, 0, 0] == Spelled(FirstWords1)
  {
    hide Spelled;
    FirstWords1Spelled();
  }

  lemma ZerosSpelled()
    ensures Zeros(32) == Spelled(SecondWords0)
  {
    hide Spelled;
    SecondWords0Spelled();
  }

  lemma LengthSpelled()
    ensures Zeros(24) + U64(480) == Spelled(SecondWords1)
  {
    hide Spelled, U64;
    SecondWords1Spelled();
    BitCount();
  }

  lemma BitCount()
    ensures U64(480) == [0, 0, 0, 0, 0, 0, 1, 0xe0]
  {
  }

  lemma ExampleDigest()
    ensures Digest(Example()) ==
              [0xb3, 0x7a, 0x4f, 0x2c, 0xc0, 0x62, 0x4f, 0x16, 0x90, 0xf6, 0x46, 0x06, 0xcf, 0x38, 0x59, 0x45,
               0xb2, 0xbe, 0xc4, 0xea]
  {
    hide Pad, Spelled, WordsAt, Rounds, Digest, Fold, Example;
    ExampleParts();
    var s := Pad(Example());
    var b1: Block, b2: Block := s[..64], s[64..];
    assert b1[0..32] == s[..32] && b1[32..64] == s[32..64] && b2[0..32] == s[64..96] && b2[32..64] == s[96..];
    SpelledWords(b1, 0, FirstWords0);
    SpelledWords(b1, 8, FirstWords1);
    FirstCompressed(b1);
    SpelledWords(b2, 0, SecondWords0);
    SpelledWords(b2, 8, SecondWords1);
    SecondCompressed(b2);
    ExampleFold(s, b1, b2);
    ExampleSums();
    DigestOf(Example());
    ResultBytes();
  }

  lemma DigestOf(m: bytes)
    ensures Digest(m) == HashBytes(Fold(H0, Pad(m)))
  {
    hide Fold, Pad, HashBytes;
  }

  lemma ExampleFold(s: bytes, b1: Block, b2: Block)
    requires |s| == 128 && b1 == s[..64] && b2 == s[64..]
    ensures Fold(H0, s) == Compress(Compress(H0, b1), b2)
  {
    hide Compress, Fold;
    FoldNext(H0, s);
    FoldBlock(Compress(H0, b1), b2);
  }

  lemma ExampleSums()
    ensures H0 == FirstState0 && Sum(FirstState0, FirstState10) == SecondState0
    ensures Sum(SecondState0, SecondState10) == Hash(0xb37a4f2c, 0xc0624f16, 0x90f64606, 0xcf385945, 0xb2bec4ea)
  {
  }

  lemma ResultBytes()
    ensures HashBytes(Hash(0xb37a4f2c, 0xc0624f16, 0x90f64606, 0xcf385945, 0xb2bec4ea)) ==
              [0xb3, 0x7a, 0x4f, 0x2c, 0xc0, 0x62, 0x4f, 0x16, 0x90, 0xf6, 0x46, 0x06, 0xcf, 0x38, 0x59, 0x45,
               0xb2, 0xbe, 0xc4, 0xea]
  {
    assert WordBytes(0xb37a4f2c) == [0xb3, 0x7a, 0x4f, 0x2c];
    assert WordBytes(0xc0624f16) == [0xc0, 0x62, 0x4f, 0x16];
    assert WordBytes(0x90f64606) == [0x90, 0xf6, 0x46, 0x06];
    assert WordBytes(0xcf385945) == [0xcf, 0x38, 0x59, 0x45];
    assert WordBytes(0xb2bec4ea) == [0xb2, 0xbe, 0xc4, 0xea];
  }
}
