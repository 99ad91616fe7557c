/** Padding and the block fold that SHA-1 and SHA-256 share (sections 5.1.1 and 6 of FIPS 180-4). */
module ShaPadding {
  import opened Bytes

  function Zeros(n: nat): (s: bytes)
    ensures |s| == n && forall i :: 0 <= i < n ==> s[i] == 0
  {
    seq(n, i => 0)
  }

  type Block = b: bytes | |b| == 64 witness Zeros(64)

  /** A padded message, cut into blocks. */
  function Blocks(msg: bytes): (bs: seq<Block>)
    requires |msg| % 64 == 0
    decreases |msg|
  {
    if msg == [] then [] else [msg[..64]] + Blocks(msg[64..])
  }

  /** The hash loop, for any compression function. */
  function FoldBlocks<H>(compress: (H, Block) -> H, h: H, bs: seq<Block>): (r: H) {
    if bs == [] then h else FoldBlocks(compress, compress(h, bs[0]), bs[1..])
  }

  /** The number of zero bytes after the 0x80: the least that leaves eight bytes in the last block. */
  function ZeroCount(n: nat): (k: nat)
    ensures k < 64 && (n + 1 + k) % 64 == 56
  {
    (55 - n) % 64
  }

  /** The padded message; the length field holds 64 bits. */
  function Pad(msg: bytes): (s: bytes)
    ensures |s| == |msg| + 9 + ZeroCount(|msg|) && |s| % 64 == 0
  {
    WholeBlocks(|msg| + 1 + ZeroCount(|msg|));
    msg + [0x80] + Zeros(ZeroCount(|msg|)) + U64(8 * |msg|)
  }

  lemma WholeBlocks(n: nat)
    requires n % 64 == 56
    ensures (n + 8) % 64 == 0
  {
  }

  /** No fewer zero bytes would do. */
  lemma ZeroCountLeast(n: nat, k: nat)
    requires (n + 1 + k) % 64 == 56
    ensures ZeroCount(n) <= k
  {
  }

  /** Different messages of a size the length field can state have different padded forms. */
  lemma PadInjective(a: bytes, b: bytes)
    requires |a| < TWO_61 && |b| < TWO_61 && Pad(a) == Pad(b)
    ensures a == b
  {
    hide ToBigEndian, Pow256, FromBigEndian;
    var s := Pad(a);
    assert s[|s| - 8..] == U64(8 * |a|) && s[|s| - 8..] == U64(8 * |b|);
    Pow256Values();
    FromToBigEndian(8 * |a|, 8);
    FromToBigEndian(8 * |b|, 8);
    assert s[..|a|] == a && s[..|a|] == b;
  }

  /** The padding loop of the one-shot hashes. */
  method PadMessage(data: bytes) returns (msg: bytes)
    ensures msg == Pad(data)
  {
    hide ToBigEndian, Pow256;
    msg := data + [0x80];
    ghost var k := 0;
    assert Zeros(0) == [];
    while |msg| % 64 != 56
      invariant k <= ZeroCount(|data|)
      invariant msg == data + [0x80] + Zeros(k)
      decreases ZeroCount(|data|) - k
    {
      assert k != ZeroCount(|data|);
      assert Zeros(k) + [0] == Zeros(k + 1);
      msg := msg + [0];
      k := k + 1;
    }
    ZeroCountLeast(|data|, k);
    var bitLen := (8 * |data|) % TWO_64;
    BitLength(|data|);
    ghost var head := msg;
    ToBigEndianHead(bitLen, 8);
    EmptyLength(bitLen);
    Identity(U64(bitLen));
    var i := 7;
    while i >= 0
      invariant -1 <= i <= 7
      invariant msg + ToBigEndian(bitLen, i + 1) == head + U64(bitLen)
    {
      ToBigEndianHead(bitLen, i + 1);
      var b: byte := (bitLen / Pow256(i)) % 256;
      Assoc(msg, [b], ToBigEndian(bitLen, i));
      msg := msg + [b];
      i := i - 1;
    }
    Identity(msg);
  }

  lemma EmptyLength(v: nat)
    ensures ToBigEndian(v, 0) == []
  {
  }

  /** A 64-bit count of bits, whatever the size of the message. */
  lemma BitLength(n: nat)
    ensures U64((8 * n) % TWO_64) == U64(8 * n)
  {
    Pow256Values();
    ToBigEndianMod(8 * n, 8);
  }
}

/** Big-endian 32-bit words of the two hashes. */
module ShaWords {
  import opened Bytes

  function Widen(b: byte): (w: bv32) { (b as bv8) as bv32 }

  function Word(b0: byte, b1: byte, b2: byte, b3: byte): (w: bv32) {
    (Widen(b0) << 24) | (Widen(b1) << 16) | (Widen(b2) << 8) | Widen(b3)
  }

  function WordBytes(w: bv32): (s: bytes)
    ensures |s| == 4
  {
    [((w >> 24) as bv8) as int, (((w >> 16) & 0xFF) as bv8) as int, (((w >> 8) & 0xFF) as bv8) as int, ((w & 0xFF) as bv8) as int]
  }

  lemma ThroughInt(x: bv8)
    ensures (x as int) as bv8 == x
  {
  }

  /** Bytes written out most significant first are read back as the same word. */
  lemma WordRoundTrip(w: bv32)
    ensures var s := WordBytes(w); Word(s[0], s[1], s[2], s[3]) == w
  {
    ThroughInt((w >> 24) as bv8);
    ThroughInt(((w >> 16) & 0xFF) as bv8);
    ThroughInt(((w >> 8) & 0xFF) as bv8);
    ThroughInt((w & 0xFF) as bv8);
  }
}

/** SHA-1: the streaming C++ form and the one-shot Swift form, against section 6.1 of FIPS 180-4. */
module Sha1 {
  import opened Bytes
  import opened ShaPadding
  import opened ShaWords

  datatype Hash = Hash(a: bv32, b: bv32, c: bv32, d: bv32, e: bv32)

  const H0 := Hash(0x67452301, 0xEFCDAB89, 0x98BADCFE, 0x10325476, 0xC3D2E1F0)

  // ----- specification -----

  function WordAt(block: bytes, t: nat): (w: bv32)
    requires |block| == 64 && t < 16
  {
    Word(block[4 * t], block[4 * t + 1], block[4 * t + 2], block[4 * t + 3])
  }

  function Schedule(block: bytes, t: nat): (w: bv32)
    requires |block| == 64 && t < 80
  {
    if t < 16 then WordAt(block, t)
    else NextWord(Schedule(block, t - 3), Schedule(block, t - 8), Schedule(block, t - 14), Schedule(block, t - 16))
  }

  function NextWord(w3: bv32, w8: bv32, w14: bv32, w16: bv32): (w: bv32) { Rot(w3 ^ w8 ^ w14 ^ w16, 1) }

  /** ROTL of the standard. */
  function Rot(x: bv32, n: nat): (r: bv32)
    requires n < 32
  {
    x.RotateLeft(n)
  }

  function Ch(x: bv32, y: bv32, z: bv32): (r: bv32) { (x & y) ^ (!x & z) }
  function Parity(x: bv32, y: bv32, z: bv32): (r: bv32) { x ^ y ^ z }
  function Maj(x: bv32, y: bv32, z: bv32): (r: bv32) { (x & y) ^ (x & z) ^ (y & z) }

  function Mix(t: nat, x: bv32, y: bv32, z: bv32): (r: bv32)
  {
    if t < 20 then Ch(x, y, z) else if t < 40 then Parity(x, y, z) else if t < 60 then Maj(x, y, z) else Parity(x, y, z)
  }

  function RoundConstant(t: nat): (k: bv32) {
    if t < 20 then 0x5A827999 else if t < 40 then 0x6ED9EBA1 else if t < 60 then 0x8F1BBCDC else 0xCA62C1D6
  }

  function Round(h: Hash, t: nat, w: bv32): (r: Hash) {
    Hash(Sum5(Rot(h.a, 5), Mix(t, h.b, h.c, h.d), h.e, RoundConstant(t), w), h.a, Rot(h.b, 30), h.c, h.d)
  }

  function Sum5(a: bv32, b: bv32, c: bv32, d: bv32, e: bv32): (r: bv32) { a + b + c + d + e }

  function Rounds(h: Hash, block: bytes, t: nat): (r: Hash)
    requires |block| == 64 && t <= 80
  {
    if t == 0 then h else Round(Rounds(h, block, t - 1), t - 1, Schedule(block, t - 1))
  }

  function Compress(h: Hash, block: Block): (r: Hash) { Sum(h, Rounds(h, block, 80)) }

  function Sum(h: Hash, x: Hash): (r: Hash) {
    Hash(Add(h.a, x.a), Add(h.b, x.b), Add(h.c, x.c), Add(h.d, x.d), Add(h.e, x.e))
  }

  function Add(x: bv32, y: bv32): (r: bv32) { x + y }

  function Fold(h: Hash, msg: bytes): (r: Hash)
    requires |msg| % 64 == 0
  {
    FoldBlocks(Compress, h, Blocks(msg))
  }

  lemma FoldNext(h: Hash, msg: bytes)
    requires |msg| % 64 == 0
    ensures Fold(h, msg) == if msg == [] then h else Fold(Compress(h, msg[..64]), msg[64..])
  {
    hide Compress;
    if msg != [] { assert Blocks(msg)[1..] == Blocks(msg[64..]); }
  }

  function HashBytes(h: Hash): (s: bytes)
    ensures |s| == 20
  {
    WordBytes(h.a) + WordBytes(h.b) + WordBytes(h.c) + WordBytes(h.d) + WordBytes(h.e)
  }

  function Digest(msg: bytes): (s: bytes)
    ensures |s| == 20
  {
    HashBytes(Fold(H0, Pad(msg)))
  }

  lemma {:induction false} FoldAppend(h: Hash, a: bytes, b: bytes)
    requires |a| % 64 == 0 && |b| % 64 == 0
    ensures Fold(h, a + b) == Fold(Fold(h, a), b)
    decreases |a|
  {
    hide Compress, Fold;
    FoldNext(h, a);
    FoldNext(h, a + b);
    if a == [] {
      Identity(b);
    } else {
      assert (a + b)[..64] == a[..64] && (a + b)[64..] == a[64..] + b;
      FoldAppend(Compress(h, a[..64]), a[64..], b);
    }
  }

  lemma FoldBlock(h: Hash, block: bytes)
    requires |block| == 64
    ensures Fold(h, block) == Compress(h, block)
  {
    hide Compress, Fold;
    assert block[..64] == block && block[64..] == [];
    FoldNext(h, block);
    FoldNext(Compress(h, block), []);
  }

  // ----- the compression loop -----

  /** Rotation by shifts, as written. */
  function Rotl(x: bv32, n: bv32): (r: bv32)
    requires 0 < n < 32
  {
    (x << n) | (x >> (32 - n))
  }

  lemma RotlIsRotate(x: bv32)
    ensures Rotl(x, 1) == Rot(x, 1) && Rotl(x, 5) == Rot(x, 5) && Rotl(x, 30) == Rot(x, 30)
  {
  }

  /** The forms with `|` in the code are the exclusive-or forms of the standard. */
  lemma CodeForms(x: bv32, y: bv32, z: bv32)
    ensures (x & y) | (!x & z) == Ch(x, y, z)
    ensures (x & y) | (x & z) | (y & z) == Maj(x, y, z)
  {
  }

  /** The first half of `transform`: the schedule array. */
  method Expand(data: bytes) returns (w: array<bv32>)
    requires |data| == 64
    ensures fresh(w) && w.Length == 80 && forall j :: 0 <= j < 80 ==> w[j] == Schedule(data, j)
  {
    hide WordAt, NextWord;
    w := new bv32[80](i => 0);
    var i := 0;
    while i < 16
      invariant 0 <= i <= 16
      invariant forall j :: 0 <= j < i ==> w[j] == Schedule(data, j)
    {
      w[i] := WordAt(data, i);
      i := i + 1;
    }
    while i < 80
      invariant 16 <= i <= 80
      invariant forall j :: 0 <= j < i ==> w[j] == Schedule(data, j)
    {
      w[i] := MixWords(w[i - 3], w[i - 8], w[i - 14], w[i - 16]);
      i := i + 1;
    }
  }

  method MixWords(w3: bv32, w8: bv32, w14: bv32, w16: bv32) returns (w: bv32)
    ensures w == NextWord(w3, w8, w14, w16)
  {
    hide Rotl, Rot;
    RotlIsRotate(w3 ^ w8 ^ w14 ^ w16);
    w := Rotl(w3 ^ w8 ^ w14 ^ w16, 1);
  }

  /** The branch of the round loop. */
  method Select(i: nat, b: bv32, c: bv32, d: bv32) returns (f: bv32, k: bv32)
    ensures f == Mix(i, b, c, d) && k == RoundConstant(i)
  {
    hide Ch, Maj, Parity;
    CodeForms(b, c, d);
    ParityForm(b, c, d);
    if i < 20 { f, k := (b & c) | (!b & d), 0x5A827999; }
    else if i < 40 { f, k := b ^ c ^ d, 0x6ED9EBA1; }
    else if i < 60 { f, k := (b & c) | (b & d) | (c & d), 0x8F1BBCDC; }
    else { f, k := b ^ c ^ d, 0xCA62C1D6; }
  }

  /** One turn of the round loop, over the five local variables. */
  method OneRound(x: Hash, i: nat, w: bv32) returns (r: Hash)
    ensures r == Round(x, i, w)
  {
    hide Mix, RoundConstant, Rotl, Rot, Sum5;
    var a, b, c, d, e := x.a, x.b, x.c, x.d, x.e;
    var f, k := Select(i, b, c, d);
    RotlIsRotate(a);
    RotlIsRotate(b);
    var temp := Sum5(Rotl(a, 5), f, e, k, w);
    e, d, c, b, a := d, c, Rotl(b, 30), a, temp;
    r := Hash(a, b, c, d, e);
  }

  /** `transform`: the schedule, then eighty rounds, then the sum. */
  method Transform(h: Hash, data: bytes) returns (r: Hash)
    requires |data| == 64
    ensures r == Compress(h, data)
  {
    hide Schedule, Round, Sum, Add;
    var w := Expand(data);
    var x := h;
    var i := 0;
    while i < 80
      invariant 0 <= i <= 80
      invariant x == Rounds(h, data, i)
      invariant forall j :: 0 <= j < 80 ==> w[j] == Schedule(data, j)
    {
      x := OneRound(x, i, w[i]);
      i := i + 1;
    }
    r := Hash(Add(h.a, x.a), Add(h.b, x.b), Add(h.c, x.c), Add(h.d, x.d), Add(h.e, x.e));
    SumOf(h, x);
  }

  lemma SumOf(h: Hash, x: Hash)
    ensures Sum(h, x) == Hash(Add(h.a, x.a), Add(h.b, x.b), Add(h.c, x.c), Add(h.d, x.d), Add(h.e, x.e))
  {
    hide Add;
  }

  /** What compression adds to each word of the state it is given is that word after round 80. */
  lemma CompressAdds(h: Hash, block: Block)
    ensures var x := Rounds(h, block, 80);
            Compress(h, block) == Hash(Add(h.a, x.a), Add(h.b, x.b), Add(h.c, x.c), Add(h.d, x.d), Add(h.e, x.e))
  {
    hide Rounds, Add;
  }

  /** The round constants are the square roots of 2, 3, 5 and 10, cut off 30 bits behind the point. */
  lemma ConstantRoots(t: nat)
    ensures var k := RoundConstant(t) as int;
            var n := if t < 20 then 2 else if t < 40 then 3 else if t < 60 then 5 else 10;
            k * k <= n * 0x1000_0000_0000_0000 < (k + 1) * (k + 1)
  {
  }

  lemma ParityForm(x: bv32, y: bv32, z: bv32)
    ensures x ^ y ^ z == Parity(x, y, z)
  {
  }

  /** Swift's one-shot hash: pad, then fold the blocks. */
  method HashOnce(data: bytes) returns (digest: bytes)
    ensures digest == Digest(data)
  {
    hide Compress, Pad, HashBytes;
    var msg := PadMessage(data);
    var h := H0;
    var blockStart := 0;
    assert msg[0..] == msg;
    while blockStart < |msg|
      invariant 0 <= blockStart <= |msg| && blockStart % 64 == 0
      invariant Fold(H0, msg) == Fold(h, msg[blockStart..])
    {
      assert msg[blockStart..][..64] == msg[blockStart..blockStart + 64];
      assert msg[blockStart..][64..] == msg[blockStart + 64..];
      h := Transform(h, msg[blockStart..blockStart + 64]);
      blockStart := blockStart + 64;
    }
    digest := HashBytes(h);
  }

  // ----- the streaming form -----

  /** The last one or two blocks: what is buffered, the padding, and the length. */
  function LastBlocks(tail: bytes, bits: nat): (s: bytes)
    requires |tail| < 64
  {
    if |tail| < 56 then tail + [0x80] + Zeros(55 - |tail|) + U64(bits)
    else (tail + [0x80] + Zeros(63 - |tail|)) + (Zeros(56) + U64(bits))
  }

  lemma PadSplit(msg: bytes, n: nat)
    requires n <= |msg| && n % 64 == 0 && |msg| - n < 64
    ensures Pad(msg) == msg[..n] + LastBlocks(msg[n..], 8 * |msg|)
  {
    hide ToBigEndian;
    var tail := msg[n..];
    assert msg == msg[..n] + tail;
    if |tail| < 56 {
      assert ZeroCount(|msg|) == 55 - |tail|;
    } else {
      assert ZeroCount(|msg|) == 119 - |tail|;
      assert Zeros(119 - |tail|) == Zeros(63 - |tail|) + Zeros(56);
    }
  }

  lemma LastBlocksLength(tail: bytes, bits: nat)
    requires |tail| < 64
    ensures |LastBlocks(tail, bits)| == if |tail| < 56 then 64 else 128
  {
  }

  lemma LastBlocksBits(tail: bytes, bits: nat, other: nat)
    requires |tail| < 64 && U64(bits) == U64(other)
    ensures LastBlocks(tail, bits) == LastBlocks(tail, other)
  {
  }

  lemma BitSum(n: nat, d: nat)
    ensures ((8 * n) % TWO_64 + d * 8) % TWO_64 == (8 * (n + d)) % TWO_64
  {
  }

  lemma FullBlock(done: bytes, block: bytes, h: Hash, bitlen: nat)
    requires |done| % 64 == 0 && |block| == 64
    requires h == Fold(H0, done) && bitlen == (8 * |done|) % TWO_64
    ensures |done + block| % 64 == 0 && Compress(h, block) == Fold(H0, done + block)
    ensures (bitlen + 512) % TWO_64 == (8 * |done + block|) % TWO_64
  {
    hide Compress, Fold;
    FoldAppend(H0, done, block);
    FoldBlock(h, block);
    BitSum(|done|, 64);
  }

  class Sha1Stream {
    var h: Hash
    var bitlen: nat
    const data: array<byte>
    var datalen: nat
    /** Every byte passed to `Update` so far. */
    ghost var msg: bytes

    ghost predicate Valid()
      reads this, data
    {
      data.Length == 64 && datalen < 64 && datalen <= |msg| && (|msg| - datalen) % 64 == 0
      && h == Fold(H0, msg[..|msg| - datalen])
      && data[..datalen] == msg[|msg| - datalen..]
      && bitlen == (8 * (|msg| - datalen)) % TWO_64
    }

    constructor ()
      ensures Valid() && fresh(data) && msg == []
    {
      h := H0;
      bitlen, datalen := 0, 0;
      data := new byte[64](i => 0);
      msg := [];
    }

    method Update(bytesIn: bytes)
      requires Valid()
      modifies this, data
      ensures Valid() && msg == old(msg) + bytesIn
    {
      hide Compress, Fold;
      var i := 0;
      Identity(msg);
      while i < |bytesIn|
        invariant 0 <= i <= |bytesIn|
        invariant Valid() && msg == old(msg) + bytesIn[..i]
      {
        assert bytesIn[..i + 1] == bytesIn[..i] + [bytesIn[i]];
        Absorb(bytesIn[i]);
        i := i + 1;
      }
      assert bytesIn[..i] == bytesIn;
    }

    /** The body of the update loop: store one byte, and compress when the buffer is full. */
    method Absorb(b: byte)
      requires Valid()
      modifies this, data
      ensures Valid() && msg == old(msg) + [b]
    {
      hide Compress, Fold;
      ghost var done, buffered := msg[..|msg| - datalen], data[..datalen];
      assert msg == done + buffered;
      data[datalen] := b;
      datalen := datalen + 1;
      msg := msg + [b];
      assert data[..datalen] == buffered + [b];
      Assoc(done, buffered, [b]);
      if datalen == 64 {
        ghost var block := data[..];
        assert data[..64] == block;
        FullBlock(done, block, h, bitlen);
        h := Transform(h, data[..]);
        bitlen := (bitlen + 512) % TWO_64;
        datalen := 0;
        assert msg == done + block;
        assert msg[..|msg|] == msg && msg[|msg|..] == [];
      } else {
        assert msg == done + data[..datalen];
        assert msg[..|done|] == done && msg[|done|..] == data[..datalen];
        assert |msg| - datalen == |done|;
      }
    }

    /** `final`, with the extra block when the buffer has no room left for the length. */
    method Final() returns (out: bytes)
      requires Valid()
      modifies this, data
      ensures out == Digest(old(msg))
    {
      hide Compress, Fold, ToBigEndian, HashBytes, Pad, LastBlocks;
      ghost var n := |msg| - datalen;
      ghost var tail := msg[n..];
      var totalBits := (bitlen + datalen * 8) % TWO_64;
      BitSum(n, datalen);
      BitLength(|msg|);
      PadSplit(msg, n);
      LastBlocksLength(tail, 8 * |msg|);
      FoldAppend(H0, msg[..n], LastBlocks(tail, 8 * |msg|));
      FinishBlocks(totalBits);
      LastBlocksBits(tail, totalBits, 8 * |msg|);
      out := HashBytes(h);
    }

    /** The padding part of `final`: the buffered bytes, 0x80, zeros and the length, compressed. */
    method FinishBlocks(totalBits: nat)
      requires data.Length == 64 && datalen < 64
      modifies this, data
      ensures msg == old(msg)
      ensures |LastBlocks(old(data[..datalen]), totalBits)| % 64 == 0
      ensures h == Fold(old(h), LastBlocks(old(data[..datalen]), totalBits))
    {
      hide Compress, Fold, ToBigEndian;
      ghost var tail, h0 := data[..datalen], h;
      LastBlocksLength(tail, totalBits);
      data[datalen] := 0x80;
      datalen := datalen + 1;
      assert data[..datalen] == tail + [0x80];
      ghost var len := U64(totalBits);
      if datalen > 56 {
        FillZeros(64);
        assert data[..] == data[..64];
        ghost var first := data[..];
        FoldAppend(h0, first, Zeros(56) + len);
        FoldBlock(h0, first);
        h := Transform(h, data[..]);
        datalen := 0;
        FillZeros(56);
        Identity(Zeros(56));
        assert data[..56] == Zeros(56);
        StoreLength(totalBits);
      } else {
        FillZeros(56);
        StoreLength(totalBits);
        Assoc(tail, [0x80], Zeros(55 - |tail|));
      }
      FoldBlock(h, data[..]);
      h := Transform(h, data[..]);
    }

    method FillZeros(limit: nat)
      requires data.Length == 64 && datalen <= limit <= 64
      modifies this`datalen, data
      ensures datalen == limit
      ensures data[..limit] == old(data[..datalen]) + Zeros(limit - old(datalen))
    {
      ghost var start := datalen;
      assert Zeros(0) == [];
      while datalen < limit
        invariant start <= datalen <= limit
        invariant data[..datalen] == old(data[..datalen]) + Zeros(datalen - start)
      {
        ghost var before := data[..datalen];
        data[datalen] := 0;
        assert data[..datalen + 1] == before + [0];
        assert Zeros(datalen - start) + [0] == Zeros(datalen + 1 - start);
        datalen := datalen + 1;
      }
    }

    method StoreLength(bits: nat)
      requires data.Length == 64
      modifies data
      ensures data[..] == old(data[..56]) + U64(bits)
    {
      hide ToBigEndian, Pow256;
      var i := 0;
      EmptyLength(bits);
      assert U64(bits)[..0] == [];
      while i < 8
        invariant 0 <= i <= 8
        invariant data[..56] == old(data[..56])
        invariant data[56..56 + i] == U64(bits)[..i]
      {
        LengthByte(bits, i);
        data[56 + i] := (bits / Pow256(7 - i)) % 256;
        i := i + 1;
      }
      assert data[..] == data[..56] + data[56..64];
      assert U64(bits)[..8] == U64(bits);
    }
  }

  lemma {:induction false} BigEndianAt(v: nat, n: nat, i: nat)
    requires i < n
    ensures ToBigEndian(v, n)[i] == (v / Pow256(n - 1 - i)) % 256
    decreases n
  {
    ToBigEndianHead(v, n);
    if i > 0 { BigEndianAt(v, n - 1, i - 1); }
  }

  lemma LengthByte(bits: nat, i: nat)
    requires i < 8
    ensures U64(bits)[i] == (bits / Pow256(7 - i)) % 256
  {
    BigEndianAt(bits, 8, i);
  }

  lemma FlattenAt(pieces: seq<bytes>, i: nat)
    requires i <= |pieces|
    ensures Flatten(pieces[i..]) == if i == |pieces| then [] else pieces[i] + Flatten(pieces[i + 1..])
  {
    if i < |pieces| { assert pieces[i..][1..] == pieces[i + 1..]; }
  }

  /** However a message is cut into `update` calls, streaming gives the one-shot digest. */
  method HashPieces(pieces: seq<bytes>) returns (digest: bytes)
    ensures digest == Digest(Flatten(pieces))
  {
    hide Compress, Fold, Digest, Sha1Stream.Valid, Flatten;
    var sha := new Sha1Stream();
    var i := 0;
    assert pieces[0..] == pieces;
    Identity(Flatten(pieces));
    while i < |pieces|
      invariant 0 <= i <= |pieces|
      invariant sha.Valid() && fresh(sha) && fresh(sha.data)
      invariant sha.msg + Flatten(pieces[i..]) == Flatten(pieces)
    {
      FlattenAt(pieces, i);
      Assoc(sha.msg, pieces[i], Flatten(pieces[i + 1..]));
      sha.Update(pieces[i]);
      i := i + 1;
    }
    FlattenAt(pieces, i);
    Identity(sha.msg);
    digest := sha.Final();
  }
}
