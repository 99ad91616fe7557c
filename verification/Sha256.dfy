/** SHA-256 as the codec uses it, against section 6.2 of FIPS 180-4, and the hash of a number's decimal
    form. The C++ and the Swift function run the same loops. */
module Sha256 {
  import opened Bytes
  import opened ShaPadding
  import opened ShaWords

  datatype Hash = Hash(a: bv32, b: bv32, c: bv32, d: bv32, e: bv32, f: bv32, g: bv32, h: bv32)

  const H0 := Hash(0x6a09e667, 0xbb67ae85, 0x3c6ef372, 0xa54ff53a, 0x510e527f, 0x9b05688c, 0x1f83d9ab, 0x5be0cd19)

  /** The round constants of section 4.2.2 of FIPS 180-4. */
  function Constants(): (k: seq<bv32>)
    ensures |k| == 64
  {
    [0x428a2f98, 0x71374491, 0xb5c0fbcf, 0xe9b5dba5, 0x3956c25b, 0x59f111f1, 0x923f82a4, 0xab1c5ed5]
    + [0xd807aa98, 0x12835b01, 0x243185be, 0x550c7dc3, 0x72be5d74, 0x80deb1fe, 0x9bdc06a7, 0xc19bf174]
    + [0xe49b69c1, 0xefbe4786, 0x0fc19dc6, 0x240ca1cc, 0x2de92c6f, 0x4a7484aa, 0x5cb0a9dc, 0x76f988da]
    + [0x983e5152, 0xa831c66d, 0xb00327c8, 0xbf597fc7, 0xc6e00bf3, 0xd5a79147, 0x06ca6351, 0x14292967]
    + [0x27b70a85, 0x2e1b2138, 0x4d2c6dfc, 0x53380d13, 0x650a7354, 0x766a0abb, 0x81c2c92e, 0x92722c85]
    + [0xa2bfe8a1, 0xa81a664b, 0xc24b8b70, 0xc76c51a3, 0xd192e819, 0xd6990624, 0xf40e3585, 0x106aa070]
    + [0x19a4c116, 0x1e376c08, 0x2748774c, 0x34b0bcb5, 0x391c0cb3, 0x4ed8aa4a, 0x5b9cca4f, 0x682e6ff3]
    + [0x748f82ee, 0x78a5636f, 0x84c87814, 0x8cc70208, 0x90befffa, 0xa4506ceb, 0xbef9a3f7, 0xc67178f2]
  }

  // ----- specification -----

  function Constant(t: nat): (k: bv32)
    requires t < 64
  {
    Constants()[t]
  }

  function WordAt(block: bytes, t: nat): (w: bv32)
    requires |block| == 64 && t < 16
  {
    Word(block[4 * t], block[4 * t + 1], block[4 * t + 2], block[4 * t + 3])
  }

  /** ROTR of the standard. */
  function Rot(x: bv32, n: nat): (r: bv32)
    requires n < 32
  {
    x.RotateRight(n)
  }

  function Xor3(x: bv32, y: bv32, z: bv32): (r: bv32) { x ^ y ^ z }

  function SmallSigma0(x: bv32): (r: bv32) { Xor3(Rot(x, 7), Rot(x, 18), x >> 3) }
  function SmallSigma1(x: bv32): (r: bv32) { Xor3(Rot(x, 17), Rot(x, 19), x >> 10) }
  function BigSigma0(x: bv32): (r: bv32) { Xor3(Rot(x, 2), Rot(x, 13), Rot(x, 22)) }
  function BigSigma1(x: bv32): (r: bv32) { Xor3(Rot(x, 6), Rot(x, 11), Rot(x, 25)) }
  function Ch(x: bv32, y: bv32, z: bv32): (r: bv32) { (x & y) ^ (!x & z) }
  function Maj(x: bv32, y: bv32, z: bv32): (r: bv32) { (x & y) ^ (x & z) ^ (y & z) }
  function Add(x: bv32, y: bv32): (r: bv32) { x + y }

  function NextWord(w2: bv32, w7: bv32, w15: bv32, w16: bv32): (w: bv32) {
    Add(Add(Add(w16, SmallSigma0(w15)), w7), SmallSigma1(w2))
  }

  function Schedule(block: bytes, t: nat): (w: bv32)
    requires |block| == 64 && t < 64
  {
    if t < 16 then WordAt(block, t)
    else NextWord(Schedule(block, t - 2), Schedule(block, t - 7), Schedule(block, t - 15), Schedule(block, t - 16))
  }

  function Temp1(x: Hash, k: bv32, w: bv32): (r: bv32) {
    Add(Add(Add(Add(x.h, BigSigma1(x.e)), Ch(x.e, x.f, x.g)), k), w)
  }

  function Temp2(x: Hash): (r: bv32) { Add(BigSigma0(x.a), Maj(x.a, x.b, x.c)) }

  function Round(x: Hash, k: bv32, w: bv32): (r: Hash) {
    Hash(Add(Temp1(x, k, w), Temp2(x)), x.a, x.b, x.c, Add(x.d, Temp1(x, k, w)), x.e, x.f, x.g)
  }

  function Rounds(h: Hash, block: bytes, t: nat): (r: Hash)
    requires |block| == 64 && t <= 64
  {
    if t == 0 then h else Round(Rounds(h, block, t - 1), Constant(t - 1), Schedule(block, t - 1))
  }

  function Sum(h: Hash, x: Hash): (r: Hash) {
    Hash(h.a + x.a, h.b + x.b, h.c + x.c, h.d + x.d, h.e + x.e, h.f + x.f, h.g + x.g, h.h + x.h)
  }

  function Compress(h: Hash, block: Block): (r: Hash) {
    Sum(h, Rounds(h, block, |Constants()|))
  }

  function HashBytes(x: Hash): (s: bytes)
    ensures |s| == 32
  {
    WordBytes(x.a) + WordBytes(x.b) + WordBytes(x.c) + WordBytes(x.d)
    + WordBytes(x.e) + WordBytes(x.f) + WordBytes(x.g) + WordBytes(x.h)
  }

  function Digest(msg: bytes): (s: bytes)
    ensures |s| == 32
  {
    HashBytes(FoldBlocks(Compress, H0, Blocks(Pad(msg))))
  }

  // ----- the code -----

  function Rotr(x: bv32, n: bv32): (r: bv32)
    requires 0 < n < 32
  {
    (x >> n) | (x << (32 - n))
  }

  // The four sums of shifted words, as the loops compute them.
  function CodeS0(x: bv32): (r: bv32) { Xor3(Rotr(x, 2), Rotr(x, 13), Rotr(x, 22)) }
  function CodeS1(x: bv32): (r: bv32) { Xor3(Rotr(x, 6), Rotr(x, 11), Rotr(x, 25)) }
  function CodeLittleS0(x: bv32): (r: bv32) { Xor3(Rotr(x, 7), Rotr(x, 18), x >> 3) }
  function CodeLittleS1(x: bv32): (r: bv32) { Xor3(Rotr(x, 17), Rotr(x, 19), x >> 10) }

  /** They are the sigma functions of section 4.1.2 of FIPS 180-4. */
  lemma CodeSigmas(x: bv32)
    ensures CodeS0(x) == BigSigma0(x) && CodeS1(x) == BigSigma1(x)
    ensures CodeLittleS0(x) == SmallSigma0(x) && CodeLittleS1(x) == SmallSigma1(x)
  {
    hide Rotr, Rot, Xor3;
    RotrIsRotate(x);
  }

  lemma RotrIsRotate(x: bv32)
    ensures Rotr(x, 7) == Rot(x, 7) && Rotr(x, 18) == Rot(x, 18) && Rotr(x, 17) == Rot(x, 17) && Rotr(x, 19) == Rot(x, 19)
    ensures Rotr(x, 2) == Rot(x, 2) && Rotr(x, 13) == Rot(x, 13) && Rotr(x, 22) == Rot(x, 22)
    ensures Rotr(x, 6) == Rot(x, 6) && Rotr(x, 11) == Rot(x, 11) && Rotr(x, 25) == Rot(x, 25)
  {
  }

  method MixWords(w2: bv32, w7: bv32, w15: bv32, w16: bv32) returns (w: bv32)
    ensures w == NextWord(w2, w7, w15, w16)
  {
    hide CodeLittleS0, CodeLittleS1, SmallSigma0, SmallSigma1, Add;
    CodeSigmas(w15);
    CodeSigmas(w2);
    var s0, s1 := CodeLittleS0(w15), CodeLittleS1(w2);
    w := Add(Add(Add(w16, s0), w7), s1);
  }

  method Expand(block: bytes) returns (w: array<bv32>)
    requires |block| == 64
    ensures fresh(w) && w.Length == 64 && forall j :: 0 <= j < 64 ==> w[j] == Schedule(block, j)
  {
    hide WordAt, NextWord;
    w := new bv32[64](i => 0);
    var i := 0;
    while i < 16
      invariant 0 <= i <= 16
      invariant forall j :: 0 <= j < i ==> w[j] == Schedule(block, j)
    {
      w[i] := WordAt(block, i);
      i := i + 1;
    }
    while i < 64
      invariant 16 <= i <= 64
      invariant forall j :: 0 <= j < i ==> w[j] == Schedule(block, j)
    {
      w[i] := MixWords(w[i - 2], w[i - 7], w[i - 15], w[i - 16]);
      i := i + 1;
    }
  }

  /** One turn of the round loop, over the eight local variables. */
  method OneRound(x: Hash, k: bv32, w: bv32) returns (r: Hash)
    ensures r == Round(x, k, w)
  {
    hide CodeS0, CodeS1, BigSigma0, BigSigma1, Add, Ch, Maj;
    var a, b, c, d, e, f, g, h := x.a, x.b, x.c, x.d, x.e, x.f, x.g, x.h;
    CodeSigmas(e);
    CodeSigmas(a);
    var temp1 := Add(Add(Add(Add(h, CodeS1(e)), Ch(e, f, g)), k), w);
    var temp2 := Add(CodeS0(a), Maj(a, b, c));
    h, g, f, e, d, c, b, a := g, f, e, Add(d, temp1), c, b, a, Add(temp1, temp2);
    r := Hash(a, b, c, d, e, f, g, h);
  }

  method CompressBlock(h: Hash, block: bytes) returns (r: Hash)
    requires |block| == 64
    ensures r == Compress(h, block)
  {
    hide Schedule, Round, Sum, Constant;
    var w := Expand(block);
    var x := h;
    var i := 0;
    while i < 64
      invariant 0 <= i <= 64
      invariant x == Rounds(h, block, i)
      invariant forall j :: 0 <= j < 64 ==> w[j] == Schedule(block, j)
    {
      x := OneRound(x, Constant(i), w[i]);
      i := i + 1;
    }
    r := Sum(h, x);
  }

  /** Pad, then fold the blocks: the whole function is the recursive specification. */
  method HashOnce(data: bytes) returns (digest: bytes)
    ensures digest == Digest(data)
  {
    hide Compress, Pad, HashBytes;
    var msg := PadMessage(data);
    var h := H0;
    var off := 0;
    assert msg[0..] == msg;
    while off < |msg|
      invariant 0 <= off <= |msg| && off % 64 == 0
      invariant FoldBlocks(Compress, H0, Blocks(msg)) == FoldBlocks(Compress, h, Blocks(msg[off..]))
    {
      assert msg[off..][..64] == msg[off..off + 64];
      assert msg[off..][64..] == msg[off + 64..];
      assert Blocks(msg[off..])[1..] == Blocks(msg[off + 64..]);
      h := CompressBlock(h, msg[off..off + 64]);
      off := off + 64;
    }
    digest := HashBytes(h);
  }

  // ----- the hash of a number -----

  /** `std::to_string`. */
  function Decimal(v: int): (s: bytes)
    decreases v < 0, if v < 0 then -v else v
  {
    if v < 0 then [0x2D] + Decimal(-v)
    else if v < 10 then [(0x30 + v) as byte]
    else Decimal(v / 10) + [(0x30 + v % 10) as byte]
  }

  function ParseDigits(s: bytes): (v: int) {
    if s == [] then 0 else ParseDigits(s[..|s| - 1]) * 10 + (s[|s| - 1] as int - 0x30)
  }

  function ParseDecimal(s: bytes): (v: int) {
    if s != [] && s[0] == 0x2D then -ParseDigits(s[1..]) else ParseDigits(s)
  }

  lemma {:induction false} DecimalDigits(v: nat)
    ensures Decimal(v) != [] && (forall i :: 0 <= i < |Decimal(v)| ==> 0x30 <= Decimal(v)[i] <= 0x39)
    ensures ParseDigits(Decimal(v)) == v
  {
    if v < 10 {
      assert Decimal(v)[..0] == [];
    } else {
      DecimalDigits(v / 10);
      var s := Decimal(v);
      assert s[..|s| - 1] == Decimal(v / 10);
    }
  }

  /** The decimal form is ASCII and determines the number, so a reply that carries it carries the id. */
  lemma DecimalRoundTrip(v: int)
    ensures ParseDecimal(Decimal(v)) == v
    ensures forall i :: 0 <= i < |Decimal(v)| ==> Decimal(v)[i] < 0x80
  {
    hide ParseDigits;
    if v < 0 {
      DecimalDigits(-v);
      assert Decimal(v)[1..] == Decimal(-v);
    } else {
      DecimalDigits(v);
    }
  }

  function HexDigit(v: nat): (b: byte)
    requires v < 16
    ensures b < 0x80
  {
    if v < 10 then 0x30 + v else 0x57 + v
  }

  function Hex(s: bytes): (r: bytes)
    ensures |r| == 2 * |s|
    ensures forall i :: 0 <= i < |r| ==> r[i] < 0x80
  {
    if s == [] then [] else [HexDigit(s[0] / 16), HexDigit(s[0] % 16)] + Hex(s[1..])
  }

  /** The first five bytes of the SHA-256 of the decimal form, in lower-case hexadecimal. */
  function HashNumber(v: int): (s: bytes)
    ensures |s| == 10 && forall i :: 0 <= i < |s| ==> s[i] < 0x80
  {
    Hex(Digest(Decimal(v))[..5])
  }

  function HexValue(b: byte): (v: nat) {
    if b >= 0x61 then b - 0x57 else if b >= 0x30 then b - 0x30 else 0
  }

  /** The reading of a text as pairs of hexadecimal digits. */
  function Unhex(s: bytes): (r: seq<nat>) {
    if |s| < 2 then [] else [HexValue(s[0]) * 16 + HexValue(s[1])] + Unhex(s[2..])
  }

  lemma {:induction false} HexRoundTrip(s: bytes)
    ensures Unhex(Hex(s)) == s
  {
    if s != [] {
      HexRoundTrip(s[1..]);
      assert Hex(s)[2..] == Hex(s[1..]);
      assert s == [s[0]] + s[1..];
    }
  }

  lemma {:induction false} HexAppend(s: bytes, b: byte)
    ensures Hex(s + [b]) == Hex(s) + [HexDigit(b / 16), HexDigit(b % 16)]
  {
    if s == [] {
      assert [b][1..] == [];
    } else {
      HexAppend(s[1..], b);
      assert (s + [b])[1..] == s[1..] + [b];
    }
  }

  /** `hashNumber`: five bytes of the digest, printed one by one. */
  method HashNumberCpp(num: int) returns (s: bytes)
    ensures s == HashNumber(num)
    ensures Unhex(s) == Digest(Decimal(num))[..5]
  {
    hide Digest, Decimal, Hex, Unhex;
    var hash := HashOnce(Decimal(num));
    s := [];
    assert Hex(hash[..0]) == [] by { HexEmpty(); assert hash[..0] == []; }
    for i := 0 to 5
      invariant s == Hex(hash[..i])
    {
      HexAppend(hash[..i], hash[i]);
      assert hash[..i + 1] == hash[..i] + [hash[i]];
      s := s + [HexDigit(hash[i] / 16), HexDigit(hash[i] % 16)];
    }
    HexRoundTrip(hash[..5]);
  }

  lemma HexEmpty()
    ensures Hex([]) == []
  {
  }
}
