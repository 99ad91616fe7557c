/** Bytes, big-endian integers, two's complement and byte-wise exclusive or: the arithmetic that the
    codec and the frame layer share. A machine integer is an unbounded `int` with its width written
    out wherever the source truncates. */
module Bytes {

  type byte = x: int | 0 <= x < 256
  type bytes = seq<byte>

  const TWO_16: int := 0x1_0000
  const TWO_31: int := 0x8000_0000
  const TWO_32: int := 0x1_0000_0000
  const TWO_61: int := 0x2000_0000_0000_0000
  const TWO_63: int := 0x8000_0000_0000_0000
  const TWO_64: int := 0x1_0000_0000_0000_0000

  type u32 = x: int | 0 <= x < TWO_32
  type i32 = x: int | -TWO_31 <= x < TWO_31
  type i64 = x: int | -TWO_63 <= x < TWO_63

  // ----- big-endian naturals -----

  function Pow256(n: nat): (r: nat)
    ensures r > 0
  {
    if n == 0 then 1 else 256 * Pow256(n - 1)
  }

  /** The low `n` bytes of `v`, most significant first. */
  function ToBigEndian(v: nat, n: nat): (s: bytes)
    ensures |s| == n
    decreases n
  {
    if n == 0 then [] else ToBigEndian(v / 256, n - 1) + [v % 256]
  }

  function FromBigEndian(s: bytes): (v: nat)
  {
    if s == [] then 0 else FromBigEndian(s[..|s| - 1]) * 256 + s[|s| - 1]
  }

  lemma {:induction false} FromToBigEndian(v: nat, n: nat)
    requires v < Pow256(n)
    ensures FromBigEndian(ToBigEndian(v, n)) == v
    decreases n
  {
    if n > 0 {
      FromToBigEndian(v / 256, n - 1);
      var s := ToBigEndian(v, n);
      assert s[..|s| - 1] == ToBigEndian(v / 256, n - 1);
    }
  }

  lemma {:induction false} ToFromBigEndian(s: bytes)
    ensures FromBigEndian(s) < Pow256(|s|)
    ensures ToBigEndian(FromBigEndian(s), |s|) == s
  {
    if s != [] {
      var front := s[..|s| - 1];
      ToFromBigEndian(front);
      assert s == front + [s[|s| - 1]];
      var v := FromBigEndian(s);
      assert v == FromBigEndian(front) * 256 + s[|s| - 1];
      assert v / 256 == FromBigEndian(front) && v % 256 == s[|s| - 1];
    }
  }

  lemma Pow256Values()
    ensures Pow256(2) == TWO_16 && Pow256(4) == TWO_32 && Pow256(8) == TWO_64
  {
    assert Pow256(1) == 256;
    assert Pow256(3) == 256 * Pow256(2);
    assert Pow256(5) == 256 * Pow256(4);
    assert Pow256(6) == 256 * Pow256(5);
    assert Pow256(7) == 256 * Pow256(6);
  }

  /** Only the low `n` bytes of `v` are kept. */
  lemma {:induction false} ToBigEndianMod(v: nat, n: nat)
    ensures ToBigEndian(v % Pow256(n), n) == ToBigEndian(v, n)
    decreases n
  {
    if n > 0 {
      var p := Pow256(n - 1);
      DivDiv(v, p);
      var w := v % (256 * p);
      assert w == 256 * ((v / 256) % p) + v % 256;
      assert w / 256 == (v / 256) % p && w % 256 == v % 256;
      ToBigEndianMod(v / 256, n - 1);
    }
  }

  lemma ModUnique(v: nat, q: nat, p: nat, r: nat)
    requires p > 0 && r < p && v == q * p + r
    ensures v % p == r && v / p == q
  {
    var d := v / p - q;
    assert v == (v / p) * p + v % p;
    assert d * p == r - v % p;
    assert d >= 1 ==> d * p >= p;
    assert d <= -1 ==> d * p + p <= 0;
  }

  /** One byte more at the front: the head is the quotient by the weight of the tail. */
  lemma {:induction false} ToBigEndianHead(v: nat, n: nat)
    requires n > 0
    ensures ToBigEndian(v, n) == [(v / Pow256(n - 1)) % 256] + ToBigEndian(v, n - 1)
    decreases n
  {
    if n > 1 {
      ToBigEndianHead(v / 256, n - 1);
      DivDiv(v, Pow256(n - 2));
      assert ToBigEndian(v, n) == ToBigEndian(v / 256, n - 1) + [v % 256];
      assert ToBigEndian(v, n - 1) == ToBigEndian(v / 256, n - 2) + [v % 256];
    }
  }

  lemma DivDiv(v: nat, p: nat)
    requires p > 0
    ensures (v / 256) / p == v / (256 * p)
    ensures v % (256 * p) == 256 * ((v / 256) % p) + v % 256
  {
    var q, r := (v / 256) / p, (v / 256) % p;
    assert v / 256 == q * p + r;
    assert v == 256 * (q * p + r) + v % 256;
    assert v == q * (256 * p) + (256 * r + v % 256);
    ModUnique(v, q, 256 * p, 256 * r + v % 256);
  }

  lemma {:induction false} FromBigEndianAppend(s: bytes, t: bytes)
    ensures FromBigEndian(s + t) == FromBigEndian(s) * Pow256(|t|) + FromBigEndian(t)
    decreases |t|
  {
    if t == [] {
      assert s + t == s;
    } else {
      var front := t[..|t| - 1];
      FromBigEndianAppend(s, front);
      assert (s + t)[..|s + t| - 1] == s + front;
      var p := Pow256(|front|);
      assert Pow256(|t|) == 256 * p;
      assert (FromBigEndian(s) * p) * 256 == FromBigEndian(s) * (256 * p);
    }
  }

  // ----- fixed widths -----

  function U16(v: nat): (s: bytes) ensures |s| == 2 { ToBigEndian(v, 2) }
  function U32(v: nat): (s: bytes) ensures |s| == 4 { ToBigEndian(v, 4) }
  function U64(v: nat): (s: bytes) ensures |s| == 8 { ToBigEndian(v, 8) }

  lemma U32Bytes(v: nat)
    ensures U32(v) == [(v / 0x100_0000) % 256, (v / 0x1_0000) % 256, (v / 0x100) % 256, v % 256]
  {
    ToBigEndianHead(v, 4);
    ToBigEndianHead(v, 3);
    ToBigEndianHead(v, 2);
    ToBigEndianHead(v, 1);
    assert Pow256(1) == 256 && Pow256(2) == 0x1_0000 && Pow256(3) == 0x100_0000;
  }

  lemma U16Bytes(v: nat)
    ensures U16(v) == [(v / 0x100) % 256, v % 256]
  {
    ToBigEndianHead(v, 2);
    ToBigEndianHead(v, 1);
    assert Pow256(1) == 256;
  }

  lemma FourBytesValue(s: bytes)
    requires |s| == 4
    ensures FromBigEndian(s) == (s[0] as int) * 0x100_0000 + (s[1] as int) * 0x1_0000 + (s[2] as int) * 0x100 + s[3]
  {
    assert s[..3][..2] == s[..2] && s[..2][..1] == s[..1] && s[..1][..0] == [];
    assert FromBigEndian(s[..1]) == s[0];
    assert FromBigEndian(s[..2]) == FromBigEndian(s[..1]) * 256 + s[1];
    assert FromBigEndian(s[..3]) == FromBigEndian(s[..2]) * 256 + s[2];
  }

  // ----- two's complement -----

  function Wrap(v: int, modulus: nat): (u: nat)
    requires modulus > 0
    ensures u < modulus
  {
    v % modulus
  }

  function Signed(u: nat, half: int): (v: int)
    requires u as int < 2 * half
    ensures -half <= v < half
  {
    if u < half then u else u - 2 * half
  }

  lemma SignedWrap(v: int, half: int)
    requires half > 0 && -half <= v < half
    ensures Signed(Wrap(v, 2 * half), half) == v
  {
    if v < 0 {
      assert v % (2 * half) == v + 2 * half by { ModShift(v, 2 * half); }
    } else {
      assert v % (2 * half) == v by { ModUnique(v, 0, 2 * half, v); }
    }
  }

  lemma ModShift(v: int, m: int)
    requires m > 0 && -m <= v < 0
    ensures v % m == v + m
  {
    var q := v / m;
    assert v == q * m + v % m;
    assert q >= 0 ==> q * m >= 0;
    assert q <= -2 ==> q * m + 2 * m <= 0;
  }

  lemma WrapSigned(u: nat, half: int)
    requires u as int < 2 * half
    ensures Wrap(Signed(u, half), 2 * half) == u
  {
    if u < half {
      ModUnique(u, 0, 2 * half, u);
    } else {
      ModShift(u - 2 * half, 2 * half);
    }
  }

  // ----- six-bit digits -----

  /** The four base-64 digits of a number are determined by it. */
  lemma Digits64(v: nat, d3: nat, d2: nat, d1: nat, d0: nat)
    requires d2 < 0x40 && d1 < 0x40 && d0 < 0x40
    requires v == d3 * 0x4_0000 + d2 * 0x1000 + d1 * 0x40 + d0
    ensures v / 0x4_0000 == d3 && v / 0x1000 == d3 * 0x40 + d2
    ensures (v / 0x1000) % 0x40 == d2 && (v / 0x40) % 0x40 == d1 && v % 0x40 == d0
  {
    ModUnique(v, d3 * 0x1000 + d2 * 0x40 + d1, 0x40, d0);
    ModUnique(v, d3 * 0x40 + d2, 0x1000, d1 * 0x40 + d0);
    ModUnique(v, d3, 0x4_0000, d2 * 0x1000 + d1 * 0x40 + d0);
  }

  // ----- exclusive or -----

  /** Exclusive or of the low `n` bits. */
  function XorBits(a: nat, b: nat, n: nat): (r: nat)
    decreases n
  {
    if n == 0 then 0 else (a % 2 + b % 2) % 2 + 2 * XorBits(a / 2, b / 2, n - 1)
  }

  lemma {:induction false} XorBitsRange(a: nat, b: nat, n: nat)
    ensures XorBits(a, b, n) < Pow2(n)
    decreases n
  {
    if n > 0 { XorBitsRange(a / 2, b / 2, n - 1); }
  }

  function Pow2(n: nat): (r: nat)
    ensures r > 0
  {
    if n == 0 then 1 else 2 * Pow2(n - 1)
  }

  lemma {:induction false} XorBitsInvolutive(a: nat, b: nat, n: nat)
    requires a < Pow2(n)
    ensures XorBits(XorBits(a, b, n), b, n) == a
    decreases n
  {
    if n > 0 {
      XorBitsInvolutive(a / 2, b / 2, n - 1);
      var bit, high := (a % 2 + b % 2) % 2, XorBits(a / 2, b / 2, n - 1);
      BitAndRest(bit, high);
      BitTwice(a % 2, b % 2);
      assert XorBits(bit + 2 * high, b, n) == (bit + b % 2) % 2 + 2 * XorBits(high, b / 2, n - 1);
    }
  }

  lemma BitAndRest(bit: nat, high: nat)
    requires bit < 2
    ensures (bit + 2 * high) % 2 == bit && (bit + 2 * high) / 2 == high
  {
  }

  lemma BitTwice(p: nat, q: nat)
    requires p < 2 && q < 2
    ensures ((p + q) % 2 + q) % 2 == p
  {
  }

  lemma Pow2Of8()
    ensures Pow2(8) == 256
  {
    assert Pow2(2) == 4;
    assert Pow2(4) == 4 * Pow2(2);
    assert Pow2(6) == 4 * Pow2(4);
  }

  function Xor(a: byte, b: byte): (r: byte)
  {
    XorBitsRange(a, b, 8);
    Pow2Of8();
    XorBits(a, b, 8)
  }

  lemma XorInvolutive(a: byte, k: byte)
    ensures Xor(Xor(a, k), k) == a
  {
    Pow2Of8();
    XorBitsInvolutive(a, k, 8);
  }

  lemma HalfAndBit(x: nat, i: nat)
    requires i > 0
    ensures x / Pow2(i) == (x / 2) / Pow2(i - 1)
  {
    ModUnique2(x, Pow2(i - 1));
  }

  lemma ModUnique2(x: nat, p: nat)
    requires p > 0
    ensures (x / 2) / p == x / (2 * p)
  {
    var q := (x / 2) / p;
    var r := (x / 2) % p;
    assert x == 2 * (q * p + r) + x % 2;
    assert x == q * (2 * p) + (2 * r + x % 2);
    ModUnique(x, q, 2 * p, 2 * r + x % 2);
  }

  lemma {:induction false} XorBit(a: nat, b: nat, n: nat, i: nat)
    requires i < n
    ensures (XorBits(a, b, n) / Pow2(i)) % 2 == (a / Pow2(i) + b / Pow2(i)) % 2
    decreases i
  {
    var bit, high := (a % 2 + b % 2) % 2, XorBits(a / 2, b / 2, n - 1);
    BitAndRest(bit, high);
    if i > 0 {
      XorBit(a / 2, b / 2, n - 1, i - 1);
      HalfAndBit(XorBits(a, b, n), i);
      HalfAndBit(a, i);
      HalfAndBit(b, i);
    }
  }

  /** Each of the eight bits is set exactly if it is set in one argument and not in the other. */
  lemma XorIsExclusive(a: byte, b: byte, i: nat)
    requires i < 8
    ensures (Xor(a, b) / Pow2(i)) % 2 == 1 <==> (a / Pow2(i)) % 2 != (b / Pow2(i)) % 2
  {
    hide Pow2, XorBits;
    XorBit(a, b, 8, i);
    ParityOfSum(a / Pow2(i), b / Pow2(i));
  }

  lemma ParityOfSum(x: nat, y: nat)
    ensures (x + y) % 2 == 1 <==> x % 2 != y % 2
  {
  }

  /** Text constants of the source, all ASCII, as the bytes they are sent as. */
  function Ascii(text: string): (s: bytes)
    ensures |s| == |text|
    ensures forall i :: 0 <= i < |s| ==> s[i] == AsciiByte(text[i])
  {
    seq(|text|, i requires 0 <= i < |text| => AsciiByte(text[i]))
  }

  function AsciiByte(c: char): (b: byte) { if c as int < 0x80 then c as int else 0x3F }

  lemma Assoc(a: bytes, b: bytes, c: bytes)
    ensures (a + b) + c == a + (b + c)
  {
  }

  predicate IsSuffix(a: bytes, b: bytes) { |a| <= |b| && b[|b| - |a|..] == a }

  lemma Identity(a: bytes)
    ensures a + [] == a && [] + a == a
  {
  }

  function Flatten(parts: seq<bytes>): (s: bytes)
  {
    if parts == [] then [] else parts[0] + Flatten(parts[1..])
  }
}
