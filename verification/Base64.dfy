/** Base64 as the handshake uses it: the one-loop C++ form, the two-phase Swift form, and a decoder that
    follows section 4 of RFC 4648. Text is its ASCII bytes. */
module Base64 {
  import opened Bytes
  import opened Framing

  const UPPER: string := "ABCDEFGHIJKLMNOPQRSTUVWXYZ"
  const LOWER: string := "abcdefghijklmnopqrstuvwxyz"
  const DIGITS: string := "0123456789"

  function Table(): (t: string) { UPPER + LOWER + DIGITS + "+/" }

  const PAD_CHAR: byte := 0x3D

  /** Table 1 of RFC 4648. */
  function Alphabet(v: nat): (c: byte)
    requires v < 64
  {
    if v < 26 then 0x41 + v
    else if v < 52 then 0x61 + (v - 26)
    else if v < 62 then 0x30 + (v - 52)
    else if v == 62 then 0x2B else 0x2F
  }

  /** The string constant of the code is that table. */
  lemma TableIsAlphabet(v: nat)
    requires v < 64
    ensures |Table()| == 64 && Table()[v] as int == Alphabet(v)
  {
    if v < 26 { UpperAt(v); } else if v < 52 { LowerAt(v - 26); } else if v < 62 { DigitAt(v - 52); }
  }

  lemma UpperAt(v: nat)
    ensures |UPPER| == 26 && (v < 26 ==> UPPER[v] as int == 0x41 + v)
  {
  }

  lemma LowerAt(v: nat)
    ensures |LOWER| == 26 && (v < 26 ==> LOWER[v] as int == 0x61 + v)
  {
  }

  lemma DigitAt(v: nat)
    ensures |DIGITS| == 10 && (v < 10 ==> DIGITS[v] as int == 0x30 + v)
  {
  }

  function IndexOf(c: byte): (v: Option<nat>)
    ensures v.Some? ==> v.value < 64
  {
    if 0x41 <= c <= 0x5A then Some(c - 0x41)
    else if 0x61 <= c <= 0x7A then Some(c - 0x61 + 26)
    else if 0x30 <= c <= 0x39 then Some(c - 0x30 + 52)
    else if c == 0x2B then Some(62)
    else if c == 0x2F then Some(63)
    else None
  }

  // ----- the encoding, group by group -----

  function Quad(n: nat, i: nat): (c: byte)
    requires i < 4
  {
    Alphabet(if i == 0 then (n / 0x4_0000) % 64 else if i == 1 then (n / 0x1000) % 64 else if i == 2 then (n / 0x40) % 64 else n % 64)
  }

  /** Up to three bytes as one number, missing bytes as zero. */
  function Number(s: bytes): (n: nat)
    requires 1 <= |s| <= 3
  {
    Join(s[0], if |s| > 1 then s[1] else 0, if |s| > 2 then s[2] else 0)
  }

  function Join(x: byte, y: byte, z: byte): (n: nat) {
    0x1_0000 * (x as int) + 0x100 * (y as int) + z as int
  }

  function Group(s: bytes): (r: bytes)
    requires 1 <= |s| <= 3
    ensures |r| == 4
  {
    var n := Number(s);
    [Quad(n, 0), Quad(n, 1), if |s| > 1 then Quad(n, 2) else PAD_CHAR, if |s| > 2 then Quad(n, 3) else PAD_CHAR]
  }

  function Encode(s: bytes): (r: bytes)
    decreases |s|
  {
    if s == [] then [] else if |s| <= 3 then Group(s) else Group(s[..3]) + Encode(s[3..])
  }

  /** Four characters for every three bytes begun. */
  lemma {:induction false} EncodeLength(s: bytes)
    ensures |Encode(s)| == 4 * ((|s| + 2) / 3)
    decreases |s|
  {
    hide Group;
    if |s| > 3 {
      EncodeLength(s[3..]);
      assert (|s| + 2) / 3 == (|s| - 3 + 2) / 3 + 1;
    }
  }

  // ----- decoding -----

  // The bytes behind four six-bit digits.
  function Byte0(a: nat, b: nat): (r: byte) requires a < 64 && b < 64 { a * 4 + b / 16 }
  function Byte1(b: nat, c: nat): (r: byte) requires b < 64 && c < 64 { b % 16 * 16 + c / 4 }
  function Byte2(c: nat, d: nat): (r: byte) requires c < 64 && d < 64 { c % 4 * 64 + d }

  /** One group of four characters: three bytes, or two or one if it is padded. */
  function DecodeGroup(q: bytes): (r: Option<bytes>)
    requires |q| == 4
  {
    var a, b, c, d := IndexOf(q[0]), IndexOf(q[1]), IndexOf(q[2]), IndexOf(q[3]);
    if a.None? || b.None? then None
    else if q[3] == PAD_CHAR && q[2] == PAD_CHAR then Some([Byte0(a.value, b.value)])
    else if c.None? then None
    else if q[3] == PAD_CHAR then Some([Byte0(a.value, b.value), Byte1(b.value, c.value)])
    else if d.None? then None
    else Some([Byte0(a.value, b.value), Byte1(b.value, c.value), Byte2(c.value, d.value)])
  }

  function Decode(t: bytes): (r: Option<bytes>)
    decreases |t|
  {
    if t == [] then Some([])
    else if |t| < 4 then None
    else
      match DecodeGroup(t[..4])
      case None => None
      case Some(head) =>
        if |t| == 4 then Some(head)
        else if |head| < 3 then None
        else
          match Decode(t[4..])
          case None => None
          case Some(tail) => Some(head + tail)
  }

  lemma IndexOfAlphabet(v: nat)
    requires v < 64
    ensures IndexOf(Alphabet(v)) == Some(v) && Alphabet(v) != PAD_CHAR
  {
  }

  /** Three bytes as four six-bit digits: the pieces `x == 4a + b`, `y == 16c + d`, `z == 64e + f`. */
  lemma SixBitDigits(a: nat, b: nat, c: nat, d: nat, e: nat, f: nat)
    requires a < 64 && b < 4 && c < 16 && d < 16 && e < 4 && f < 64
    ensures var n := Join(4 * a + b, 16 * c + d, 64 * e + f);
            (n / 0x4_0000) % 64 == a && (n / 0x1000) % 64 == b * 16 + c && (n / 0x40) % 64 == d * 4 + e && n % 64 == f
  {
    var n := Join(4 * a + b, 16 * c + d, 64 * e + f);
    var d2, d1 := b * 16 + c, d * 4 + e;
    Digits64(n, a, d2, d1, f);
  }

  lemma BytesOfDigits(a: nat, b: nat, c: nat, d: nat, e: nat, f: nat)
    requires a < 64 && b < 4 && c < 16 && d < 16 && e < 4 && f < 64
    ensures Byte0(a, b * 16 + c) == 4 * a + b
    ensures Byte1(b * 16 + c, d * 4 + e) == 16 * c + d
    ensures Byte2(d * 4 + e, f) == 64 * e + f
  {
  }

  lemma GroupRoundTrip(s: bytes)
    requires 1 <= |s| <= 3
    ensures DecodeGroup(Group(s)) == Some(s)
  {
    hide Alphabet, IndexOf, Byte0, Byte1, Byte2, Join;
    var x: byte, y: byte, z: byte := s[0], if |s| > 1 then s[1] else 0, if |s| > 2 then s[2] else 0;
    var a, b, c, d, e, f := x / 4, x % 4, y / 16, y % 16, z / 64, z % 64;
    assert x == 4 * a + b && y == 16 * c + d && z == 64 * e + f;
    SixBitDigits(a, b, c, d, e, f);
    BytesOfDigits(a, b, c, d, e, f);
    IndexOfAlphabet(a);
    IndexOfAlphabet(b * 16 + c);
    IndexOfAlphabet(d * 4 + e);
    IndexOfAlphabet(f);
    assert s == if |s| == 1 then [x] else if |s| == 2 then [x, y] else [x, y, z];
  }

  /** A decoder recovers every input. */
  lemma {:induction false} RoundTrip(s: bytes)
    ensures Decode(Encode(s)) == Some(s)
    decreases |s|
  {
    hide Group, DecodeGroup;
    if s == [] {
    } else if |s| <= 3 {
      GroupRoundTrip(s);
      assert Encode(s)[..4] == Group(s);
    } else {
      GroupRoundTrip(s[..3]);
      RoundTrip(s[3..]);
      var t := Encode(s);
      assert t[..4] == Group(s[..3]) && t[4..] == Encode(s[3..]);
      assert s == s[..3] + s[3..];
    }
  }

  /** The text is made of the alphabet and the padding character: no blank, no CR, no LF. */
  lemma {:induction false} EncodeAlphabet(s: bytes)
    ensures forall i :: 0 <= i < |Encode(s)| ==> 0x2B <= Encode(s)[i] <= 0x7A
    decreases |s|
  {
    hide Group;
    if s != [] {
      if |s| <= 3 {
        GroupAlphabet(s);
      } else {
        GroupAlphabet(s[..3]);
        EncodeAlphabet(s[3..]);
      }
    }
  }

  lemma GroupAlphabet(s: bytes)
    requires 1 <= |s| <= 3
    ensures forall i :: 0 <= i < 4 ==> 0x2B <= Group(s)[i] <= 0x7A
  {
  }

  // ----- the two loops -----

  method Lookup(v: nat) returns (c: byte)
    requires v < 64
    ensures c == Alphabet(v)
  {
    TableIsAlphabet(v);
    c := Table()[v] as int;
  }

  /** One turn of the C++ loop: `n` and the four characters, with the tests on the end of the input. */
  method CppGroup(data: bytes, i: nat) returns (out: bytes)
    requires i < |data|
    ensures out == Group(data[i..if i + 3 <= |data| then i + 3 else |data|])
  {
    hide Alphabet;
    var n: nat := 0x1_0000 * (data[i] as int);
    if i + 1 < |data| { n := n + 0x100 * (data[i + 1] as int); }
    if i + 2 < |data| { n := n + data[i + 2]; }
    var c0 := Lookup((n / 0x4_0000) % 64);
    var c1 := Lookup((n / 0x1000) % 64);
    var c2 := PAD_CHAR;
    if i + 1 < |data| { c2 := Lookup((n / 0x40) % 64); }
    var c3 := PAD_CHAR;
    if i + 2 < |data| { c3 := Lookup(n % 64); }
    out := [c0, c1, c2, c3];
    ghost var s := data[i..if i + 3 <= |data| then i + 3 else |data|];
    assert s[0] == data[i];
    if i + 1 < |data| { assert s[1] == data[i + 1]; }
    if i + 2 < |data| { assert s[2] == data[i + 2]; }
  }

  method EncodeCpp(data: bytes) returns (out: bytes)
    ensures out == Encode(data)
  {
    hide Group;
    out := [];
    var i := 0;
    assert data[0..] == data;
    Identity(Encode(data));
    while i < |data|
      invariant 0 <= i <= |data| + 2
      invariant out + Encode(data[if i <= |data| then i else |data|..]) == Encode(data)
    {
      var g := CppGroup(data, i);
      GroupStep(data, i, out);
      out := out + g;
      i := i + 3;
    }
    Identity(out);
  }

  lemma GroupStep(data: bytes, i: nat, out: bytes)
    requires i < |data|
    ensures var j := if i + 3 <= |data| then i + 3 else |data|;
            out + Encode(data[i..]) == (out + Group(data[i..j])) + Encode(data[j..])
  {
    hide Group;
    var s := data[i..];
    var j := if i + 3 <= |data| then i + 3 else |data|;
    if |s| <= 3 {
      assert data[i..j] == s && data[j..] == [];
      Identity(Group(s));
    } else {
      assert s[..3] == data[i..j] && s[3..] == data[j..];
    }
    Assoc(out, Group(data[i..j]), Encode(data[j..]));
  }

  /** Swift: whole groups first, then what remains. */
  method EncodeSwift(data: bytes) returns (result: bytes)
    ensures result == Encode(data)
  {
    hide Group;
    result := [];
    var i := 0;
    assert data[0..] == data;
    Identity(Encode(data));
    while i + 2 < |data|
      invariant 0 <= i <= |data|
      invariant result + Encode(data[i..]) == Encode(data)
    {
      var g := SwiftWholeGroup(data[i], data[i + 1], data[i + 2]);
      assert data[i..i + 3] == [data[i], data[i + 1], data[i + 2]];
      GroupStep(data, i, result);
      result := result + g;
      i := i + 3;
    }
    if i < |data| {
      GroupStep(data, i, result);
      var g := SwiftLastGroup(data[i..]);
      assert data[i..] == data[i..|data|] && data[|data|..] == [];
      result := result + g;
      Identity(result);
    } else {
      assert data[i..] == [];
      Identity(result);
    }
  }

  method SwiftWholeGroup(x: byte, y: byte, z: byte) returns (g: bytes)
    ensures g == Group([x, y, z])
  {
    hide Alphabet;
    var n: nat := 0x1_0000 * (x as int) + 0x100 * (y as int) + z;
    var c0 := Lookup((n / 0x4_0000) % 64);
    var c1 := Lookup((n / 0x1000) % 64);
    var c2 := Lookup((n / 0x40) % 64);
    var c3 := Lookup(n % 64);
    g := [c0, c1, c2, c3];
  }

  method SwiftLastGroup(rest: bytes) returns (g: bytes)
    requires 1 <= |rest| <= 2
    ensures g == Group(rest)
  {
    hide Alphabet;
    var n: nat := 0x1_0000 * (rest[0] as int);
    if |rest| > 1 { n := n + 0x100 * (rest[1] as int); }
    var c0 := Lookup((n / 0x4_0000) % 64);
    var c1 := Lookup((n / 0x1000) % 64);
    if |rest| > 1 {
      var c2 := Lookup((n / 0x40) % 64);
      g := [c0, c1, c2, PAD_CHAR];
    } else {
      g := [c0, c1, PAD_CHAR, PAD_CHAR];
    }
  }
}
