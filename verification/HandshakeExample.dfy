/** The opening handshake held against the example of section 1.3 of RFC 6455. */
module HandshakeExample {
  import opened Bytes
  import Base64
  import Sha1
  import opened Sha1Vector
  import Handshake

  lemma KeyBytes()
    ensures Ascii("dGhlIHNhbXBsZSBub25jZQ==") == Key()
  {
    var s := Ascii("dGhlIHNhbXBsZSBub25jZQ==");
    assert forall i :: 0 <= i < 24 ==> s[i] == Key()[i];
  }

  lemma IdentifierBytes()
    ensures Ascii("258EAFA5-E914-47DA-95CA-C5AB0DC85B11") == IdStart() + Back()
  {
    var s, t := Ascii("258EAFA5-E914-47DA-95CA-C5AB0DC85B11"), IdStart() + Back();
    IdentifierStart();
    IdentifierEnd();
    assert forall i :: 8 <= i < 36 ==> t[i] == Back()[i - 8];
  }

  lemma IdentifierStart()
    ensures var s := Ascii("258EAFA5-E914-47DA-95CA-C5AB0DC85B11");
            |s| == 36 && forall i :: 0 <= i < 8 ==> s[i] == IdStart()[i]
  {
  }

  lemma IdentifierEnd()
    ensures var s := Ascii("258EAFA5-E914-47DA-95CA-C5AB0DC85B11");
            |s| == 36 && forall i :: 8 <= i < 36 ==> s[i] == Back()[i - 8]
  {
    var s, t := "258EAFA5-E914-47DA-95CA-C5AB0DC85B11", Back();
    forall i | 8 <= i < 36 ensures AsciiByte(s[i]) == t[i - 8] {}
  }

  /** The key of the example gives the accept key of the example. */
  lemma AcceptKeyOfExample()
    ensures Handshake.AcceptKey(Ascii("dGhlIHNhbXBsZSBub25jZQ==")) == Ascii("s3pPLMBiTxaQ9kYGzzhZRbK+xOo=")
  {
    hide Ascii, Key, IdStart, Back, Base64.Encode, Sha1.Digest;
    KeyBytes();
    IdentifierBytes();
    assert Key() + (IdStart() + Back()) == Example();
    ExampleDigest();
    ExampleText();
  }

  /** Three bytes as four six-bit digits. */
  lemma ThreeBytes(a: byte, b: byte, c: byte, d3: nat, d2: nat, d1: nat, d0: nat)
    requires d3 < 64 && d2 < 64 && d1 < 64 && d0 < 64
    requires 0x1_0000 * a + 0x100 * b + c == 0x4_0000 * d3 + 0x1000 * d2 + 0x40 * d1 + d0
    ensures Base64.Group([a, b, c]) ==
              [Base64.Alphabet(d3), Base64.Alphabet(d2), Base64.Alphabet(d1), Base64.Alphabet(d0)]
  {
    hide Base64.Alphabet, Base64.Join;
    JoinIs(a, b, c);
    Digits64(Base64.Join(a, b, c), d3, d2, d1, d0);
    assert Base64.Number([a, b, c]) == Base64.Join(a, b, c);
  }

  lemma JoinIs(a: byte, b: byte, c: byte)
    ensures Base64.Join(a, b, c) == 0x1_0000 * a + 0x100 * b + c
  {
  }

  lemma Grouped(front: bytes, rest: bytes)
    requires |front| == 3 && rest != []
    ensures Base64.Encode(front + rest) == Base64.Group(front) + Base64.Encode(rest)
  {
    hide Base64.Group;
    assert (front + rest)[..3] == front && (front + rest)[3..] == rest;
  }

  lemma LastGroup(s: bytes)
    requires 1 <= |s| <= 3
    ensures Base64.Encode(s) == Base64.Group(s)
  {
    hide Base64.Group;
  }

  lemma NineBytes(p: bytes, q: bytes, r: bytes, rest: bytes)
    requires |p| == |q| == |r| == 3 && rest != []
    ensures Base64.Encode(p + q + r + rest) == Base64.Group(p) + Base64.Group(q) + Base64.Group(r) + Base64.Encode(rest)
  {
    hide Base64.Encode, Base64.Group;
    Grouped(r, rest);
    Grouped(q, r + rest);
    Grouped(p, q + (r + rest));
    assert p + (q + (r + rest)) == p + q + r + rest;
  }

  lemma ExampleGroups()
    ensures Base64.Group([0xb3, 0x7a, 0x4f]) == [0x73, 0x33, 0x70, 0x50]
    ensures Base64.Group([0x2c, 0xc0, 0x62]) == [0x4c, 0x4d, 0x42, 0x69]
    ensures Base64.Group([0x4f, 0x16, 0x90]) == [0x54, 0x78, 0x61, 0x51]
    ensures Base64.Group([0xf6, 0x46, 0x06]) == [0x39, 0x6b, 0x59, 0x47]
    ensures Base64.Group([0xcf, 0x38, 0x59]) == [0x7a, 0x7a, 0x68, 0x5a]
    ensures Base64.Group([0x45, 0xb2, 0xbe]) == [0x52, 0x62, 0x4b, 0x2b]
  {
    hide Base64.Group;
    ThreeBytes(0xb3, 0x7a, 0x4f, 44, 55, 41, 15);
    ThreeBytes(0x2c, 0xc0, 0x62, 11, 12, 1, 34);
    ThreeBytes(0x4f, 0x16, 0x90, 19, 49, 26, 16);
    ThreeBytes(0xf6, 0x46, 0x06, 61, 36, 24, 6);
    ThreeBytes(0xcf, 0x38, 0x59, 51, 51, 33, 25);
    ThreeBytes(0x45, 0xb2, 0xbe, 17, 27, 10, 62);
  }

  lemma ExampleEnd()
    ensures Base64.Encode([0xc4, 0xea]) == [0x78, 0x4f, 0x6f, 0x3d]
  {
    hide Base64.Encode;
    LastGroup([0xc4, 0xea]);
  }

  lemma SecondHalf()
    ensures Base64.Encode([0xf6, 0x46, 0x06, 0xcf, 0x38, 0x59, 0x45, 0xb2, 0xbe, 0xc4, 0xea]) ==
              [0x39, 0x6b, 0x59, 0x47, 0x7a, 0x7a, 0x68, 0x5a, 0x52, 0x62, 0x4b, 0x2b, 0x78, 0x4f, 0x6f, 0x3d]
  {
    hide Base64.Encode, Base64.Group;
    var g3, g4, g5, last := [0xf6, 0x46, 0x06], [0xcf, 0x38, 0x59], [0x45, 0xb2, 0xbe], [0xc4, 0xea];
    NineBytes(g3, g4, g5, last);
    assert g3 + g4 + g5 + last == [0xf6, 0x46, 0x06, 0xcf, 0x38, 0x59, 0x45, 0xb2, 0xbe, 0xc4, 0xea];
    ExampleGroups();
    ExampleEnd();
  }

  lemma ExampleText()
    ensures Base64.Encode([0xb3, 0x7a, 0x4f, 0x2c, 0xc0, 0x62, 0x4f, 0x16, 0x90, 0xf6, 0x46, 0x06, 0xcf, 0x38, 0x59, 0x45,
                           0xb2, 0xbe, 0xc4, 0xea]) == Ascii("s3pPLMBiTxaQ9kYGzzhZRbK+xOo=")
  {
    hide Base64.Encode, Base64.Group, Ascii;
    var g0, g1, g2 := [0xb3, 0x7a, 0x4f], [0x2c, 0xc0, 0x62], [0x4f, 0x16, 0x90];
    var rest := [0xf6, 0x46, 0x06, 0xcf, 0x38, 0x59, 0x45, 0xb2, 0xbe, 0xc4, 0xea];
    NineBytes(g0, g1, g2, rest);
    assert g0 + g1 + g2 + rest == [0xb3, 0x7a, 0x4f, 0x2c, 0xc0, 0x62, 0x4f, 0x16, 0x90, 0xf6, 0x46, 0x06, 0xcf, 0x38, 0x59, 0x45,
      0xb2, 0xbe, 0xc4, 0xea];
    ExampleGroups();
    SecondHalf();
    TextBytes();
  }

  lemma TextBytes()
    ensures Ascii("s3pPLMBiTxaQ9kYGzzhZRbK+xOo=") ==
              [0x73, 0x33, 0x70, 0x50, 0x4c, 0x4d, 0x42, 0x69, 0x54, 0x78, 0x61, 0x51, 0x39, 0x6b, 0x59, 0x47,
               0x7a, 0x7a, 0x68, 0x5a, 0x52, 0x62, 0x4b, 0x2b, 0x78, 0x4f, 0x6f, 0x3d]
  {
  }
}
