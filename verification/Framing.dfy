/** WebSocket frames on the wire (sections 5.2 to 5.5 of RFC 6455), and what one turn of the C++ receive
    loop reads. */
module Framing {
  import opened Bytes

  const MAX_MESSAGE_SIZE: nat := 1024 * 1024

  datatype Option<+T> = None | Some(value: T)

  type Key = k: bytes | |k| == 4 witness [0, 0, 0, 0]

  /** The three ways to write a payload length. A sender must use the shortest; the receiver does not ask. */
  datatype LengthForm = Short | Medium | Long

  /** A frame with its reserved bits clear; `payload` is the unmasked payload. */
  datatype WireFrame = WireFrame(fin: bool, opcode: nat, mask: Option<Key>, form: LengthForm, payload: bytes)

  const CONTINUATION: nat := 0x0
  const BINARY: nat := 0x2
  const CLOSE: nat := 0x8
  const PING: nat := 0x9
  const PONG: nat := 0xA

  predicate IsControl(f: WireFrame) { f.opcode >= 8 }

  predicate FormFits(form: LengthForm, n: nat) {
    match form
    case Short => n <= 125
    case Medium => n < TWO_16
    case Long => n < TWO_63
  }

  function Mask(payload: bytes, key: Key): (r: bytes)
    ensures |r| == |payload|
    ensures forall i :: 0 <= i < |payload| ==> r[i] == Xor(payload[i], key[i % 4])
  {
    seq(|payload|, i requires 0 <= i < |payload| => Xor(payload[i], key[i % 4]))
  }

  /** Unmasking is masking again (section 5.3). */
  lemma MaskInvolutive(p: bytes, key: Key)
    ensures Mask(Mask(p, key), key) == p
  {
    hide Xor;
    var m := Mask(p, key);
    forall i | 0 <= i < |p| ensures Mask(m, key)[i] == p[i] {
      XorInvolutive(p[i], key[i % 4]);
    }
  }

  /** Octet `i` of the masked data is octet `i` of the data exclusive or octet `i` modulo 4 of the key, bit
      for bit (section 5.3). */
  lemma MaskBits(p: bytes, key: Key, i: nat, bit: nat)
    requires i < |p| && bit < 8
    ensures (Mask(p, key)[i] / Pow2(bit)) % 2 == 1 <==> (p[i] / Pow2(bit)) % 2 != (key[i % 4] / Pow2(bit)) % 2
  {
    hide Xor;
    XorIsExclusive(p[i], key[i % 4], bit);
  }

  // ----- serialisation -----

  function FirstByte(f: WireFrame): (b: byte)
    requires f.opcode < 16
  {
    (if f.fin then 0x80 else 0) + f.opcode
  }

  function LengthBytes(form: LengthForm, masked: bool, n: nat): (s: bytes)
    requires FormFits(form, n)
  {
    var bit := if masked then 0x80 else 0;
    match form
    case Short => [(bit + n) as byte]
    case Medium => [(bit + 126) as byte] + U16(n)
    case Long => [(bit + 127) as byte] + U64(n)
  }

  function KeyBytes(mask: Option<Key>): (s: bytes) {
    match mask
    case None => []
    case Some(k) => k
  }

  function WirePayload(f: WireFrame): (s: bytes)
    ensures |s| == |f.payload|
  {
    match f.mask
    case None => f.payload
    case Some(k) => Mask(f.payload, k)
  }

  predicate Serializable(f: WireFrame) { f.opcode < 16 && FormFits(f.form, |f.payload|) }

  function Serialize(f: WireFrame): (s: bytes)
    requires Serializable(f)
    ensures |s| >= 2 + |f.payload|
  {
    [FirstByte(f)] + (LengthBytes(f.form, f.mask.Some?, |f.payload|) + (KeyBytes(f.mask) + WirePayload(f)))
  }

  predicate AllSerializable(fs: seq<WireFrame>) { forall i :: 0 <= i < |fs| ==> Serializable(fs[i]) }

  function SerializeAll(fs: seq<WireFrame>): (s: bytes)
    requires AllSerializable(fs)
  {
    if fs == [] then [] else Serialize(fs[0]) + SerializeAll(fs[1..])
  }

  // ----- one turn of the receive loop -----

  /** The frame at the front of the stream, or a reason to give up (end of stream or protocol error). */
  datatype Scan = Scanned(frame: WireFrame, rest: bytes) | Refused

  datatype Length = Length(form: LengthForm, n: nat, rest: bytes) | NoLength

  /** The extended payload length, if the seven-bit field announces one. */
  function ScanLength(len7: nat, s: bytes): (l: Length)
    ensures l.Length? ==> |l.rest| <= |s|
  {
    if len7 == 126 then
      if |s| < 2 then NoLength else Length(Medium, FromBigEndian(s[..2]), s[2..])
    else if len7 == 127 then
      if |s| < 8 || s[0] >= 0x80 then NoLength else Length(Long, FromBigEndian(s[..8]), s[8..])
    else Length(Short, len7, s)
  }

  /** Control frames are whole and short; every frame, control or data, must fit next to the bytes of the
      message already collected. */
  predicate WithinLimits(fin: bool, opcode: nat, n: nat, have: nat) {
    (opcode >= 8 ==> fin && n <= 125) && n <= MAX_MESSAGE_SIZE && have + n <= MAX_MESSAGE_SIZE
  }

  function ScanBody(fin: bool, opcode: nat, masked: bool, form: LengthForm, n: nat, s: bytes): (r: Scan)
    ensures r.Scanned? ==> |r.rest| <= |s|
  {
    if masked then
      if |s| < 4 + n then Refused
      else Scanned(WireFrame(fin, opcode, Some(s[..4]), form, Mask(s[4..4 + n], s[..4])), s[4 + n..])
    else
      if |s| < n then Refused
      else Scanned(WireFrame(fin, opcode, None, form, s[..n]), s[n..])
  }

  function ScanFrame(s: bytes, expectMasked: bool, have: nat): (r: Scan)
    ensures r.Scanned? ==> |r.rest| < |s|
  {
    if |s| < 2 || (s[0] / 16) % 8 != 0 || (s[1] >= 0x80) != expectMasked then Refused
    else
      var fin, opcode := s[0] >= 0x80, s[0] % 16;
      var l := ScanLength(s[1] % 0x80, s[2..]);
      if l.NoLength? || !WithinLimits(fin, opcode, l.n, have) then Refused
      else ScanBody(fin, opcode, expectMasked, l.form, l.n, l.rest)
  }

  /** What the loop accepts, said of the frame and not of its bytes. */
  predicate Acceptable(f: WireFrame, expectMasked: bool, have: nat) {
    Serializable(f) && f.mask.Some? == expectMasked && WithinLimits(f.fin, f.opcode, |f.payload|, have)
  }

  // ----- scanning inverts serialising -----

  lemma LengthRoundTrip(form: LengthForm, masked: bool, n: nat, q: bytes)
    requires FormFits(form, n)
    ensures var b := LengthBytes(form, masked, n);
            |b| >= 1 && (b[0] >= 0x80) == masked && ScanLength(b[0] % 0x80, b[1..] + q) == Length(form, n, q)
  {
    hide ToBigEndian, FromBigEndian, Pow256;
    Pow256Values();
    var b := LengthBytes(form, masked, n);
    match form
    case Short => assert b[1..] + q == q;
    case Medium =>
      assert b[1..] == U16(n) && (U16(n) + q)[..2] == U16(n) && (U16(n) + q)[2..] == q;
      FromToBigEndian(n, 2);
    case Long =>
      assert b[1..] == U64(n) && (U64(n) + q)[..8] == U64(n) && (U64(n) + q)[8..] == q;
      FromToBigEndian(n, 8);
      TopByte(U64(n));
  }

  /** The top bit of a 64-bit length is the top bit of its first byte. */
  lemma TopByte(s: bytes)
    requires |s| == 8
    ensures s[0] >= 0x80 <==> FromBigEndian(s) >= TWO_63
  {
    hide FromBigEndian, Pow256;
    assert s == [s[0]] + s[1..];
    FromBigEndianAppend([s[0]], s[1..]);
    ToFromBigEndian(s[1..]);
    FromBigEndianOne(s[0]);
    Pow256Seven();
  }

  lemma FromBigEndianOne(b: byte)
    ensures FromBigEndian([b]) == b
  {
    assert [b][..0] == [];
  }

  lemma Pow256Seven()
    ensures Pow256(7) == 0x100_0000_0000_0000
  {
    assert Pow256(1) == 256;
    assert Pow256(3) == 256 * Pow256(2);
    assert Pow256(5) == 256 * Pow256(4);
    assert Pow256(7) == 256 * Pow256(6);
  }

  lemma LengthInverse(b1: byte, s: bytes)
    ensures var l := ScanLength(b1 % 0x80, s);
            l.Length? ==> FormFits(l.form, l.n) && [b1] + s == LengthBytes(l.form, b1 >= 0x80, l.n) + l.rest
  {
    hide ToBigEndian, FromBigEndian, Pow256;
    Pow256Values();
    var len7 := b1 % 0x80;
    if len7 == 126 {
      if |s| >= 2 {
        ToFromBigEndian(s[..2]);
        assert s == s[..2] + s[2..];
      }
    } else if len7 == 127 {
      if |s| >= 8 {
        ToFromBigEndian(s[..8]);
        TopByte(s[..8]);
        assert s == s[..8] + s[8..];
      }
    }
  }

  lemma BodyRoundTrip(f: WireFrame, q: bytes)
    ensures ScanBody(f.fin, f.opcode, f.mask.Some?, f.form, |f.payload|, KeyBytes(f.mask) + WirePayload(f) + q)
         == Scanned(f, q)
  {
    hide Mask;
    var n := |f.payload|;
    match f.mask
    case None =>
      assert [] + f.payload + q == f.payload + q;
      assert (f.payload + q)[..n] == f.payload && (f.payload + q)[n..] == q;
    case Some(k) =>
      var s := k + Mask(f.payload, k) + q;
      assert s[..4] == k && s[4..4 + n] == Mask(f.payload, k) && s[4 + n..] == q;
      MaskInvolutive(f.payload, k);
  }

  lemma BodyInverse(fin: bool, opcode: nat, masked: bool, form: LengthForm, n: nat, s: bytes)
    ensures var r := ScanBody(fin, opcode, masked, form, n, s);
            r.Scanned? ==>
              r.frame.fin == fin && r.frame.opcode == opcode && r.frame.mask.Some? == masked && r.frame.form == form
              && |r.frame.payload| == n && s == KeyBytes(r.frame.mask) + WirePayload(r.frame) + r.rest
  {
    hide Mask;
    var r := ScanBody(fin, opcode, masked, form, n, s);
    if r.Scanned? {
      if masked {
        MaskInvolutive(s[4..4 + n], s[..4]);
        CutInThree(s, 4, 4 + n);
      } else {
        Identity(s[..n]);
        CutInThree(s, 0, n);
      }
    }
  }

  lemma CutInThree(s: bytes, i: nat, j: nat)
    requires i <= j <= |s|
    ensures s == s[..i] + s[i..j] + s[j..]
  {
  }

  lemma ScanComplete(f: WireFrame, expectMasked: bool, have: nat, q: bytes)
    requires Acceptable(f, expectMasked, have)
    ensures ScanFrame(Serialize(f) + q, expectMasked, have) == Scanned(f, q)
  {
    hide LengthBytes, ScanLength, ScanBody, KeyBytes, WirePayload, FormFits;
    var s := Serialize(f) + q;
    var body := KeyBytes(f.mask) + WirePayload(f) + q;
    var lb := LengthBytes(f.form, f.mask.Some?, |f.payload|);
    LengthRoundTrip(f.form, f.mask.Some?, |f.payload|, body);
    BodyRoundTrip(f, q);
    assert s[0] == FirstByte(f) && s[1] == lb[0] && s[2..] == lb[1..] + body;
    assert s[0] % 16 == f.opcode && (s[0] >= 0x80) == f.fin && (s[0] / 16) % 8 == 0;
  }

  /** A frame outside the limits is refused on its header, whatever follows. */
  lemma OversizeRefused(f: WireFrame, expectMasked: bool, have: nat, q: bytes)
    requires Serializable(f) && f.mask.Some? == expectMasked && !WithinLimits(f.fin, f.opcode, |f.payload|, have)
    ensures ScanFrame(Serialize(f) + q, expectMasked, have) == Refused
  {
    hide LengthBytes, ScanLength, ScanBody, KeyBytes, WirePayload, FormFits, WithinLimits;
    var s := Serialize(f) + q;
    var body := KeyBytes(f.mask) + WirePayload(f) + q;
    var lb := LengthBytes(f.form, f.mask.Some?, |f.payload|);
    LengthRoundTrip(f.form, f.mask.Some?, |f.payload|, body);
    assert s[0] == FirstByte(f) && s[1] == lb[0] && s[2..] == lb[1..] + body;
    assert s[0] % 16 == f.opcode && (s[0] >= 0x80) == f.fin && (s[0] / 16) % 8 == 0;
  }

  lemma ScanSound(s: bytes, expectMasked: bool, have: nat)
    ensures var r := ScanFrame(s, expectMasked, have);
            r.Scanned? ==> Acceptable(r.frame, expectMasked, have) && s == Serialize(r.frame) + r.rest
  {
    hide LengthBytes, ScanLength, ScanBody, KeyBytes, WirePayload, FormFits;
    var r := ScanFrame(s, expectMasked, have);
    if r.Scanned? {
      var l := ScanLength(s[1] % 0x80, s[2..]);
      LengthInverse(s[1], s[2..]);
      BodyInverse(s[0] >= 0x80, s[0] % 16, expectMasked, l.form, l.n, l.rest);
      var f := r.frame;
      var lb := LengthBytes(f.form, expectMasked, |f.payload|);
      assert s == [s[0]] + ([s[1]] + s[2..]);
      assert s[0] == FirstByte(f);
      assert s == [FirstByte(f)] + (lb + (KeyBytes(f.mask) + WirePayload(f) + r.rest));
      assert s == Serialize(f) + r.rest;
    }
  }

  /** One turn of the loop accepts a frame iff the stream starts with the bytes of an acceptable one; in
      particular two frames cannot start the same stream. */
  lemma ScanIff(s: bytes, expectMasked: bool, have: nat, f: WireFrame, q: bytes)
    ensures ScanFrame(s, expectMasked, have) == Scanned(f, q) <==>
              Acceptable(f, expectMasked, have) && s == Serialize(f) + q
  {
    hide ScanFrame, Serialize, Acceptable;
    ScanSound(s, expectMasked, have);
    if Acceptable(f, expectMasked, have) { ScanComplete(f, expectMasked, have, q); }
  }

  // ----- what the C++ and Swift senders write -----

  function MinimalForm(n: nat): (form: LengthForm)
    ensures n < TWO_63 ==> FormFits(form, n)
  {
    if n < 126 then Short else if n <= 65535 then Medium else Long
  }

  /** The frame of one binary message: unfragmented, shortest length form. */
  function BinaryFrame(data: bytes, mask: Option<Key>): (f: WireFrame) {
    WireFrame(true, BINARY, mask, MinimalForm(|data|), data)
  }

  function ControlFrame(opcode: nat, data: bytes, mask: Option<Key>): (f: WireFrame) {
    WireFrame(true, opcode, mask, Short, data)
  }
}
