/** The Swift decoder and the encoder are inverse to each other, on payloads with anything behind them. */
module SwiftCodecTheorems {
  import opened Bytes
  import opened Utf8
  import opened Messages
  import opened Parsing
  import opened SwiftDecoder

  // ----- reading back what was written -----

  lemma UnsignedRoundTrip(v: nat, width: nat, q: bytes)
    requires v < Pow256(width)
    ensures ReadUnsigned(ToBigEndian(v, width) + q, width) == Ok(v, q)
  {
    var s := ToBigEndian(v, width) + q;
    assert s[..width] == ToBigEndian(v, width) && s[width..] == q;
    FromToBigEndian(v, width);
  }

  lemma I32RoundTrip(v: i32, q: bytes)
    ensures ReadI32(I32(v) + q) == Ok(v, q)
  {
    hide ReadUnsigned, ToBigEndian, Pow256;
    Pow256Values();
    UnsignedRoundTrip(Wrap(v, TWO_32), 4, q);
    SignedWrap(v, TWO_31);
  }

  lemma I64RoundTrip(v: i64, q: bytes)
    ensures ReadI64(I64(v) + q) == Ok(v, q)
  {
    hide ReadUnsigned, ToBigEndian, Pow256;
    Pow256Values();
    UnsignedRoundTrip(Wrap(v, TWO_64), 8, q);
    SignedWrap(v, TWO_63);
  }

  lemma StringRoundTrip(a: bytes, q: bytes)
    requires Valid(a) && |a| < TWO_32
    ensures ReadString(Str(a) + q) == Ok(a, q)
  {
    hide ReadUnsigned, ToBigEndian, Valid;
    Pow256Values();
    UnsignedRoundTrip(|a|, 4, a + q);
    assert Str(a) + q == U32(|a|) + (a + q);
    assert (a + q)[..|a|] == a && (a + q)[|a|..] == q;
  }

  lemma {:induction false} PairsRoundTrip(ps: seq<Pair>, q: bytes)
    requires ValidPairs(ps) && |Pairs(ps)| < TWO_32
    ensures ReadPairs(|ps|, Pairs(ps) + q) == Ok(ps, q)
  {
    hide ReadString, Valid, Str;
    if ps != [] {
      var tail := Pairs(ps[1..]);
      assert Pairs(ps) + q == Str(ps[0].key) + (Str(ps[0].value) + (tail + q));
      StringRoundTrip(ps[0].key, Str(ps[0].value) + (tail + q));
      StringRoundTrip(ps[0].value, tail + q);
      PairsRoundTrip(ps[1..], q);
      assert ps == [Pair(ps[0].key, ps[0].value)] + ps[1..];
    }
  }

  /** The least room that entries and results take: why the count guards never reject an encoding. */
  lemma {:induction false} PairsRoom(ps: seq<Pair>)
    ensures |Pairs(ps)| >= 8 * |ps|
  {
    if ps != [] { PairsRoom(ps[1..]); }
  }

  lemma {:induction false} ResultsRoom(rs: seq<EchoResult>)
    ensures |Results(rs)| >= 13 * |rs|
  {
    if rs != [] { ResultsRoom(rs[1..]); }
  }

  lemma KvRoundTrip(ps: seq<Pair>, q: bytes)
    requires ValidPairs(ps) && |Kv(ps)| < TWO_32
    ensures ReadKv(Kv(ps) + q) == Ok(ps, q)
  {
    hide ReadUnsigned, ReadPairs, Pairs, ToBigEndian, Pow256, ValidPairs;
    PairsRoom(ps);
    Pow256Values();
    UnsignedRoundTrip(|ps|, 4, Pairs(ps) + q);
    assert Kv(ps) + q == U32(|ps|) + (Pairs(ps) + q);
    PairsRoundTrip(ps, q);
  }

  lemma ResultRoundTrip(x: EchoResult, q: bytes)
    requires ValidPairs(x.kv) && |Result(x)| < TWO_32
    ensures ReadResult(Result(x) + q) == Ok(x, q)
  {
    hide ReadI64, ReadKv, Kv, I64, ValidPairs;
    assert Result(x) + q == I64(x.idx) + ([x.kind] + (Kv(x.kv) + q));
    I64RoundTrip(x.idx, [x.kind] + (Kv(x.kv) + q));
    assert ([x.kind] + (Kv(x.kv) + q))[1..] == Kv(x.kv) + q;
    KvRoundTrip(x.kv, q);
  }

  lemma {:induction false} ResultsRoundTrip(rs: seq<EchoResult>, q: bytes)
    requires ValidResults(rs) && |Results(rs)| < TWO_32
    ensures ReadResults(|rs|, Results(rs) + q) == Ok(rs, q)
  {
    hide ReadResult, Result, ValidPairs;
    if rs != [] {
      var tail := Results(rs[1..]);
      assert Results(rs) + q == Result(rs[0]) + (tail + q);
      ResultRoundTrip(rs[0], tail + q);
      ResultsRoundTrip(rs[1..], q);
      assert rs == [rs[0]] + rs[1..];
    }
  }

  lemma EchoResponseRoundTrip(st: i32, rs: seq<EchoResult>, q: bytes)
    requires ValidResults(rs) && |Payload(EchoResponse(st, rs))| < TWO_32
    ensures ReadEchoResponse(Payload(EchoResponse(st, rs)) + q) == Ok(EchoResponse(st, rs), q)
  {
    hide ReadI32, ReadUnsigned, ReadResults, Results, I32, ToBigEndian, Pow256, ValidResults;
    ResultsRoom(rs);
    Pow256Values();
    var tail := Results(rs) + q;
    assert Payload(EchoResponse(st, rs)) + q == I32(st) + (U32(|rs|) + tail);
    I32RoundTrip(st, U32(|rs|) + tail);
    UnsignedRoundTrip(|rs|, 4, tail);
    ResultsRoundTrip(rs, q);
  }

  /** Two and more strings in a row. */
  lemma StringsRoundTrip2(a: bytes, b: bytes, q: bytes)
    requires Valid(a) && Valid(b) && |a| < TWO_32 && |b| < TWO_32
    ensures Str(a) + Str(b) + q == Str(a) + (Str(b) + q)
    ensures ReadString(Str(a) + (Str(b) + q)) == Ok(a, Str(b) + q)
    ensures ReadString(Str(b) + q) == Ok(b, q)
  {
    hide ReadString, Valid, Str;
    StringRoundTrip(a, Str(b) + q);
    StringRoundTrip(b, q);
  }

  /** Payload round trip for every message type, whatever bytes follow. */
  lemma PayloadRoundTrip(m: Message, q: bytes)
    requires ValidStrings(m) && |Payload(m)| < TWO_32
    ensures ReadPayload(TypeOf(m), Payload(m) + q) == Ok(m, q)
  {
    hide ReadString, ReadI64, ReadI32, ReadEchoResponse, Valid, ValidResults, Str, I64, I32, Results;
    match m
    case Hello(a) => StringRoundTrip(a, q);
    case Bonjour(a) => StringRoundTrip(a, q);
    case Disconnect(a) => StringRoundTrip(a, q);
    case EchoResponse(st, rs) => EchoResponseRoundTrip(st, rs, q);
    case KissRequest(a, b, c, d) => KissRequestRoundTrip(a, b, c, d, q);
    case KissResponse(a, b, c) => KissResponseRoundTrip(a, b, c, q);
    case ErrorReport(c, a) =>
      assert Payload(m) + q == I32(c) + (Str(a) + q);
      I32RoundTrip(c, Str(a) + q);
      StringRoundTrip(a, q);
    case _ => NumberFirstRoundTrip(m, q);
  }

  lemma KissRequestRoundTrip(a: bytes, b: bytes, c: bytes, d: bytes, q: bytes)
    requires ValidStrings(KissRequest(a, b, c, d)) && |Payload(KissRequest(a, b, c, d))| < TWO_32
    ensures ReadPayload(0x05, Payload(KissRequest(a, b, c, d)) + q) == Ok(KissRequest(a, b, c, d), q)
  {
    hide ReadString, ReadI64, ReadI32, ReadEchoResponse, Valid, ValidResults, Str, I64, I32, Results;
    assert Payload(KissRequest(a, b, c, d)) + q == Str(a) + (Str(b) + (Str(c) + (Str(d) + q)));
    StringsRoundTrip2(a, b, Str(c) + (Str(d) + q));
    StringsRoundTrip2(c, d, q);
  }

  lemma KissResponseRoundTrip(a: bytes, b: bytes, c: bytes, q: bytes)
    requires ValidStrings(KissResponse(a, b, c)) && |Payload(KissResponse(a, b, c))| < TWO_32
    ensures ReadPayload(0x06, Payload(KissResponse(a, b, c)) + q) == Ok(KissResponse(a, b, c), q)
  {
    hide ReadString, ReadI64, ReadI32, ReadEchoResponse, Valid, ValidResults, Str, I64, I32, Results;
    assert Payload(KissResponse(a, b, c)) + q == Str(a) + (Str(b) + (Str(c) + q));
    StringRoundTrip(a, Str(b) + (Str(c) + q));
    StringsRoundTrip2(b, c, q);
  }

  /** The types whose payload starts with a 64-bit number. */
  lemma NumberFirstRoundTrip(m: Message, q: bytes)
    requires m.EchoRequest? || m.Ping? || m.Pong? || m.TimeNotification? || m.RandomNumber? || m.HashResponse?
    requires ValidStrings(m) && |Payload(m)| < TWO_32
    ensures ReadPayload(TypeOf(m), Payload(m) + q) == Ok(m, q)
  {
    hide ReadString, ReadI64, ReadI32, ReadEchoResponse, Valid, ValidResults, Str, I64, I32, Results;
    match m
    case EchoRequest(id, a, b) =>
      assert Payload(m) + q == I64(id) + (Str(a) + (Str(b) + q));
      I64RoundTrip(id, Str(a) + (Str(b) + q));
      StringsRoundTrip2(a, b, q);
    case Ping(t) => I64RoundTrip(t, q);
    case Pong(t) => I64RoundTrip(t, q);
    case TimeNotification(t, a) =>
      assert Payload(m) + q == I64(t) + (Str(a) + q);
      I64RoundTrip(t, Str(a) + q);
      StringRoundTrip(a, q);
    case RandomNumber(id, n) =>
      assert Payload(m) + q == I64(id) + (I64(n) + q);
      I64RoundTrip(id, I64(n) + q);
      I64RoundTrip(n, q);
    case HashResponse(id, a) =>
      assert Payload(m) + q == I64(id) + (Str(a) + q);
      I64RoundTrip(id, Str(a) + q);
      StringRoundTrip(a, q);
  }

  // ----- writing back what was read -----

  lemma UnsignedInverse(s: bytes, width: nat)
    ensures var r := ReadUnsigned(s, width); r.Ok? ==> s == ToBigEndian(r.value, width) + r.rest
  {
    if |s| >= width {
      ToFromBigEndian(s[..width]);
      assert s == s[..width] + s[width..];
    }
  }

  lemma I32Inverse(s: bytes)
    ensures var r := ReadI32(s); r.Ok? ==> s == I32(r.value) + r.rest
  {
    hide ToBigEndian, Pow256, FromBigEndian;
    Pow256Values();
    UnsignedInverse(s, 4);
    if ReadI32(s).Ok? { WrapSigned(ReadUnsigned(s, 4).value, TWO_31); }
  }

  lemma I64Inverse(s: bytes)
    ensures var r := ReadI64(s); r.Ok? ==> s == I64(r.value) + r.rest
  {
    hide ToBigEndian, Pow256, FromBigEndian;
    Pow256Values();
    UnsignedInverse(s, 8);
    if ReadI64(s).Ok? { WrapSigned(ReadUnsigned(s, 8).value, TWO_63); }
  }

  lemma StringInverse(s: bytes)
    ensures var r := ReadString(s); r.Ok? ==> s == Str(r.value) + r.rest && Valid(r.value)
  {
    hide ReadUnsigned, ToBigEndian, Valid;
    UnsignedInverse(s, 4);
    var r := ReadString(s);
    if r.Ok? {
      var c := ReadUnsigned(s, 4);
      assert c.rest == r.value + r.rest;
      assert s == U32(|r.value|) + (r.value + r.rest);
    }
  }

  lemma {:induction false} PairsInverse(n: nat, s: bytes)
    ensures var r := ReadPairs(n, s);
            r.Ok? ==> s == Pairs(r.value) + r.rest && ValidPairs(r.value) && |r.value| == n
    decreases n
  {
    hide ReadString, Valid, Str;
    var r := ReadPairs(n, s);
    if n > 0 && r.Ok? {
      StringInverse(s);
      var k := ReadString(s);
      StringInverse(k.rest);
      var v := ReadString(k.rest);
      PairsInverse(n - 1, v.rest);
      var ps := ReadPairs(n - 1, v.rest);
      assert r.value[1..] == ps.value;
      assert s == Str(k.value) + (Str(v.value) + (Pairs(ps.value) + r.rest));
    }
  }

  lemma KvInverse(s: bytes)
    ensures var r := ReadKv(s); r.Ok? ==> s == Kv(r.value) + r.rest && ValidPairs(r.value)
  {
    hide ReadUnsigned, ReadPairs, Pairs, ToBigEndian, ValidPairs;
    UnsignedInverse(s, 4);
    var r := ReadKv(s);
    if r.Ok? {
      var c := ReadUnsigned(s, 4);
      PairsInverse(c.value, c.rest);
      assert s == U32(|r.value|) + (Pairs(r.value) + r.rest);
    }
  }

  lemma ResultInverse(s: bytes)
    ensures var r := ReadResult(s); r.Ok? ==> s == Result(r.value) + r.rest && ValidPairs(r.value.kv)
  {
    hide ReadI64, ReadKv, Kv, I64, ValidPairs;
    I64Inverse(s);
    var r := ReadResult(s);
    if r.Ok? {
      var a := ReadI64(s);
      var b := ReadU8(a.rest);
      KvInverse(b.rest);
      assert a.rest == [b.value] + b.rest;
      assert s == I64(a.value) + ([b.value] + (Kv(r.value.kv) + r.rest));
    }
  }

  lemma {:induction false} ResultsInverse(n: nat, s: bytes)
    ensures var r := ReadResults(n, s);
            r.Ok? ==> s == Results(r.value) + r.rest && ValidResults(r.value) && |r.value| == n
    decreases n
  {
    hide ReadResult, Result, ValidPairs;
    var r := ReadResults(n, s);
    if n > 0 && r.Ok? {
      ResultInverse(s);
      var x := ReadResult(s);
      ResultsInverse(n - 1, x.rest);
      var xs := ReadResults(n - 1, x.rest);
      assert r.value[1..] == xs.value;
      assert s == Result(x.value) + (Results(xs.value) + r.rest);
    }
  }

  lemma EchoResponseInverse(s: bytes)
    ensures var r := ReadEchoResponse(s);
            r.Ok? ==> r.value.EchoResponse? && s == Payload(r.value) + r.rest && ValidStrings(r.value)
  {
    hide ReadI32, ReadUnsigned, ReadResults, Results, I32, ToBigEndian, ValidResults;
    I32Inverse(s);
    var r := ReadEchoResponse(s);
    if r.Ok? {
      var a := ReadI32(s);
      UnsignedInverse(a.rest, 4);
      var c := ReadUnsigned(a.rest, 4);
      ResultsInverse(c.value, c.rest);
      var rs := ReadResults(c.value, c.rest);
      assert s == I32(a.value) + (U32(c.value) + (Results(rs.value) + r.rest));
    }
  }

  /** A payload that decodes is the encoding of what it decodes to, followed by the unread bytes. */
  lemma PayloadInverse(t: byte, s: bytes)
    requires KnownType(t)
    ensures var r := ReadPayload(t, s);
            r.Ok? ==> TypeOf(r.value) == t && s == Payload(r.value) + r.rest && ValidStrings(r.value)
  {
    hide ReadString, ReadI64, ReadI32, ReadEchoResponse, Valid, ValidResults, Str, I64, I32, Results;
    var r := ReadPayload(t, s);
    if r.Ok? {
      if t == 0x04 {
        EchoResponseInverse(s);
      } else if t == 0x03 || t == 0x09 || t == 0x0B || t == 0x07 || t == 0x08 || t == 0x0A {
        PayloadInverseFromI64(t, s);
      } else if t == 0x7F {
        I32Inverse(s);
        StringInverse(ReadI32(s).rest);
      } else {
        PayloadInverseFromString(t, s);
      }
    }
  }

  lemma PayloadInverseFromI64(t: byte, s: bytes)
    requires t == 0x03 || t == 0x09 || t == 0x0B || t == 0x07 || t == 0x08 || t == 0x0A
    ensures var r := ReadPayload(t, s);
            r.Ok? ==> TypeOf(r.value) == t && s == Payload(r.value) + r.rest && ValidStrings(r.value)
  {
    hide ReadString, ReadI64, ReadI32, ReadEchoResponse, Valid, ValidResults, Str, I64, I32, Results;
    I64Inverse(s);
    var r := ReadPayload(t, s);
    if r.Ok? {
      var a := ReadI64(s);
      StringInverse(a.rest);
      I64Inverse(a.rest);
      if t == 0x03 {
        var b := ReadString(a.rest);
        StringInverse(b.rest);
        var c := ReadString(b.rest);
        assert s == I64(a.value) + (Str(b.value) + (Str(c.value) + c.rest));
      }
    }
  }

  lemma PayloadInverseFromString(t: byte, s: bytes)
    requires t == 0x01 || t == 0x02 || t == 0x05 || t == 0x06 || t == 0x0C
    ensures var r := ReadPayload(t, s);
            r.Ok? ==> TypeOf(r.value) == t && s == Payload(r.value) + r.rest && ValidStrings(r.value)
  {
    hide ReadString, ReadI64, ReadI32, ReadEchoResponse, Valid, ValidResults, Str, I64, I32, Results;
    StringInverse(s);
    var r := ReadPayload(t, s);
    if r.Ok? && (t == 0x05 || t == 0x06) {
      var a := ReadString(s);
      StringInverse(a.rest);
      var b := ReadString(a.rest);
      StringInverse(b.rest);
      var c := ReadString(b.rest);
      assert s == Str(a.value) + (Str(b.value) + (Str(c.value) + c.rest));
      if t == 0x05 {
        StringInverse(c.rest);
        var d := ReadString(c.rest);
        assert s == Str(a.value) + (Str(b.value) + (Str(c.value) + (Str(d.value) + d.rest)));
      }
    }
  }
}
