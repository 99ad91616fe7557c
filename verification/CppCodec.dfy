/** The C++ codec as it is written: an append-only writer, a cursor reader, and the encode and decode
    routines over them, each proved against the layout of `Messages` or the functions of `CppDecoder`. */
module CppCodec {
  import opened Bytes
  import Utf8
  import opened Messages
  import opened Parsing
  import opened CppDecoder

  // ----- writing -----

  class ByteWriter {
    var buf: bytes

    constructor ()
      ensures buf == []
    {
      buf := [];
    }

    method WriteU8(v: byte)
      modifies this
      ensures buf == old(buf) + [v]
    {
      buf := buf + [v];
    }

    method WriteU32(v: u32)
      modifies this
      ensures buf == old(buf) + U32(v)
    {
      buf := buf + [(v / 0x100_0000) % 256];
      buf := buf + [(v / 0x1_0000) % 256];
      buf := buf + [(v / 0x100) % 256];
      buf := buf + [v % 256];
      U32Bytes(v);
    }

    method WriteI32(v: i32)
      modifies this
      ensures buf == old(buf) + I32(v)
    {
      WriteU32(Wrap(v, TWO_32));
    }

    /** High half (an arithmetic shift), then low half. */
    method WriteI64(v: i64)
      modifies this
      ensures buf == old(buf) + I64(v)
    {
      WriteU32(Wrap(v / TWO_32, TWO_32));
      WriteU32(Wrap(v, TWO_32));
      HalvesOfI64(v);
    }

    method WriteString(s: bytes)
      modifies this
      ensures buf == old(buf) + Str(s)
    {
      WriteU32(|s| % TWO_32);
      LengthField(|s|);
      buf := buf + s;
    }

    method WriteKV(m: seq<Pair>)
      modifies this
      ensures buf == old(buf) + Kv(m)
    {
      hide ToBigEndian, Str;
      WriteU32(|m| % TWO_32);
      LengthField(|m|);
      var i := 0;
      while i < |m|
        invariant 0 <= i <= |m|
        invariant buf + Pairs(m[i..]) == old(buf) + Kv(m)
      {
        ghost var before := buf;
        WriteString(m[i].key);
        WriteString(m[i].value);
        assert m[i..][1..] == m[i + 1..];
        assert before + Pairs(m[i..]) == before + Str(m[i].key) + Str(m[i].value) + Pairs(m[i + 1..]);
        i := i + 1;
      }
      assert m[i..] == [] && buf + [] == buf;
    }

    method WriteResults(rs: seq<EchoResult>)
      modifies this
      ensures buf == old(buf) + Results(rs)
    {
      hide ToBigEndian, I64, Kv;
      assert rs[0..] == rs;
      var i := 0;
      while i < |rs|
        invariant 0 <= i <= |rs|
        invariant buf + Results(rs[i..]) == old(buf) + Results(rs)
      {
        ghost var before := buf;
        WriteI64(rs[i].idx);
        WriteU8(rs[i].kind);
        WriteKV(rs[i].kv);
        assert rs[i..][1..] == rs[i + 1..];
        assert buf == before + Result(rs[i]);
        assert before + Results(rs[i..]) == before + Result(rs[i]) + Results(rs[i + 1..]);
        i := i + 1;
      }
      assert rs[i..] == [] && buf + [] == buf;
    }
  }

  lemma HalvesOfI64(v: i64)
    ensures U32(Wrap(v / TWO_32, TWO_32)) + U32(Wrap(v, TWO_32)) == I64(v)
  {
    hide ToBigEndian, FromBigEndian, Pow256;
    var hi, lo := Wrap(v / TWO_32, TWO_32), Wrap(v, TWO_32);
    Pow256Values();
    FromToBigEndian(hi, 4);
    FromToBigEndian(lo, 4);
    FromBigEndianAppend(U32(hi), U32(lo));
    assert Wrap(v, TWO_64) == hi * TWO_32 + lo;
    ToFromBigEndian(U32(hi) + U32(lo));
  }

  lemma LengthField(n: nat)
    ensures U32(n % TWO_32) == U32(n)
  {
    Pow256Values();
    ToBigEndianMod(n, 4);
  }

  method EncodeMessage(m: Message) returns (s: bytes)
    ensures s == Encode(m)
  {
    hide Payload, EncodeFrame;
    var w := new ByteWriter();
    if m.Hello? || m.Bonjour? || m.KissRequest? || m.KissResponse? || m.Disconnect? {
      WriteTexts(w, m);
    } else {
      WriteFields(w, m);
    }
    Identity(Payload(m));
    s := FrameBytes(TypeOf(m), w.buf);
  }

  /** The cases of `encode` that write only strings. */
  method WriteTexts(w: ByteWriter, m: Message)
    requires m.Hello? || m.Bonjour? || m.KissRequest? || m.KissResponse? || m.Disconnect?
    modifies w
    ensures w.buf == old(w.buf) + Payload(m)
  {
    hide Str;
    match m {
      case Hello(a) => w.WriteString(a);
      case Bonjour(a) => w.WriteString(a);
      case KissRequest(a, b, c, d) => w.WriteString(a); w.WriteString(b); w.WriteString(c); w.WriteString(d);
      case KissResponse(a, b, c) => w.WriteString(a); w.WriteString(b); w.WriteString(c);
      case Disconnect(a) => w.WriteString(a);
    }
  }

  /** The other cases. */
  method WriteFields(w: ByteWriter, m: Message)
    requires !(m.Hello? || m.Bonjour? || m.KissRequest? || m.KissResponse? || m.Disconnect?)
    modifies w
    ensures w.buf == old(w.buf) + Payload(m)
  {
    hide I64, I32, Str, ToBigEndian, Results;
    match m {
      case EchoRequest(id, a, b) => w.WriteI64(id); w.WriteString(a); w.WriteString(b);
      case EchoResponse(st, rs) =>
        w.WriteI32(st);
        w.WriteU32(|rs| % TWO_32);
        LengthField(|rs|);
        w.WriteResults(rs);
      case Ping(t) => w.WriteI64(t);
      case Pong(t) => w.WriteI64(t);
      case TimeNotification(t, a) => w.WriteI64(t); w.WriteString(a);
      case RandomNumber(id, n) => w.WriteI64(id); w.WriteI64(n);
      case HashResponse(id, a) => w.WriteI64(id); w.WriteString(a);
      case ErrorReport(c, a) => w.WriteI32(c); w.WriteString(a);
    }
  }

  /** `encodeFrame`: a zeroed buffer, the header bytes, then a copy of the payload. */
  method FrameBytes(msgType: byte, payload: bytes) returns (s: bytes)
    ensures s == EncodeFrame(msgType, 0, payload)
  {
    var buf := new byte[HEADER_LEN + |payload|];
    buf[0], buf[1], buf[2], buf[3] := MAGIC, VERSION, msgType, 0;
    var len := |payload| % TWO_32;
    buf[4], buf[5] := (len / 0x100_0000) % 256, (len / 0x1_0000) % 256;
    buf[6], buf[7] := (len / 0x100) % 256, len % 256;
    U32Bytes(len);
    LengthField(|payload|);
    var i := 0;
    while i < |payload|
      invariant 0 <= i <= |payload|
      invariant buf[..HEADER_LEN] == [MAGIC, VERSION, msgType, 0] + U32(len)
      invariant buf[HEADER_LEN..HEADER_LEN + i] == payload[..i]
    {
      buf[HEADER_LEN + i] := payload[i];
      i := i + 1;
    }
    assert payload[..i] == payload;
    assert buf[..] == buf[..HEADER_LEN] + buf[HEADER_LEN..HEADER_LEN + i];
    s := buf[..];
  }

  // ----- reading -----

  /** The method result `got`, with the cursor now at `rest`, is what the function `spec` says. */
  ghost predicate Meets<T>(spec: Parse<T>, got: Decoded<T>, rest: bytes) {
    match spec
    case Ok(v, r) => got == Decoded(v) && rest == r
    case Err(e) => got == Rejected(e)
  }

  class ByteReader {
    const data: bytes
    var pos: nat

    ghost predicate Valid()
      reads this
    {
      pos <= |data|
    }

    ghost function Left(): (s: bytes)
      requires Valid()
      reads this
    {
      data[pos..]
    }

    constructor (data: bytes)
      ensures Valid() && this.data == data && pos == 0
    {
      this.data := data;
      pos := 0;
    }

    method ReadByte() returns (r: Decoded<byte>)
      requires Valid()
      modifies this
      ensures Valid() && Meets(ReadU8(old(Left())), r, Left())
    {
      if pos + 1 > |data| { return Rejected(UnexpectedEnd); }
      r := Decoded(data[pos]);
      pos := pos + 1;
    }

    method ReadWord() returns (r: Decoded<u32>)
      requires Valid()
      modifies this
      ensures Valid() && Meets(ReadU32(old(Left())), r, Left())
    {
      hide FromBigEndian, Pow256;
      if pos + 4 > |data| { return Rejected(UnexpectedEnd); }
      FourBytesValue(Left()[..4]);
      var a: int, b: int, c: int, d: int := data[pos], data[pos + 1], data[pos + 2], data[pos + 3];
      r := Decoded(a * 0x100_0000 + b * 0x1_0000 + c * 0x100 + d);
      pos := pos + 4;
    }

    method ReadInt() returns (r: Decoded<i32>)
      requires Valid()
      modifies this
      ensures Valid() && Meets(ReadI32(old(Left())), r, Left())
    {
      hide ReadU32;
      var v :- ReadWord();
      r := Decoded(Signed(v, TWO_31));
    }

    method ReadLong() returns (r: Decoded<i64>)
      requires Valid()
      modifies this
      ensures Valid() && Meets(ReadI64(old(Left())), r, Left())
    {
      hide ReadU32;
      var hi :- ReadWord();
      var lo :- ReadWord();
      r := Decoded(Signed((hi as int) * TWO_32 + lo, TWO_63));
    }

    method ReadText() returns (r: Decoded<bytes>)
      requires Valid()
      modifies this
      ensures Valid() && Meets(ReadString(old(Left())), r, Left())
    {
      hide ReadU32, Utf8.Valid, Utf8.EncodeScalars;
      var n :- ReadWord();
      if pos + n > |data| { return Rejected(StringTooLong); }
      assert data[pos..pos + n] == Left()[..n];
      var ok := Utf8.IsValidUtf8(data[pos..pos + n]);
      if !ok { return Rejected(InvalidUtf8); }
      r := Decoded(data[pos..pos + n]);
      assert data[pos + n..] == Left()[n..];
      pos := pos + n;
    }

    method ReadMap() returns (r: Decoded<seq<Pair>>)
      requires Valid()
      modifies this
      ensures Valid() && Meets(ReadKV(old(Left())), r, Left())
    {
      hide ReadU32, ReadString, Put;
      var count :- ReadWord();
      if count > (|data| - pos) / 8 { return Rejected(KvCountTooBig); }
      ghost var start := Left();
      var m: seq<Pair> := [];
      var i := 0;
      while i < count
        invariant 0 <= i <= count && Valid()
        invariant ReadEntries(count, start, []) == ReadEntries(count - i, Left(), m)
      {
        var key :- ReadText();
        var val :- ReadText();
        m := Put(m, key, val);
        i := i + 1;
      }
      r := Decoded(m);
    }

    method ReadOneResult() returns (r: Decoded<EchoResult>)
      requires Valid()
      modifies this
      ensures Valid() && Meets(ReadResult(old(Left())), r, Left())
    {
      hide ReadI64, ReadU8, ReadKV;
      var idx :- ReadLong();
      var kind :- ReadByte();
      var kv :- ReadMap();
      r := Decoded(EchoResult(idx, kind, kv));
    }

    method ReadEcho() returns (r: Decoded<Message>)
      requires Valid()
      modifies this
      ensures Valid() && Meets(ReadEchoResponse(old(Left())), r, Left())
    {
      hide ReadI32, ReadU32, ReadResult;
      var status :- ReadInt();
      var count :- ReadWord();
      if count > (|data| - pos) / 13 { return Rejected(ResultCountTooBig); }
      ghost var start := Left();
      var rs: seq<EchoResult> := [];
      var i := 0;
      ContinuesStart(ReadResults(count, start));
      while i < count
        invariant 0 <= i <= count && Valid()
        invariant Continues(ReadResults(count, start), rs, ReadResults(count - i, Left()))
      {
        ghost var here := Left();
        ghost var before := rs;
        ContinuesFail(ReadResults(count, start), before, count - i, here);
        var x :- ReadOneResult();
        rs := rs + [x];
        ContinuesStep(ReadResults(count, start), before, count - i, here);
        i := i + 1;
      }
      assert rs + [] == rs;
      r := Decoded(EchoResponse(status, rs));
    }
  }

  /** The whole read is the elements so far followed by the rest of the read. */
  ghost predicate Continues(whole: Parse<seq<EchoResult>>, sofar: seq<EchoResult>, more: Parse<seq<EchoResult>>) {
    match more
    case Ok(xs, r) => whole == Ok(sofar + xs, r)
    case Err(e) => whole == Err(e)
  }

  lemma ContinuesStart(whole: Parse<seq<EchoResult>>)
    ensures Continues(whole, [], whole)
  {
    if whole.Ok? { assert [] + whole.value == whole.value; }
  }

  lemma ContinuesFail(whole: Parse<seq<EchoResult>>, sofar: seq<EchoResult>, n: nat, s: bytes)
    requires n > 0 && Continues(whole, sofar, ReadResults(n, s))
    ensures ReadResult(s).Err? ==> whole == Err(ReadResult(s).error)
  {
    hide ReadResult;
  }

  lemma ContinuesStep(whole: Parse<seq<EchoResult>>, sofar: seq<EchoResult>, n: nat, s: bytes)
    requires n > 0 && Continues(whole, sofar, ReadResults(n, s)) && ReadResult(s).Ok?
    ensures Continues(whole, sofar + [ReadResult(s).value], ReadResults(n - 1, ReadResult(s).rest))
  {
    hide ReadResult;
    var x := ReadResult(s);
    var more := ReadResults(n - 1, x.rest);
    if more.Ok? {
      assert sofar + [x.value] + more.value == sofar + ([x.value] + more.value);
    }
  }

  method DecodeMessage(data: bytes) returns (r: Decoded<Message>)
    ensures r == Decode(data)
  {
    hide FromBigEndian, ReadPayload;
    if |data| < HEADER_LEN { return Rejected(FrameTooShort(|data|)); }
    if data[0] != MAGIC { return Rejected(BadMagic); }
    if data[1] != VERSION { return Rejected(BadVersion); }
    FourBytesValue(data[4..8]);
    var a: int, b: int, c: int, d: int := data[4], data[5], data[6], data[7];
    var payloadLen := a * 0x100_0000 + b * 0x1_0000 + c * 0x100 + d;
    if payloadLen != |data| - HEADER_LEN { return Rejected(LengthMismatch); }
    var reader := new ByteReader(data[HEADER_LEN..]);
    assert reader.Left() == data[HEADER_LEN..];
    r := DecodePayload(data[2], reader);
  }

  /** The switch of `decodeMessage`, over a fresh reader. */
  method DecodePayload(msgType: byte, r: ByteReader) returns (m: Decoded<Message>)
    requires r.Valid()
    modifies r
    ensures r.Valid() && Meets(ReadPayload(msgType, old(r.Left())), m, r.Left())
  {
    hide ReadI64, ReadI32, ReadString, ReadEchoResponse;
    if msgType == 0x01 { var a :- r.ReadText(); m := Decoded(Hello(a)); }
    else if msgType == 0x02 { var a :- r.ReadText(); m := Decoded(Bonjour(a)); }
    else if msgType == 0x03 {
      var id :- r.ReadLong();
      var a :- r.ReadText();
      var b :- r.ReadText();
      m := Decoded(EchoRequest(id, a, b));
    }
    else if msgType == 0x04 { m := r.ReadEcho(); }
    else if msgType == 0x05 {
      var a :- r.ReadText();
      var b :- r.ReadText();
      var c :- r.ReadText();
      var d :- r.ReadText();
      m := Decoded(KissRequest(a, b, c, d));
    }
    else if msgType == 0x06 {
      var a :- r.ReadText();
      var b :- r.ReadText();
      var c :- r.ReadText();
      m := Decoded(KissResponse(a, b, c));
    }
    else if msgType == 0x07 { var t :- r.ReadLong(); m := Decoded(Ping(t)); }
    else if msgType == 0x08 { var t :- r.ReadLong(); m := Decoded(Pong(t)); }
    else if msgType == 0x09 {
      var t :- r.ReadLong();
      var a :- r.ReadText();
      m := Decoded(TimeNotification(t, a));
    }
    else if msgType == 0x0A {
      var id :- r.ReadLong();
      var n :- r.ReadLong();
      m := Decoded(RandomNumber(id, n));
    }
    else if msgType == 0x0B {
      var id :- r.ReadLong();
      var a :- r.ReadText();
      m := Decoded(HashResponse(id, a));
    }
    else if msgType == 0x0C { var a :- r.ReadText(); m := Decoded(Disconnect(a)); }
    else if msgType == 0x7F {
      var c :- r.ReadInt();
      var a :- r.ReadText();
      m := Decoded(ErrorReport(c, a));
    }
    else { m := Rejected(UnknownType); }
  }
}
