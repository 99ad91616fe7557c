/** The outcome of reading from the front of a byte string. */
module Parsing {
  import opened Bytes

  /** The reasons the two decoders give; where Swift has one error for several, it is `UnexpectedEnd`. */
  datatype DecodeError =
    | UnexpectedEnd
    | StringTooLong
    | InvalidUtf8
    | KvCountTooBig
    | ResultCountTooBig
    | FrameTooShort(length: nat)
    | BadMagic
    | BadVersion
    | LengthMismatch
    | UnknownType

  datatype Parse<+T> = Ok(value: T, rest: bytes) | Err(error: DecodeError) {
    predicate IsFailure() { Err? }
    function PropagateFailure<U>(): Parse<U> requires Err? { Err(error) }
    function Extract(): (T, bytes) requires Ok? { (value, rest) }
  }

  /** A value, or the exception thrown instead. */
  datatype Decoded<+M> = Decoded(message: M) | Rejected(error: DecodeError) {
    predicate IsFailure() { Rejected? }
    function PropagateFailure<U>(): Decoded<U> requires Rejected? { Rejected(error) }
    function Extract(): M requires Decoded? { message }
  }
}

/** The C++ decoder, as functions of the bytes left to read. */
module CppDecoder {
  import opened Bytes
  import opened Utf8
  import opened Messages
  import opened Parsing

  function ReadU8(s: bytes): (r: Parse<byte>) {
    if |s| < 1 then Err(UnexpectedEnd) else Ok(s[0], s[1..])
  }

  function ReadU32(s: bytes): (r: Parse<u32>) {
    if |s| < 4 then Err(UnexpectedEnd)
    else
      ToFromBigEndian(s[..4]);
      Pow256Values();
      Ok(FromBigEndian(s[..4]), s[4..])
  }

  function ReadI32(s: bytes): (r: Parse<i32>) {
    var (v, s1) :- ReadU32(s);
    Ok(Signed(v, TWO_31), s1)
  }

  /** Two 32-bit reads, high half first. */
  function ReadI64(s: bytes): (r: Parse<i64>) {
    var (hi, s1) :- ReadU32(s);
    var (lo, s2) :- ReadU32(s1);
    Ok(Signed((hi as int) * TWO_32 + lo, TWO_63), s2)
  }

  function ReadString(s: bytes): (r: Parse<bytes>) {
    var (n, s1) :- ReadU32(s);
    if n > |s1| then Err(StringTooLong)
    else if !Valid(s1[..n]) then Err(InvalidUtf8)
    else Ok(s1[..n], s1[n..])
  }

  /** The loop of `readKV`: `n` entries still to read, `m` the map so far. */
  function ReadEntries(n: nat, s: bytes, m: seq<Pair>): (r: Parse<seq<Pair>>) {
    if n == 0 then Ok(m, s)
    else
      var (k, s1) :- ReadString(s);
      var (v, s2) :- ReadString(s1);
      ReadEntries(n - 1, s2, Put(m, k, v))
  }

  function ReadKV(s: bytes): (r: Parse<seq<Pair>>) {
    var (n, s1) :- ReadU32(s);
    if n > |s1| / 8 then Err(KvCountTooBig) else ReadEntries(n, s1, [])
  }

  function ReadResult(s: bytes): (r: Parse<EchoResult>) {
    var (idx, s1) :- ReadI64(s);
    var (kind, s2) :- ReadU8(s1);
    var (kv, s3) :- ReadKV(s2);
    Ok(EchoResult(idx, kind, kv), s3)
  }

  function ReadResults(n: nat, s: bytes): (r: Parse<seq<EchoResult>>) {
    if n == 0 then Ok([], s)
    else
      var (x, s1) :- ReadResult(s);
      var (xs, s2) :- ReadResults(n - 1, s1);
      Ok([x] + xs, s2)
  }

  function ReadEchoResponse(s: bytes): (r: Parse<Message>) {
    var (st, s1) :- ReadI32(s);
    var (n, s2) :- ReadU32(s1);
    if n > |s2| / 13 then Err(ResultCountTooBig)
    else
      var (rs, s3) :- ReadResults(n, s2);
      Ok(EchoResponse(st, rs), s3)
  }

  function ReadPayload(t: byte, s: bytes): (r: Parse<Message>) {
    if t == 0x01 then var (a, s1) :- ReadString(s); Ok(Hello(a), s1)
    else if t == 0x02 then var (a, s1) :- ReadString(s); Ok(Bonjour(a), s1)
    else if t == 0x03 then
      var (id, s1) :- ReadI64(s); var (a, s2) :- ReadString(s1); var (b, s3) :- ReadString(s2);
      Ok(EchoRequest(id, a, b), s3)
    else if t == 0x04 then ReadEchoResponse(s)
    else if t == 0x05 then
      var (a, s1) :- ReadString(s); var (b, s2) :- ReadString(s1); var (c, s3) :- ReadString(s2);
      var (d, s4) :- ReadString(s3);
      Ok(KissRequest(a, b, c, d), s4)
    else if t == 0x06 then
      var (a, s1) :- ReadString(s); var (b, s2) :- ReadString(s1); var (c, s3) :- ReadString(s2);
      Ok(KissResponse(a, b, c), s3)
    else if t == 0x07 then var (v, s1) :- ReadI64(s); Ok(Ping(v), s1)
    else if t == 0x08 then var (v, s1) :- ReadI64(s); Ok(Pong(v), s1)
    else if t == 0x09 then
      var (v, s1) :- ReadI64(s); var (a, s2) :- ReadString(s1);
      Ok(TimeNotification(v, a), s2)
    else if t == 0x0A then
      var (id, s1) :- ReadI64(s); var (v, s2) :- ReadI64(s1);
      Ok(RandomNumber(id, v), s2)
    else if t == 0x0B then
      var (id, s1) :- ReadI64(s); var (a, s2) :- ReadString(s1);
      Ok(HashResponse(id, a), s2)
    else if t == 0x0C then var (a, s1) :- ReadString(s); Ok(Disconnect(a), s1)
    else if t == 0x7F then
      var (c, s1) :- ReadI32(s); var (a, s2) :- ReadString(s1);
      Ok(ErrorReport(c, a), s2)
    else Err(UnknownType)
  }

  /** The checks of `decodeFrame`, in its order; the type byte is not one of them. */
  function FrameFault(x: bytes): (e: Decoded<()>) {
    if |x| < HEADER_LEN then Rejected(FrameTooShort(|x|))
    else if x[0] != MAGIC then Rejected(BadMagic)
    else if x[1] != VERSION then Rejected(BadVersion)
    else if FromBigEndian(x[4..8]) != |x| - HEADER_LEN then Rejected(LengthMismatch)
    else Decoded(())
  }

  function Decode(x: bytes): (r: Decoded<Message>) {
    if FrameFault(x).Rejected? then Rejected(FrameFault(x).error)
    else
      match ReadPayload(x[2], x[HEADER_LEN..])
      case Ok(m, _) => Decoded(m)
      case Err(e) => Rejected(e)
  }
}

/** The Swift decoder. It differs from the C++ one in the order of the header checks, in reading 64-bit
    integers at once, in keeping a map as the list of its entries, and in its errors. */
module SwiftDecoder {
  import opened Bytes
  import opened Utf8
  import opened Messages
  import opened Parsing

  function ReadU8(s: bytes): (r: Parse<byte>) {
    if |s| < 1 then Err(UnexpectedEnd) else Ok(s[0], s[1..])
  }

  function ReadUnsigned(s: bytes, width: nat): (r: Parse<nat>)
    ensures r.Ok? ==> r.value < Pow256(width)
  {
    if |s| < width then Err(UnexpectedEnd)
    else
      ToFromBigEndian(s[..width]);
      Ok(FromBigEndian(s[..width]), s[width..])
  }

  function ReadI32(s: bytes): (r: Parse<i32>) {
    Pow256Values();
    var (v, s1) :- ReadUnsigned(s, 4);
    Ok(Signed(v, TWO_31), s1)
  }

  function ReadI64(s: bytes): (r: Parse<i64>) {
    Pow256Values();
    var (v, s1) :- ReadUnsigned(s, 8);
    Ok(Signed(v, TWO_63), s1)
  }

  function ReadString(s: bytes): (r: Parse<bytes>) {
    var (n, s1) :- ReadUnsigned(s, 4);
    if n > |s1| then Err(UnexpectedEnd)
    else if !Valid(s1[..n]) then Err(InvalidUtf8)
    else Ok(s1[..n], s1[n..])
  }

  function ReadPairs(n: nat, s: bytes): (r: Parse<seq<Pair>>) {
    if n == 0 then Ok([], s)
    else
      var (k, s1) :- ReadString(s);
      var (v, s2) :- ReadString(s1);
      var (ps, s3) :- ReadPairs(n - 1, s2);
      Ok([Pair(k, v)] + ps, s3)
  }

  function ReadKv(s: bytes): (r: Parse<seq<Pair>>) {
    var (n, s1) :- ReadUnsigned(s, 4);
    if n > |s1| / 8 then Err(UnexpectedEnd) else ReadPairs(n, s1)
  }

  function ReadResult(s: bytes): (r: Parse<EchoResult>) {
    var (idx, s1) :- ReadI64(s);
    var (kind, s2) :- ReadU8(s1);
    var (kv, s3) :- ReadKv(s2);
    Ok(EchoResult(idx, kind, kv), s3)
  }

  function ReadResults(n: nat, s: bytes): (r: Parse<seq<EchoResult>>) {
    if n == 0 then Ok([], s)
    else
      var (x, s1) :- ReadResult(s);
      var (xs, s2) :- ReadResults(n - 1, s1);
      Ok([x] + xs, s2)
  }

  function ReadEchoResponse(s: bytes): (r: Parse<Message>) {
    var (st, s1) :- ReadI32(s);
    var (n, s2) :- ReadUnsigned(s1, 4);
    if n > |s2| / 13 then Err(UnexpectedEnd)
    else
      var (rs, s3) :- ReadResults(n, s2);
      Ok(EchoResponse(st, rs), s3)
  }

  function ReadPayload(t: byte, s: bytes): (r: Parse<Message>)
    requires KnownType(t)
  {
    if t == 0x01 then var (a, s1) :- ReadString(s); Ok(Hello(a), s1)
    else if t == 0x02 then var (a, s1) :- ReadString(s); Ok(Bonjour(a), s1)
    else if t == 0x03 then
      var (id, s1) :- ReadI64(s); var (a, s2) :- ReadString(s1); var (b, s3) :- ReadString(s2);
      Ok(EchoRequest(id, a, b), s3)
    else if t == 0x04 then ReadEchoResponse(s)
    else if t == 0x05 then
      var (a, s1) :- ReadString(s); var (b, s2) :- ReadString(s1); var (c, s3) :- ReadString(s2);
      var (d, s4) :- ReadString(s3);
      Ok(KissRequest(a, b, c, d), s4)
    else if t == 0x06 then
      var (a, s1) :- ReadString(s); var (b, s2) :- ReadString(s1); var (c, s3) :- ReadString(s2);
      Ok(KissResponse(a, b, c), s3)
    else if t == 0x07 then var (v, s1) :- ReadI64(s); Ok(Ping(v), s1)
    else if t == 0x08 then var (v, s1) :- ReadI64(s); Ok(Pong(v), s1)
    else if t == 0x09 then
      var (v, s1) :- ReadI64(s); var (a, s2) :- ReadString(s1);
      Ok(TimeNotification(v, a), s2)
    else if t == 0x0A then
      var (id, s1) :- ReadI64(s); var (v, s2) :- ReadI64(s1);
      Ok(RandomNumber(id, v), s2)
    else if t == 0x0B then
      var (id, s1) :- ReadI64(s); var (a, s2) :- ReadString(s1);
      Ok(HashResponse(id, a), s2)
    else if t == 0x0C then var (a, s1) :- ReadString(s); Ok(Disconnect(a), s1)
    else
      var (c, s1) :- ReadI32(s); var (a, s2) :- ReadString(s1);
      Ok(ErrorReport(c, a), s2)
  }

  /** The checks of Swift's `decodeFrame`: the type byte is checked before the length. */
  function FrameFault(x: bytes): (e: Decoded<()>) {
    if |x| < HEADER_LEN then Rejected(FrameTooShort(|x|))
    else if x[0] != MAGIC then Rejected(BadMagic)
    else if x[1] != VERSION then Rejected(BadVersion)
    else if !KnownType(x[2]) then Rejected(UnknownType)
    else if FromBigEndian(x[4..8]) != |x| - HEADER_LEN then Rejected(LengthMismatch)
    else Decoded(())
  }

  /** The message, and the payload bytes the decoder left unread. */
  function DecodeRest(x: bytes): (r: Parse<Message>) {
    if FrameFault(x).Rejected? then Err(FrameFault(x).error)
    else ReadPayload(x[2], x[HEADER_LEN..])
  }

  function Decode(x: bytes): (r: Decoded<Message>) {
    match DecodeRest(x)
    case Ok(m, _) => Decoded(m)
    case Err(e) => Rejected(e)
  }
}
