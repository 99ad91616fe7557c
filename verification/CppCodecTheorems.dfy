/** What the C++ codec guarantees: it accepts what the Swift decoder accepts, it reads back what it wrote,
    and re-encoding what it read is a normal form. */
module CppCodecTheorems {
  import opened Bytes
  import opened Utf8
  import opened Messages
  import opened Parsing
  import Cpp = CppDecoder
  import Swift = SwiftDecoder
  import opened SwiftCodecTheorems

  // ----- the same message, with each entry list turned into the ordered map -----

  function CollapseResult(r: EchoResult): (c: EchoResult) { r.(kv := Collapse(r.kv)) }

  function CollapseResults(rs: seq<EchoResult>): (cs: seq<EchoResult>)
    ensures |cs| == |rs|
    ensures forall i :: 0 <= i < |rs| ==> cs[i] == CollapseResult(rs[i])
  {
    if rs == [] then [] else [CollapseResult(rs[0])] + CollapseResults(rs[1..])
  }

  function CollapseMessage(m: Message): (c: Message) {
    if m.EchoResponse? then m.(echoResults := CollapseResults(m.echoResults)) else m
  }

  /** One reader agrees with another: both accept, with the same unread bytes, or both refuse. */
  predicate SameParse<T(==)>(p: Parse<T>, q: Parse<T>) {
    p.Ok? == q.Ok? && (p.Ok? ==> p == q)
  }

  // ----- the two decoders agree -----

  lemma U32Agree(s: bytes)
    ensures Cpp.ReadU32(s).Ok? == Swift.ReadUnsigned(s, 4).Ok?
    ensures Cpp.ReadU32(s).Ok? ==>
              Cpp.ReadU32(s).value == Swift.ReadUnsigned(s, 4).value && Cpp.ReadU32(s).rest == Swift.ReadUnsigned(s, 4).rest
  {
  }

  lemma I32Agree(s: bytes)
    ensures SameParse(Cpp.ReadI32(s), Swift.ReadI32(s))
  {
    hide FromBigEndian;
    U32Agree(s);
  }

  /** Two 32-bit reads give the 64-bit read. */
  lemma I64Agree(s: bytes)
    ensures SameParse(Cpp.ReadI64(s), Swift.ReadI64(s))
  {
    hide FromBigEndian, Pow256;
    Pow256Values();
    if |s| >= 8 {
      assert s[4..][..4] == s[4..8] && s[4..][4..] == s[8..];
      assert s[..8] == s[..4] + s[4..8];
      FromBigEndianAppend(s[..4], s[4..8]);
    }
  }

  lemma StringAgree(s: bytes)
    ensures SameParse(Cpp.ReadString(s), Swift.ReadString(s))
  {
    hide FromBigEndian, Valid, Pow256;
    U32Agree(s);
  }

  /** Storing entries into the ordered map while reading is collapsing the list read. */
  lemma {:induction false} EntriesAgree(n: nat, s: bytes, m: seq<Pair>)
    ensures var p, q := Cpp.ReadEntries(n, s, m), Swift.ReadPairs(n, s);
            p.Ok? == q.Ok? && (p.Ok? ==> p == Ok(PutAll(m, q.value), q.rest))
    decreases n
  {
    hide Cpp.ReadString, Swift.ReadString, Put;
    if n > 0 {
      StringAgree(s);
      var k := Cpp.ReadString(s);
      if k.Ok? {
        StringAgree(k.rest);
        var v := Cpp.ReadString(k.rest);
        if v.Ok? {
          EntriesAgree(n - 1, v.rest, Put(m, k.value, v.value));
          var ps := Swift.ReadPairs(n - 1, v.rest);
          if ps.Ok? { assert ([Pair(k.value, v.value)] + ps.value)[1..] == ps.value; }
        }
      }
    }
  }

  lemma KvAgree(s: bytes)
    ensures var p, q := Cpp.ReadKV(s), Swift.ReadKv(s);
            p.Ok? == q.Ok? && (p.Ok? ==> p == Ok(Collapse(q.value), q.rest))
  {
    hide Cpp.ReadEntries, Swift.ReadPairs, Cpp.ReadU32, Swift.ReadUnsigned, PutAll;
    U32Agree(s);
    var c := Cpp.ReadU32(s);
    if c.Ok? { EntriesAgree(c.value, c.rest, []); }
  }

  lemma ResultAgree(s: bytes)
    ensures var p, q := Cpp.ReadResult(s), Swift.ReadResult(s);
            p.Ok? == q.Ok? && (p.Ok? ==> p == Ok(CollapseResult(q.value), q.rest))
  {
    hide Cpp.ReadI64, Swift.ReadI64, Cpp.ReadKV, Swift.ReadKv, Collapse;
    I64Agree(s);
    var a := Cpp.ReadI64(s);
    if a.Ok? && |a.rest| > 0 { KvAgree(a.rest[1..]); }
  }

  lemma {:induction false} ResultsAgree(n: nat, s: bytes)
    ensures var p, q := Cpp.ReadResults(n, s), Swift.ReadResults(n, s);
            p.Ok? == q.Ok? && (p.Ok? ==> p == Ok(CollapseResults(q.value), q.rest))
    decreases n
  {
    hide Cpp.ReadResult, Swift.ReadResult;
    if n > 0 {
      ResultAgree(s);
      var x := Cpp.ReadResult(s);
      if x.Ok? {
        ResultsAgree(n - 1, x.rest);
        var xs := Swift.ReadResults(n - 1, x.rest);
        if xs.Ok? {
          var y := Swift.ReadResult(s).value;
          assert ([y] + xs.value)[1..] == xs.value;
        }
      }
    }
  }

  lemma EchoResponseAgree(s: bytes)
    ensures var p, q := Cpp.ReadEchoResponse(s), Swift.ReadEchoResponse(s);
            p.Ok? == q.Ok? && (p.Ok? ==> p == Ok(CollapseMessage(q.value), q.rest))
  {
    hide Cpp.ReadI32, Swift.ReadI32, Cpp.ReadU32, Swift.ReadUnsigned, Cpp.ReadResults, Swift.ReadResults;
    hide CollapseResults;
    I32Agree(s);
    var a := Cpp.ReadI32(s);
    if a.Ok? {
      U32Agree(a.rest);
      var c := Cpp.ReadU32(a.rest);
      if c.Ok? { ResultsAgree(c.value, c.rest); }
    }
  }

  lemma PayloadAgree(t: byte, s: bytes)
    requires KnownType(t)
    ensures var p, q := Cpp.ReadPayload(t, s), Swift.ReadPayload(t, s);
            p.Ok? == q.Ok? && (p.Ok? ==> p == Ok(CollapseMessage(q.value), q.rest))
  {
    hide Cpp.ReadI32, Swift.ReadI32, Cpp.ReadI64, Swift.ReadI64, Cpp.ReadString, Swift.ReadString;
    hide Cpp.ReadEchoResponse, Swift.ReadEchoResponse, CollapseResults;
    if t == 0x04 {
      EchoResponseAgree(s);
    } else if t == 0x7F {
      I32Agree(s);
      if Cpp.ReadI32(s).Ok? { StringAgree(Cpp.ReadI32(s).rest); }
    } else if t == 0x01 || t == 0x02 || t == 0x05 || t == 0x06 || t == 0x0C {
      StringAgree(s);
      var a := Cpp.ReadString(s);
      if a.Ok? {
        StringAgree(a.rest);
        var b := Cpp.ReadString(a.rest);
        if b.Ok? {
          StringAgree(b.rest);
          var c := Cpp.ReadString(b.rest);
          if c.Ok? { StringAgree(c.rest); }
        }
      }
    } else {
      I64Agree(s);
      var a := Cpp.ReadI64(s);
      if a.Ok? {
        I64Agree(a.rest);
        StringAgree(a.rest);
        var b := Cpp.ReadString(a.rest);
        if b.Ok? { StringAgree(b.rest); }
      }
    }
  }

  /** The C++ and the Swift decoder accept the same byte strings, with the same fields; each C++ map is
      the last-wins map of the entry list Swift keeps. */
  lemma DecodersAgree(x: bytes)
    ensures Cpp.Decode(x).Decoded? <==> Swift.Decode(x).Decoded?
    ensures Cpp.Decode(x).Decoded? ==> Cpp.Decode(x).message == CollapseMessage(Swift.Decode(x).message)
    ensures Cpp.Decode(x).Decoded? && Cpp.Decode(x).message.EchoResponse? ==>
              var p, q := Cpp.Decode(x).message.echoResults, Swift.Decode(x).message.echoResults;
              |p| == |q| && forall i :: 0 <= i < |p| ==> LastWins(p[i].kv) == LastWins(q[i].kv)
  {
    hide Cpp.ReadPayload, Swift.ReadPayload, FromBigEndian, LastWins, Collapse;
    if |x| >= HEADER_LEN {
      if KnownType(x[2]) {
        PayloadAgree(x[2], x[HEADER_LEN..]);
      } else {
        UnknownRefused(x[2], x[HEADER_LEN..]);
      }
    }
    if Cpp.Decode(x).Decoded? && Cpp.Decode(x).message.EchoResponse? {
      var q := Swift.Decode(x).message.echoResults;
      forall i | 0 <= i < |q| ensures LastWins(CollapseResults(q)[i].kv) == LastWins(q[i].kv) {
        CollapseDenotes(q[i].kv);
      }
    }
  }

  lemma UnknownRefused(t: byte, s: bytes)
    ensures !KnownType(t) ==> Cpp.ReadPayload(t, s) == Err(UnknownType)
    ensures KnownType(t) ==> Cpp.ReadPayload(t, s) != Err(UnknownType)
  {
    hide Cpp.ReadI32, Cpp.ReadI64, Cpp.ReadString, Cpp.ReadEchoResponse;
    ErrorsAreNotUnknown(s);
    if KnownType(t) {
      var a := Cpp.ReadString(s);
      if a.Ok? {
        ErrorsAreNotUnknown(a.rest);
        var b := Cpp.ReadString(a.rest);
        if b.Ok? {
          ErrorsAreNotUnknown(b.rest);
          var c := Cpp.ReadString(b.rest);
          if c.Ok? { ErrorsAreNotUnknown(c.rest); }
        }
      }
      var i := Cpp.ReadI64(s);
      if i.Ok? {
        ErrorsAreNotUnknown(i.rest);
        if Cpp.ReadString(i.rest).Ok? { ErrorsAreNotUnknown(Cpp.ReadString(i.rest).rest); }
      }
      if Cpp.ReadI32(s).Ok? { ErrorsAreNotUnknown(Cpp.ReadI32(s).rest); }
    }
  }

  lemma ErrorsAreNotUnknown(s: bytes)
    ensures Cpp.ReadString(s) != Err(UnknownType) && Cpp.ReadI64(s) != Err(UnknownType)
    ensures Cpp.ReadI32(s) != Err(UnknownType) && Cpp.ReadEchoResponse(s) != Err(UnknownType)
  {
    hide Valid, FromBigEndian, Cpp.ReadResults, Pow256;
    var a := Cpp.ReadI32(s);
    if a.Ok? {
      var c := Cpp.ReadU32(a.rest);
      if c.Ok? { ResultsNotUnknown(c.value, c.rest); }
    }
  }

  lemma {:induction false} EntriesNotUnknown(n: nat, s: bytes, m: seq<Pair>)
    ensures Cpp.ReadEntries(n, s, m) != Err(UnknownType)
    decreases n
  {
    hide Valid, Cpp.ReadU32, Put;
    if n > 0 {
      U32Errors(s);
      var k := Cpp.ReadString(s);
      if k.Ok? {
        U32Errors(k.rest);
        var v := Cpp.ReadString(k.rest);
        if v.Ok? { EntriesNotUnknown(n - 1, v.rest, Put(m, k.value, v.value)); }
      }
    }
  }

  lemma U32Errors(s: bytes)
    ensures Cpp.ReadU32(s).Err? ==> Cpp.ReadU32(s).error == UnexpectedEnd
  {
  }

  lemma {:induction false} ResultsNotUnknown(n: nat, s: bytes)
    ensures Cpp.ReadResults(n, s) != Err(UnknownType)
    decreases n
  {
    hide Cpp.ReadU32, Cpp.ReadEntries;
    if n > 0 {
      U32Errors(s);
      var hi := Cpp.ReadU32(s);
      if hi.Ok? { U32Errors(hi.rest); }
      var i := Cpp.ReadI64(s);
      if i.Ok? && |i.rest| > 0 {
        U32Errors(i.rest[1..]);
        var c := Cpp.ReadU32(i.rest[1..]);
        if c.Ok? { EntriesNotUnknown(c.value, c.rest, []); }
      }
      var x := Cpp.ReadResult(s);
      if x.Ok? { ResultsNotUnknown(n - 1, x.rest); }
    }
  }

  /** Where the two decoders' reasons differ for the caller: "unknown type" keeps a session open, every
      other error closes it. Swift also says "unknown type" when the length field is wrong. */
  lemma UnknownTypeVerdicts(x: bytes)
    ensures Cpp.Decode(x) == Rejected(UnknownType) <==> Cpp.FrameFault(x).Decoded? && !KnownType(x[2])
    ensures Swift.FrameFault(x) == Rejected(UnknownType) <==>
              |x| >= HEADER_LEN && x[0] == MAGIC && x[1] == VERSION && !KnownType(x[2])
    ensures (Swift.FrameFault(x) == Rejected(UnknownType) <==> Cpp.Decode(x) == Rejected(UnknownType)) <==>
              !(Cpp.FrameFault(x) == Rejected(LengthMismatch) && !KnownType(x[2]))
  {
    hide Cpp.ReadPayload, FromBigEndian;
    if |x| >= HEADER_LEN { UnknownRefused(x[2], x[HEADER_LEN..]); }
  }

  // ----- round trip -----

  /** The worked example of the protocol document: HELLO from "Go". */
  lemma WorkedExample()
    ensures Encode(Hello([0x47, 0x6F])) ==
              [0x48, 0x01, 0x01, 0x00, 0x00, 0x00, 0x00, 0x06, 0x00, 0x00, 0x00, 0x02, 0x47, 0x6F]
  {
    hide ToBigEndian;
    U32Bytes(2);
    U32Bytes(6);
  }

  /** Header and fields of a frame, in the numbers of section 2 of PROTOCOL.md. */
  function Framed(code: byte, fields: bytes): (s: bytes) { [0x48, 0x01, code, 0x00] + U32(|fields|) + fields }

  /** A string or a map entry: 32-bit length, then the bytes. */
  function Counted(s: bytes): (r: bytes) { U32(|s|) + s }

  function Long(v: int): (r: bytes) { U64(v % 0x1_0000_0000_0000_0000) }

  /** Section 5 of PROTOCOL.md: type codes and field order of the thirteen messages. */
  function Layout(m: Message): (s: bytes) {
    match m
    case Hello(language) => Framed(0x01, Counted(language))
    case Bonjour(language) => Framed(0x02, Counted(language))
    case EchoRequest(id, meta, data) => Framed(0x03, Long(id) + Counted(meta) + Counted(data))
    case EchoResponse(status, results) => Framed(0x04, U32(status % 0x1_0000_0000) + U32(|results|) + ResultsLayout(results))
    case KissRequest(name, version, release, arch) =>
      Framed(0x05, Counted(name) + Counted(version) + Counted(release) + Counted(arch))
    case KissResponse(language, encoding, zone) => Framed(0x06, Counted(language) + Counted(encoding) + Counted(zone))
    case Ping(time) => Framed(0x07, Long(time))
    case Pong(time) => Framed(0x08, Long(time))
    case TimeNotification(time, iso) => Framed(0x09, Long(time) + Counted(iso))
    case RandomNumber(id, number) => Framed(0x0A, Long(id) + Long(number))
    case HashResponse(id, hash) => Framed(0x0B, Long(id) + Counted(hash))
    case Disconnect(reason) => Framed(0x0C, Counted(reason))
    case ErrorReport(code, text) => Framed(0x7F, U32(code % 0x1_0000_0000) + Counted(text))
  }

  function EntriesLayout(kv: seq<Pair>): (s: bytes) {
    if kv == [] then []
    else EntriesLayout(kv[..|kv| - 1]) + Counted(kv[|kv| - 1].key) + Counted(kv[|kv| - 1].value)
  }

  function ResultsLayout(rs: seq<EchoResult>): (s: bytes) {
    if rs == [] then []
    else
      var r := rs[|rs| - 1];
      ResultsLayout(rs[..|rs| - 1]) + Long(r.idx) + [r.kind] + U32(|r.kv|) + EntriesLayout(r.kv)
  }

  lemma {:induction false} EntriesLaidOut(kv: seq<Pair>)
    ensures Pairs(kv) == EntriesLayout(kv)
    decreases |kv|
  {
    hide ToBigEndian;
    if kv != [] {
      var n := |kv| - 1;
      EntriesLaidOut(kv[..n]);
      PairsSnoc(kv[..n], kv[n]);
      assert kv == kv[..n] + [kv[n]];
    }
  }

  lemma {:induction false} PairsSnoc(kv: seq<Pair>, p: Pair)
    ensures Pairs(kv + [p]) == Pairs(kv) + Str(p.key) + Str(p.value)
    decreases |kv|
  {
    hide ToBigEndian, Str;
    if kv == [] {
      assert ([] + [p])[1..] == [];
    } else {
      assert (kv + [p])[1..] == kv[1..] + [p];
      PairsSnoc(kv[1..], p);
    }
  }

  lemma {:induction false} ResultsSnoc(rs: seq<EchoResult>, r: EchoResult)
    ensures Results(rs + [r]) == Results(rs) + Result(r)
    decreases |rs|
  {
    hide Result;
    if rs == [] {
      assert ([] + [r])[1..] == [];
    } else {
      assert (rs + [r])[1..] == rs[1..] + [r];
      ResultsSnoc(rs[1..], r);
    }
  }

  lemma {:induction false} ResultsLaidOut(rs: seq<EchoResult>)
    ensures Results(rs) == ResultsLayout(rs)
    decreases |rs|
  {
    hide ToBigEndian, Pairs, EntriesLayout;
    if rs != [] {
      var n := |rs| - 1;
      ResultsLaidOut(rs[..n]);
      ResultsSnoc(rs[..n], rs[n]);
      assert rs == rs[..n] + [rs[n]];
      EntriesLaidOut(rs[n].kv);
    }
  }

  /** What is written is the layout of the protocol document. */
  lemma EncodeIsLayout(m: Message)
    ensures Encode(m) == Layout(m)
  {
    hide ToBigEndian, Results, ResultsLayout;
    if m.EchoResponse? { ResultsLaidOut(m.echoResults); }
  }

  /** The types both decoders know are those of the thirteen messages. */
  lemma KnownTypes(t: byte)
    ensures KnownType(t) <==> t in {0x01, 0x02, 0x03, 0x04, 0x05, 0x06, 0x07, 0x08, 0x09, 0x0A, 0x0B, 0x0C, 0x7F}
  {
  }

  lemma FrameOfEncoding(t: byte, flags: byte, p: bytes)
    ensures var x := EncodeFrame(t, flags, p);
            |x| == HEADER_LEN + |p| && x[2] == t && x[3] == flags && x[HEADER_LEN..] == p
    ensures Cpp.FrameFault(EncodeFrame(t, flags, p)).Decoded? <==> |p| < TWO_32
    ensures KnownType(t) ==> (Swift.FrameFault(EncodeFrame(t, flags, p)).Decoded? <==> |p| < TWO_32)
  {
    hide ToBigEndian, FromBigEndian, Pow256;
    var x := EncodeFrame(t, flags, p);
    assert x[4..8] == U32(|p|);
    assert x[HEADER_LEN..] == p;
    Pow256Values();
    if |p| < TWO_32 {
      FromToBigEndian(|p|, 4);
    } else {
      ToFromBigEndian(U32(|p|));
    }
  }

  lemma {:induction false} CollapseSortedResults(rs: seq<EchoResult>)
    ensures CollapseResults(rs) == rs <==> forall i :: 0 <= i < |rs| ==> Sorted(rs[i].kv)
  {
    hide Sorted, Collapse;
    var cs := CollapseResults(rs);
    forall i | 0 <= i < |rs| ensures cs[i] == rs[i] <==> Sorted(rs[i].kv) {
      CollapseFixpoint(rs[i].kv);
      assert cs[i] == CollapseResult(rs[i]);
      assert rs[i] == EchoResult(rs[i].idx, rs[i].kind, rs[i].kv);
    }
  }

  lemma CollapseSorted(m: Message)
    ensures CollapseMessage(m) == m <==> SortedMaps(m)
  {
    hide Sorted;
    if m.EchoResponse? {
      CollapseSortedResults(m.echoResults);
      assert m == EchoResponse(m.echoStatus, m.echoResults);
    }
  }

  lemma KnownTypeOf(m: Message)
    ensures KnownType(TypeOf(m))
  {
  }

  /** What the C++ decoder accepts, in terms of the layout. */
  lemma DecodedShape(x: bytes) returns (raw: Message, rest: bytes)
    requires Cpp.Decode(x).Decoded?
    ensures Swift.DecodeRest(x) == Ok(raw, rest)
    ensures Cpp.Decode(x).message == CollapseMessage(raw)
    ensures |x| >= HEADER_LEN && x == EncodeFrame(TypeOf(raw), x[3], Payload(raw) + rest)
    ensures ValidStrings(raw) && |Payload(raw)| < TWO_32 && |x| == HEADER_LEN + |Payload(raw)| + |rest|
  {
    hide Swift.ReadPayload, Cpp.ReadPayload, ToBigEndian, FromBigEndian, Pow256, Payload, ValidStrings, CollapseMessage;
    DecodersAgree(x);
    raw, rest := Swift.DecodeRest(x).value, Swift.DecodeRest(x).rest;
    PayloadInverse(x[2], x[HEADER_LEN..]);
    ToFromBigEndian(x[4..8]);
    Pow256Values();
    assert x == [x[0], x[1], x[2], x[3]] + x[4..8] + x[HEADER_LEN..];
  }

  lemma SwiftReadsEncoding(m: Message, flags: byte, rest: bytes)
    requires ValidStrings(m) && |Payload(m)| + |rest| < TWO_32
    ensures Swift.DecodeRest(EncodeFrame(TypeOf(m), flags, Payload(m) + rest)) == Ok(m, rest)
  {
    hide Swift.ReadPayload, ToBigEndian, FromBigEndian, Payload, ValidStrings, Swift.FrameFault, EncodeFrame;
    KnownTypeOf(m);
    FrameOfEncoding(TypeOf(m), flags, Payload(m) + rest);
    PayloadRoundTrip(m, rest);
  }

  /** Round trip, exactly: a message is read back as itself iff its strings are UTF-8 and its payload
      fits the 32-bit length field. The count guards never stand in the way. */
  lemma RoundTrip(m: Message)
    requires SortedMaps(m)
    ensures Cpp.Decode(Encode(m)) == Decoded(m) <==> ValidStrings(m) && |Payload(m)| < TWO_32
  {
    hide Payload, ValidStrings, EncodeFrame, SortedMaps, CollapseMessage, Swift.DecodeRest, Cpp.Decode;
    CollapseSorted(m);
    var x := Encode(m);
    if ValidStrings(m) && |Payload(m)| < TWO_32 {
      assert Payload(m) + [] == Payload(m);
      SwiftReadsEncoding(m, 0, []);
      DecodersAgree(x);
    }
    if Cpp.Decode(x) == Decoded(m) {
      FrameOfEncoding(TypeOf(m), 0, Payload(m));
      DecodeNeedsFrame(x);
      var raw, rest := DecodedShape(x);
      CollapseKeepsValid(raw);
    }
  }

  lemma DecodeNeedsFrame(x: bytes)
    ensures Cpp.Decode(x).Decoded? ==> Cpp.FrameFault(x).Decoded?
  {
  }

  /** The fields of a decoded message are always valid, sorted and no larger than what was read. */
  lemma CollapseKeepsValid(m: Message)
    requires ValidStrings(m)
    ensures ValidStrings(CollapseMessage(m)) && SortedMaps(CollapseMessage(m))
    ensures TypeOf(CollapseMessage(m)) == TypeOf(m)
    ensures |Payload(CollapseMessage(m))| <= |Payload(m)|
  {
    hide Sorted, Collapse, ValidPairs, Results, Valid;
    if m.EchoResponse? {
      var rs := m.echoResults;
      var cs := CollapseResults(rs);
      CollapseResultsSize(rs);
      forall i | 0 <= i < |rs| ensures ValidPairs(cs[i].kv) && Sorted(cs[i].kv) {
        CollapseValid(rs[i].kv);
        CollapseDenotes(rs[i].kv);
      }
    }
  }

  lemma CollapseValid(ps: seq<Pair>)
    requires ValidPairs(ps)
    ensures ValidPairs(Collapse(ps))
  {
    PutAllValid([], ps);
  }

  lemma {:induction false} CollapseResultsSize(rs: seq<EchoResult>)
    ensures |Results(CollapseResults(rs))| <= |Results(rs)|
  {
    hide Collapse, PutAll, Pairs;
    if rs != [] {
      CollapseResultsSize(rs[1..]);
      CollapseSize(rs[0].kv);
      var cs := CollapseResults(rs);
      assert cs[1..] == CollapseResults(rs[1..]);
    }
  }

  lemma CollapseSize(ps: seq<Pair>)
    ensures |Pairs(Collapse(ps))| <= |Pairs(ps)|
  {
    PutAllSize([], ps);
  }

  /** Normal form: re-encoding a decoded message decodes to the same message and is never longer. */
  lemma NormalForm(x: bytes)
    requires Cpp.Decode(x).Decoded?
    ensures var y := Encode(Cpp.Decode(x).message);
            Cpp.Decode(y) == Cpp.Decode(x) && |y| <= |x|
  {
    hide Payload, ValidStrings, SortedMaps, CollapseMessage, Swift.DecodeRest, Cpp.Decode, ToBigEndian;
    var raw, rest := DecodedShape(x);
    CollapseKeepsValid(raw);
    RoundTrip(CollapseMessage(raw));
  }

  /** Re-encoding gives back the very bytes iff FLAGS is zero, no payload byte was left unread and the
      keys of every map read are strictly increasing. */
  lemma NormalFormBytes(x: bytes)
    requires Cpp.Decode(x).Decoded?
    ensures Swift.DecodeRest(x).Ok? && |x| >= HEADER_LEN
    ensures Encode(Cpp.Decode(x).message) == x <==>
              x[3] == 0 && Swift.DecodeRest(x).rest == [] && SortedMaps(Swift.DecodeRest(x).value)
  {
    hide Payload, ValidStrings, SortedMaps, CollapseMessage, Swift.DecodeRest, Cpp.Decode, ToBigEndian;
    var raw, rest := DecodedShape(x);
    CollapseSorted(raw);
    var c := CollapseMessage(raw);
    CollapseKeepsValid(raw);
    if x[3] == 0 && rest == [] && SortedMaps(raw) {
      assert Payload(raw) + rest == Payload(raw);
    }
    if Encode(c) == x {
      assert x[3] == 0;
      assert Payload(c) + [] == Payload(c);
      SwiftReadsEncoding(c, 0, []);
    }
  }

  lemma PayloadPrefix(t: byte, p: bytes, q: bytes)
    requires Cpp.ReadPayload(t, p).Ok?
    requires |p| < TWO_32
    ensures Cpp.ReadPayload(t, p + q) == Ok(Cpp.ReadPayload(t, p).value, Cpp.ReadPayload(t, p).rest + q)
  {
    hide Payload, ValidStrings, CollapseMessage, Cpp.ReadPayload, Swift.ReadPayload;
    UnknownRefused(t, p);
    PayloadAgree(t, p);
    PayloadInverse(t, p);
    var raw, rest := Swift.ReadPayload(t, p).value, Swift.ReadPayload(t, p).rest;
    assert p + q == Payload(raw) + (rest + q);
    PayloadRoundTrip(raw, rest + q);
    PayloadAgree(t, p + q);
  }

  /** Decoding looks only at a prefix: more payload behind an accepted one, and other FLAGS, change
      nothing, as long as the length field can state the length. */
  lemma PayloadExtension(t: byte, flags: byte, p: bytes, flags': byte, q: bytes)
    requires Cpp.Decode(EncodeFrame(t, flags, p)).Decoded?
    ensures Cpp.Decode(EncodeFrame(t, flags', p + q)) == Cpp.Decode(EncodeFrame(t, flags, p)) <==> |p| + |q| < TWO_32
  {
    hide Cpp.ReadPayload, EncodeFrame, Cpp.FrameFault;
    FrameOfEncoding(t, flags, p);
    FrameOfEncoding(t, flags', p + q);
    PayloadPrefix(t, p, q);
  }

  // ----- accounting -----

  function EntryBytes(ps: seq<Pair>): (n: nat) {
    if ps == [] then 0 else 8 + |ps[0].key| + |ps[0].value| + EntryBytes(ps[1..])
  }

  function AllEntryBytes(rs: seq<EchoResult>): (n: nat) {
    if rs == [] then 0 else EntryBytes(rs[0].kv) + AllEntryBytes(rs[1..])
  }

  lemma {:induction false} PairsLength(ps: seq<Pair>)
    ensures |Pairs(ps)| == EntryBytes(ps)
  {
    if ps != [] { PairsLength(ps[1..]); }
  }

  lemma {:induction false} ResultsLength(rs: seq<EchoResult>)
    ensures |Results(rs)| == 13 * |rs| + AllEntryBytes(rs)
  {
    hide Pairs, EntryBytes;
    if rs != [] {
      ResultsLength(rs[1..]);
      PairsLength(rs[0].kv);
    }
  }

  /** Every byte of an ECHO_RESPONSE payload is accounted for: eight for the header fields, thirteen per
      result, eight and the text per entry read (duplicates too), and the bytes left unread. */
  lemma EchoResponseAccounting(x: bytes)
    requires Cpp.Decode(x).Decoded? && Cpp.Decode(x).message.EchoResponse?
    ensures var r := Swift.DecodeRest(x);
            r.Ok? && r.value.EchoResponse?
            && |r.value.echoResults| == |Cpp.Decode(x).message.echoResults|
            && |x| - HEADER_LEN == 8 + 13 * |r.value.echoResults| + AllEntryBytes(r.value.echoResults) + |r.rest|
  {
    hide Results, AllEntryBytes, Swift.DecodeRest, Cpp.Decode;
    var raw, rest := DecodedShape(x);
    ResultsLength(raw.echoResults);
  }
}
