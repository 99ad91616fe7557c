/** What the client at the other end of the socket sees of a session, at every moment of every run. */
module SessionClient {
  import opened Bytes
  import Utf8
  import opened Messages
  import opened Parsing
  import opened Framing
  import Receiver
  import CppDecoder
  import opened CppCodecTheorems
  import Sha256
  import opened FullStack
  import opened Session
  import opened SessionFrames

  // ----- everything the server sends is well formed -----

  predicate Proper(m: Message) { ValidStrings(m) && SortedMaps(m) }

  lemma TextValid(text: string)
    ensures Utf8.Valid(Ascii(text))
  {
    hide Utf8.Valid;
    Utf8.AsciiIsValid(Ascii(text));
  }

  lemma ValidAppend(a: bytes, b: bytes)
    requires forall i :: 0 <= i < |a| ==> a[i] < 0x80
    requires forall i :: 0 <= i < |b| ==> b[i] < 0x80
    ensures Utf8.Valid(a + b)
  {
    hide Utf8.Valid;
    Utf8.AsciiIsValid(a + b);
  }

  lemma AsciiRange(text: string)
    ensures forall i :: 0 <= i < |Ascii(text)| ==> Ascii(text)[i] < 0x80
  {
  }

  lemma ErrorTextValid(e: DecodeError)
    ensures Utf8.Valid(ErrorText(e))
  {
    hide Utf8.Valid, Ascii, Sha256.Decimal;
    match e
    case FrameTooShort(n) =>
      Sha256.DecimalRoundTrip(n);
      AsciiRange("frame too short: ");
      ValidAppend(Ascii("frame too short: "), Sha256.Decimal(n));
    case UnexpectedEnd => TextValid("unexpected end of data");
    case StringTooLong => TextValid("string length exceeds data");
    case InvalidUtf8 => TextValid("string payload is not valid UTF-8");
    case KvCountTooBig => TextValid("kv count exceeds remaining payload");
    case ResultCountTooBig => TextValid("result count exceeds remaining payload");
    case BadMagic => TextValid("bad magic");
    case BadVersion => TextValid("bad version");
    case LengthMismatch => TextValid("payload length mismatch");
    case UnknownType => TextValid("unknown message type");
  }

  lemma EchoKvProper(id: i64, meta: bytes, data: bytes, language: bytes)
    requires Utf8.Valid(meta) && Utf8.Valid(data) && Utf8.Valid(language)
    ensures ValidPairs(EchoKv(id, meta, data, language)) && Sorted(EchoKv(id, meta, data, language))
  {
    hide Utf8.Valid, Ascii, Sha256.Decimal, Collapse, Sorted;
    var ps := [Pair(Ascii("id"), Sha256.Decimal(id)), Pair(Ascii("data"), data),
               Pair(Ascii("meta"), meta), Pair(Ascii("lang"), language)];
    TextValid("id");
    TextValid("data");
    TextValid("meta");
    TextValid("lang");
    Sha256.DecimalRoundTrip(id);
    Utf8.AsciiIsValid(Sha256.Decimal(id));
    CollapseValid(ps);
    CollapseDenotes(ps);
  }

  lemma UnhandledText(t: byte)
    ensures Utf8.Valid(Ascii("unknown type 0x") + HexType(t))
  {
    hide Utf8.Valid, Ascii;
    AsciiRange("unknown type 0x");
    ValidAppend(Ascii("unknown type 0x"), HexType(t));
  }

  lemma ReactProper(d: Decoded<Message>, language: bytes, now: i64)
    requires Utf8.Valid(language)
    requires d.Decoded? ==> ValidStrings(d.message)
    ensures var r := ReactTo(d, language, now);
            Utf8.Valid(r.language) && (r.reply.Some? ==> Proper(r.reply.value))
  {
    hide Utf8.Valid, Ascii, Sha256.Decimal, EchoKv, Sha256.HashNumber, HexType, ErrorText, SaysUnknown, Sorted;
    TextValid("CPP");
    match d
    case Rejected(e) => ErrorTextValid(e);
    case Decoded(m) =>
      if m.EchoRequest? {
        EchoKvProper(m.echoId, m.echoMeta, m.echoData, language);
      } else if m.RandomNumber? {
        Utf8.AsciiIsValid(Sha256.HashNumber(m.randomNumber));
      } else {
        UnhandledText(TypeOf(m));
      }
  }

  lemma DecodedValid(payload: bytes)
    ensures CppDecoder.Decode(payload).Decoded? ==> ValidStrings(CppDecoder.Decode(payload).message)
  {
    hide CppDecoder.Decode, ValidStrings, Payload, CollapseMessage, SortedMaps;
    if CppDecoder.Decode(payload).Decoded? {
      var raw, rest := DecodedShape(payload);
      CollapseKeepsValid(raw);
    }
  }

  predicate ProperPhase(p: Phase) { p.Wants? || p.Locked? || p.Writing? ==> Proper(p.msg) }

  ghost predicate AllProper(s: State) {
    Utf8.Valid(s.language) && ProperPhase(s.recv) && ProperPhase(s.ping) && ProperPhase(s.time) && ProperPhase(s.kiss)
    && forall i :: 0 <= i < |s.pieces| ==> ProperEntry(s.pieces[i].entry)
  }

  predicate ProperEntry(e: Entry) { e.Data? ==> Proper(e.msg) }

  lemma ProperDeliver(s: State)
    requires AllProper(s) && StepDeliver(s).Some?
    ensures AllProper(StepDeliver(s).value)
  {
    hide Proper, Utf8.Valid, ReactTo, CppDecoder.Decode, ValidStrings;
    DecodedValid(s.inbox[0]);
    ReactProper(CppDecoder.Decode(s.inbox[0]), s.language, s.now);
  }

  lemma ProperControl(s: State, a: Action)
    requires AllProper(s) && StepControl(s, a).Some?
    ensures AllProper(StepControl(s, a).value)
  {
    hide Proper, Utf8.Valid, FrameBytes;
  }

  lemma ProperWatch(s: State, a: Action)
    requires AllProper(s) && StepWatch(s, a).Some?
    ensures AllProper(StepWatch(s, a).value)
  {
    hide Proper, Utf8.Valid;
  }

  /** A sender moves on with its own message, or without one. */
  lemma ProperSet(s: State, t: Task, p: Phase)
    requires AllProper(s) && ProperPhase(p)
    ensures AllProper(Set(s, t, p))
  {
    hide Proper, Utf8.Valid;
  }

  lemma ProperGet(s: State, t: Task)
    requires AllProper(s)
    ensures ProperPhase(Get(s, t))
  {
    hide Proper, Utf8.Valid, ProperPhase;
  }

  lemma ProperSame(s: State, s': State)
    requires AllProper(s) && s'.language == s.language && s'.recv == s.recv && s'.ping == s.ping && s'.time == s.time && s'.kiss == s.kiss
    requires s'.pieces == s.pieces || exists x: Piece :: ProperEntry(x.entry) && s'.pieces == s.pieces + [x]
    ensures AllProper(s')
  {
    hide Proper, Utf8.Valid, ProperPhase;
  }

  lemma ProperSend(s: State, a: Action)
    requires AllProper(s) && StepSend(s, a).Some?
    ensures AllProper(StepSend(s, a).value)
  {
    hide Proper, Utf8.Valid, FrameOf, AllProper, Set, Get;
    match a
    case Acquire(t) =>
      ProperGet(s, t);
      ProperSame(s, s.(lock := Some(t)));
      ProperSet(s.(lock := Some(t)), t, Locked(Get(s, t).msg, Get(s, t).stop));
    case Check(t) =>
      ProperGet(s, t);
      if s.active {
        ProperSet(s, t, Writing(Get(s, t).msg, Get(s, t).stop, 0));
      } else {
        ProperSame(s, s.(lock := None));
        ProperSet(s.(lock := None), t, Done(false, Get(s, t).stop));
      }
    case Write(t, n) =>
      ProperGet(s, t);
      var p := Get(s, t);
      var x := Piece(Data(p.msg), p.sent, p.sent + n);
      assert ProperEntry(x.entry);
      ProperSame(s, s.(pieces := s.pieces + [x]));
      ProperSet(s.(pieces := s.pieces + [x]), t, Writing(p.msg, p.stop, p.sent + n));
    case Fail(t) =>
      var r := s.(lock := None, cut := s.cut || Get(s, t).sent > 0);
      ProperSame(s, r);
      ProperSet(r, t, Done(false, Get(s, t).stop));
    case Release(t) =>
      ProperSame(s, s.(lock := None));
      ProperSet(s.(lock := None), t, Done(true, Get(s, t).stop));
    case AfterSend(t) =>
      ProperSame(s, s.(active := s.active && !Get(s, t).stop));
      ProperSame(s, s.(active := false));
      ProperSet(s.(active := s.active && !Get(s, t).stop), t, AtLoop);
      ProperSet(s, t, AtLoop);
      ProperSet(s.(active := false), t, Stopped);
      SetRecv(s.(active := s.active && !Get(s, t).stop), AtLoop);
  }

  lemma SetRecv(s: State, p: Phase)
    ensures Set(s, RecvTask, p) == s.(recv := p) && Get(s, RecvTask) == s.recv
  {
  }

  lemma ProperBackground(t: Task, now: i64, iso: bytes, windows: bool)
    requires !t.RecvTask? && Utf8Valid(iso)
    ensures Proper(BackgroundMessage(t, now, iso, windows))
  {
    hide Utf8.Valid, Ascii;
    TextValid("Linux");
    TextValid("unknown");
    TextValid("x86_64");
    TextValid("Windows");
    TextValid("AMD64");
  }

  lemma ProperStep(s: State, a: Action)
    requires AllProper(s) && Step(s, a).Some?
    ensures AllProper(Step(s, a).value)
  {
    hide Proper, AllProper, StepSend, StepControl, StepDeliver, StepWatch, BackgroundMessage, Utf8Valid, Set, Get;
    match a
    case Tick(dt) => ProperSame(s, s.(now := s.now + dt));
    case LoopTest(t) => ProperSet(s, t, if s.active then Waiting else Stopped);
    case Wake(t, iso) =>
      ProperBackground(t, s.now, iso, s.windows);
      ProperSet(s, t, if s.active then Wants(BackgroundMessage(t, s.now, iso, s.windows), false) else Stopped);
    case WatchTest => ProperWatch(s, a);
    case WatchCheck => ProperWatch(s, a);
    case Deliver => ProperDeliver(s);
    case Hangup => ProperControl(s, a);
    case GetControl(_, _) => ProperControl(s, a);
    case ControlWrite(_) => ProperControl(s, a);
    case ControlFail => ProperControl(s, a);
    case ControlDone => ProperControl(s, a);
    case _ => ProperSend(s, a);
  }

  lemma {:induction false} ProperRun(s: State, acts: seq<Action>)
    requires AllProper(s) && Run(s, acts).Some?
    ensures AllProper(Run(s, acts).value)
    decreases |acts|
  {
    hide Step, AllProper;
    if acts != [] {
      ProperStep(s, acts[0]);
      ProperRun(Step(s, acts[0]).value, acts[1..]);
    }
  }

  lemma ProperInit(inbox: seq<bytes>, now: i64, windows: bool)
    ensures AllProper(Init(inbox, now, windows))
  {
    hide Utf8.Valid, Ascii;
    TextValid("unknown");
  }

  // ----- a frame cut short or over the limit is not received -----

  lemma CutFrameRefused(f: WireFrame, expectMasked: bool, have: nat, k: nat)
    requires Serializable(f) && f.mask.Some? == expectMasked && k < |Serialize(f)|
    ensures ScanFrame(Serialize(f)[..k], expectMasked, have) == Refused
  {
    hide Serialize, ScanFrame, WithinLimits;
    WholeFrameScan(f, expectMasked, have);
    CutRefused(Serialize(f), expectMasked, have, k);
  }

  /** Nothing shorter is a frame if the whole is not one with bytes to spare. */
  lemma CutRefused(s: bytes, expectMasked: bool, have: nat, k: nat)
    requires k < |s|
    requires var r := ScanFrame(s, expectMasked, have); r.Scanned? ==> r.rest == []
    ensures ScanFrame(s[..k], expectMasked, have) == Refused
  {
    hide Serialize, ScanFrame, WithinLimits;
    var cut := s[..k];
    ScanSound(cut, expectMasked, have);
    var r := ScanFrame(cut, expectMasked, have);
    if r.Scanned? {
      assert s == cut + s[k..];
      Assoc(Serialize(r.frame), r.rest, s[k..]);
      ScanComplete(r.frame, expectMasked, have, r.rest + s[k..]);
    }
  }

  /** On the bytes of one frame alone, nothing is left over. */
  lemma WholeFrameScan(f: WireFrame, expectMasked: bool, have: nat)
    requires Serializable(f) && f.mask.Some? == expectMasked
    ensures ScanFrame(Serialize(f), expectMasked, have) in {Refused, Scanned(f, [])}
  {
    hide Serialize, ScanFrame, WithinLimits;
    Identity(Serialize(f));
    if WithinLimits(f.fin, f.opcode, |f.payload|, have) {
      ScanComplete(f, expectMasked, have, []);
    } else {
      OversizeRefused(f, expectMasked, have, []);
    }
  }

  // ----- one frame of the server, seen by the client -----

  /** The client takes a message of the server only up to the 1 MiB limit. */
  predicate Within(m: Message) { |Encode(m)| <= 1048576 }

  /** A well-formed message in a buffer whose size can be stated in 64 bits. */
  predicate Sendable(e: Entry) { e.Data? ==> Proper(e.msg) && |Encode(e.msg)| < TWO_64 }

  lemma HugeRefused(m: Message, q: bytes)
    requires TWO_63 <= |Encode(m)| < TWO_64
    ensures ScanFrame(FrameOf(m) + q, false, 0) == Refused
  {
    hide Encode, FromBigEndian, ToBigEndian, Pow256;
    var n := |Encode(m)|;
    TopOfHuge(n);
    var s := FrameOf(m) + q;
    assert s[0] == 0x82 && s[1] == 127 && s[2] == U64(n)[0] && s[2..][0] == s[2];
  }

  lemma TopOfHuge(n: nat)
    requires TWO_63 <= n < TWO_64
    ensures U64(n)[0] >= 0x80
  {
    ToBigEndianHead(n, 8);
    Pow256Values();
    assert Pow256(8) == 256 * Pow256(7);
  }

  lemma DataRefused(m: Message, q: bytes)
    requires |Encode(m)| < TWO_64 && !Within(m)
    ensures ScanFrame(FrameOf(m) + q, false, 0) == Refused
  {
    hide Serialize, ScanFrame, Encode;
    if |Encode(m)| < TWO_63 {
      OversizeRefused(BinaryFrame(Encode(m), None), false, 0, q);
    } else {
      hide FrameOf;
      HugeRefused(m, q);
    }
  }

  lemma EntryScan(e: Entry)
    requires Sendable(e)
    ensures var r := ScanFrame(FrameBytes(e), false, 0); r.Scanned? ==> r.rest == []
  {
    hide Serialize, ScanFrame, Encode, Proper;
    match e
    case Data(m) =>
      if Within(m) {
        WholeFrameScan(BinaryFrame(Encode(m), None), false, 0);
      } else {
        DataRefused(m, []);
        Identity(FrameOf(m));
      }
    case Control(close, data) => WholeFrameScan(ControlFrame(if close then CLOSE else PONG, data, None), false, 0);
  }

  lemma TailRefused(ps: seq<Piece>)
    requires forall i :: 0 <= i < |ps| ==> Sendable(ps[i].entry)
    ensures ScanFrame(Tail(ps), false, 0) == Refused
  {
    hide FrameBytes, Sendable;
    if Tail(ps) != [] {
      var x := ps[|ps| - 1];
      EntryScan(x.entry);
      CutRefused(FrameBytes(x.entry), false, 0, x.to);
    }
  }

  /** What one `wsRecvFrame` of the client finds on whole frames: it passes over Pongs, and returns the first
      message if that is within the limit and no Close is in front of it. */
  function NextData(es: seq<Entry>): (r: Option<(Message, seq<Entry>)>)
    ensures r.Some? ==> |r.value.1| < |es|
  {
    if es == [] then None
    else
      match es[0]
      case Data(m) => if Within(m) then Some((m, es[1..])) else None
      case Control(close, _) => if close then None else NextData(es[1..])
  }

  /** The messages the client gets, and the frames it is left with. */
  function Seen(es: seq<Entry>): (ms: seq<Message>)
    decreases |es|
  {
    match NextData(es)
    case None => []
    case Some(x) => [x.0] + Seen(x.1)
  }

  function Unread(es: seq<Entry>): (rest: seq<Entry>)
    decreases |es|
  {
    match NextData(es)
    case None => es
    case Some(x) => Unread(x.1)
  }

  lemma {:induction false} FramesCons(es: seq<Entry>)
    requires es != []
    ensures FramesOf(es) == FrameBytes(es[0]) + FramesOf(es[1..])
    decreases |es|
  {
    hide FrameBytes;
    var n := |es| - 1;
    if n == 0 {
      Identity(FrameBytes(es[0]));
      assert es[..0] == [] && es[1..] == [];
    } else {
      FramesCons(es[..n]);
      assert es[..n][1..] == es[1..][..n - 1];
      Assoc(FrameBytes(es[0]), FramesOf(es[1..][..n - 1]), FrameBytes(es[n]));
    }
  }

  lemma ControlReceived(close: bool, data: ControlData, q: bytes)
    ensures var o := Receiver.Receive(FrameBytes(Control(close, data)) + q, false, [], false, None);
            if close then o.result.Closed? else o == Receiver.Receive(q, false, [], false, None)
  {
    hide ScanFrame, Serialize, Receiver.Receive, Receiver.ReplySize;
    var f := ControlFrame(if close then CLOSE else PONG, data, None);
    ScanComplete(f, false, 0, q);
    Receiver.ReceiveStep(Serialize(f) + q, false, [], false, None);
  }

  lemma RefusedReceived(s: bytes)
    requires ScanFrame(s, false, 0) == Refused
    ensures Receiver.Receive(s, false, [], false, None).result.Failed?
  {
    hide ScanFrame;
  }

  lemma DataReceived(m: Message, q: bytes)
    requires Sendable(Data(m))
    ensures var o := Receiver.Receive(FrameOf(m) + q, false, [], false, None);
            if Within(m) then o == Receiver.Outcome(Receiver.Message(Encode(m)), q, []) else o.result.Failed?
  {
    hide ScanFrame, Serialize, Receiver.Receive, Encode, Proper;
    if Within(m) {
      BinaryReceived(Encode(m), None, q, None);
    } else {
      hide FrameOf;
      DataRefused(m, q);
      RefusedReceived(FrameOf(m) + q);
    }
  }

  lemma {:induction false} EntriesReceived(es: seq<Entry>, tail: bytes)
    requires forall i :: 0 <= i < |es| ==> Sendable(es[i])
    requires ScanFrame(tail, false, 0) == Refused
    ensures var o := Receiver.Receive(FramesOf(es) + tail, false, [], false, None);
            match NextData(es)
            case None => !o.result.Message?
            case Some(x) => o.result == Receiver.Message(Encode(x.0)) && o.rest == FramesOf(x.1) + tail
    decreases |es|
  {
    hide FrameOf, FrameBytes, Sendable, FramesOf, Receiver.Receive, ScanFrame, Encode;
    if es == [] {
      NoFrames();
      Identity(tail);
      RefusedReceived(tail);
    } else {
      FramesCons(es);
      Assoc(FrameBytes(es[0]), FramesOf(es[1..]), tail);
      var q := FramesOf(es[1..]) + tail;
      match es[0]
      case Data(m) => DataFrame(m); DataReceived(m, q);
      case Control(close, data) =>
        ControlReceived(close, data, q);
        if !close { EntriesReceived(es[1..], tail); }
    }
  }

  lemma NoFrames()
    ensures FramesOf([]) == []
  {
  }

  lemma ProperDecodes(m: Message)
    requires Proper(m) && Within(m)
    ensures CppDecoder.Decode(Encode(m)) == Decoded(m)
  {
    hide ValidStrings, SortedMaps, CppDecoder.Decode, Encode;
    DeliverableRoundTrip(m);
  }

  lemma {:induction false} EntriesDrained(es: seq<Entry>, tail: bytes)
    requires forall i :: 0 <= i < |es| ==> Sendable(es[i])
    requires ScanFrame(tail, false, 0) == Refused
    ensures Drain(FramesOf(es) + tail, false) == Drained(Seen(es), FramesOf(Unread(es)) + tail)
    decreases |es|
  {
    hide FrameBytes, FramesOf, Receiver.Receive, ScanFrame, Encode, Proper, CppDecoder.Decode, NextData;
    EntriesReceived(es, tail);
    var next := NextData(es);
    if next.Some? {
      NextFrom(es);
      var (m, rest) := next.value;
      assert Sendable(Data(m));
      ProperDecodes(m);
      forall i | 0 <= i < |rest| ensures Sendable(rest[i]) { assert rest[i] in es; }
      EntriesDrained(next.value.1, tail);
    }
  }

  lemma {:induction false} NextFrom(es: seq<Entry>)
    requires NextData(es).Some?
    ensures var (m, rest) := NextData(es).value;
            Data(m) in es && Within(m) && forall e :: e in rest ==> e in es
  {
    hide Within;
    if es[0].Control? { NextFrom(es[1..]); }
  }

  // ----- the client's view -----

  /** No message is over the limit or behind a Close. */
  predicate AllVisible(es: seq<Entry>) {
    forall i :: 0 <= i < |es| && es[i].Data? ==> Within(es[i].msg) && NoClose(es[..i])
  }

  predicate NoClose(es: seq<Entry>) { forall i :: 0 <= i < |es| && es[i].Control? ==> !es[i].close }

  lemma {:induction false} MessagesCons(es: seq<Entry>)
    requires es != []
    ensures MessagesOf(es) == (if es[0].Data? then [es[0].msg] else []) + MessagesOf(es[1..])
    decreases |es|
  {
    var n := |es| - 1;
    if n == 0 {
      assert es[..0] == [] && es[1..] == [];
    } else {
      MessagesCons(es[..n]);
      var tail := es[1..];
      assert es[..n][1..] == tail[..n - 1] && tail[|tail| - 1] == es[n];
      var last := if es[n].Data? then [es[n].msg] else [];
      assert MessagesOf(es) == MessagesOf(es[..n]) + last;
      assert MessagesOf(tail) == MessagesOf(tail[..n - 1]) + last;
    }
  }

  lemma VisibleCons(es: seq<Entry>)
    requires es != []
    ensures AllVisible(es) <==>
              if es[0].Data? then Within(es[0].msg) && AllVisible(es[1..])
              else if es[0].close then MessagesOf(es[1..]) == [] else AllVisible(es[1..])
  {
    hide Within;
    var tail := es[1..];
    assert forall i :: 0 <= i < |tail| ==> tail[i] == es[i + 1] && es[..i + 1] == [es[0]] + tail[..i];
    NoMessages(tail);
    if AllVisible(es) {
      forall i | 0 <= i < |tail| && tail[i].Data? ensures Within(tail[i].msg) && NoClose(tail[..i]) && NoClose([es[0]]) {
        assert es[i + 1].Data? && NoClose(es[..i + 1]);
        assert forall j :: 0 <= j < i ==> tail[..i][j] == es[..i + 1][j + 1];
        assert es[..i + 1][0] == es[0];
      }
    }
    forall i | 0 < i < |es| && es[i].Data? && NoClose(tail[..i - 1]) && NoClose([es[0]]) ensures NoClose(es[..i]) {
      assert forall j :: 0 < j < i ==> es[..i][j] == tail[..i - 1][j - 1];
    }
    assert forall i :: 0 < i < |es| ==> es[i] == tail[i - 1];
    if es[0].Data? || !es[0].close {
      assert NoClose([es[0]]);
    } else {
      assert [es[0]][0].close;
    }
    if MessagesOf(tail) == [] {
      assert forall i :: 0 < i < |es| ==> !es[i].Data?;
    }
  }

  lemma {:induction false} NoMessages(es: seq<Entry>)
    ensures MessagesOf(es) == [] <==> forall i :: 0 <= i < |es| ==> !es[i].Data?
    decreases |es|
  {
    if es != [] { NoMessages(es[..|es| - 1]); }
  }

  /** The client gets every message iff none is over the limit or behind a Close; in any case it gets the
      messages up to the first that is. */
  lemma {:induction false} SeenAll(es: seq<Entry>)
    ensures Seen(es) <= MessagesOf(es) && (Seen(es) == MessagesOf(es) <==> AllVisible(es))
    decreases |es|
  {
    hide Within, AllVisible;
    if es == [] {
      NothingVisible();
    } else {
      MessagesCons(es);
      VisibleCons(es);
      SeenAll(es[1..]);
      match es[0]
      case Data(m) =>
        if Within(m) {
          assert Seen(es) == [m] + Seen(es[1..]);
          assert ([m] + Seen(es[1..]))[1..] == Seen(es[1..]) && MessagesOf(es)[1..] == MessagesOf(es[1..]);
        }
      case Control(close, _) =>
        assert [] + MessagesOf(es[1..]) == MessagesOf(es[1..]);
        if !close { assert Seen(es) == Seen(es[1..]); }
    }
  }

  lemma NothingVisible()
    ensures AllVisible([])
  {
  }

  lemma {:induction false} CompletedFrom(ps: seq<Piece>)
    requires forall i :: 0 <= i < |ps| ==> Sendable(ps[i].entry)
    ensures forall i :: 0 <= i < |Completed(ps)| ==> Sendable(Completed(ps)[i])
    decreases |ps|
  {
    hide Sendable, FrameBytes;
    if ps != [] { CompletedFrom(ps[..|ps| - 1]); }
  }

  /** At every moment of every run whose sends met the guard, with control answers and failed sends: a
      client that reads what is on the wire decodes the completely sent messages in lock order up to the
      first that is over its 1 MiB limit or behind a Close, and is left with exactly the frames and the part
      of a frame behind the last of them. It decodes all of them iff none is. */
  lemma ClientView(inbox: seq<bytes>, now: i64, windows: bool, acts: seq<Action>)
    requires Run(Init(inbox, now, windows), acts).Some? && Guarded(Init(inbox, now, windows), acts)
    requires var ps := Run(Init(inbox, now, windows), acts).value.pieces;
             forall i :: 0 <= i < |ps| && ps[i].entry.Data? ==> |Encode(ps[i].entry.msg)| < TWO_64
    ensures var s := Run(Init(inbox, now, windows), acts).value;
            var es := Completed(s.pieces);
            Drain(Session.Wire(s), false) == Drained(Seen(es), FramesOf(Unread(es)) + Tail(s.pieces))
            && Seen(es) <= Log(s) && (Seen(es) == Log(s) <==> AllVisible(es))
  {
    hide Run, Drain, Guarded, FramesOf, Tail, Completed, Encode, Proper, Utf8.Valid, InFrames, Seen, Unread, MessagesOf, AllVisible;
    FrameStructure(inbox, now, windows, acts);
    ProperInit(inbox, now, windows);
    ProperRun(Init(inbox, now, windows), acts);
    var s := Run(Init(inbox, now, windows), acts).value;
    TailRefused(s.pieces);
    CompletedFrom(s.pieces);
    EntriesDrained(Completed(s.pieces), Tail(s.pieces));
    SeenAll(Completed(s.pieces));
  }
}
