/** What the receive loop answers, over every run in which none of its own replies fails to go out: a prefix
    of one fold over the payloads that came in. */
module SessionReplies {
  import opened Bytes
  import opened Messages
  import opened Parsing
  import opened Framing
  import CppDecoder
  import Sha256
  import opened Session
  import opened SessionFrames

  // ----- the fold -----

  /** The language a session has after dispatching `hs`. */
  function LanguageAfter(hs: seq<Handled>): (l: bytes) {
    if hs == [] then Ascii("unknown")
    else React(hs[|hs| - 1].payload, LanguageAfter(hs[..|hs| - 1]), hs[|hs| - 1].at).language
  }

  function ReplyAt(hs: seq<Handled>, i: nat): (r: Option<Message>)
    requires i < |hs|
  {
    React(hs[i].payload, LanguageAfter(hs[..i]), hs[i].at).reply
  }

  /** The replies owed for `hs`, in order. */
  function Replies(hs: seq<Handled>): (ms: seq<Message>) {
    if hs == [] then []
    else
      var n := |hs| - 1;
      Replies(hs[..n]) + (match ReplyAt(hs, n) case None => [] case Some(m) => [m])
  }

  /** The messages of the three background senders. */
  predicate IsBackground(m: Message) { m.Ping? || m.TimeNotification? || m.KissRequest? }

  function Answers(ms: seq<Message>): (rs: seq<Message>) {
    if ms == [] then []
    else Answers(ms[..|ms| - 1]) + (if IsBackground(ms[|ms| - 1]) then [] else [ms[|ms| - 1]])
  }

  predicate IsPrefix(a: seq<Message>, b: seq<Message>) { |a| <= |b| && a == b[..|a|] }

  // ----- what the reactions are -----

  lemma ReactToMessageKind(m: Message, language: bytes, now: i64)
    ensures var r := ReactToMessage(m, language, now);
            (r.reply.Some? ==> !IsBackground(r.reply.value)) && (r.stop ==> m.Disconnect? && r.reply.None?)
            && (r.pong <==> m.Pong?)
  {
    hide EchoKv, Sha256.HashNumber, HexType, Ascii;
  }

  /** A payload that is not a message, for any reason but its type, ends the session; so does DISCONNECT. */
  predicate StopsOn(d: Decoded<Message>) {
    match d
    case Decoded(m) => m.Disconnect?
    case Rejected(e) => e != UnknownType
  }

  predicate PongIn(d: Decoded<Message>) { d.Decoded? && d.message.Pong? }

  predicate HelloIn(d: Decoded<Message>) { d.Decoded? && d.message.Hello? }

  predicate Stops(payload: bytes) { StopsOn(CppDecoder.Decode(payload)) }

  predicate IsPong(payload: bytes) { PongIn(CppDecoder.Decode(payload)) }

  predicate IsHello(payload: bytes) { HelloIn(CppDecoder.Decode(payload)) }

  /** The test on the exception text singles out the one error of an unknown type. */
  lemma SaysUnknownIff(e: DecodeError)
    ensures SaysUnknown(e) <==> e == UnknownType
  {
    hide Sha256.Decimal;
    UnknownTexts();
    match e
    case UnknownType => assert ErrorText(e)[..|ErrorText(e)|] == ErrorText(e);
    case UnexpectedEnd => OtherText(e, 2);
    case _ => OtherText(e, 0);
  }

  lemma UnknownTexts()
    ensures var p := Ascii("unknown message type"); |p| > 2 && p[0] == 0x75 && p[2] == 0x6B
    ensures var q := Ascii("unexpected end of data"); |q| > 2 && q[2] == 0x65
  {
  }

  lemma OtherText(e: DecodeError, i: nat)
    requires i < |Ascii("unknown message type")|
    requires i < |ErrorText(e)| ==> ErrorText(e)[i] != Ascii("unknown message type")[i]
    ensures !SaysUnknown(e)
  {
    hide Ascii, ErrorText;
    PrefixByte(ErrorText(e), Ascii("unknown message type"), i);
  }

  lemma PrefixByte(s: bytes, p: bytes, i: nat)
    requires i < |p|
    ensures |p| <= |s| && s[..|p|] == p ==> i < |s| && s[i] == p[i]
  {
    if |p| <= |s| && s[..|p|] == p { assert s[..|p|][i] == s[i]; }
  }

  lemma ReactKind(d: Decoded<Message>, language: bytes, now: i64)
    ensures var r := ReactTo(d, language, now);
            (r.reply.Some? ==> !IsBackground(r.reply.value)) && (r.stop <==> StopsOn(d)) && (r.pong <==> PongIn(d))
  {
    hide ReactToMessage, ErrorText, SaysUnknown;
    match d
    case Decoded(m) =>
      ReactToMessageKind(m, language, now);
      DisconnectStops(m, language, now);
    case Rejected(e) => SaysUnknownIff(e);
  }

  lemma DisconnectStops(m: Message, language: bytes, now: i64)
    ensures m.Disconnect? ==> ReactToMessage(m, language, now) == Reaction(None, language, false, true)
  {
    hide EchoKv, Sha256.HashNumber, HexType, Ascii;
  }

  // ----- the invariant -----

  predicate HasMessage(p: Phase) { p.Wants? || p.Locked? || p.Writing? }

  /** The reply in hand, until its last byte is out. */
  function Owed(p: Phase): (ms: seq<Message>) {
    if HasMessage(p) && (p.Writing? ==> p.sent < |FrameOf(p.msg)|) then [p.msg] else []
  }

  /** Each sender only ever sends its own kind. */
  predicate Kinds(s: State) {
    OwnKind(s.recv, false) && OwnKind(s.ping, true) && OwnKind(s.time, true) && OwnKind(s.kiss, true)
  }

  predicate OwnKind(p: Phase, background: bool) {
    HasMessage(p) ==> IsBackground(p.msg) == background
  }

  /** Every reply owed is sent or about to be. */
  ghost predicate Faithful(s: State) { Answers(Log(s)) + Owed(s.recv) == Replies(s.handled) }

  /** The session is inactive and the receive loop will not write again. */
  ghost predicate Muted(s: State) {
    !s.active && (s.recv.Writing? ==> Owed(s.recv) == []) && IsPrefix(Answers(Log(s)), Replies(s.handled))
  }

  /** Nothing is dispatched after a payload that ends the session. */
  ghost predicate StopsLast(s: State) {
    (forall i :: 0 <= i < |s.handled| - 1 ==> !Stops(s.handled[i].payload))
    && (s.handled != [] && Stops(s.handled[|s.handled| - 1].payload) ==>
          (HasMessage(s.recv) && s.recv.stop) || (s.recv.Done? && s.recv.stop)
          || (!s.active && (s.recv.AtLoop? || s.recv.Stopped?)))
  }

  ghost predicate ReplyInv(s: State) {
    Kinds(s) && (Faithful(s) || Muted(s)) && StopsLast(s) && s.language == LanguageAfter(s.handled)
  }

  lemma AnswersAppend(ms: seq<Message>, m: Message)
    ensures Answers(ms + [m]) == Answers(ms) + (if IsBackground(m) then [] else [m])
  {
    assert (ms + [m])[..|ms|] == ms;
  }

  lemma RepliesAppend(hs: seq<Handled>, h: Handled)
    ensures var r := React(h.payload, LanguageAfter(hs), h.at);
            Replies(hs + [h]) == Replies(hs) + (match r.reply case None => [] case Some(m) => [m])
            && LanguageAfter(hs + [h]) == r.language
  {
    hide React;
    var all := hs + [h];
    assert all[..|hs|] == hs && all[|hs|] == h;
  }

  lemma PrefixExtend(a: seq<Message>, b: seq<Message>, c: seq<Message>)
    requires IsPrefix(a, b)
    ensures IsPrefix(a, b + c)
  {
    assert (b + c)[..|a|] == b[..|a|];
  }

  lemma PrefixDrop(a: seq<Message>, b: seq<Message>)
    ensures IsPrefix(a, a + b) && IsPrefix(a, a)
  {
    assert (a + b)[..|a|] == a && a[..|a|] == a;
  }

  lemma DeliverKeeps(s: State)
    requires ReplyInv(s) && StepDeliver(s).Some?
    ensures ReplyInv(StepDeliver(s).value)
  {
    hide ReactTo, CppDecoder.Decode, Replies, Answers, LanguageAfter, StopsOn, IsBackground, FrameOf;
    var s' := StepDeliver(s).value;
    var h := Handled(s.inbox[0], s.now);
    var x := React(h.payload, s.language, s.now);
    ReactKind(CppDecoder.Decode(h.payload), s.language, s.now);
    RepliesAppend(s.handled, h);
    var extra := match x.reply case None => [] case Some(m) => [m];
    assert s'.handled == s.handled + [h] && Replies(s'.handled) == Replies(s.handled) + extra && Owed(s'.recv) == extra;
    if Faithful(s) {
      assert Answers(Log(s)) + [] == Answers(Log(s));
    } else {
      PrefixExtend(Answers(Log(s)), Replies(s.handled), extra);
    }
    StopsAppend(s, s', h);
  }

  lemma StopsAppend(s: State, s': State, h: Handled)
    requires StopsLast(s) && s.recv == Waiting && s'.handled == s.handled + [h]
    requires Stops(h.payload) ==> (HasMessage(s'.recv) && s'.recv.stop) || (!s'.active && s'.recv.AtLoop?)
    ensures StopsLast(s')
  {
    hide Stops, FrameOf;
    forall i | 0 <= i < |s'.handled| - 1 ensures !Stops(s'.handled[i].payload) {
      assert s'.handled[i] == s.handled[i];
    }
    assert s'.handled[|s'.handled| - 1] == h;
  }

  lemma SameLog(s: State, s': State)
    requires s'.pieces == s.pieces
    ensures Log(s') == Log(s)
  {
  }

  lemma CheckKeeps(s: State, t: Task)
    requires ReplyInv(s) && StepSend(s, Check(t)).Some?
    ensures ReplyInv(StepSend(s, Check(t)).value)
  {
    hide FrameOf, Replies, Answers, LanguageAfter, Stops, IsBackground, IsPrefix, Log;
    SameLog(s, StepSend(s, Check(t)).value);
    SendShape(s, StepSend(s, Check(t)).value, t);
    if t == RecvTask && Faithful(s) { PrefixDrop(Answers(Log(s)), Owed(s.recv)); }
    FrameNotEmpty(Get(s, t).msg);
  }

  lemma FrameNotEmpty(m: Message)
    ensures |FrameOf(m)| > 0
  {
  }

  lemma ReleaseKeeps(s: State, t: Task)
    requires ReplyInv(s) && StepSend(s, Release(t)).Some?
    ensures ReplyInv(StepSend(s, Release(t)).value)
  {
    hide FrameOf, Replies, Answers, LanguageAfter, Stops, IsBackground, IsPrefix, Log;
    SameLog(s, StepSend(s, Release(t)).value);
    SendShape(s, StepSend(s, Release(t)).value, t);
  }

  /** The last byte of a reply turns it from owed to sent. */
  lemma WriteKeeps(s: State, t: Task, n: nat)
    requires Mutex(s) && ReplyInv(s) && StepSend(s, Write(t, n)).Some?
    ensures ReplyInv(StepSend(s, Write(t, n)).value)
  {
    hide FrameOf, FrameBytes, Replies, Answers, LanguageAfter, Stops, IsBackground, IsPrefix, Log, Mutex, StepSend;
    var s', p := StepSend(s, Write(t, n)).value, Get(s, t);
    WriteShape(s, t, n);
    WriteRest(s, t, n);
    SendShape(s, s', t);
    KindOf(s, t);
    WriteLog(s, s', Piece(Data(p.msg), p.sent, p.sent + n));
    assert s.recv == Get(s, RecvTask) && s'.recv == Get(s', RecvTask);
    assert Answers(Log(s)) + [] == Answers(Log(s));
    assert Answers(Log(s')) + [] == Answers(Log(s'));
  }

  lemma WriteRest(s: State, t: Task, n: nat)
    requires StepSend(s, Write(t, n)).Some?
    ensures var s' := StepSend(s, Write(t, n)).value;
            s'.handled == s.handled && s'.language == s.language && forall u :: u != t ==> Get(s', u) == Get(s, u)
  {
    hide FrameOf, FrameBytes;
  }

  lemma WriteLog(s: State, s': State, x: Piece)
    requires s'.pieces == s.pieces + [x] && x.entry.Data?
    ensures Answers(Log(s')) == Answers(Log(s)) + (if Ends(x) && !IsBackground(x.entry.msg) then [x.entry.msg] else [])
    ensures Ends(x) <==> x.to == |FrameOf(x.entry.msg)|
  {
    hide FrameOf, Answers, IsBackground, Completed, MessagesOf;
    DataAppend(s.pieces, x);
    if Ends(x) {
      AnswersAppend(Log(s), x.entry.msg);
    } else {
      assert Log(s) + [] == Log(s);
      assert Answers(Log(s)) + [] == Answers(Log(s));
    }
  }

  /** A background sender's failure is nothing to the replies. */
  lemma FailKeeps(s: State, t: Task)
    requires ReplyInv(s) && t != RecvTask && StepSend(s, Fail(t)).Some?
    ensures ReplyInv(StepSend(s, Fail(t)).value)
  {
    hide FrameOf, Replies, Answers, LanguageAfter, Stops, IsBackground, IsPrefix, Log;
    SameLog(s, StepSend(s, Fail(t)).value);
    SendShape(s, StepSend(s, Fail(t)).value, t);
  }

  lemma AcquireKeeps(s: State, t: Task)
    requires ReplyInv(s) && StepSend(s, Acquire(t)).Some?
    ensures ReplyInv(StepSend(s, Acquire(t)).value)
  {
    hide FrameOf, Replies, Answers, LanguageAfter, Stops, IsBackground, IsPrefix, Log;
    SameLog(s, StepSend(s, Acquire(t)).value);
    SendShape(s, StepSend(s, Acquire(t)).value, t);
  }

  lemma SendKeeps(s: State, a: Action)
    requires Mutex(s) && ReplyInv(s) && Sends(a) && a != Fail(RecvTask) && StepSend(s, a).Some?
    ensures ReplyInv(StepSend(s, a).value)
  {
    hide StepSend, ReplyInv, Mutex;
    match a
    case Acquire(t) => AcquireKeeps(s, t);
    case Check(t) => CheckKeeps(s, t);
    case Write(t, n) => WriteKeeps(s, t, n);
    case Fail(t) => FailKeeps(s, t);
    case Release(t) => ReleaseKeeps(s, t);
  }

  /** A send step changes one sender's phase, keeping its message and its stop flag while it has them. */
  lemma SendShape(s: State, s': State, t: Task)
    requires Kinds(s) && StopsLast(s)
    requires s'.handled == s.handled && s'.active == s.active
    requires forall u :: u != t ==> Get(s', u) == Get(s, u)
    requires HasMessage(Get(s, t)) && (Get(s', t).Done? || (HasMessage(Get(s', t)) && Get(s', t).msg == Get(s, t).msg))
    requires Get(s', t).stop == Get(s, t).stop
    ensures Kinds(s') && StopsLast(s')
  {
    hide Stops, IsBackground;
    assert s.recv == Get(s, RecvTask) && s.ping == Get(s, PingTask) && s.time == Get(s, TimeTask) && s.kiss == Get(s, KissTask);
    assert s'.recv == Get(s', RecvTask) && s'.ping == Get(s', PingTask);
    assert s'.time == Get(s', TimeTask) && s'.kiss == Get(s', KissTask);
  }

  lemma KindOf(s: State, t: Task)
    requires Kinds(s) && HasMessage(Get(s, t))
    ensures IsBackground(Get(s, t).msg) <==> t != RecvTask
  {
  }

  lemma AfterKeeps(s: State, t: Task)
    requires ReplyInv(s) && StepSend(s, AfterSend(t)).Some?
    ensures ReplyInv(StepSend(s, AfterSend(t)).value)
  {
    hide ReplyInv;
    if t == RecvTask {
      AfterReplyKeeps(s);
    } else if Get(s, t).ok {
      WakeKeeps(s, t, AtLoop);
    } else {
      DeactivateKeeps(s);
      WakeKeeps(s.(active := false), t, Stopped);
    }
  }

  lemma AfterReplyKeeps(s: State)
    requires ReplyInv(s) && s.recv.Done?
    ensures ReplyInv(s.(active := s.active && !s.recv.stop, recv := AtLoop))
  {
    hide Replies, Answers, LanguageAfter, Stops, IsPrefix, Log, IsBackground;
    SameLog(s, s.(active := s.active && !s.recv.stop, recv := AtLoop));
  }

  lemma DeactivateKeeps(s: State)
    requires ReplyInv(s)
    ensures ReplyInv(s.(active := false))
  {
    hide Replies, Answers, LanguageAfter, Stops, IsPrefix, Log, IsBackground, FrameOf;
    SameLog(s, s.(active := false));
  }

  lemma ControlKeeps(s: State, a: Action)
    requires ReplyInv(s) && StepControl(s, a).Some?
    ensures ReplyInv(StepControl(s, a).value)
  {
    hide FrameOf, FrameBytes, Replies, Answers, LanguageAfter, Stops, IsPrefix, Log;
    var s' := StepControl(s, a).value;
    ControlLog(s, a);
  }

  lemma ControlLog(s: State, a: Action)
    requires StepControl(s, a).Some?
    ensures Log(StepControl(s, a).value) == Log(s)
  {
    hide FrameBytes, Completed, MessagesOf;
    var s' := StepControl(s, a).value;
    if a.ControlWrite? {
      DataAppend(s.pieces, s'.pieces[|s.pieces|]);
      assert Log(s) + [] == Log(s);
    }
  }

  lemma WatchKeeps(s: State, a: Action)
    requires ReplyInv(s) && StepWatch(s, a).Some?
    ensures ReplyInv(StepWatch(s, a).value)
  {
    hide Replies, Answers, LanguageAfter, Stops, IsPrefix, Log, FrameOf;
    SameLog(s, StepWatch(s, a).value);
  }

  lemma WakeKeeps(s: State, t: Task, p: Phase)
    requires ReplyInv(s) && t != RecvTask && OwnKind(p, true)
    ensures ReplyInv(Set(s, t, p))
  {
    hide Replies, Answers, LanguageAfter, Stops, IsPrefix, Log, FrameOf, IsBackground, HasMessage;
    SameLog(s, Set(s, t, p));
  }

  lemma BackgroundKind(t: Task, now: i64, iso: bytes, windows: bool)
    requires t != RecvTask
    ensures IsBackground(BackgroundMessage(t, now, iso, windows))
  {
    hide Ascii;
  }

  lemma TickKeeps(s: State, now: i64)
    requires ReplyInv(s)
    ensures ReplyInv(s.(now := now))
  {
    hide Replies, Answers, LanguageAfter, Stops, IsPrefix, Log, FrameOf, IsBackground;
    SameLog(s, s.(now := now));
  }

  lemma OthersKeep(s: State, a: Action)
    requires ReplyInv(s) && !Sends(a) && !Controls(a) && !a.Deliver? && Step(s, a).Some?
    ensures ReplyInv(Step(s, a).value)
  {
    hide StepSend, StepControl, StepDeliver, StepWatch, Utf8Valid, ReplyInv, BackgroundMessage, IsBackground;
    match a
    case Tick(dt) => TickKeeps(s, s.now + dt);
    case AfterSend(t) => AfterKeeps(s, t);
    case WatchTest => WatchKeeps(s, a);
    case WatchCheck => WatchKeeps(s, a);
    case LoopTest(t) => LoopKeeps(s, t);
    case Wake(t, iso) =>
      BackgroundKind(t, s.now, iso, s.windows);
      WakeKeeps(s, t, if s.active then Wants(BackgroundMessage(t, s.now, iso, s.windows), false) else Stopped);
  }

  lemma LoopKeeps(s: State, t: Task)
    requires ReplyInv(s) && Get(s, t).AtLoop?
    ensures ReplyInv(Set(s, t, if s.active then Waiting else Stopped))
  {
    hide Replies, Answers, LanguageAfter, Stops, IsPrefix, IsBackground, Log, FrameOf;
    SameLog(s, Set(s, t, if s.active then Waiting else Stopped));
  }

  lemma ReplyInvStep(s: State, a: Action)
    requires Mutex(s) && ReplyInv(s) && a != Fail(RecvTask) && Step(s, a).Some?
    ensures ReplyInv(Step(s, a).value)
  {
    hide Mutex, ReplyInv, Step, StepSend, StepControl, StepDeliver;
    if Sends(a) {
      StepIsSend(s, a);
      SendKeeps(s, a);
    } else if Controls(a) {
      StepIsControl(s, a);
      ControlKeeps(s, a);
    } else if a.Deliver? {
      DeliverIsStep(s);
      DeliverKeeps(s);
    } else {
      OthersKeep(s, a);
    }
  }

  lemma ReplyInvInit(inbox: seq<bytes>, now: i64, windows: bool)
    ensures ReplyInv(Init(inbox, now, windows))
  {
    hide Ascii, React;
  }

  /** No reply of the receive loop fails to go out; other sends may. */
  predicate RepliesGoOut(acts: seq<Action>) { forall i :: 0 <= i < |acts| ==> acts[i] != Fail(RecvTask) }

  lemma {:induction false} ReplyInvRun(s: State, acts: seq<Action>)
    requires Mutex(s) && ReplyInv(s) && RepliesGoOut(acts) && Run(s, acts).Some?
    ensures Mutex(Run(s, acts).value) && ReplyInv(Run(s, acts).value)
    decreases |acts|
  {
    hide Step, Mutex, ReplyInv;
    if acts != [] {
      MutexStep(s, acts[0]);
      ReplyInvStep(s, acts[0]);
      assert forall i :: 0 <= i < |acts[1..]| ==> acts[1..][i] == acts[i + 1];
      ReplyInvRun(Step(s, acts[0]).value, acts[1..]);
    }
  }

  // ----- the inbound payloads -----

  function Payloads(hs: seq<Handled>): (ps: seq<bytes>)
    ensures |ps| == |hs| && forall i :: 0 <= i < |hs| ==> ps[i] == hs[i].payload
  {
    seq(|hs|, i requires 0 <= i < |hs| => hs[i].payload)
  }

  /** What was dispatched and what is still to come are what came in. */
  ghost predicate FromInbox(s: State, inbox: seq<bytes>) { Payloads(s.handled) + s.inbox == inbox }

  lemma FromInboxStep(s: State, a: Action, inbox: seq<bytes>)
    requires FromInbox(s, inbox) && Step(s, a).Some?
    ensures FromInbox(Step(s, a).value, inbox)
  {
    hide Step, StepDeliver;
    if a.Deliver? {
      DeliverIsStep(s);
      FromInboxDeliver(s, inbox);
    } else {
      OnlyDeliverReads(s, a);
    }
  }

  lemma FromInboxDeliver(s: State, inbox: seq<bytes>)
    requires FromInbox(s, inbox) && StepDeliver(s).Some?
    ensures FromInbox(StepDeliver(s).value, inbox)
  {
    hide React;
    var s' := StepDeliver(s).value;
    assert Payloads(s'.handled) == Payloads(s.handled) + [s.inbox[0]];
    assert s.inbox == [s.inbox[0]] + s'.inbox;
  }

  lemma OnlyDeliverReads(s: State, a: Action)
    requires !a.Deliver? && Step(s, a).Some?
    ensures Step(s, a).value.inbox == s.inbox && Step(s, a).value.handled == s.handled
  {
    hide Step, StepWatch;
    if a.Tick? || a.WatchTest? || a.WatchCheck? {
      ClockReads(s, a);
    } else {
      OtherRecord(s, a);
    }
  }

  lemma ClockReads(s: State, a: Action)
    requires (a.Tick? || a.WatchTest? || a.WatchCheck?) && Step(s, a).Some?
    ensures Step(s, a).value.inbox == s.inbox && Step(s, a).value.handled == s.handled
  {
    hide StepSend, StepControl, StepDeliver;
  }

  lemma {:induction false} FromInboxRun(s: State, acts: seq<Action>, inbox: seq<bytes>)
    requires FromInbox(s, inbox) && Run(s, acts).Some?
    ensures FromInbox(Run(s, acts).value, inbox)
    decreases |acts|
  {
    hide Step, FromInbox;
    if acts != [] {
      FromInboxStep(s, acts[0], inbox);
      FromInboxRun(Step(s, acts[0]).value, acts[1..], inbox);
    }
  }

  lemma FromInboxInit(inbox: seq<bytes>, now: i64, windows: bool)
    ensures FromInbox(Init(inbox, now, windows), inbox)
  {
    hide Ascii;
    assert Payloads([]) + inbox == inbox;
  }

  /** Reply trace: in every run in which the receive loop's own replies go out, the messages sent, with the
      background ones removed, are a prefix of the replies owed for the payloads dispatched; those are the
      first payloads that came in, in order, and only the last of them can be one that ends the session.
      While the session is active nothing is missing but the reply in hand. */
  lemma ReplyTrace(inbox: seq<bytes>, now: i64, windows: bool, acts: seq<Action>)
    requires RepliesGoOut(acts) && Run(Init(inbox, now, windows), acts).Some?
    ensures var s := Run(Init(inbox, now, windows), acts).value;
            Payloads(s.handled) + s.inbox == inbox
            && IsPrefix(Answers(Log(s)), Replies(s.handled))
            && (s.active ==> Answers(Log(s)) + Owed(s.recv) == Replies(s.handled))
            && (forall i :: 0 <= i < |s.handled| - 1 ==> !Stops(s.handled[i].payload))
  {
    hide Run, Mutex, Replies, Answers, Stops, Owed, IsPrefix, Log, Payloads;
    MutexInit(inbox, now, windows);
    ReplyInvInit(inbox, now, windows);
    ReplyInvRun(Init(inbox, now, windows), acts);
    FromInboxInit(inbox, now, windows);
    FromInboxRun(Init(inbox, now, windows), acts, inbox);
    var s := Run(Init(inbox, now, windows), acts).value;
    if Faithful(s) { PrefixDrop(Answers(Log(s)), Owed(s.recv)); }
  }

  // ----- the fold, said request by request -----

  /** `l` is the language of the last HELLO of `ps`, at index `j`. */
  ghost predicate LastHelloAt(ps: seq<bytes>, j: nat, l: bytes) {
    j < |ps| && CppDecoder.Decode(ps[j]) == Decoded(Hello(l))
    && forall i :: j < i < |ps| ==> !IsHello(ps[i])
  }

  /** The echo language is that of the most recent HELLO, or "unknown" before any. */
  lemma {:induction false} LanguageIsLastHello(hs: seq<Handled>)
    ensures var ps := Payloads(hs);
            if (exists i :: 0 <= i < |ps| && IsHello(ps[i]))
            then exists j :: LastHelloAt(ps, j, LanguageAfter(hs))
            else LanguageAfter(hs) == Ascii("unknown")
    decreases |hs|
  {
    hide CppDecoder.Decode, Ascii, ReactTo, HelloIn;
    if hs != [] {
      var n := |hs| - 1;
      var front, ps := hs[..n], Payloads(hs);
      assert Payloads(front) == ps[..n] && forall i :: 0 <= i < n ==> ps[..n][i] == ps[i];
      LanguageIsLastHello(front);
      LanguageOf(CppDecoder.Decode(ps[n]), LanguageAfter(front), hs[n].at);
      if IsHello(ps[n]) {
        assert LastHelloAt(ps, n, LanguageAfter(hs));
      } else if exists i :: 0 <= i < n && IsHello(ps[..n][i]) {
        var j :| LastHelloAt(ps[..n], j, LanguageAfter(front));
        assert LastHelloAt(ps, j, LanguageAfter(hs));
      }
    }
  }

  lemma LanguageOf(d: Decoded<Message>, language: bytes, now: i64)
    ensures HelloIn(d) ==> d == Decoded(Hello(ReactTo(d, language, now).language))
    ensures !HelloIn(d) ==> ReactTo(d, language, now).language == language
  {
    hide EchoKv, Sha256.HashNumber, HexType, ErrorText, SaysUnknown, Ascii;
  }

  /** What answers the RANDOM_NUMBER requests among payloads. */
  function HashesOwed(ps: seq<bytes>): (ms: seq<Message>) {
    if ps == [] then [] else HashesOwed(ps[..|ps| - 1]) + HashFor(CppDecoder.Decode(ps[|ps| - 1]))
  }

  function HashFor(d: Decoded<Message>): (ms: seq<Message>) {
    if d.Decoded? && d.message.RandomNumber?
    then [HashResponse(d.message.randomId, Sha256.HashNumber(d.message.randomNumber))] else []
  }

  function Hashes(ms: seq<Message>): (rs: seq<Message>) {
    if ms == [] then []
    else Hashes(ms[..|ms| - 1]) + (if ms[|ms| - 1].HashResponse? then [ms[|ms| - 1]] else [])
  }

  lemma HashesAppend(ms: seq<Message>, m: Message)
    ensures Hashes(ms + [m]) == Hashes(ms) + (if m.HashResponse? then [m] else [])
  {
    assert (ms + [m])[..|ms|] == ms;
  }

  /** HASH_RESPONSE replies are the RANDOM_NUMBER requests in order, each with its id and its hash. */
  lemma {:induction false} HashesInOrder(hs: seq<Handled>)
    ensures Hashes(Replies(hs)) == HashesOwed(Payloads(hs))
    decreases |hs|
  {
    hide CppDecoder.Decode, HashFor, ReactTo, LanguageAfter;
    if hs != [] {
      var n := |hs| - 1;
      assert Payloads(hs)[..n] == Payloads(hs[..n]);
      HashesInOrder(hs[..n]);
      var language := LanguageAfter(hs[..n]);
      HashReplyOf(CppDecoder.Decode(hs[n].payload), language, hs[n].at);
      var r := React(hs[n].payload, language, hs[n].at).reply;
      if r.Some? {
        HashesAppend(Replies(hs[..n]), r.value);
        assert Replies(hs) == Replies(hs[..n]) + [r.value];
      } else {
        assert Replies(hs) == Replies(hs[..n]);
      }
    }
  }

  lemma {:induction false} HashesSplit(a: seq<Message>, b: seq<Message>)
    ensures Hashes(a + b) == Hashes(a) + Hashes(b)
    decreases |b|
  {
    if b == [] {
      assert a + b == a;
    } else {
      var n := |b| - 1;
      HashesSplit(a, b[..n]);
      HashesAppend(a + b[..n], b[n]);
      assert a + b == (a + b[..n]) + [b[n]];
    }
  }

  /** In every run: the HASH_RESPONSE messages on the wire answer the RANDOM_NUMBER payloads that came in,
      one each, in order; while the session is active and no reply is in hand, all that were dispatched. */
  lemma HashesSent(inbox: seq<bytes>, now: i64, windows: bool, acts: seq<Action>)
    requires RepliesGoOut(acts) && Run(Init(inbox, now, windows), acts).Some?
    ensures var s := Run(Init(inbox, now, windows), acts).value;
            var n := |s.handled|;
            n <= |inbox| && IsPrefix(Hashes(Answers(Log(s))), HashesOwed(inbox[..n]))
            && (s.active && Owed(s.recv) == [] ==> Hashes(Answers(Log(s))) == HashesOwed(inbox[..n]))
  {
    hide Run, Replies, Answers, Log, Hashes, HashesOwed, Stops, Owed;
    ReplyTrace(inbox, now, windows, acts);
    var s := Run(Init(inbox, now, windows), acts).value;
    HashesInOrder(s.handled);
    assert inbox[..|s.handled|] == Payloads(s.handled);
    var a, b := Answers(Log(s)), Replies(s.handled);
    assert a + b[|a|..] == b;
    HashesSplit(a, b[|a|..]);
    PrefixDrop(Hashes(a), Hashes(b[|a|..]));
    assert a + [] == a;
  }

  lemma HashReplyOf(d: Decoded<Message>, language: bytes, now: i64)
    ensures var r := ReactTo(d, language, now).reply;
            HashFor(d) == if r.Some? && r.value.HashResponse? then [r.value] else []
  {
    hide EchoKv, Sha256.HashNumber, HexType, ErrorText, SaysUnknown, Ascii;
  }

  /** The echo reply is one OK result stamped with the server's time, whose map carries, under four keys,
      the id of the request in decimal, its data and meta, and the language; the id can be read back. */
  lemma EchoReplyCarries(id: i64, meta: bytes, data: bytes, language: bytes, now: i64)
    ensures var r := ReactTo(Decoded(EchoRequest(id, meta, data)), language, now);
            r.reply.Some? && r.reply.value.EchoResponse? && r.reply.value.echoStatus == 200 && !r.stop
            && |r.reply.value.echoResults| == 1
            && var x := r.reply.value.echoResults[0];
               x.idx == now && x.kind == 0
               && var kv := LastWins(x.kv);
                  kv == map[Ascii("id") := Sha256.Decimal(id), Ascii("data") := data,
                            Ascii("meta") := meta, Ascii("lang") := language]
                  && Ascii("id") in kv && Sha256.ParseDecimal(kv[Ascii("id")]) == id
  {
    hide Sha256.Decimal, Sha256.ParseDecimal, Collapse, Ascii;
    var ps := [Pair(Ascii("id"), Sha256.Decimal(id)), Pair(Ascii("data"), data),
               Pair(Ascii("meta"), meta), Pair(Ascii("lang"), language)];
    CollapseDenotes(ps);
    FourEntries(ps[0], ps[1], ps[2], ps[3]);
    KeysDiffer();
    Sha256.DecimalRoundTrip(id);
  }

  /** The map is written in the order of its keys: data, id, lang, meta. */
  lemma EchoOrder(id: i64, meta: bytes, data: bytes, language: bytes)
    ensures EchoKv(id, meta, data, language) ==
              [Pair(Ascii("data"), data), Pair(Ascii("id"), Sha256.Decimal(id)), Pair(Ascii("lang"), language), Pair(Ascii("meta"), meta)]
  {
    hide Sha256.Decimal, Collapse, Ascii, Sorted, LastWins;
    var ps := [Pair(Ascii("id"), Sha256.Decimal(id)), Pair(Ascii("data"), data),
               Pair(Ascii("meta"), meta), Pair(Ascii("lang"), language)];
    var qs := [Pair(Ascii("data"), data), Pair(Ascii("id"), Sha256.Decimal(id)), Pair(Ascii("lang"), language), Pair(Ascii("meta"), meta)];
    CollapseDenotes(ps);
    FourEntries(ps[0], ps[1], ps[2], ps[3]);
    FourEntries(qs[0], qs[1], qs[2], qs[3]);
    KeysDiffer();
    KeysOrder();
    FourSorted(qs[0], qs[1], qs[2], qs[3]);
    SortedCanonical(Collapse(ps), qs);
  }

  lemma KeysOrder()
    ensures Less(Ascii("data"), Ascii("id")) && Less(Ascii("id"), Ascii("lang")) && Less(Ascii("lang"), Ascii("meta"))
    ensures Ascii("lang") != Ascii("meta") && Ascii("data") != Ascii("meta") && Ascii("data") != Ascii("lang")
  {
    assert Ascii("id")[0] == 0x69 && Ascii("data")[0] == 0x64 && Ascii("meta")[0] == 0x6D && Ascii("lang")[0] == 0x6C;
  }

  lemma FourSorted(a: Pair, b: Pair, c: Pair, d: Pair)
    requires Less(a.key, b.key) && Less(b.key, c.key) && Less(c.key, d.key)
    ensures Sorted([a, b, c, d])
  {
    hide Less;
    LessTransitive(a.key, b.key, c.key);
    LessTransitive(b.key, c.key, d.key);
    LessTransitive(a.key, b.key, d.key);
  }

  lemma FourEntries(a: Pair, b: Pair, c: Pair, d: Pair)
    ensures LastWins([a, b, c, d]) == map[][a.key := a.value][b.key := b.value][c.key := c.value][d.key := d.value]
  {
    assert [a, b, c, d][..3] == [a, b, c];
    assert [a, b, c][..2] == [a, b];
    assert [a, b][..1] == [a];
    assert [a][..0] == [];
    assert LastWins([a]) == map[][a.key := a.value];
    assert LastWins([a, b]) == LastWins([a])[b.key := b.value];
    assert LastWins([a, b, c]) == LastWins([a, b])[c.key := c.value];
  }

  lemma KeysDiffer()
    ensures Ascii("id") != Ascii("data") && Ascii("id") != Ascii("meta") && Ascii("id") != Ascii("lang")
  {
    assert Ascii("id")[0] == 0x69 && Ascii("data")[0] == 0x64 && Ascii("meta")[0] == 0x6D && Ascii("lang")[0] == 0x6C;
  }

  predicate IsError(r: Option<Message>, code: int) {
    r.Some? && r.value.ErrorReport? && r.value.errorCode == code
  }

  /** The message types the server has no case for. */
  predicate Unhandled(m: Message) {
    m.Bonjour? || m.EchoResponse? || m.KissRequest? || m.Ping? || m.TimeNotification? || m.HashResponse?
  }

  /** Errors: an unknown or unhandled type is answered with code 2 and the session goes on; any other
      payload that does not decode is answered with code 1, and that is the end of the session. Every HELLO
      is answered with BONJOUR. */
  lemma ErrorReplies(d: Decoded<Message>, language: bytes, now: i64)
    ensures var r := ReactTo(d, language, now);
            (IsError(r.reply, 2) && !r.stop <==> d == Rejected(UnknownType) || (d.Decoded? && Unhandled(d.message)))
            && (IsError(r.reply, 1) && r.stop <==> d.Rejected? && d.error != UnknownType)
            && (r.reply == Some(Bonjour(Ascii("CPP"))) <==> HelloIn(d))
  {
    hide EchoKv, Sha256.HashNumber, HexType, ErrorText, SaysUnknown, Ascii;
    if d.Rejected? { SaysUnknownIff(d.error); }
  }

  // ----- which payloads are answered, and with what -----

  /** KISS_RESPONSE, PONG, DISCONNECT and ERROR get no answer; everything else gets one. */
  predicate Asks(d: Decoded<Message>) {
    !(d.Decoded? && (d.message.KissResponse? || d.message.Pong? || d.message.Disconnect? || d.message.ErrorReport?))
  }

  /** The answer to a payload, in the words and numbers of the source. What an echo carries is said by
      `EchoSent`. */
  predicate IsAnswerTo(r: Message, d: Decoded<Message>) {
    match d
    case Decoded(Hello(_)) => r == Bonjour(Ascii("CPP"))
    case Decoded(EchoRequest(_, _, _)) => r.EchoResponse? && r.echoStatus == 200
    case Decoded(RandomNumber(id, n)) => r == HashResponse(id, Sha256.HashNumber(n))
    case Decoded(m) => r == ErrorReport(2, Ascii("unknown type 0x" + UnhandledDigit(m)))
    case Rejected(e) => r == ErrorReport(if e == UnknownType then 2 else 1, Ascii(Says(e)) + Suffix(e))
  }

  function UnhandledDigit(m: Message): (s: string) {
    match m
    case Bonjour(_) => "2"
    case EchoResponse(_, _) => "4"
    case KissRequest(_, _, _, _) => "5"
    case Ping(_) => "7"
    case TimeNotification(_, _) => "9"
    case HashResponse(_, _) => "b"
    case _ => ""
  }

  function Says(e: DecodeError): (s: string) {
    match e
    case FrameTooShort(_) => "frame too short: "
    case BadMagic => "bad magic"
    case BadVersion => "bad version"
    case LengthMismatch => "payload length mismatch"
    case UnknownType => "unknown message type"
    case UnexpectedEnd => "unexpected end of data"
    case StringTooLong => "string length exceeds data"
    case InvalidUtf8 => "string payload is not valid UTF-8"
    case KvCountTooBig => "kv count exceeds remaining payload"
    case ResultCountTooBig => "result count exceeds remaining payload"
  }

  function Suffix(e: DecodeError): (s: bytes) { if e.FrameTooShort? then Sha256.Decimal(e.length) else [] }

  lemma ErrorTextIs(e: DecodeError)
    ensures ErrorText(e) == Ascii(Says(e)) + Suffix(e)
  {
    hide Ascii, Sha256.Decimal;
    Identity(ErrorText(e));
  }

  lemma UnhandledText(m: Message)
    requires Unhandled(m)
    ensures Ascii("unknown type 0x") + HexType(TypeOf(m)) == Ascii("unknown type 0x" + UnhandledDigit(m))
  {
  }

  lemma MessageAnswer(m: Message, language: bytes, now: i64)
    ensures var r := ReactToMessage(m, language, now).reply;
            (r.Some? <==> Asks(Decoded(m))) && (r.Some? ==> IsAnswerTo(r.value, Decoded(m)))
  {
    hide EchoKv, Sha256.HashNumber, HexType, Ascii;
    if Unhandled(m) { UnhandledText(m); }
  }

  /** A payload is answered exactly if it asks, and then with its answer. */
  lemma ReactAnswers(d: Decoded<Message>, language: bytes, now: i64)
    ensures var r := ReactTo(d, language, now).reply;
            (r.Some? <==> Asks(d)) && (r.Some? ==> IsAnswerTo(r.value, d))
  {
    hide ReactToMessage, ErrorText, SaysUnknown, Ascii, Says, Suffix;
    match d
    case Decoded(m) => MessageAnswer(m, language, now);
    case Rejected(e) => SaysUnknownIff(e); ErrorTextIs(e);
  }

  /** The payloads that ask for an answer. */
  function Asking(ps: seq<bytes>): (qs: seq<bytes>) {
    if ps == [] then [] else Asking(ps[..|ps| - 1]) + (if Asks(CppDecoder.Decode(ps[|ps| - 1])) then [ps[|ps| - 1]] else [])
  }

  predicate AnswersEach(rs: seq<Message>, ps: seq<bytes>) {
    |rs| <= |ps| && forall i :: 0 <= i < |rs| ==> IsAnswerTo(rs[i], CppDecoder.Decode(ps[i]))
  }

  lemma {:induction false} RepliesAnswer(hs: seq<Handled>)
    ensures |Replies(hs)| == |Asking(Payloads(hs))| && AnswersEach(Replies(hs), Asking(Payloads(hs)))
    decreases |hs|
  {
    hide CppDecoder.Decode, LanguageAfter, ReactTo, Asks, IsAnswerTo;
    if hs != [] {
      var n := |hs| - 1;
      RepliesAnswer(hs[..n]);
      assert Payloads(hs)[..n] == Payloads(hs[..n]);
      ReactAnswers(CppDecoder.Decode(hs[n].payload), LanguageAfter(hs[..n]), hs[n].at);
    }
  }

  /** In every run: the replies on the wire are, in order, the answers to the payloads that came in and ask
      for one, and nothing else; while the session is active with no reply in hand, to all of them that were
      dispatched. */
  lemma AnswersSent(inbox: seq<bytes>, now: i64, windows: bool, acts: seq<Action>)
    requires RepliesGoOut(acts) && Run(Init(inbox, now, windows), acts).Some?
    ensures var s := Run(Init(inbox, now, windows), acts).value;
            var n := |s.handled|;
            n <= |inbox| && AnswersEach(Answers(Log(s)), Asking(inbox[..n]))
            && (s.active && Owed(s.recv) == [] ==> |Answers(Log(s))| == |Asking(inbox[..n])|)
  {
    hide Run, Replies, Answers, Log, Asking, Stops, Owed, IsAnswerTo, CppDecoder.Decode;
    ReplyTrace(inbox, now, windows, acts);
    var s := Run(Init(inbox, now, windows), acts).value;
    RepliesAnswer(s.handled);
    assert inbox[..|s.handled|] == Payloads(s.handled);
    var a, b := Answers(Log(s)), Replies(s.handled);
    assert forall i :: 0 <= i < |a| ==> a[i] == b[i];
    assert a + [] == a;
  }

  predicate NoneFatal(ms: seq<Message>) { forall i :: 0 <= i < |ms| ==> !IsError(Some(ms[i]), 1) }

  /** Only a payload that ends the session is answered with code 1. */
  lemma FatalReply(d: Decoded<Message>, language: bytes, now: i64)
    ensures IsError(ReactTo(d, language, now).reply, 1) ==> StopsOn(d) && d.Rejected?
  {
    hide EchoKv, Sha256.HashNumber, HexType, ErrorText, SaysUnknown, Ascii;
    if d.Rejected? { SaysUnknownIff(d.error); }
  }

  lemma {:induction false} NoneFatalYet(hs: seq<Handled>)
    requires forall i :: 0 <= i < |hs| ==> !Stops(hs[i].payload)
    ensures NoneFatal(Replies(hs))
    decreases |hs|
  {
    hide CppDecoder.Decode, LanguageAfter, ReactTo, StopsOn;
    if hs != [] {
      var n := |hs| - 1;
      NoneFatalYet(hs[..n]);
      FatalReply(CppDecoder.Decode(hs[n].payload), LanguageAfter(hs[..n]), hs[n].at);
    }
  }

  lemma FatalAtEnd(hs: seq<Handled>, i: nat)
    requires forall j :: 0 <= j < |hs| - 1 ==> !Stops(hs[j].payload)
    requires i < |Replies(hs)| && IsError(Some(Replies(hs)[i]), 1)
    ensures i == |Replies(hs)| - 1 && hs != [] && Stops(hs[|hs| - 1].payload)
  {
    hide CppDecoder.Decode, LanguageAfter, ReactTo, StopsOn;
    var n := |hs| - 1;
    assert i < |Replies(hs[..n])| ==> Replies(hs)[i] == Replies(hs[..n])[i];
    NoneFatalYet(hs[..n]);
    FatalReply(CppDecoder.Decode(hs[n].payload), LanguageAfter(hs[..n]), hs[n].at);
  }

  /** In every run: an ERROR with code 1 on the wire is the last reply on the wire, and it answers the last
      payload the session dispatched. */
  lemma FatalErrorIsLast(inbox: seq<bytes>, now: i64, windows: bool, acts: seq<Action>, i: nat)
    requires RepliesGoOut(acts) && Run(Init(inbox, now, windows), acts).Some?
    requires var out := Answers(Log(Run(Init(inbox, now, windows), acts).value)); i < |out| && IsError(Some(out[i]), 1)
    ensures var s := Run(Init(inbox, now, windows), acts).value;
            i == |Answers(Log(s))| - 1 && Answers(Log(s)) == Replies(s.handled)
            && s.handled != [] && Stops(s.handled[|s.handled| - 1].payload)
  {
    hide Run, Replies, Answers, Log, Stops, Owed, IsError;
    ReplyTrace(inbox, now, windows, acts);
    var s := Run(Init(inbox, now, windows), acts).value;
    var a, b := Answers(Log(s)), Replies(s.handled);
    assert a[i] == b[i];
    FatalAtEnd(s.handled, i);
    assert b[..|b|] == b;
  }

  // ----- echo replies -----

  lemma {:induction false} ReplyFrom(hs: seq<Handled>, i: nat) returns (j: nat)
    requires i < |Replies(hs)|
    ensures j < |hs| && ReplyAt(hs, j) == Some(Replies(hs)[i])
    decreases |hs|
  {
    hide React, LanguageAfter;
    var n := |hs| - 1;
    if i < |Replies(hs[..n])| {
      j := ReplyFrom(hs[..n], i);
      assert hs[..n][..j] == hs[..j];
    } else {
      j := n;
    }
  }

  lemma EchoRequestOf(d: Decoded<Message>, language: bytes, now: i64)
    ensures var r := ReactTo(d, language, now).reply;
            r.Some? && r.value.EchoResponse? ==> d.Decoded? && d.message.EchoRequest?
  {
    hide EchoKv, Sha256.HashNumber, HexType, ErrorText, SaysUnknown, Ascii;
  }

  /** In every run: an ECHO_RESPONSE on the wire answers an ECHO_REQUEST that came in, and the language it
      carries is that of the last HELLO in front of that request, or "unknown" if there is none. */
  lemma EchoSent(inbox: seq<bytes>, now: i64, windows: bool, acts: seq<Action>, i: nat) returns (j: nat, language: bytes)
    requires RepliesGoOut(acts) && Run(Init(inbox, now, windows), acts).Some?
    requires var out := Answers(Log(Run(Init(inbox, now, windows), acts).value)); i < |out| && out[i].EchoResponse?
    ensures var s := Run(Init(inbox, now, windows), acts).value;
            j < |s.handled| && j < |inbox| && s.handled[j].payload == inbox[j]
            && var d := CppDecoder.Decode(inbox[j]);
               d.Decoded? && d.message.EchoRequest?
               && Answers(Log(s))[i] == EchoResponse(200, [EchoResult(s.handled[j].at, 0,
                    EchoKv(d.message.echoId, d.message.echoMeta, d.message.echoData, language))])
               && if (exists k :: 0 <= k < j && IsHello(inbox[k]))
                  then exists k :: LastHelloAt(inbox[..j], k, language)
                  else language == Ascii("unknown")
  {
    hide Run, Replies, Answers, Log, Stops, Owed, CppDecoder.Decode, EchoKv, Ascii, ReactTo;
    ReplyTrace(inbox, now, windows, acts);
    var s := Run(Init(inbox, now, windows), acts).value;
    var hs := s.handled;
    assert Answers(Log(s))[i] == Replies(hs)[i];
    j := ReplyFrom(hs, i);
    assert inbox[j] == Payloads(hs)[j];
    language := LanguageAfter(hs[..j]);
    assert Payloads(hs[..j]) == inbox[..j];
    LanguageIsLastHello(hs[..j]);
    EchoRequestOf(CppDecoder.Decode(inbox[j]), language, hs[j].at);
    EchoReplyIs(CppDecoder.Decode(inbox[j]), language, hs[j].at);
    assert forall k :: 0 <= k < j ==> inbox[..j][k] == inbox[k];
  }

  lemma EchoReplyIs(d: Decoded<Message>, language: bytes, now: i64)
    requires d.Decoded? && d.message.EchoRequest?
    ensures ReactTo(d, language, now).reply ==
              Some(EchoResponse(200, [EchoResult(now, 0, EchoKv(d.message.echoId, d.message.echoMeta, d.message.echoData, language))]))
  {
    hide EchoKv;
  }
}
