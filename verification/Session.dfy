/** One session of the C++ server: the receive loop, three background senders and the timeout thread, as
    interleaved atomic steps over the state they share. */
module Session {
  import opened Bytes
  import opened Messages
  import opened Parsing
  import opened Framing
  import CppDecoder
  import Sha256

  datatype Task = RecvTask | PingTask | TimeTask | KissTask

  // ----- frames and pieces -----

  type ControlData = s: bytes | |s| <= 125

  /** A frame the server writes: a message, under the mutex, or the Pong or Close with which `wsRecvFrame`
      answers a control frame, without it. */
  datatype Entry = Data(msg: Message) | Control(close: bool, data: ControlData)

  /** The bytes `wsSendBinary` writes for a message. No vector holds 2^63 bytes; the second branch is what
      the code would write for one. */
  function FrameOf(m: Message): (s: bytes)
    ensures |s| >= 2
  {
    var data := Encode(m);
    if |data| < TWO_63 then Serialize(BinaryFrame(data, None)) else [0x82, 127] + (U64(|data|) + data)
  }

  function FrameBytes(e: Entry): (s: bytes)
    ensures |s| >= 2
  {
    match e
    case Data(m) => FrameOf(m)
    case Control(close, data) => Serialize(ControlFrame(if close then CLOSE else PONG, data, None))
  }

  /** What one `send` took: the bytes `from` to `to` of a frame. */
  datatype Piece = Piece(entry: Entry, from: nat, to: nat)

  function PieceBytes(p: Piece): (s: bytes) {
    if p.from <= p.to <= |FrameBytes(p.entry)| then FrameBytes(p.entry)[p.from..p.to] else []
  }

  /** The bytes on the wire. */
  function Join(ps: seq<Piece>): (s: bytes) {
    if ps == [] then [] else Join(ps[..|ps| - 1]) + PieceBytes(ps[|ps| - 1])
  }

  predicate Ends(p: Piece) { p.to == |FrameBytes(p.entry)| }

  /** The frames whose last byte is out, in the order in which that happened. */
  function Completed(ps: seq<Piece>): (es: seq<Entry>) {
    if ps == [] then []
    else Completed(ps[..|ps| - 1]) + (if Ends(ps[|ps| - 1]) then [ps[|ps| - 1].entry] else [])
  }

  /** The messages among them. */
  function MessagesOf(es: seq<Entry>): (ms: seq<Message>) {
    if es == [] then []
    else MessagesOf(es[..|es| - 1]) + (if es[|es| - 1].Data? then [es[|es| - 1].msg] else [])
  }

  /** Where a sender is. `stop` is set while the receive loop sends the error after which it deactivates. */
  datatype Phase =
    | AtLoop                                            // about to read `active` at the head of its loop
    | Waiting                                           // asleep, or inside `wsRecvFrame`
    | Wants(msg: Message, stop: bool)                   // called `sendFrame`, waiting for the mutex
    | Locked(msg: Message, stop: bool)                  // has the mutex, about to read `active`
    | Writing(msg: Message, stop: bool, sent: nat)      // read `active` as true; `sent` bytes are out
    | Done(ok: bool, stop: bool)                        // `sendFrame` has returned `ok`
    | Replying(close: bool, data: ControlData, sent: nat) // `wsRecvFrame` answers a Ping or a Close
    | Leaving                                           // `wsRecvFrame` is about to end the receive loop
    | Stopped

  datatype Watch = WatchLoop | WatchAsleep | WatchStopped

  /** A payload that `wsRecvFrame` returned, and the time it was dispatched at. */
  datatype Handled = Handled(payload: bytes, at: i64)

  datatype State = State(
    active: bool, lock: Option<Task>,
    recv: Phase, ping: Phase, time: Phase, kiss: Phase, watch: Watch,
    pieces: seq<Piece>,                                 // everything written to the socket
    cut: bool,                                          // a `send` has failed with its frame partly out
    inbox: seq<bytes>, handled: seq<Handled>,           // payloads to come, payloads dispatched
    language: bytes, lastPong: i64, now: i64, lastCheck: i64,
    windows: bool)                                      // the platform the server was built for

  function Init(inbox: seq<bytes>, now: i64, windows: bool): (s: State) {
    State(true, None, AtLoop, AtLoop, AtLoop, AtLoop, WatchLoop, [], false, inbox, [], Ascii("unknown"),
          now, now, now, windows)
  }

  function Wire(s: State): (b: bytes) { Join(s.pieces) }

  /** The messages whose frames are complete, in lock order. */
  function Log(s: State): (ms: seq<Message>) { MessagesOf(Completed(s.pieces)) }

  function Get(s: State, t: Task): (p: Phase) {
    match t
    case RecvTask => s.recv
    case PingTask => s.ping
    case TimeTask => s.time
    case KissTask => s.kiss
  }

  function Set(s: State, t: Task, p: Phase): (r: State) {
    match t
    case RecvTask => s.(recv := p)
    case PingTask => s.(ping := p)
    case TimeTask => s.(time := p)
    case KissTask => s.(kiss := p)
  }

  // ----- dispatching a payload -----

  function ErrorText(e: DecodeError): (s: bytes) {
    match e
    case UnexpectedEnd => Ascii("unexpected end of data")
    case StringTooLong => Ascii("string length exceeds data")
    case InvalidUtf8 => Ascii("string payload is not valid UTF-8")
    case KvCountTooBig => Ascii("kv count exceeds remaining payload")
    case ResultCountTooBig => Ascii("result count exceeds remaining payload")
    case FrameTooShort(n) => Ascii("frame too short: ") + Sha256.Decimal(n)
    case BadMagic => Ascii("bad magic")
    case BadVersion => Ascii("bad version")
    case LengthMismatch => Ascii("payload length mismatch")
    case UnknownType => Ascii("unknown message type")
  }

  function HexType(t: byte): (s: bytes) {
    if t < 16 then [Sha256.HexDigit(t)] else [Sha256.HexDigit(t / 16), Sha256.HexDigit(t % 16)]
  }

  /** The four entries of an echo result, stored one by one. */
  function EchoKv(id: i64, meta: bytes, data: bytes, language: bytes): (kv: seq<Pair>) {
    Collapse([Pair(Ascii("id"), Sha256.Decimal(id)), Pair(Ascii("data"), data),
              Pair(Ascii("meta"), meta), Pair(Ascii("lang"), language)])
  }

  /** What the receive loop does with a payload: the reply it sends, the language it remembers, whether it
      stores a PONG time, and whether it deactivates the session (after the reply, if there is one). */
  datatype Reaction = Reaction(reply: Option<Message>, language: bytes, pong: bool, stop: bool)

  function ReactToMessage(m: Message, language: bytes, now: i64): (r: Reaction) {
    match m
    case Hello(l) => Reaction(Some(Bonjour(Ascii("CPP"))), l, false, false)
    case EchoRequest(id, meta, data) =>
      Reaction(Some(EchoResponse(200, [EchoResult(now, 0, EchoKv(id, meta, data, language))])), language, false, false)
    case KissResponse(_, _, _) => Reaction(None, language, false, false)
    case Pong(_) => Reaction(None, language, true, false)
    case RandomNumber(id, n) => Reaction(Some(HashResponse(id, Sha256.HashNumber(n))), language, false, false)
    case Disconnect(_) => Reaction(None, language, false, true)
    case ErrorReport(_, _) => Reaction(None, language, false, false)
    case _ => Reaction(Some(ErrorReport(2, Ascii("unknown type 0x") + HexType(TypeOf(m)))), language, false, false)
  }

  function React(payload: bytes, language: bytes, now: i64): (r: Reaction) {
    ReactTo(CppDecoder.Decode(payload), language, now)
  }

  function ReactTo(d: Decoded<Message>, language: bytes, now: i64): (r: Reaction) {
    match d
    case Decoded(m) => ReactToMessage(m, language, now)
    case Rejected(e) =>
      var unknown := SaysUnknown(e);
      Reaction(Some(ErrorReport(if unknown then 2 else 1, ErrorText(e))), language, false, !unknown)
  }

  /** The server's test on the exception text. */
  predicate SaysUnknown(e: DecodeError) {
    var p := Ascii("unknown message type");
    |p| <= |ErrorText(e)| && ErrorText(e)[..|p|] == p
  }

  function BackgroundMessage(t: Task, now: i64, iso: bytes, windows: bool): (m: Message)
    requires !t.RecvTask?
  {
    match t
    case PingTask => Ping(now)
    case TimeTask => TimeNotification(now, iso)
    case KissTask =>
      if windows then KissRequest(Ascii("Windows"), Ascii("unknown"), Ascii("unknown"), Ascii("AMD64"))
      else KissRequest(Ascii("Linux"), Ascii("unknown"), Ascii("unknown"), Ascii("x86_64"))
  }

  // ----- steps -----

  datatype Action =
    | Tick(dt: nat)                      // time passes
    | LoopTest(t: Task)                  // `while (active)`
    | Wake(t: Task, iso: bytes)          // a background sender wakes, tests `active`, builds its message
    | Deliver                            // `wsRecvFrame` returns a payload, which is dispatched
    | Hangup                             // `wsRecvFrame` fails or returns a Close: the loop is left
    | GetControl(close: bool, data: ControlData) // `wsRecvFrame` reads a Ping or a Close
    | ControlWrite(n: nat)               // one `send` of the answer takes `n` bytes, without the mutex
    | ControlFail                        // one `send` of the answer fails
    | ControlDone                        // the answer is complete
    | Acquire(t: Task)
    | Check(t: Task)                     // `if (active)`, with the mutex held
    | Write(t: Task, n: nat)             // one `send` takes `n` bytes
    | Fail(t: Task)                      // one `send` fails
    | Release(t: Task)                   // the frame is complete
    | AfterSend(t: Task)                 // what the caller does with the result of `sendFrame`
    | WatchTest                          // the timeout thread's `while (active)`
    | WatchCheck                         // it wakes and compares the clock with the last PONG

  const SESSION_TIMEOUT_MS: int := 60000

  function StepSend(s: State, a: Action): (r: Option<State>) {
    match a
    case Acquire(t) =>
      var p := Get(s, t);
      if p.Wants? && s.lock == None then Some(Set(s.(lock := Some(t)), t, Locked(p.msg, p.stop))) else None
    case Check(t) =>
      var p := Get(s, t);
      if !p.Locked? then None
      else if s.active then Some(Set(s, t, Writing(p.msg, p.stop, 0)))
      else Some(Set(s.(lock := None), t, Done(false, p.stop)))
    case Write(t, n) =>
      var p := Get(s, t);
      if p.Writing? && 1 <= n <= |FrameOf(p.msg)| - p.sent then
        Some(Set(s.(pieces := s.pieces + [Piece(Data(p.msg), p.sent, p.sent + n)]), t, Writing(p.msg, p.stop, p.sent + n)))
      else None
    case Fail(t) =>
      var p := Get(s, t);
      if p.Writing? && p.sent < |FrameOf(p.msg)| then
        Some(Set(s.(lock := None, cut := s.cut || p.sent > 0), t, Done(false, p.stop)))
      else None
    case Release(t) =>
      var p := Get(s, t);
      if p.Writing? && p.sent == |FrameOf(p.msg)| then Some(Set(s.(lock := None), t, Done(true, p.stop))) else None
    case AfterSend(t) =>
      var p := Get(s, t);
      if !p.Done? then None
      else if t.RecvTask? then Some(s.(active := s.active && !p.stop, recv := AtLoop))
      else if p.ok then Some(Set(s, t, AtLoop))
      else Some(Set(s.(active := false), t, Stopped))
    case _ => None
  }

  function StepDeliver(s: State): (r: Option<State>) {
    if s.recv != Waiting || s.inbox == [] then None
    else
      var x := React(s.inbox[0], s.language, s.now);
      Some(s.(inbox := s.inbox[1..], handled := s.handled + [Handled(s.inbox[0], s.now)],
              language := x.language, lastPong := if x.pong then s.now else s.lastPong,
              active := s.active && !(x.stop && x.reply.None?),
              recv := if x.reply.Some? then Wants(x.reply.value, x.stop) else AtLoop))
  }

  /** Inside `wsRecvFrame`, which does not look at `active`. A Pong that cannot be sent and a Close, sent or
      not, end the receive loop. */
  function StepControl(s: State, a: Action): (r: Option<State>) {
    match a
    case Hangup => if s.recv.Waiting? || s.recv.Leaving? then Some(s.(active := false, recv := Stopped)) else None
    case GetControl(close, data) => if s.recv.Waiting? then Some(s.(recv := Replying(close, data, 0))) else None
    case ControlWrite(n) =>
      var p := s.recv;
      if p.Replying? && 1 <= n <= |FrameBytes(Control(p.close, p.data))| - p.sent then
        Some(s.(pieces := s.pieces + [Piece(Control(p.close, p.data), p.sent, p.sent + n)], recv := Replying(p.close, p.data, p.sent + n)))
      else None
    case ControlFail =>
      var p := s.recv;
      if p.Replying? && p.sent < |FrameBytes(Control(p.close, p.data))| then
        Some(s.(cut := s.cut || p.sent > 0, recv := Leaving))
      else None
    case ControlDone =>
      var p := s.recv;
      if p.Replying? && p.sent == |FrameBytes(Control(p.close, p.data))| then
        Some(s.(recv := if p.close then Leaving else Waiting))
      else None
    case _ => None
  }

  function StepWatch(s: State, a: Action): (r: Option<State>) {
    match a
    case WatchTest =>
      if !s.watch.WatchLoop? then None else Some(s.(watch := if s.active then WatchAsleep else WatchStopped))
    case WatchCheck =>
      if !s.watch.WatchAsleep? then None
      else if !s.active then Some(s.(watch := WatchStopped))
      else if s.now - s.lastPong > SESSION_TIMEOUT_MS then Some(s.(active := false, watch := WatchStopped))
      else Some(s.(watch := WatchLoop, lastCheck := s.now))
    case _ => None
  }

  function Step(s: State, a: Action): (r: Option<State>) {
    match a
    case Tick(dt) => if s.now + dt < TWO_63 then Some(s.(now := s.now + dt)) else None
    case LoopTest(t) =>
      if !Get(s, t).AtLoop? then None else Some(Set(s, t, if s.active then Waiting else Stopped))
    case Wake(t, iso) =>
      if t.RecvTask? || !Get(s, t).Waiting? || !Utf8Valid(iso) then None
      else Some(Set(s, t, if s.active then Wants(BackgroundMessage(t, s.now, iso, s.windows), false) else Stopped))
    case WatchTest => StepWatch(s, a)
    case WatchCheck => StepWatch(s, a)
    case Deliver => StepDeliver(s)
    case Hangup => StepControl(s, a)
    case GetControl(_, _) => StepControl(s, a)
    case ControlWrite(_) => StepControl(s, a)
    case ControlFail => StepControl(s, a)
    case ControlDone => StepControl(s, a)
    case _ => StepSend(s, a)
  }

  predicate Utf8Valid(s: bytes) { ValidStrings(Hello(s)) }

  function Run(s: State, acts: seq<Action>): (r: Option<State>)
    decreases |acts|
  {
    if acts == [] then Some(s)
    else match Step(s, acts[0]) case None => None case Some(t) => Run(t, acts[1..])
  }

  // ----- what a step can touch -----

  predicate Sends(a: Action) { a.Acquire? || a.Check? || a.Write? || a.Fail? || a.Release? }

  /** The steps of the receive loop while it is inside `wsRecvFrame`. */
  predicate Controls(a: Action) { a.Hangup? || a.GetControl? || a.ControlWrite? || a.ControlFail? || a.ControlDone? }

  lemma StepIsSend(s: State, a: Action)
    requires Sends(a)
    ensures Step(s, a) == StepSend(s, a)
  {
    hide StepSend, StepControl, StepDeliver, StepWatch, BackgroundMessage, Utf8Valid;
  }

  lemma StepIsControl(s: State, a: Action)
    requires Controls(a)
    ensures Step(s, a) == StepControl(s, a)
  {
    hide StepSend, StepControl, StepDeliver, StepWatch, BackgroundMessage, Utf8Valid;
  }

  lemma DeliverIsStep(s: State)
    ensures Step(s, Deliver) == StepDeliver(s)
  {
    hide StepSend, StepControl, StepDeliver, StepWatch;
  }

  predicate Holds(p: Phase) { p.Locked? || p.Writing? }

  /** The frame a phase is writing. */
  function EntryOf(p: Phase): (e: Option<Entry>) {
    if p.Writing? then Some(Data(p.msg)) else if p.Replying? then Some(Control(p.close, p.data)) else None
  }

  /** Some but not all bytes of the frame are out. */
  predicate Partly(p: Phase) {
    EntryOf(p).Some? && 0 < p.sent < |FrameBytes(EntryOf(p).value)|
  }

  /** Without the lock and between frames. */
  predicate Quiet(p: Phase) {
    !Holds(p) && (p.Replying? ==> p.sent == 0 || p.sent == |FrameBytes(Control(p.close, p.data))|)
  }

  predicate KeepsPhase(p: Phase, q: Phase) { p == q || (Quiet(p) && Quiet(q)) }

  /** The step writes nothing, leaves the lock and whoever holds it or is inside a frame alone, and does not
      reactivate. */
  predicate LeavesSenders(s: State, s': State) {
    s'.lock == s.lock && s'.pieces == s.pieces && s'.cut == s.cut && (s'.active ==> s.active)
    && KeepsPhase(s.recv, s'.recv) && KeepsPhase(s.ping, s'.ping)
    && KeepsPhase(s.time, s'.time) && KeepsPhase(s.kiss, s'.kiss)
  }

  lemma DeliverLeaves(s: State)
    requires StepDeliver(s).Some?
    ensures LeavesSenders(s, StepDeliver(s).value)
  {
    hide React, FrameBytes;
  }

  lemma ControlLeaves(s: State, a: Action)
    requires StepControl(s, a).Some? && !a.ControlWrite? && !a.ControlFail?
    ensures LeavesSenders(s, StepControl(s, a).value)
  {
    hide FrameBytes;
  }

  lemma WatchLeaves(s: State, a: Action)
    requires StepWatch(s, a).Some?
    ensures LeavesSenders(s, StepWatch(s, a).value)
  {
    hide FrameBytes;
  }

  lemma AfterLeaves(s: State, t: Task)
    requires StepSend(s, AfterSend(t)).Some?
    ensures LeavesSenders(s, StepSend(s, AfterSend(t)).value)
  {
    hide FrameBytes, FrameOf;
  }

  /** So does every step that is neither part of `sendFrame` nor a `send` of a control answer. */
  lemma OtherSteps(s: State, a: Action)
    requires !Sends(a) && !a.ControlWrite? && !a.ControlFail? && Step(s, a).Some?
    ensures LeavesSenders(s, Step(s, a).value)
  {
    hide StepControl, StepDeliver, StepWatch, StepSend, BackgroundMessage, Utf8Valid, FrameBytes, LeavesSenders, Get, Set;
    match a
    case Tick(_) => LoopLeaves(s, a);
    case LoopTest(_) => LoopLeaves(s, a);
    case Wake(_, _) => LoopLeaves(s, a);
    case AfterSend(t) => AfterLeaves(s, t);
    case WatchTest => WatchLeaves(s, a);
    case WatchCheck => WatchLeaves(s, a);
    case Deliver => DeliverLeaves(s);
    case Hangup => ControlLeaves(s, a);
    case GetControl(_, _) => ControlLeaves(s, a);
    case ControlDone => ControlLeaves(s, a);
  }

  lemma LoopLeaves(s: State, a: Action)
    requires (a.Tick? || a.LoopTest? || a.Wake?) && Step(s, a).Some?
    ensures LeavesSenders(s, Step(s, a).value)
  {
    hide StepControl, StepDeliver, StepWatch, StepSend, BackgroundMessage, Utf8Valid, FrameBytes;
  }

  /** The step leaves alone what was received and when, and the clock. */
  predicate KeepsRecord(s: State, s': State) {
    s'.inbox == s.inbox && s'.handled == s.handled && s'.language == s.language && s'.lastPong == s.lastPong
    && s'.now == s.now && s'.lastCheck == s.lastCheck && s'.windows == s.windows && s'.watch == s.watch
  }

  lemma SetRecord(s: State, t: Task, p: Phase)
    ensures KeepsRecord(s, Set(s, t, p)) && Set(s, t, p).active == s.active && Set(s, t, p).pieces == s.pieces
    ensures Set(s, t, p).lock == s.lock && Set(s, t, p).cut == s.cut
  {
  }

  lemma SendRecord(s: State, a: Action)
    requires StepSend(s, a).Some?
    ensures KeepsRecord(s, StepSend(s, a).value)
  {
    hide FrameOf, FrameBytes, Set, Get;
    forall r: State, t, p ensures KeepsRecord(r, Set(r, t, p)) { SetRecord(r, t, p); }
  }

  lemma ControlRecord(s: State, a: Action)
    requires StepControl(s, a).Some?
    ensures KeepsRecord(s, StepControl(s, a).value)
  {
    hide FrameBytes;
  }

  /** Only `Deliver` reads from the inbox, only `Tick` moves the clock, only the timeout thread checks it. */
  lemma OtherRecord(s: State, a: Action)
    requires !a.Deliver? && !a.Tick? && !a.WatchTest? && !a.WatchCheck? && Step(s, a).Some?
    ensures KeepsRecord(s, Step(s, a).value)
  {
    hide StepSend, StepControl, StepDeliver, StepWatch, BackgroundMessage, Utf8Valid, Set, Get, KeepsRecord;
    match a
    case LoopTest(t) => SetRecord(s, t, if s.active then Waiting else Stopped);
    case Wake(t, iso) => SetRecord(s, t, if s.active then Wants(BackgroundMessage(t, s.now, iso, s.windows), false) else Stopped);
    case Hangup => ControlRecord(s, a);
    case GetControl(_, _) => ControlRecord(s, a);
    case ControlWrite(_) => ControlRecord(s, a);
    case ControlFail => ControlRecord(s, a);
    case ControlDone => ControlRecord(s, a);
    case _ => SendRecord(s, a);
  }

  // ----- mutual exclusion -----

  /** Exactly the lock holder is between taking the mutex and releasing it. */
  ghost predicate Mutex(s: State) {
    (forall t :: Holds(Get(s, t)) <==> s.lock == Some(t))
    && forall t :: EntryOf(Get(s, t)).Some? ==> Get(s, t).sent <= |FrameBytes(EntryOf(Get(s, t)).value)|
  }

  lemma GetSet(s: State, t: Task, p: Phase, u: Task)
    ensures Get(Set(s, t, p), u) == if u == t then p else Get(s, u)
  {
  }

  /** One phase changes, and with it perhaps the lock. */
  lemma MutexChange(s: State, s': State, t: Task)
    requires Mutex(s)
    requires forall u :: u != t ==> Get(s', u) == Get(s, u)
    requires s'.lock == s.lock || ((s.lock == None || s.lock == Some(t)) && (s'.lock == None || s'.lock == Some(t)))
    requires Holds(Get(s', t)) <==> s'.lock == Some(t)
    requires EntryOf(Get(s', t)).Some? ==> Get(s', t).sent <= |FrameBytes(EntryOf(Get(s', t)).value)|
    ensures Mutex(s')
  {
    hide FrameBytes, EntryOf;
  }

  lemma KeepsEach(s: State, s': State, t: Task)
    requires LeavesSenders(s, s')
    ensures KeepsPhase(Get(s, t), Get(s', t))
  {
    hide KeepsPhase;
  }

  lemma MutexKept(s: State, s': State)
    requires Mutex(s) && LeavesSenders(s, s')
    ensures Mutex(s')
  {
    hide FrameBytes, LeavesSenders, Get;
    assert s'.lock == s.lock by { KeepsLock(s, s'); }
    forall t ensures KeepsPhase(Get(s, t), Get(s', t)) { KeepsEach(s, s', t); }
  }

  lemma KeepsLock(s: State, s': State)
    requires LeavesSenders(s, s')
    ensures s'.lock == s.lock && s'.pieces == s.pieces && s'.cut == s.cut && (s'.active ==> s.active)
  {
    hide KeepsPhase;
  }

  lemma MutexHolder(s: State, t: Task)
    requires Mutex(s)
    ensures Holds(Get(s, t)) <==> s.lock == Some(t)
    ensures Get(s, t).Writing? ==> Get(s, t).sent <= |FrameOf(Get(s, t).msg)|
  {
    hide FrameOf;
  }

  function SenderOf(a: Action): (t: Task)
    requires Sends(a)
  {
    match a
    case Acquire(t) => t
    case Check(t) => t
    case Write(t, _) => t
    case Fail(t) => t
    case Release(t) => t
  }

  /** A step of `sendFrame` changes one sender's phase and perhaps the lock. */
  lemma SendOthers(s: State, a: Action, u: Task)
    requires Sends(a) && StepSend(s, a).Some? && u != SenderOf(a)
    ensures Get(StepSend(s, a).value, u) == Get(s, u)
  {
    hide FrameOf;
  }

  lemma SendOwn(s: State, a: Action)
    requires Mutex(s) && Sends(a) && StepSend(s, a).Some?
    ensures var s', t := StepSend(s, a).value, SenderOf(a);
            (Holds(Get(s', t)) <==> s'.lock == Some(t)) && (s'.lock == None || s'.lock == Some(t))
            && (s.lock == None || s.lock == Some(t)) && s'.active == s.active
  {
    hide FrameOf, FrameBytes, Mutex;
    MutexHolder(s, SenderOf(a));
  }

  lemma SendBound(s: State, a: Action)
    requires Sends(a) && StepSend(s, a).Some?
    ensures var p := Get(StepSend(s, a).value, SenderOf(a));
            EntryOf(p).Some? ==> p.sent <= |FrameBytes(EntryOf(p).value)|
  {
    hide FrameOf;
  }

  lemma MutexSend(s: State, a: Action)
    requires Mutex(s) && Sends(a) && StepSend(s, a).Some?
    ensures Mutex(StepSend(s, a).value)
  {
    hide FrameBytes, Mutex, StepSend, Get;
    SendOwn(s, a);
    SendBound(s, a);
    var t := SenderOf(a);
    forall u | u != t ensures Get(StepSend(s, a).value, u) == Get(s, u) { SendOthers(s, a, u); }
    MutexChange(s, StepSend(s, a).value, t);
  }

  lemma MutexControl(s: State, a: Action)
    requires Mutex(s) && StepControl(s, a).Some?
    ensures Mutex(StepControl(s, a).value)
  {
    hide FrameBytes, Mutex;
    MutexHolder(s, RecvTask);
    MutexChange(s, StepControl(s, a).value, RecvTask);
  }

  lemma MutexStep(s: State, a: Action)
    requires Mutex(s) && Step(s, a).Some?
    ensures Mutex(Step(s, a).value)
  {
    hide Step, Mutex, StepSend, StepControl;
    if Sends(a) {
      StepIsSend(s, a);
      MutexSend(s, a);
    } else if Controls(a) {
      StepIsControl(s, a);
      MutexControl(s, a);
    } else {
      OtherSteps(s, a);
      MutexKept(s, Step(s, a).value);
    }
  }

  lemma MutexInit(inbox: seq<bytes>, now: i64, windows: bool)
    ensures Mutex(Init(inbox, now, windows))
  {
    hide FrameBytes, Ascii;
  }

  lemma {:induction false} MutexRun(s: State, acts: seq<Action>)
    requires Mutex(s) && Run(s, acts).Some?
    ensures Mutex(Run(s, acts).value)
    decreases |acts|
  {
    hide Step, Mutex;
    if acts != [] {
      MutexStep(s, acts[0]);
      MutexRun(Step(s, acts[0]).value, acts[1..]);
    }
  }
}
