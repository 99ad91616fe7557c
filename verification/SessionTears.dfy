/** Runs from the start of a session that miss the guard, and what the client makes of the bytes: the guard
    of the frame structure cannot be dropped on either side. */
module SessionTears {
  import opened Bytes
  import opened Messages
  import opened Parsing
  import opened Framing
  import Receiver
  import Utf8
  import CppDecoder
  import FullStack
  import opened Session
  import opened SessionFrames

  // ----- runs, step by step -----

  lemma RunStep(s: State, a: Action, s': State, rest: seq<Action>)
    requires Step(s, a) == Some(s')
    ensures Run(s, [a] + rest) == Run(s', rest)
  {
    hide Step;
    assert ([a] + rest)[1..] == rest;
  }

  lemma RunNone(s: State)
    ensures Run(s, []) == Some(s)
  {
  }

  lemma LoopRun(s: State, t: Task, rest: seq<Action>)
    requires s.active && Get(s, t) == AtLoop
    ensures Run(s, [LoopTest(t)] + rest) == Run(Set(s, t, Waiting), rest)
  {
    hide Run, StepSend, StepControl, StepDeliver, StepWatch, Set, Get;
    RunStep(s, LoopTest(t), Set(s, t, Waiting), rest);
  }

  lemma WakeRun(s: State, t: Task, rest: seq<Action>)
    requires t != RecvTask && s.active && Get(s, t) == Waiting
    ensures Run(s, [Wake(t, [])] + rest) == Run(Set(s, t, Wants(BackgroundMessage(t, s.now, [], s.windows), false)), rest)
  {
    hide Run, StepSend, StepControl, StepDeliver, StepWatch, Set, Get, BackgroundMessage;
    assert Utf8Valid([]);
    RunStep(s, Wake(t, []), Set(s, t, Wants(BackgroundMessage(t, s.now, [], s.windows), false)), rest);
  }

  lemma AcquireRun(s: State, t: Task, m: Message, rest: seq<Action>)
    requires s.lock == None && Get(s, t) == Wants(m, false)
    ensures Run(s, [Acquire(t)] + rest) == Run(Set(s.(lock := Some(t)), t, Locked(m, false)), rest)
  {
    hide Run, Step, Set, Get, FrameOf;
    StepIsSend(s, Acquire(t));
    RunStep(s, Acquire(t), Set(s.(lock := Some(t)), t, Locked(m, false)), rest);
  }

  lemma CheckRun(s: State, t: Task, m: Message, rest: seq<Action>)
    requires s.active && Get(s, t) == Locked(m, false)
    ensures Run(s, [Check(t)] + rest) == Run(Set(s, t, Writing(m, false, 0)), rest)
  {
    hide Run, Step, Set, Get, FrameOf;
    StepIsSend(s, Check(t));
    RunStep(s, Check(t), Set(s, t, Writing(m, false, 0)), rest);
  }

  function WrittenTo(s: State, t: Task, m: Message, from: nat, to: nat): (r: State) {
    Set(s.(pieces := s.pieces + [Piece(Data(m), from, to)]), t, Writing(m, false, to))
  }

  lemma WriteRun(s: State, t: Task, m: Message, from: nat, to: nat, rest: seq<Action>)
    requires Get(s, t) == Writing(m, false, from) && from < to <= |FrameOf(m)|
    ensures Run(s, [Write(t, to - from)] + rest) == Run(WrittenTo(s, t, m, from, to), rest)
  {
    hide Run, Step, Set, Get, FrameOf;
    StepIsSend(s, Write(t, to - from));
    RunStep(s, Write(t, to - from), WrittenTo(s, t, m, from, to), rest);
  }

  lemma FailRun(s: State, t: Task, m: Message, from: nat, rest: seq<Action>)
    requires Get(s, t) == Writing(m, false, from) && 0 < from < |FrameOf(m)|
    ensures Run(s, [Fail(t)] + rest) == Run(Set(s.(lock := None, cut := true), t, Done(false, false)), rest)
  {
    hide Run, Step, Set, Get, FrameOf;
    StepIsSend(s, Fail(t));
    RunStep(s, Fail(t), Set(s.(lock := None, cut := true), t, Done(false, false)), rest);
  }

  lemma GetControlRun(s: State, rest: seq<Action>)
    requires s.recv == Waiting
    ensures Run(s, [GetControl(false, [])] + rest) == Run(s.(recv := Replying(false, [], 0)), rest)
  {
    hide Run, Step, FrameBytes;
    StepIsControl(s, GetControl(false, []));
    RunStep(s, GetControl(false, []), s.(recv := Replying(false, [], 0)), rest);
  }

  lemma ControlRun(s: State, rest: seq<Action>)
    requires s.recv == Replying(false, [], 0)
    ensures Run(s, [ControlWrite(2)] + rest) ==
              Run(s.(recv := Replying(false, [], 2), pieces := s.pieces + [Piece(Control(false, []), 0, 2)]), rest)
  {
    hide Run, Step, FrameBytes;
    PongFrame();
    StepIsControl(s, ControlWrite(2));
    RunStep(s, ControlWrite(2), s.(recv := Replying(false, [], 2), pieces := s.pieces + [Piece(Control(false, []), 0, 2)]), rest);
  }

  // ----- the bytes -----

  lemma PingFrame(now: i64)
    ensures FrameOf(Ping(now)) == [0x82, 0x10] + Encode(Ping(now)) && |Encode(Ping(now))| == 16
  {
    hide Serialize;
    PingSize(now);
    SixteenFrame(Encode(Ping(now)));
  }

  lemma PingSize(now: i64)
    ensures |Encode(Ping(now))| == 16
  {
    hide ToBigEndian;
  }

  lemma PongFrame()
    ensures FrameBytes(Control(false, [])) == [0x8A, 0x00]
  {
  }

  /** The header of a PING message with other bytes behind it: the client takes sixteen of them for a
      message, which does not decode, and gets nothing from the stream. */
  lemma TornDrain(x: bytes)
    requires |x| >= 16 && x[0] != MAGIC
    ensures FullStack.Drain([0x82, 0x10] + x, false) == FullStack.Drained([], [0x82, 0x10] + x)
  {
    hide Serialize, Receiver.Receive, CppDecoder.Decode, FullStack.Drain;
    var data, rest := x[..16], x[16..];
    assert Serialize(BinaryFrame(data, None)) == [0x82, 0x10] + data by { SixteenFrame(data); }
    assert ([0x82, 0x10] + data) + rest == [0x82, 0x10] + x;
    FullStack.BinaryReceived(data, None, rest, None);
    NoMagic(data);
    RejectedDrain([0x82, 0x10] + x);
  }

  lemma RejectedDrain(s: bytes)
    requires var o := Receiver.Receive(s, false, [], false, None);
             o.result.Message? && CppDecoder.Decode(o.result.payload).Rejected?
    ensures FullStack.Drain(s, false) == FullStack.Drained([], s)
  {
    hide Receiver.Receive, CppDecoder.Decode;
  }

  lemma SixteenFrame(data: bytes)
    requires |data| == 16
    ensures Serialize(BinaryFrame(data, None)) == [0x82, 0x10] + data
  {
    var f := BinaryFrame(data, None);
    assert KeyBytes(f.mask) + WirePayload(f) == data;
  }

  lemma NoMagic(data: bytes)
    requires |data| >= 8 && data[0] != MAGIC
    ensures CppDecoder.Decode(data) == Rejected(BadMagic)
  {
  }

  // ----- a Pong inside a message -----

  function AnswerInside(): (acts: seq<Action>) {
    [LoopTest(RecvTask)] + ([LoopTest(PingTask)] + ([Wake(PingTask, [])] + ([Acquire(PingTask)] + ([Check(PingTask)]
    + ([Write(PingTask, 2)] + AnswerRest())))))
  }

  function AnswerRest(): (acts: seq<Action>) {
    [GetControl(false, [])] + ([ControlWrite(2)] + ([Write(PingTask, 16)] + []))
  }

  /** A sender with `k` bytes of its first message out, at the start of a session. */
  function FirstPieces(s: State, t: Task, m: Message, k: nat): (r: State)
    requires t != RecvTask
  {
    Set(s.(lock := Some(t), pieces := [Piece(Data(m), 0, k)]), t, Writing(m, false, k))
  }

  /** The first steps of a background sender. */
  lemma PingBegins(s: State, rest: seq<Action>)
    requires s.active && s.lock == None && s.pieces == [] && s.ping == AtLoop
    ensures Run(s, [LoopTest(PingTask)] + ([Wake(PingTask, [])] + ([Acquire(PingTask)] + ([Check(PingTask)]
                   + ([Write(PingTask, 2)] + rest))))) == Run(FirstPieces(s, PingTask, Ping(s.now), 2), rest)
  {
    hide Run, FrameOf;
    var m := Ping(s.now);
    PingFrame(s.now);
    LoopRun(s, PingTask, [Wake(PingTask, [])] + ([Acquire(PingTask)] + ([Check(PingTask)] + ([Write(PingTask, 2)] + rest))));
    var s1 := s.(ping := Waiting);
    WakeRun(s1, PingTask, [Acquire(PingTask)] + ([Check(PingTask)] + ([Write(PingTask, 2)] + rest)));
    var s2 := s.(ping := Wants(m, false));
    AcquireRun(s2, PingTask, m, [Check(PingTask)] + ([Write(PingTask, 2)] + rest));
    var s3 := s.(lock := Some(PingTask), ping := Locked(m, false));
    CheckRun(s3, PingTask, m, [Write(PingTask, 2)] + rest);
    var s4 := s.(lock := Some(PingTask), ping := Writing(m, false, 0));
    WriteRun(s4, PingTask, m, 0, 2, rest);
    assert [] + [Piece(Data(m), 0, 2)] == [Piece(Data(m), 0, 2)];
  }

  /** In every session: the PING message has two bytes out when a Ping frame of the client is answered. The
      Pong lands inside it. Both frames are completely written, no `send` failed, and the client can decode
      nothing. */
  lemma AnswerTearsRun(inbox: seq<bytes>, now: i64, windows: bool)
    ensures var r := Run(Init(inbox, now, windows), AnswerInside());
            r.Some? && Completed(r.value.pieces) == [Control(false, []), Data(Ping(now))]
            && !Guarded(Init(inbox, now, windows), AnswerInside())
            && FullStack.Drain(Wire(r.value), false) == FullStack.Drained([], Wire(r.value))
  {
    hide Run, Step, FrameBytes, Encode, Ascii, InFrames, FullStack.Drain, Guarded, Completed, Join, FrameOf;
    var m := Ping(now);
    var s0 := Init(inbox, now, windows);
    LoopRun(s0, RecvTask, AnswerInside()[1..]);
    var s1 := s0.(recv := Waiting);
    assert AnswerInside() == [LoopTest(RecvTask)] + AnswerInside()[1..];
    PingBegins(s1, AnswerRest());
    var s2 := FirstPieces(s1, PingTask, m, 2);
    PingFrame(now);
    AnswerEnds(s2, m);
    TornPieces(m);
    FrameStructure(inbox, now, windows, AnswerInside());
    TornBytes(now);
  }

  function TornList(m: Message): (ps: seq<Piece>) {
    [Piece(Data(m), 0, 2), Piece(Control(false, []), 0, 2), Piece(Data(m), 2, 18)]
  }

  lemma AnswerEnds(s: State, m: Message)
    requires s.recv == Waiting && s.ping == Writing(m, false, 2) && s.pieces == [Piece(Data(m), 0, 2)] && |FrameOf(m)| == 18
    ensures Run(s, AnswerRest()).Some? && Run(s, AnswerRest()).value.pieces == TornList(m)
  {
    hide Run, FrameOf, FrameBytes;
    GetControlRun(s, [ControlWrite(2)] + ([Write(PingTask, 16)] + []));
    var s1 := s.(recv := Replying(false, [], 0));
    ControlRun(s1, [Write(PingTask, 16)] + []);
    var s2 := s.(recv := Replying(false, [], 2), pieces := s.pieces + [Piece(Control(false, []), 0, 2)]);
    WriteRun(s2, PingTask, m, 2, 18, []);
    RunNone(WrittenTo(s2, PingTask, m, 2, 18));
  }

  lemma TornPieces(m: Message)
    requires |FrameOf(m)| == 18
    ensures var ps := TornList(m);
            Completed(ps) == [Control(false, []), Data(m)] && !InFrames(ps)
            && Join(ps) == FrameOf(m)[..2] + [0x8A, 0x00] + FrameOf(m)[2..]
  {
    hide FrameBytes, FrameOf, Completed, Join, InFrames;
    DataFrame(m);
    PongFrame();
    TornOrder(m);
    var ps := TornList(m);
    var p1: seq<Piece>, p2 := [ps[0]], [ps[0], ps[1]];
    NoPieces();
    assert [] + p1 == p1 && p1 + [ps[1]] == p2 && p2 + [ps[2]] == ps;
    JoinAppend([], ps[0]);
    JoinAppend(p1, ps[1]);
    JoinAppend(p2, ps[2]);
    Identity(FrameOf(m)[..2]);
    assert FrameOf(m)[2..18] == FrameOf(m)[2..];
    assert FrameOf(m)[0..2] == FrameOf(m)[..2];
  }

  lemma TornOrder(m: Message)
    requires |FrameOf(m)| == 18
    ensures !InFrames(TornList(m))
  {
    hide FrameBytes, FrameOf;
    DataFrame(m);
    assert !Follows(TornList(m)[0], TornList(m)[1]);
  }

  lemma NoPieces()
    ensures Join([]) == [] && Completed([]) == []
  {
  }

  lemma TornBytes(now: i64)
    ensures var m := Ping(now);
            |FrameOf(m)| == 18 && var w := FrameOf(m)[..2] + [0x8A, 0x00] + FrameOf(m)[2..];
            FullStack.Drain(w, false) == FullStack.Drained([], w)
  {
    hide FrameOf, Encode, FullStack.Drain;
    PingFrame(now);
    var m := Ping(now);
    var x := [0x8A, 0x00] + Encode(m);
    TornDrain(x);
    assert FrameOf(m)[..2] + [0x8A, 0x00] + FrameOf(m)[2..] == [0x82, 0x10] + x;
  }

  // ----- a message behind a failed one -----

  function GoOnAfterFailure(size: nat): (acts: seq<Action>) {
    [LoopTest(PingTask)] + ([Wake(PingTask, [])] + ([Acquire(PingTask)] + ([Check(PingTask)] + ([Write(PingTask, 2)]
    + FailureRest(size)))))
  }

  function FailureRest(size: nat): (acts: seq<Action>) {
    [Fail(PingTask)] + ([LoopTest(KissTask)] + ([Wake(KissTask, [])] + ([Acquire(KissTask)] + ([Check(KissTask)]
    + ([Write(KissTask, size)] + [])))))
  }

  /** In every session: a `send` fails with two bytes of the PING message out. The mutex is free again and
      `active` still true until the sender reacts, so a KISS_REQUEST follows whole. The client can decode
      nothing. */
  lemma FailureTearsRun(inbox: seq<bytes>, now: i64, windows: bool)
    ensures var m := BackgroundMessage(KissTask, now, [], windows);
            var acts := GoOnAfterFailure(|FrameOf(m)|);
            var r := Run(Init(inbox, now, windows), acts);
            r.Some? && Completed(r.value.pieces) == [Data(m)]
            && !Guarded(Init(inbox, now, windows), acts)
            && FullStack.Drain(Wire(r.value), false) == FullStack.Drained([], Wire(r.value))
  {
    hide Run, Step, FrameBytes, Encode, Ascii, InFrames, FullStack.Drain, Guarded, Completed, Join, FrameOf, BackgroundMessage;
    var m := BackgroundMessage(KissTask, now, [], windows);
    var size := |FrameOf(m)|;
    var s0 := Init(inbox, now, windows);
    PingBegins(s0, FailureRest(size));
    var s1 := FirstPieces(s0, PingTask, Ping(now), 2);
    PingFrame(now);
    KissSize(now, windows);
    FailureEnds(s1, now, m);
    CutPieces(Ping(now), m);
    FrameStructure(inbox, now, windows, GoOnAfterFailure(size));
    CutBytes(now, m);
  }

  lemma KissSize(now: i64, windows: bool)
    ensures |FrameOf(BackgroundMessage(KissTask, now, [], windows))| >= 16
  {
    hide Ascii, Serialize;
    var m := BackgroundMessage(KissTask, now, [], windows);
    assert |Payload(m)| >= 16;
    assert |Encode(m)| >= 16;
  }

  lemma FailureEnds(s: State, now: i64, m: Message)
    requires s.active && s.ping == Writing(Ping(now), false, 2) && s.lock == Some(PingTask) && s.kiss == AtLoop && s.now == now
    requires s.pieces == [Piece(Data(Ping(now)), 0, 2)] && m == BackgroundMessage(KissTask, now, [], s.windows) && |FrameOf(m)| >= 16
    requires |FrameOf(Ping(now))| == 18
    ensures var r := Run(s, FailureRest(|FrameOf(m)|));
            r.Some? && r.value.pieces == [Piece(Data(Ping(now)), 0, 2), Piece(Data(m), 0, |FrameOf(m)|)]
  {
    hide Run, FrameOf, BackgroundMessage;
    var size := |FrameOf(m)|;
    var w := [Write(KissTask, size)] + [];
    FailRun(s, PingTask, Ping(now), 2, [LoopTest(KissTask)] + ([Wake(KissTask, [])] + ([Acquire(KissTask)] + ([Check(KissTask)] + w))));
    var s1 := s.(lock := None, cut := true, ping := Done(false, false));
    LoopRun(s1, KissTask, [Wake(KissTask, [])] + ([Acquire(KissTask)] + ([Check(KissTask)] + w)));
    var s2 := s1.(kiss := Waiting);
    WakeRun(s2, KissTask, [Acquire(KissTask)] + ([Check(KissTask)] + w));
    var s3 := s1.(kiss := Wants(m, false));
    AcquireRun(s3, KissTask, m, [Check(KissTask)] + w);
    var s4 := s1.(lock := Some(KissTask), kiss := Locked(m, false));
    CheckRun(s4, KissTask, m, w);
    var s5 := s1.(lock := Some(KissTask), kiss := Writing(m, false, 0));
    WriteRun(s5, KissTask, m, 0, size, []);
    RunNone(WrittenTo(s5, KissTask, m, 0, size));
  }

  lemma CutPieces(p: Message, m: Message)
    requires |FrameOf(p)| == 18
    ensures var ps := [Piece(Data(p), 0, 2), Piece(Data(m), 0, |FrameOf(m)|)];
            Completed(ps) == [Data(m)] && !InFrames(ps) && Join(ps) == FrameOf(p)[..2] + FrameOf(m)
  {
    hide FrameBytes, FrameOf, Completed, Join;
    DataFrame(p);
    DataFrame(m);
    var ps := [Piece(Data(p), 0, 2), Piece(Data(m), 0, |FrameOf(m)|)];
    assert !Follows(ps[0], ps[1]);
    NoPieces();
    assert [] + [ps[0]] == [ps[0]] && [ps[0]] + [ps[1]] == ps;
    JoinAppend([], ps[0]);
    JoinAppend([ps[0]], ps[1]);
    Identity(FrameOf(p)[..2]);
    assert FrameOf(m)[0..|FrameOf(m)|] == FrameOf(m);
    assert FrameOf(p)[0..2] == FrameOf(p)[..2];
  }

  lemma CutBytes(now: i64, m: Message)
    requires |FrameOf(m)| >= 16 && |FrameOf(Ping(now))| == 18
    ensures var w := FrameOf(Ping(now))[..2] + FrameOf(m);
            FullStack.Drain(w, false) == FullStack.Drained([], w)
  {
    hide FrameOf, FullStack.Drain, Encode;
    PingFrame(now);
    FirstBytes(m, false, []);
    TornDrain(FrameOf(m));
    assert FrameOf(Ping(now))[..2] == [0x82, 0x10];
  }
}
