/** How a session ends: exactly which steps end it, that it stays ended, that its threads then stop, and that
    nothing stops before. */
module SessionEnds {
  import opened Bytes
  import opened Messages
  import opened Parsing
  import opened Framing
  import CppDecoder
  import opened Session
  import opened SessionFrames
  import opened SessionReplies
  import opened SessionTimeout

  // ----- whose step it is -----

  function Actor(a: Action): (t: Option<Task>) {
    match a
    case Tick(_) => None
    case WatchTest => None
    case WatchCheck => None
    case LoopTest(t) => Some(t)
    case Wake(t, _) => Some(t)
    case Acquire(t) => Some(t)
    case Check(t) => Some(t)
    case Write(t, _) => Some(t)
    case Fail(t) => Some(t)
    case Release(t) => Some(t)
    case AfterSend(t) => Some(t)
    case _ => Some(RecvTask)
  }

  /** A step moves no thread but its own. */
  lemma OthersStay(s: State, a: Action, t: Task)
    requires Step(s, a).Some? && Actor(a) != Some(t)
    ensures Get(Step(s, a).value, t) == Get(s, t)
  {
    hide Step, StepSend, StepControl, StepDeliver, Get;
    if Sends(a) {
      StepIsSend(s, a);
      ActorSends(a);
      SendOthers(s, a, t);
    } else if Controls(a) {
      StepIsControl(s, a);
      ControlMoves(s, a, t);
    } else if a.Deliver? {
      DeliverIsStep(s);
      DeliverMoves(s, t);
    } else {
      RestMoves(s, a, t);
    }
  }

  lemma ActorSends(a: Action)
    requires Sends(a)
    ensures Actor(a) == Some(SenderOf(a))
  {
  }

  lemma ControlMoves(s: State, a: Action, t: Task)
    requires Controls(a) && StepControl(s, a).Some? && Actor(a) != Some(t)
    ensures Get(StepControl(s, a).value, t) == Get(s, t)
  {
    hide FrameBytes;
  }

  lemma DeliverMoves(s: State, t: Task)
    requires StepDeliver(s).Some? && t != RecvTask
    ensures Get(StepDeliver(s).value, t) == Get(s, t)
  {
    hide React;
  }

  lemma RestMoves(s: State, a: Action, t: Task)
    requires !Sends(a) && !Controls(a) && !a.Deliver? && Step(s, a).Some? && Actor(a) != Some(t)
    ensures Get(Step(s, a).value, t) == Get(s, t)
  {
    hide StepControl, StepDeliver, StepSend, StepWatch, BackgroundMessage, Utf8Valid;
    if a.AfterSend? { AfterMoves(s, a.t, t); }
    if a.WatchTest? || a.WatchCheck? { WatchMoves(s, a, t); }
  }

  lemma AfterMoves(s: State, u: Task, t: Task)
    requires StepSend(s, AfterSend(u)).Some? && u != t
    ensures Get(StepSend(s, AfterSend(u)).value, t) == Get(s, t)
  {
    hide FrameOf;
  }

  lemma WatchMoves(s: State, a: Action, t: Task)
    requires StepWatch(s, a).Some?
    ensures Get(StepWatch(s, a).value, t) == Get(s, t)
  {
  }

  // ----- which steps end a session -----

  /** The receive loop leaves; a background sender learns that its message did not go out; the reply to a
      payload that does not decode has been sent; DISCONNECT comes in; no PONG for more than 60 seconds. */
  predicate Ends(s: State, a: Action) {
    match a
    case Hangup => true
    case AfterSend(t) => Get(s, t).Done? && (if t == RecvTask then Get(s, t).stop else !Get(s, t).ok)
    case Deliver => s.inbox != [] && var d := CppDecoder.Decode(s.inbox[0]); d.Decoded? && d.message.Disconnect?
    case WatchCheck => s.now - s.lastPong > 60000
    case _ => false
  }

  lemma DeliverEnds(s: State)
    requires s.active && StepDeliver(s).Some?
    ensures !StepDeliver(s).value.active <==> Ends(s, Deliver)
  {
    hide ReactTo, CppDecoder.Decode, Asks;
    var d := CppDecoder.Decode(s.inbox[0]);
    ReactKind(d, s.language, s.now);
    ReactAnswers(d, s.language, s.now);
    AsksWhenRejected(d);
  }

  lemma AsksWhenRejected(d: Decoded<Message>)
    ensures !Asks(d) && StopsOn(d) <==> d.Decoded? && d.message.Disconnect?
  {
  }

  lemma EndsStep(s: State, a: Action)
    requires s.active && Step(s, a).Some?
    ensures !Step(s, a).value.active <==> Ends(s, a)
  {
    hide Step, StepSend, StepControl, StepDeliver, CppDecoder.Decode, Get;
    if Sends(a) {
      StepIsSend(s, a);
      SendActive(s, a);
    } else if Controls(a) {
      StepIsControl(s, a);
      ControlEnds(s, a);
    } else if a.Deliver? {
      DeliverIsStep(s);
      DeliverEnds(s);
    } else {
      RestEnds(s, a);
    }
  }

  lemma ControlEnds(s: State, a: Action)
    requires s.active && Controls(a) && StepControl(s, a).Some?
    ensures !StepControl(s, a).value.active <==> a.Hangup?
  {
    hide FrameBytes;
  }

  lemma RestEnds(s: State, a: Action)
    requires s.active && !Sends(a) && !Controls(a) && !a.Deliver? && Step(s, a).Some?
    ensures !Step(s, a).value.active <==> Ends(s, a)
  {
    hide StepControl, StepDeliver, BackgroundMessage, Utf8Valid, FrameOf;
  }

  /** Some step of the run ends the session. */
  predicate EndsIn(s: State, acts: seq<Action>)
    decreases |acts|
  {
    acts != [] && (Ends(s, acts[0]) || (Step(s, acts[0]).Some? && EndsIn(Step(s, acts[0]).value, acts[1..])))
  }

  lemma {:induction false} InactiveForever(s: State, acts: seq<Action>)
    requires !s.active && Run(s, acts).Some?
    ensures !Run(s, acts).value.active
    decreases |acts|
  {
    hide Step;
    if acts != [] {
      NeverReactivates(s, acts[0]);
      InactiveForever(Step(s, acts[0]).value, acts[1..]);
    }
  }

  lemma {:induction false} ActiveFrom(s: State, acts: seq<Action>)
    requires s.active && Run(s, acts).Some?
    ensures Run(s, acts).value.active <==> !EndsIn(s, acts)
    decreases |acts|
  {
    hide Step, Ends;
    if acts != [] {
      EndsStep(s, acts[0]);
      var s' := Step(s, acts[0]).value;
      if Ends(s, acts[0]) {
        InactiveForever(s', acts[1..]);
      } else {
        ActiveFrom(s', acts[1..]);
      }
    }
  }

  /** In every run: the session is active iff no step so far was one of the five that end it. */
  lemma SessionActiveIff(inbox: seq<bytes>, now: i64, windows: bool, acts: seq<Action>)
    requires Run(Init(inbox, now, windows), acts).Some?
    ensures Run(Init(inbox, now, windows), acts).value.active <==> !EndsIn(Init(inbox, now, windows), acts)
  {
    hide Run, EndsIn;
    ActiveFrom(Init(inbox, now, windows), acts);
  }

  // ----- a stopped thread, and when there is one -----

  lemma OwnStop(s: State, a: Action, t: Task)
    requires Step(s, a).Some? && Actor(a) == Some(t) && !Get(s, t).Stopped?
    ensures Get(Step(s, a).value, t).Stopped? ==> !Step(s, a).value.active
  {
    hide StepDeliver, BackgroundMessage, Utf8Valid, FrameOf, FrameBytes;
    if a.Deliver? { DeliverNeverStops(s); }
  }

  lemma DeliverNeverStops(s: State)
    requires StepDeliver(s).Some?
    ensures !StepDeliver(s).value.recv.Stopped?
  {
    hide React;
  }

  lemma NoStepWhenStopped(s: State, a: Action, t: Task)
    requires Get(s, t).Stopped? && Actor(a) == Some(t)
    ensures Step(s, a) == None
  {
    hide BackgroundMessage, Utf8Valid, FrameOf, FrameBytes, React;
  }

  /** A thread stops only in an inactive session. */
  ghost predicate StopsInactive(s: State) {
    (forall t :: Get(s, t).Stopped? ==> !s.active) && (s.watch.WatchStopped? ==> !s.active)
  }

  lemma WatchStops(s: State, a: Action)
    requires Step(s, a).Some? && (s.watch.WatchStopped? ==> !s.active)
    ensures Step(s, a).value.watch.WatchStopped? ==> !Step(s, a).value.active
  {
    hide Step;
    NeverReactivates(s, a);
    if a.WatchTest? || a.WatchCheck? || a.Tick? || a.Deliver? {
      WatchStopsNow(s, a);
    } else {
      OtherRecord(s, a);
    }
  }

  lemma WatchStopsNow(s: State, a: Action)
    requires Step(s, a).Some? && (a.WatchTest? || a.WatchCheck? || a.Tick? || a.Deliver?)
    ensures Step(s, a).value.watch.WatchStopped? ==> s.watch.WatchStopped? || !Step(s, a).value.active
  {
    hide StepControl, StepSend, React;
  }

  lemma StopsInactiveStep(s: State, a: Action)
    requires StopsInactive(s) && Step(s, a).Some?
    ensures StopsInactive(Step(s, a).value)
  {
    hide Step, Get, Actor;
    var s' := Step(s, a).value;
    NeverReactivates(s, a);
    WatchStops(s, a);
    forall t | Get(s', t).Stopped? ensures !s'.active {
      if Actor(a) != Some(t) {
        OthersStay(s, a, t);
      } else if !Get(s, t).Stopped? {
        OwnStop(s, a, t);
      }
    }
  }

  lemma {:induction false} StopsInactiveRun(s: State, acts: seq<Action>)
    requires StopsInactive(s) && Run(s, acts).Some?
    ensures StopsInactive(Run(s, acts).value)
    decreases |acts|
  {
    hide Step, StopsInactive;
    if acts != [] {
      StopsInactiveStep(s, acts[0]);
      StopsInactiveRun(Step(s, acts[0]).value, acts[1..]);
    }
  }

  /** In every run: no thread has left its loop while the session is active. */
  lemma StoppedOnlyWhenInactive(inbox: seq<bytes>, now: i64, windows: bool, acts: seq<Action>)
    requires Run(Init(inbox, now, windows), acts).Some?
    ensures StopsInactive(Run(Init(inbox, now, windows), acts).value)
  {
    hide Run, Ascii;
    StopsInactiveRun(Init(inbox, now, windows), acts);
  }

  lemma {:induction false} StoppedForever(s: State, t: Task, acts: seq<Action>)
    requires Get(s, t).Stopped? && Run(s, acts).Some?
    ensures Get(Run(s, acts).value, t).Stopped?
    decreases |acts|
  {
    hide Step, Get, Actor;
    if acts != [] {
      if Actor(acts[0]) == Some(t) {
        NoStepWhenStopped(s, acts[0], t);
      } else {
        OthersStay(s, acts[0], t);
        StoppedForever(Step(s, acts[0]).value, t, acts[1..]);
      }
    }
  }

  // ----- the ways out -----

  lemma RunCons(s: State, a: Action, acts: seq<Action>)
    ensures Run(s, [a] + acts) == (match Step(s, a) case None => None case Some(t) => Run(t, acts))
  {
    hide Step;
    assert ([a] + acts)[1..] == acts;
  }

  /** A background sender whose message did not go out ends the session and is never seen again. */
  lemma FailedSenderEnds(s: State, t: Task, stop: bool, acts: seq<Action>)
    requires t != RecvTask && Get(s, t) == Done(false, stop) && Run(s, [AfterSend(t)] + acts).Some?
    ensures var r := Run(s, [AfterSend(t)] + acts).value; !r.active && Get(r, t) == Stopped
  {
    hide Run;
    RunCons(s, AfterSend(t), acts);
    AfterFailure(s, t);
    var s' := Step(s, AfterSend(t)).value;
    InactiveForever(s', acts);
    StoppedForever(s', t, acts);
  }

  lemma AfterFailure(s: State, t: Task)
    requires t != RecvTask && Get(s, t).Done? && !Get(s, t).ok
    ensures var r := Step(s, AfterSend(t)); r.Some? && !r.value.active && Get(r.value, t).Stopped?
  {
    hide StepControl, StepDeliver, StepWatch, FrameOf;
  }

  /** In an active session it was its own `send` that failed. */
  lemma {:induction false} FailureIsOwn(s: State, t: Task, acts: seq<Action>)
    requires Run(s, acts).Some? && Run(s, acts).value.active && !(Get(s, t).Done? && !Get(s, t).ok)
    requires Get(Run(s, acts).value, t).Done? && !Get(Run(s, acts).value, t).ok
    ensures exists i :: 0 <= i < |acts| && acts[i] == Fail(t)
    decreases |acts|
  {
    hide Step, Get, Actor;
    if acts != [] {
      var s' := Step(s, acts[0]).value;
      if acts[0] != Fail(t) {
        if !s'.active { InactiveForever(s', acts[1..]); }
        if Actor(acts[0]) == Some(t) { OwnFailure(s, acts[0], t); } else { OthersStay(s, acts[0], t); }
        FailureIsOwn(s', t, acts[1..]);
        var i :| 0 <= i < |acts[1..]| && acts[1..][i] == Fail(t);
        assert acts[i + 1] == Fail(t);
      } else {
        assert acts[0] == Fail(t);
      }
    }
  }

  lemma OwnFailure(s: State, a: Action, t: Task)
    requires Step(s, a).Some? && Actor(a) == Some(t) && a != Fail(t) && !(Get(s, t).Done? && !Get(s, t).ok)
    ensures Step(s, a).value.active ==> !(Get(Step(s, a).value, t).Done? && !Get(Step(s, a).value, t).ok)
  {
    hide StepDeliver, BackgroundMessage, Utf8Valid, FrameOf, FrameBytes;
    if a.Deliver? { DeliverNeverDone(s); }
  }

  lemma DeliverNeverDone(s: State)
    requires StepDeliver(s).Some?
    ensures !StepDeliver(s).value.recv.Done?
  {
    hide React;
  }

  /** When the receive loop leaves, the session is over and the loop is never seen again. */
  lemma HangupEnds(s: State, acts: seq<Action>)
    requires Run(s, [Hangup] + acts).Some?
    ensures var r := Run(s, [Hangup] + acts).value; !r.active && r.recv == Stopped && r.handled == s.handled
  {
    hide Run;
    RunCons(s, Hangup, acts);
    AfterHangup(s);
    var s' := Step(s, Hangup).value;
    InactiveForever(s', acts);
    StoppedForever(s', RecvTask, acts);
    LeavingForever(s', acts);
  }

  lemma AfterHangup(s: State)
    requires Step(s, Hangup).Some?
    ensures var r := Step(s, Hangup).value; !r.active && r.recv.Stopped? && r.handled == s.handled
    ensures Get(Step(s, Hangup).value, RecvTask).Stopped?
  {
    hide StepSend, StepDeliver, StepWatch, FrameBytes;
  }

  /** The receive loop has answered a Close, failed to answer, or left: it will dispatch nothing more. */
  predicate OnItsWayOut(p: Phase) {
    p.Leaving? || p.Stopped? || (p.Replying? && p.close && p.sent == |FrameBytes(Control(true, p.data))|)
  }

  lemma WayOutStep(s: State, a: Action)
    requires OnItsWayOut(s.recv) && Step(s, a).Some?
    ensures OnItsWayOut(Step(s, a).value.recv) && Step(s, a).value.handled == s.handled
  {
    hide Step, FrameBytes, Actor, StepControl;
    if Actor(a) != Some(RecvTask) {
      OthersStay(s, a, RecvTask);
      NotDeliver(a);
      OnlyDeliverReads(s, a);
      SetGet(s);
      SetGet(Step(s, a).value);
    } else if Controls(a) {
      StepIsControl(s, a);
      WayOutControl(s, a);
    } else {
      WayOutStuck(s, a);
    }
  }

  lemma SetGet(s: State)
    ensures Get(s, RecvTask) == s.recv
  {
  }

  lemma NotDeliver(a: Action)
    requires Actor(a) != Some(RecvTask)
    ensures !a.Deliver?
  {
  }

  lemma WayOutControl(s: State, a: Action)
    requires OnItsWayOut(s.recv) && Controls(a) && StepControl(s, a).Some?
    ensures OnItsWayOut(StepControl(s, a).value.recv) && StepControl(s, a).value.handled == s.handled
  {
    hide FrameBytes;
  }

  lemma WayOutStuck(s: State, a: Action)
    requires OnItsWayOut(s.recv) && Actor(a) == Some(RecvTask) && !Controls(a)
    ensures Step(s, a) == None
  {
    hide React, FrameOf, FrameBytes, BackgroundMessage, Utf8Valid;
  }

  lemma {:induction false} LeavingForever(s: State, acts: seq<Action>)
    requires OnItsWayOut(s.recv) && Run(s, acts).Some?
    ensures OnItsWayOut(Run(s, acts).value.recv) && Run(s, acts).value.handled == s.handled
    decreases |acts|
  {
    hide Step, OnItsWayOut;
    if acts != [] {
      WayOutStep(s, acts[0]);
      LeavingForever(Step(s, acts[0]).value, acts[1..]);
    }
  }

  /** An answer that cannot be sent ends the receive loop: nothing more is dispatched. */
  lemma FailedAnswerEnds(s: State, acts: seq<Action>)
    requires Run(s, [ControlFail] + acts).Some?
    ensures var r := Run(s, [ControlFail] + acts).value; OnItsWayOut(r.recv) && r.handled == s.handled
  {
    hide Run, OnItsWayOut;
    RunCons(s, ControlFail, acts);
    AfterControlFail(s);
    LeavingForever(Step(s, ControlFail).value, acts);
  }

  lemma AfterControlFail(s: State)
    requires Step(s, ControlFail).Some?
    ensures OnItsWayOut(Step(s, ControlFail).value.recv) && Step(s, ControlFail).value.handled == s.handled
  {
    hide StepSend, StepDeliver, StepWatch, FrameBytes;
  }

  /** The last byte of the answer to a Close is out. */
  ghost predicate CloseAnswered(ps: seq<Piece>) { exists i :: 0 <= i < |ps| && IsCloseEnd(ps[i]) }

  predicate IsCloseEnd(p: Piece) { p.entry.Control? && p.entry.close && p.to == |FrameBytes(p.entry)| }

  ghost predicate CloseLeaves(s: State) { CloseAnswered(s.pieces) ==> OnItsWayOut(s.recv) }

  lemma CloseLeavesStep(s: State, a: Action)
    requires CloseLeaves(s) && Step(s, a).Some?
    ensures CloseLeaves(Step(s, a).value)
  {
    hide Step, OnItsWayOut, IsCloseEnd, StepControl, StepSend;
    var s' := Step(s, a).value;
    if CloseAnswered(s.pieces) {
      WayOutStep(s, a);
    } else if Sends(a) {
      StepIsSend(s, a);
      SendPieces(s, a);
      DataIsNoClose(s, a);
    } else if Controls(a) {
      StepIsControl(s, a);
      ControlCloses(s, a);
    } else {
      OtherSteps(s, a);
      KeepsLock(s, s');
    }
  }

  lemma DataIsNoClose(s: State, a: Action)
    requires Sends(a) && StepSend(s, a).Some? && !CloseAnswered(s.pieces)
    ensures !CloseAnswered(StepSend(s, a).value.pieces)
  {
    hide StepSend, FrameBytes;
    SendPieces(s, a);
  }

  lemma ControlCloses(s: State, a: Action)
    requires Controls(a) && StepControl(s, a).Some? && !CloseAnswered(s.pieces)
    ensures CloseAnswered(StepControl(s, a).value.pieces) ==> OnItsWayOut(StepControl(s, a).value.recv)
  {
    hide FrameBytes;
  }

  lemma {:induction false} CloseLeavesRun(s: State, acts: seq<Action>)
    requires CloseLeaves(s) && Run(s, acts).Some?
    ensures CloseLeaves(Run(s, acts).value)
    decreases |acts|
  {
    hide Step, CloseLeaves;
    if acts != [] {
      CloseLeavesStep(s, acts[0]);
      CloseLeavesRun(Step(s, acts[0]).value, acts[1..]);
    }
  }

  /** In every run: once a Close has been answered, the receive loop is on its way out, and nothing that
      comes in is dispatched any more, however the run goes on. */
  lemma CloseEnds(inbox: seq<bytes>, now: i64, windows: bool, acts: seq<Action>, more: seq<Action>)
    requires Run(Init(inbox, now, windows), acts).Some?
    requires var s := Run(Init(inbox, now, windows), acts).value; CloseAnswered(s.pieces) && Run(s, more).Some?
    ensures var s := Run(Init(inbox, now, windows), acts).value;
            var r := Run(s, more).value; OnItsWayOut(r.recv) && r.handled == s.handled
  {
    hide Run, Ascii, OnItsWayOut, IsCloseEnd;
    CloseLeavesRun(Init(inbox, now, windows), acts);
    LeavingForever(Run(Init(inbox, now, windows), acts).value, more);
  }

  // ----- answering a control frame -----

  lemma AnswerBytes(close: bool, data: ControlData)
    ensures FrameBytes(Control(close, data)) == [if close then 0x88 else 0x8A, |data|] + data
  {
    hide Mask;
    var f := ControlFrame(if close then CLOSE else PONG, data, None);
    Identity(data);
    TwoParts(FirstByte(f), |data|, data);
  }

  lemma TwoParts(x: byte, y: byte, d: bytes)
    ensures [x] + ([y] + d) == [x, y] + d
  {
  }

  /** A Ping is answered by a Pong with the same data, and the session goes on as if nothing had come. A Close
      is answered by a Close with the same data, and the loop leaves. */
  lemma ControlAnswered(s: State, close: bool, data: ControlData)
    requires s.recv == Waiting
    ensures var f := [if close then 0x88 else 0x8A, |data|] + data;
            FrameBytes(Control(close, data)) == f
            && Run(s, [GetControl(close, data)] + ([ControlWrite(|f|)] + ([ControlDone] + []))) ==
                 Some(s.(pieces := s.pieces + [Piece(Control(close, data), 0, |f|)], recv := if close then Leaving else Waiting))
  {
    hide Run, Step, FrameBytes;
    AnswerBytes(close, data);
    var n := 2 + |data|;
    var s1 := s.(recv := Replying(close, data, 0));
    var s2 := s.(pieces := s.pieces + [Piece(Control(close, data), 0, n)], recv := Replying(close, data, n));
    StepIsControl(s, GetControl(close, data));
    StepIsControl(s1, ControlWrite(n));
    StepIsControl(s2, ControlDone);
    RunCons(s, GetControl(close, data), [ControlWrite(n)] + ([ControlDone] + []));
    RunCons(s1, ControlWrite(n), [ControlDone] + []);
    RunCons(s2, ControlDone, []);
    RunEmpty(Step(s2, ControlDone).value);
  }

  lemma RunEmpty(s: State)
    ensures Run(s, []) == Some(s)
  {
  }

  // ----- winding down -----

  /** How many steps a background sender can still take in an inactive session. */
  function StepsLeft(p: Phase): (n: nat) {
    match p
    case AtLoop => 1
    case Waiting => 1
    case Wants(_, _) => 4
    case Locked(_, _) => 3
    case Writing(m, _, sent) => if sent <= |FrameOf(m)| then 3 + |FrameOf(m)| - sent else 3
    case Done(_, _) => 2
    case _ => 0
  }

  lemma StepCosts(s: State, a: Action, t: Task)
    requires !s.active && t != RecvTask && Actor(a) == Some(t) && Step(s, a).Some?
    ensures StepsLeft(Get(Step(s, a).value, t)) < StepsLeft(Get(s, t))
  {
    hide Step, StepSend, Get, FrameOf;
    if Sends(a) {
      StepIsSend(s, a);
      SendCosts(s, a, t);
    } else {
      RestCosts(s, a, t);
    }
  }

  lemma SendCosts(s: State, a: Action, t: Task)
    requires !s.active && Sends(a) && SenderOf(a) == t && StepSend(s, a).Some?
    ensures StepsLeft(Get(StepSend(s, a).value, t)) < StepsLeft(Get(s, t))
  {
    hide FrameOf;
  }

  lemma RestCosts(s: State, a: Action, t: Task)
    requires !s.active && t != RecvTask && Actor(a) == Some(t) && !Sends(a) && Step(s, a).Some?
    ensures StepsLeft(Get(Step(s, a).value, t)) < StepsLeft(Get(s, t))
  {
    hide StepControl, StepDeliver, StepWatch, BackgroundMessage, Utf8Valid, FrameOf;
  }

  /** In an inactive session the timeout thread leaves at its next step. */
  lemma WatchLeavesNow(s: State, a: Action)
    requires !s.active && (a.WatchTest? || a.WatchCheck?) && Step(s, a).Some?
    ensures Step(s, a).value.watch.WatchStopped?
  {
    hide StepSend, StepControl, StepDeliver;
  }

  function StepsOf(acts: seq<Action>, t: Task): (n: nat) {
    if acts == [] then 0 else (if Actor(acts[0]) == Some(t) then 1 else 0) + StepsOf(acts[1..], t)
  }

  /** Once the session is inactive, a background thread takes only so many more steps, however the run goes
      on: the message it is writing if it is, and then it leaves its loop. */
  lemma {:induction false} WindsDown(s: State, acts: seq<Action>, t: Task)
    requires !s.active && t != RecvTask && Run(s, acts).Some?
    ensures StepsOf(acts, t) + StepsLeft(Get(Run(s, acts).value, t)) <= StepsLeft(Get(s, t))
    decreases |acts|
  {
    hide Step, StepsLeft, Get, Actor;
    if acts != [] {
      var s' := Step(s, acts[0]).value;
      NeverReactivates(s, acts[0]);
      if Actor(acts[0]) == Some(t) { StepCosts(s, acts[0], t); } else { OthersStay(s, acts[0], t); }
      WindsDown(s', acts[1..], t);
    }
  }

  /** Inside `wsRecvFrame`: the next payload, any Ping or Close, or the end of the stream can come. */
  ghost predicate TakesAnything(s: State) {
    Step(s, Hangup).Some? && (s.inbox != [] ==> Step(s, Deliver).Some?)
    && forall close: bool, data: ControlData :: Step(s, GetControl(close, data)).Some?
  }

  lemma WaitsForAnything(s: State)
    requires s.recv.Waiting?
    ensures TakesAnything(s)
  {
    hide StepSend, StepWatch, React, FrameBytes;
  }

  /** Any time can pass at any moment, as long as the clock can show it. */
  lemma TimePasses(s: State, dt: nat)
    ensures Step(s, Tick(dt)) == if s.now + dt < 0x8000_0000_0000_0000 then Some(s.(now := s.now + dt)) else None
  {
    hide StepSend, StepControl, StepDeliver, StepWatch;
  }

  /** What a thread does next, if it can. A `send` may take any part of what is left. */
  ghost predicate CanGoOn(s: State, t: Task) {
    match Get(s, t)
    case AtLoop => Step(s, LoopTest(t)).Some?
    case Waiting => if t == RecvTask then TakesAnything(s) else Step(s, Wake(t, [])).Some?
    case Wants(_, _) => Step(s, Acquire(t)).Some?
    case Locked(_, _) => Step(s, Check(t)).Some?
    case Writing(m, _, sent) =>
      if sent < |FrameOf(m)| then forall n :: 1 <= n <= |FrameOf(m)| - sent ==> Step(s, Write(t, n)).Some?
      else Step(s, Release(t)).Some?
    case Done(_, _) => Step(s, AfterSend(t)).Some?
    case Replying(close, data, sent) =>
      if sent < |FrameBytes(Control(close, data))|
      then forall n :: 1 <= n <= |FrameBytes(Control(close, data))| - sent ==> Step(s, ControlWrite(n)).Some?
      else Step(s, ControlDone).Some?
    case Leaving => Step(s, Hangup).Some?
    case Stopped => false
  }

  lemma GoOn(s: State, t: Task)
    requires Mutex(s) && !Get(s, t).Stopped? && (t != RecvTask ==> !Get(s, t).Replying? && !Get(s, t).Leaving?)
    requires Get(s, t).Wants? ==> s.lock == None
    ensures CanGoOn(s, t)
  {
    hide Mutex, FrameOf, FrameBytes, Step, Get;
    MutexBound(s, t);
    SetGet(s);
    match Get(s, t)
    case Wants(_, _) => GoOnSending(s, t);
    case Locked(_, _) => GoOnSending(s, t);
    case Writing(_, _, _) => GoOnSending(s, t);
    case Done(_, _) => GoOnSending(s, t);
    case Replying(_, _, _) => GoOnReplying(s);
    case Leaving => GoOnReplying(s);
    case AtLoop => GoOnLooping(s, t);
    case Waiting => GoOnLooping(s, t);
    case Stopped =>
  }

  lemma GoOnSending(s: State, t: Task)
    requires Get(s, t).Wants? ==> s.lock == None
    requires Get(s, t).Writing? ==> Get(s, t).sent <= |FrameOf(Get(s, t).msg)|
    ensures var p := Get(s, t);
            (p.Wants? ==> Step(s, Acquire(t)).Some?) && (p.Locked? ==> Step(s, Check(t)).Some?)
            && (p.Done? ==> Step(s, AfterSend(t)).Some?)
            && (p.Writing? && p.sent == |FrameOf(p.msg)| ==> Step(s, Release(t)).Some?)
            && (p.Writing? ==> forall n :: 1 <= n <= |FrameOf(p.msg)| - p.sent ==> Step(s, Write(t, n)).Some?)
  {
    hide FrameOf, StepControl, StepDeliver, StepWatch, Set;
  }

  lemma GoOnReplying(s: State)
    requires s.recv.Replying? ==> s.recv.sent <= |FrameBytes(Control(s.recv.close, s.recv.data))|
    ensures var p := s.recv;
            (p.Leaving? ==> Step(s, Hangup).Some?) && Get(s, RecvTask) == p
            && (p.Replying? && p.sent == |FrameBytes(Control(p.close, p.data))| ==> Step(s, ControlDone).Some?)
            && (p.Replying? ==> forall n :: 1 <= n <= |FrameBytes(Control(p.close, p.data))| - p.sent ==> Step(s, ControlWrite(n)).Some?)
  {
    hide FrameBytes, StepSend, StepDeliver, StepWatch;
  }

  lemma GoOnLooping(s: State, t: Task)
    ensures Get(s, t).AtLoop? ==> Step(s, LoopTest(t)).Some?
    ensures Get(s, t).Waiting? ==> if t == RecvTask then TakesAnything(s) else Step(s, Wake(t, [])).Some?
  {
    hide StepSend, StepDeliver, StepWatch, BackgroundMessage, TakesAnything;
    assert Utf8Valid([]);
    if s.recv.Waiting? { WaitsForAnything(s); }
  }

  lemma MutexBound(s: State, t: Task)
    requires Mutex(s)
    ensures EntryOf(Get(s, t)).Some? ==> Get(s, t).sent <= |FrameBytes(EntryOf(Get(s, t)).value)|
    ensures Holds(Get(s, t)) <==> s.lock == Some(t)
    ensures Get(s, t).Writing? ==> FrameBytes(EntryOf(Get(s, t)).value) == FrameOf(Get(s, t).msg)
  {
    hide FrameOf;
  }

  /** Only the receive loop answers control frames. */
  ghost predicate Roles(s: State) { forall t :: t != RecvTask ==> !Get(s, t).Replying? && !Get(s, t).Leaving? }

  lemma OwnRole(s: State, a: Action, t: Task)
    requires t != RecvTask && Actor(a) == Some(t) && Step(s, a).Some?
    ensures !Get(Step(s, a).value, t).Replying? && !Get(Step(s, a).value, t).Leaving?
  {
    hide StepControl, StepDeliver, StepWatch, BackgroundMessage, Utf8Valid, FrameOf, FrameBytes;
  }

  lemma {:induction false} RolesRun(s: State, acts: seq<Action>)
    requires Roles(s) && Run(s, acts).Some?
    ensures Roles(Run(s, acts).value)
    decreases |acts|
  {
    hide Step, Get, Actor;
    if acts != [] {
      var s' := Step(s, acts[0]).value;
      forall t | t != RecvTask ensures !Get(s', t).Replying? && !Get(s', t).Leaving? {
        if Actor(acts[0]) == Some(t) { OwnRole(s, acts[0], t); } else { OthersStay(s, acts[0], t); }
      }
      RolesRun(s', acts[1..]);
    }
  }

  /** No run gets stuck: at every moment a thread that has not left can go on, or waits for the mutex and the
      one that holds it can go on. */
  lemma NeverStuck(inbox: seq<bytes>, now: i64, windows: bool, acts: seq<Action>, t: Task)
    requires Run(Init(inbox, now, windows), acts).Some?
    requires !Get(Run(Init(inbox, now, windows), acts).value, t).Stopped?
    ensures var s := Run(Init(inbox, now, windows), acts).value;
            CanGoOn(s, t) || (Get(s, t).Wants? && s.lock.Some? && s.lock.value != t && CanGoOn(s, s.lock.value))
  {
    hide Run, Mutex, CanGoOn, Ascii;
    MutexInit(inbox, now, windows);
    MutexRun(Init(inbox, now, windows), acts);
    RolesRun(Init(inbox, now, windows), acts);
    NotStuck(Run(Init(inbox, now, windows), acts).value, t);
  }

  lemma NotStuck(s: State, t: Task)
    requires Mutex(s) && Roles(s) && !Get(s, t).Stopped?
    ensures CanGoOn(s, t) || (Get(s, t).Wants? && s.lock.Some? && s.lock.value != t && CanGoOn(s, s.lock.value))
  {
    hide Mutex, CanGoOn;
    if Get(s, t).Wants? && s.lock.Some? {
      MutexHolder(s, t);
      MutexHolder(s, s.lock.value);
      GoOn(s, s.lock.value);
    } else {
      GoOn(s, t);
    }
  }
}
