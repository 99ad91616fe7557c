/** What the three background senders put on the wire. */
module SessionBackground {
  import opened Bytes
  import opened Messages
  import opened Framing
  import CppDecoder
  import opened Session
  import opened SessionFrames
  import opened SessionReplies
  import opened SessionEnds

  /** A background sender that wakes in an active session has its message stamped with the time. */
  lemma WakeStamps(s: State, iso: bytes)
    requires s.active && Utf8Valid(iso)
    ensures s.ping.Waiting? ==> Step(s, Wake(PingTask, iso)) == Some(s.(ping := Wants(Ping(s.now), false)))
    ensures s.time.Waiting? ==> Step(s, Wake(TimeTask, iso)) == Some(s.(time := Wants(TimeNotification(s.now, iso), false)))
    ensures s.kiss.Waiting? ==> Step(s, Wake(KissTask, iso)) == Some(s.(kiss := Wants(
              if s.windows then KissRequest(Ascii("Windows"), Ascii("unknown"), Ascii("unknown"), Ascii("AMD64"))
              else KissRequest(Ascii("Linux"), Ascii("unknown"), Ascii("unknown"), Ascii("x86_64")), false)))
  {
    hide StepSend, StepControl, StepDeliver, StepWatch, Ascii, Utf8Valid;
  }

  /** A background message, if it is one, is stamped with a time of the session and names the platform. */
  predicate Stamped(m: Message, start: int, now: int, windows: bool) {
    match m
    case Ping(t) => start <= t <= now
    case TimeNotification(t, _) => start <= t <= now
    case KissRequest(name, version, release, arch) =>
      version == Ascii("unknown") && release == Ascii("unknown")
      && name == Ascii(if windows then "Windows" else "Linux") && arch == Ascii(if windows then "AMD64" else "x86_64")
    case _ => true
  }

  predicate StampedPhase(p: Phase, start: int, now: int, windows: bool) {
    p.Wants? || p.Locked? || p.Writing? ==> Stamped(p.msg, start, now, windows)
  }

  predicate StampedPiece(x: Piece, start: int, now: int, windows: bool) {
    x.entry.Data? ==> Stamped(x.entry.msg, start, now, windows)
  }

  ghost predicate AllStamped(s: State, start: int) {
    start <= s.now && (forall t :: StampedPhase(Get(s, t), start, s.now, s.windows))
    && forall i :: 0 <= i < |s.pieces| ==> StampedPiece(s.pieces[i], start, s.now, s.windows)
  }

  lemma StampedLater(m: Message, start: int, now: int, later: int, windows: bool)
    requires Stamped(m, start, now, windows) && now <= later
    ensures Stamped(m, start, later, windows)
  {
  }

  /** A sender's own step keeps its message, drops it, or makes a new one. */
  lemma OwnMessage(s: State, a: Action, t: Task, start: int)
    requires Step(s, a).Some? && Actor(a) == Some(t) && StampedPhase(Get(s, t), start, s.now, s.windows) && start <= s.now
    ensures StampedPhase(Get(Step(s, a).value, t), start, s.now, s.windows)
  {
    hide Step, StepDeliver, Actor, Stamped;
    if a.Deliver? {
      DeliverIsStep(s);
      ReplyStamped(s, start);
    } else if a.Wake? {
      WakeMessage(s, a.t, a.iso, start);
      WakeActor(a);
    } else {
      MessageKept(s, a, t);
    }
  }

  lemma WakeActor(a: Action)
    requires a.Wake?
    ensures Actor(a) == Some(a.t)
  {
  }

  lemma ReplyStamped(s: State, start: int)
    requires StepDeliver(s).Some?
    ensures StampedPhase(StepDeliver(s).value.recv, start, s.now, s.windows) && Get(StepDeliver(s).value, RecvTask) == StepDeliver(s).value.recv
    ensures Actor(Deliver) == Some(RecvTask)
  {
    hide React, Stamped;
    ReactStamped(s.inbox[0], s.language, s.now, start, s.windows);
  }

  lemma ReactStamped(payload: bytes, language: bytes, now: i64, start: int, windows: bool)
    ensures var r := React(payload, language, now).reply; r.Some? ==> Stamped(r.value, start, now, windows)
  {
    hide ReactTo;
    ReactKind(CppDecoder.Decode(payload), language, now);
  }

  lemma WakeMessage(s: State, t: Task, iso: bytes, start: int)
    requires Step(s, Wake(t, iso)).Some? && start <= s.now
    ensures StampedPhase(Get(Step(s, Wake(t, iso)).value, t), start, s.now, s.windows)
  {
    hide StepSend, StepControl, StepDeliver, StepWatch, Ascii, Utf8Valid;
  }

  lemma MessageKept(s: State, a: Action, t: Task)
    requires Step(s, a).Some? && Actor(a) == Some(t) && !a.Deliver? && !a.Wake?
    ensures var p, q := Get(s, t), Get(Step(s, a).value, t);
            q.Wants? || q.Locked? || q.Writing? ==> (p.Wants? || p.Locked? || p.Writing?) && q.msg == p.msg
  {
    hide StepDeliver, StepWatch, BackgroundMessage, Utf8Valid, FrameOf, FrameBytes;
  }

  ghost predicate OwnPiece(s: State, x: Piece) {
    x.entry.Data? ==> exists t :: Get(s, t).Writing? && x.entry.msg == Get(s, t).msg
  }

  /** The only new piece is one of the sender's own message. */
  lemma NewPiece(s: State, a: Action)
    requires Step(s, a).Some?
    ensures var ps := Step(s, a).value.pieces;
            ps == s.pieces || exists x: Piece :: ps == s.pieces + [x] && OwnPiece(s, x)
  {
    hide Step, StepSend, StepControl, Get;
    if Sends(a) {
      StepIsSend(s, a);
      SendPieces(s, a);
    } else if Controls(a) {
      StepIsControl(s, a);
      ControlPiece(s, a);
    } else {
      OtherSteps(s, a);
      KeepsLock(s, Step(s, a).value);
    }
  }

  lemma ControlPiece(s: State, a: Action)
    requires StepControl(s, a).Some?
    ensures var ps := StepControl(s, a).value.pieces;
            ps == s.pieces || exists x: Piece :: ps == s.pieces + [x] && x.entry.Control?
  {
    hide FrameBytes;
    if a.ControlWrite? {
      var p := s.recv;
      var x := Piece(Control(p.close, p.data), p.sent, p.sent + a.n);
      assert StepControl(s, a).value.pieces == s.pieces + [x] && x.entry.Control?;
    }
  }

  lemma ClockOf(s: State, a: Action)
    requires Step(s, a).Some?
    ensures Step(s, a).value.now >= s.now && Step(s, a).value.windows == s.windows
  {
    hide Step, StepDeliver;
    if a.Tick? || a.WatchTest? || a.WatchCheck? || a.Deliver? {
      ClockNow(s, a);
    } else {
      OtherRecord(s, a);
    }
  }

  lemma ClockNow(s: State, a: Action)
    requires Step(s, a).Some? && (a.Tick? || a.WatchTest? || a.WatchCheck? || a.Deliver?)
    ensures Step(s, a).value.now >= s.now && Step(s, a).value.windows == s.windows
  {
    hide StepSend, StepControl, React;
  }

  lemma StampedStep(s: State, a: Action, start: int)
    requires AllStamped(s, start) && Step(s, a).Some?
    ensures AllStamped(Step(s, a).value, start)
  {
    hide Step, Get, Actor, Stamped;
    var s' := Step(s, a).value;
    ClockOf(s, a);
    NewPiece(s, a);
    forall t ensures StampedPhase(Get(s', t), start, s'.now, s'.windows) {
      if Actor(a) == Some(t) { OwnMessage(s, a, t, start); } else { OthersStay(s, a, t); }
      var p := Get(s', t);
      if p.Wants? || p.Locked? || p.Writing? { StampedLater(p.msg, start, s.now, s'.now, s.windows); }
    }
    forall i | 0 <= i < |s'.pieces| ensures StampedPiece(s'.pieces[i], start, s'.now, s'.windows) {
      var x := s'.pieces[i];
      if x.entry.Data? {
        if i < |s.pieces| { assert StampedPiece(s.pieces[i], start, s.now, s.windows); }
        StampedLater(x.entry.msg, start, s.now, s'.now, s.windows);
      }
    }
  }

  lemma {:induction false} StampedRun(s: State, acts: seq<Action>, start: int)
    requires AllStamped(s, start) && Run(s, acts).Some?
    ensures AllStamped(Run(s, acts).value, start)
    decreases |acts|
  {
    hide Step, AllStamped;
    if acts != [] {
      StampedStep(s, acts[0], start);
      StampedRun(Step(s, acts[0]).value, acts[1..], start);
    }
  }

  lemma {:induction false} LogStamped(ps: seq<Piece>, start: int, now: int, windows: bool)
    requires forall i :: 0 <= i < |ps| ==> StampedPiece(ps[i], start, now, windows)
    ensures forall i :: 0 <= i < |MessagesOf(Completed(ps))| ==> Stamped(MessagesOf(Completed(ps))[i], start, now, windows)
    decreases |ps|
  {
    hide Stamped, FrameBytes;
    if ps != [] {
      var n := |ps| - 1;
      LogStamped(ps[..n], start, now, windows);
      DataAppend(ps[..n], ps[n]);
      assert ps == ps[..n] + [ps[n]];
      assert StampedPiece(ps[n], start, now, windows);
    }
  }

  /** In every run: a PING or TIME_NOTIFICATION on the wire bears a time between the start of the session and
      now, and a KISS_REQUEST names the platform the server was built for. */
  lemma BackgroundSent(inbox: seq<bytes>, start: i64, windows: bool, acts: seq<Action>)
    requires Run(Init(inbox, start, windows), acts).Some?
    ensures var s := Run(Init(inbox, start, windows), acts).value;
            s.windows == windows && forall i :: 0 <= i < |Log(s)| ==> Stamped(Log(s)[i], start, s.now, windows)
  {
    hide Run, Stamped, Ascii, Completed, MessagesOf;
    StampedRun(Init(inbox, start, windows), acts, start);
    var s := Run(Init(inbox, start, windows), acts).value;
    PlatformRun(Init(inbox, start, windows), acts);
    LogStamped(s.pieces, start, s.now, s.windows);
  }

  lemma {:induction false} PlatformRun(s: State, acts: seq<Action>)
    requires Run(s, acts).Some?
    ensures Run(s, acts).value.windows == s.windows
    decreases |acts|
  {
    hide Step;
    if acts != [] {
      ClockOf(s, acts[0]);
      PlatformRun(Step(s, acts[0]).value, acts[1..]);
    }
  }
}
