/** The 60-second timeout: it fires only on a silent session, and a silent session does not outlive it.
    The clock is assumed not to run backwards; each check is one atomic step. */
module SessionTimeout {
  import opened Bytes
  import opened Messages
  import opened Parsing
  import opened Framing
  import CppDecoder
  import Sha256
  import opened Session
  import opened SessionReplies

  const CHECK_INTERVAL_MS: int := 5000

  // ----- the last PONG -----

  /** `lastPong` is the time of the last PONG dispatched, or the start of the session before any. */
  ghost predicate PongInv(s: State, start: i64) {
    start <= s.lastPong <= s.now && s.lastCheck <= s.now
    && (forall i :: 0 <= i < |s.handled| ==> s.handled[i].at <= s.now)
    && (forall i :: 0 <= i < |s.handled| && IsPong(s.handled[i].payload) ==> s.handled[i].at <= s.lastPong)
    && (s.lastPong == start || exists i :: 0 <= i < |s.handled| && IsPong(s.handled[i].payload) && s.handled[i].at == s.lastPong)
  }

  lemma PongDeliver(s: State, start: i64)
    requires PongInv(s, start) && StepDeliver(s).Some?
    ensures PongInv(StepDeliver(s).value, start)
  {
    hide ReactTo, CppDecoder.Decode, PongIn;
    var s' := StepDeliver(s).value;
    var n := |s.handled|;
    var h := Handled(s.inbox[0], s.now);
    ReactKind(CppDecoder.Decode(h.payload), s.language, s.now);
    assert s'.handled[n] == h && forall i :: 0 <= i < n ==> s'.handled[i] == s.handled[i];
    if !IsPong(h.payload) && s.lastPong != start {
      var i :| 0 <= i < n && IsPong(s.handled[i].payload) && s.handled[i].at == s.lastPong;
      assert IsPong(s'.handled[i].payload) && s'.handled[i].at == s'.lastPong;
    }
  }

  /** Steps that dispatch nothing: the clock may advance and a check may be recorded. */
  lemma PongKept(s: State, s': State, start: i64)
    requires PongInv(s, start) && s'.handled == s.handled && s'.lastPong == s.lastPong
    requires s.now <= s'.now && s'.lastCheck <= s'.now
    ensures PongInv(s', start)
  {
    hide IsPong;
  }

  lemma ClockStep(s: State, a: Action)
    requires !a.Deliver? && Step(s, a).Some?
    ensures var s' := Step(s, a).value;
            s'.handled == s.handled && s'.lastPong == s.lastPong
            && s'.now == (if a.Tick? then s.now + a.dt else s.now)
            && s'.lastCheck == (if a.WatchCheck? && s'.watch.WatchLoop? then s.now else s.lastCheck)
  {
    hide Step;
    if a.Tick? || a.WatchTest? || a.WatchCheck? {
      WatchClock(s, a);
    } else {
      OtherRecord(s, a);
    }
  }

  lemma WatchClock(s: State, a: Action)
    requires (a.Tick? || a.WatchTest? || a.WatchCheck?) && Step(s, a).Some?
    ensures var s' := Step(s, a).value;
            s'.handled == s.handled && s'.lastPong == s.lastPong
            && s'.now == (if a.Tick? then s.now + a.dt else s.now)
            && s'.lastCheck == (if a.WatchCheck? && s'.watch.WatchLoop? then s.now else s.lastCheck)
  {
    hide StepSend, StepControl, StepDeliver;
  }

  lemma PongStep(s: State, a: Action, start: i64)
    requires PongInv(s, start) && Step(s, a).Some?
    ensures PongInv(Step(s, a).value, start)
  {
    hide Step, StepDeliver, PongInv;
    if a.Deliver? {
      DeliverIsStep(s);
      PongDeliver(s, start);
    } else {
      ClockStep(s, a);
      PongTimes(s, start);
      PongKept(s, Step(s, a).value, start);
    }
  }

  lemma PongTimes(s: State, start: i64)
    requires PongInv(s, start)
    ensures s.lastPong <= s.now && s.lastCheck <= s.now
  {
  }

  lemma {:induction false} PongRun(s: State, acts: seq<Action>, start: i64)
    requires PongInv(s, start) && Run(s, acts).Some?
    ensures PongInv(Run(s, acts).value, start)
    decreases |acts|
  {
    hide Step, PongInv;
    if acts != [] {
      PongStep(s, acts[0], start);
      PongRun(Step(s, acts[0]).value, acts[1..], start);
    }
  }

  lemma PongInit(inbox: seq<bytes>, now: i64, windows: bool)
    ensures PongInv(Init(inbox, now, windows), now)
  {
    hide Ascii;
  }

  /** The check deactivates an active session iff the session is older than the limit and every PONG
      dispatched so far is older than the limit. */
  lemma TimeoutFiresIff(inbox: seq<bytes>, start: i64, windows: bool, acts: seq<Action>)
    requires Run(Init(inbox, start, windows), acts).Some?
    requires var s := Run(Init(inbox, start, windows), acts).value; s.active && s.watch.WatchAsleep?
    ensures var s := Run(Init(inbox, start, windows), acts).value;
            Step(s, WatchCheck).Some?
            && (!Step(s, WatchCheck).value.active <==>
                  s.now - start > 60000
                  && forall i :: 0 <= i < |s.handled| && IsPong(s.handled[i].payload) ==> s.now - s.handled[i].at > 60000)
  {
    hide Run, StepSend, StepControl, StepDeliver, IsPong, BackgroundMessage, Utf8Valid;
    PongInit(inbox, start, windows);
    PongRun(Init(inbox, start, windows), acts, start);
  }

  // ----- a silent session ends -----

  /** The timeout thread checks at least every 5000 + `slack` milliseconds while it lives. */
  predicate Timely(s: State, a: Action, slack: nat) {
    a.Tick? && !s.watch.WatchStopped? ==> s.now + a.dt <= s.lastCheck + 5000 + slack
  }

  predicate TimelyRun(s: State, acts: seq<Action>, slack: nat)
    decreases |acts|
  {
    acts == [] || (Timely(s, acts[0], slack) && (Step(s, acts[0]).Some? ==> TimelyRun(Step(s, acts[0]).value, acts[1..], slack)))
  }

  /** An active session is watched, and was not silent for too long at the last check. */
  predicate Watched(s: State, slack: nat) {
    s.lastPong <= s.now && s.lastCheck <= s.now
    && (s.active ==> !s.watch.WatchStopped? && s.now <= s.lastCheck + CHECK_INTERVAL_MS + slack
                     && s.lastCheck <= s.lastPong + SESSION_TIMEOUT_MS)
  }

  lemma WatchedWatch(s: State, a: Action, slack: nat)
    requires Watched(s, slack) && StepWatch(s, a).Some?
    ensures Watched(StepWatch(s, a).value, slack)
  {
  }

  lemma WatchedDeliver(s: State, slack: nat)
    requires Watched(s, slack) && StepDeliver(s).Some?
    ensures Watched(StepDeliver(s).value, slack)
  {
    hide React;
  }

  /** A step that changes neither the record nor the timeout thread, and does not reactivate. */
  lemma WatchedKept(s: State, s': State, slack: nat)
    requires Watched(s, slack) && KeepsRecord(s, s') && (s'.active ==> s.active)
    ensures Watched(s', slack)
  {
  }

  lemma NeverReactivates(s: State, a: Action)
    requires Step(s, a).Some?
    ensures Step(s, a).value.active ==> s.active
  {
    hide Step, StepSend, StepControl, Mutex;
    if Sends(a) {
      StepIsSend(s, a);
      SendActive(s, a);
    } else if Controls(a) {
      StepIsControl(s, a);
      ControlActive(s, a);
    } else {
      OtherSteps(s, a);
      KeepsLock(s, Step(s, a).value);
    }
  }

  lemma SendActive(s: State, a: Action)
    requires Sends(a) && StepSend(s, a).Some?
    ensures StepSend(s, a).value.active == s.active
  {
    hide FrameOf, FrameBytes;
  }

  lemma ControlActive(s: State, a: Action)
    requires StepControl(s, a).Some?
    ensures StepControl(s, a).value.active ==> s.active
  {
    hide FrameBytes;
  }

  lemma WatchedStep(s: State, a: Action, slack: nat)
    requires Watched(s, slack) && Timely(s, a, slack) && Step(s, a).Some?
    ensures Watched(Step(s, a).value, slack)
  {
    hide StepSend, StepControl, StepDeliver, StepWatch, BackgroundMessage, Utf8Valid;
    match a
    case Tick(_) =>
    case WatchTest => WatchedWatch(s, a, slack);
    case WatchCheck => WatchedWatch(s, a, slack);
    case Deliver => WatchedDeliver(s, slack);
    case _ => WatchedOther(s, a, slack);
  }

  lemma WatchedOther(s: State, a: Action, slack: nat)
    requires Watched(s, slack) && Step(s, a).Some?
    requires !a.Deliver? && !a.Tick? && !a.WatchTest? && !a.WatchCheck?
    ensures Watched(Step(s, a).value, slack)
  {
    hide Step;
    OtherRecord(s, a);
    NeverReactivates(s, a);
    WatchedKept(s, Step(s, a).value, slack);
  }

  lemma {:induction false} WatchedRun(s: State, acts: seq<Action>, slack: nat)
    requires Watched(s, slack) && TimelyRun(s, acts, slack) && Run(s, acts).Some?
    ensures Watched(Run(s, acts).value, slack)
    decreases |acts|
  {
    hide Step, Watched, Timely;
    if acts != [] {
      WatchedStep(s, acts[0], slack);
      WatchedRun(Step(s, acts[0]).value, acts[1..], slack);
    }
  }

  /** If checks are never more than 5000 + `slack` ms apart, no session is active later than 65000 + `slack`
      ms after its last PONG. */
  lemma SilentSessionEnds(inbox: seq<bytes>, start: i64, windows: bool, acts: seq<Action>, slack: nat)
    requires TimelyRun(Init(inbox, start, windows), acts, slack) && Run(Init(inbox, start, windows), acts).Some?
    ensures var s := Run(Init(inbox, start, windows), acts).value;
            s.now > s.lastPong + 65000 + slack ==> !s.active
  {
    hide Run, TimelyRun, Ascii;
    WatchedRun(Init(inbox, start, windows), acts, slack);
  }

  // ----- the timestamp inside a PONG -----

  /** Payloads that are equal, or PONGs with any timestamps. */
  predicate Alike(p: bytes, q: bytes) { p == q || (IsPong(p) && IsPong(q)) }

  predicate AlikeAll(ps: seq<bytes>, qs: seq<bytes>) {
    |ps| == |qs| && forall i :: 0 <= i < |ps| ==> Alike(ps[i], qs[i])
  }

  predicate AlikeHandled(hs: seq<Handled>, gs: seq<Handled>) {
    |hs| == |gs| && forall i :: 0 <= i < |hs| ==> hs[i].at == gs[i].at && Alike(hs[i].payload, gs[i].payload)
  }

  /** The same state, but for PONG payloads. */
  ghost predicate SameSession(s: State, r: State) {
    r == s.(inbox := r.inbox, handled := r.handled) && AlikeAll(s.inbox, r.inbox) && AlikeHandled(s.handled, r.handled)
  }

  lemma AlikeReact(p: bytes, q: bytes, language: bytes, now: i64)
    requires Alike(p, q)
    ensures React(p, language, now) == React(q, language, now)
  {
    hide CppDecoder.Decode, ReactTo;
    if p != q {
      PongReaction(CppDecoder.Decode(p), language, now);
      PongReaction(CppDecoder.Decode(q), language, now);
    }
  }

  lemma PongReaction(d: Decoded<Message>, language: bytes, now: i64)
    requires PongIn(d)
    ensures ReactTo(d, language, now) == Reaction(None, language, true, false)
  {
    hide EchoKv, HexType, Ascii, Sha256.HashNumber, ErrorText, SaysUnknown;
  }

  lemma SameDeliver(s: State, r: State)
    requires SameSession(s, r)
    ensures StepDeliver(s).Some? == StepDeliver(r).Some?
    ensures StepDeliver(s).Some? ==> SameSession(StepDeliver(s).value, StepDeliver(r).value)
  {
    hide React, Alike;
    if StepDeliver(s).Some? {
      AlikeReact(s.inbox[0], r.inbox[0], s.language, s.now);
      var s', r' := StepDeliver(s).value, StepDeliver(r).value;
      assert forall i :: 0 <= i < |s'.inbox| ==> s'.inbox[i] == s.inbox[i + 1] && r'.inbox[i] == r.inbox[i + 1];
      assert AlikeAll(s'.inbox, r'.inbox);
      assert AlikeHandled(s'.handled, r'.handled);
    }
  }

  /** Every other step neither reads nor changes what was and will be received. */
  lemma SameOther(s: State, a: Action, inbox: seq<bytes>, handled: seq<Handled>)
    requires !a.Deliver?
    ensures Step(With(s, inbox, handled), a) == WithOption(Step(s, a), inbox, handled)
  {
    hide StepSend, StepControl, StepDeliver, StepWatch, BackgroundMessage, Utf8Valid;
    SameSend(s, a, inbox, handled);
    SameControl(s, a, inbox, handled);
    SameWatch(s, a, inbox, handled);
  }

  function With(s: State, inbox: seq<bytes>, handled: seq<Handled>): (r: State) { s.(inbox := inbox, handled := handled) }

  function WithOption(s: Option<State>, inbox: seq<bytes>, handled: seq<Handled>): (r: Option<State>) {
    match s case None => None case Some(t) => Some(With(t, inbox, handled))
  }

  lemma SameSend(s: State, a: Action, inbox: seq<bytes>, handled: seq<Handled>)
    ensures StepSend(With(s, inbox, handled), a) == WithOption(StepSend(s, a), inbox, handled)
  {
    hide StepSend;
    match a
    case Acquire(t) => SameTask(s, a, t, inbox, handled);
    case Check(t) => SameTask(s, a, t, inbox, handled);
    case Release(t) => SameTask(s, a, t, inbox, handled);
    case Fail(t) => SameTask(s, a, t, inbox, handled);
    case Write(t, _) => SameTask(s, a, t, inbox, handled);
    case AfterSend(t) => SameTask(s, a, t, inbox, handled);
    case _ => NoSend(s, a); NoSend(With(s, inbox, handled), a);
  }

  lemma NoSend(s: State, a: Action)
    requires !Sends(a) && !a.AfterSend?
    ensures StepSend(s, a) == None
  {
    hide FrameOf;
  }

  lemma SameTask(s: State, a: Action, t: Task, inbox: seq<bytes>, handled: seq<Handled>)
    requires (Sends(a) && SenderOf(a) == t) || a == AfterSend(t)
    ensures StepSend(With(s, inbox, handled), a) == WithOption(StepSend(s, a), inbox, handled)
  {
    hide FrameOf, FrameBytes;
    match t
    case RecvTask =>
    case PingTask =>
    case TimeTask =>
    case KissTask =>
  }

  lemma SameControl(s: State, a: Action, inbox: seq<bytes>, handled: seq<Handled>)
    ensures StepControl(With(s, inbox, handled), a) == WithOption(StepControl(s, a), inbox, handled)
  {
    hide FrameBytes;
  }

  lemma SameWatch(s: State, a: Action, inbox: seq<bytes>, handled: seq<Handled>)
    ensures StepWatch(With(s, inbox, handled), a) == WithOption(StepWatch(s, a), inbox, handled)
  {
  }

  lemma SameStep(s: State, r: State, a: Action)
    requires SameSession(s, r)
    ensures Step(s, a).Some? == Step(r, a).Some?
    ensures Step(s, a).Some? ==> SameSession(Step(s, a).value, Step(r, a).value)
  {
    hide Step, StepDeliver, AlikeAll, AlikeHandled;
    if a.Deliver? {
      DeliverIsStep(s);
      DeliverIsStep(r);
      SameDeliver(s, r);
    } else {
      SameOther(s, a, r.inbox, r.handled);
      if Step(s, a).Some? { OnlyDeliverReads(s, a); }
    }
  }

  /** A PONG's timestamp is untrusted and unused: runs that differ only in PONG timestamps take the same
      steps through the same states, so no client clock can extend a session. */
  lemma {:induction false} PongTimestampsIgnored(s: State, r: State, acts: seq<Action>)
    requires SameSession(s, r)
    ensures Run(s, acts).Some? == Run(r, acts).Some?
    ensures Run(s, acts).Some? ==> SameSession(Run(s, acts).value, Run(r, acts).value)
    decreases |acts|
  {
    hide Step, SameSession;
    if acts != [] {
      SameStep(s, r, acts[0]);
      if Step(s, acts[0]).Some? {
        PongTimestampsIgnored(Step(s, acts[0]).value, Step(r, acts[0]).value, acts[1..]);
      }
    }
  }
}
