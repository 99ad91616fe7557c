/** The frame structure of what a session writes. The wire is whole frames in order, messages and control
    answers alike, then a prefix of one, exactly in the runs in which no `send` ever puts bytes behind a
    frame that is only partly out. */
module SessionFrames {
  import opened Bytes
  import opened Messages
  import opened Framing
  import opened Session

  // ----- frame structure -----

  function FramesOf(es: seq<Entry>): (s: bytes) {
    if es == [] then [] else FramesOf(es[..|es| - 1]) + FrameBytes(es[|es| - 1])
  }

  /** `q` goes on where `p` stopped, or starts a frame where `p` ended one. */
  predicate Follows(p: Piece, q: Piece) {
    (q.entry == p.entry && q.from == p.to) || (q.from == 0 && Ends(p))
  }

  /** The pieces are whole frames, one after the other, and a prefix of one. */
  predicate InFrames(ps: seq<Piece>) {
    (ps != [] ==> ps[0].from == 0) && forall i :: 0 < i < |ps| ==> Follows(ps[i - 1], ps[i])
  }

  /** The last piece leaves its frame unfinished. */
  predicate TailOpen(ps: seq<Piece>) { ps != [] && !Ends(ps[|ps| - 1]) }

  /** The bytes of the frame that is not finished. */
  function Tail(ps: seq<Piece>): (s: bytes) {
    if TailOpen(ps) && ps[|ps| - 1].to <= |FrameBytes(ps[|ps| - 1].entry)|
    then FrameBytes(ps[|ps| - 1].entry)[..ps[|ps| - 1].to] else []
  }

  predicate GoodPiece(p: Piece) { p.from < p.to <= |FrameBytes(p.entry)| }

  predicate GoodPieces(ps: seq<Piece>) { forall i :: 0 <= i < |ps| ==> GoodPiece(ps[i]) }

  lemma JoinAppend(ps: seq<Piece>, p: Piece)
    ensures Join(ps + [p]) == Join(ps) + PieceBytes(p)
    ensures Completed(ps + [p]) == Completed(ps) + (if Ends(p) then [p.entry] else [])
  {
    hide FrameBytes;
    assert (ps + [p])[..|ps|] == ps;
  }

  lemma FramesAppend(es: seq<Entry>, e: Entry)
    ensures FramesOf(es + [e]) == FramesOf(es) + FrameBytes(e)
  {
    hide FrameBytes;
    assert (es + [e])[..|es|] == es;
  }

  lemma InFramesAppend(ps: seq<Piece>, q: Piece)
    ensures InFrames(ps + [q]) <==> InFrames(ps) && (if ps == [] then q.from == 0 else Follows(ps[|ps| - 1], q))
  {
    hide Follows;
    var all := ps + [q];
    assert all[|ps|] == q && forall i :: 0 <= i < |ps| ==> all[i] == ps[i];
    if InFrames(all) {
      forall i | 0 < i < |ps| ensures Follows(ps[i - 1], ps[i]) { assert Follows(all[i - 1], all[i]); }
      if ps != [] { assert Follows(all[|ps| - 1], all[|ps|]); }
    }
  }

  /** What the structure means for the bytes: whole frames in the order of completion, then the beginning
      of one more. */
  lemma {:induction false} InFramesBytes(ps: seq<Piece>)
    requires GoodPieces(ps) && InFrames(ps)
    ensures Join(ps) == FramesOf(Completed(ps)) + Tail(ps)
    decreases |ps|
  {
    hide FrameBytes;
    if ps == [] {
      Identity([]);
    } else {
      var n := |ps| - 1;
      var front, q := ps[..n], ps[n];
      assert ps == front + [q];
      InFramesAppend(front, q);
      InFramesBytes(front);
      JoinAppend(front, q);
      NextPiece(front, q);
      Assoc(FramesOf(Completed(front)), Tail(front), PieceBytes(q));
      var f := FrameBytes(q.entry);
      if Ends(q) {
        assert f[..|f|] == f;
        FramesAppend(Completed(front), q.entry);
        Identity(FramesOf(Completed(ps)));
      } else {
        assert Completed(front) + [] == Completed(front);
      }
    }
  }

  lemma NextPiece(ps: seq<Piece>, q: Piece)
    requires GoodPieces(ps) && GoodPiece(q)
    requires if ps == [] then q.from == 0 else Follows(ps[|ps| - 1], q)
    ensures Tail(ps) + PieceBytes(q) == FrameBytes(q.entry)[..q.to]
    ensures Tail(ps + [q]) == if Ends(q) then [] else FrameBytes(q.entry)[..q.to]
  {
    hide FrameBytes;
    var f := FrameBytes(q.entry);
    if ps != [] { assert GoodPiece(ps[|ps| - 1]); }
    if q.from == 0 {
      Identity(PieceBytes(q));
    } else {
      assert f[..q.from] + f[q.from..q.to] == f[..q.to];
    }
  }

  // ----- the guard -----

  /** No sender but `t` is inside a frame. */
  predicate Alone(s: State, t: Task) {
    (t == RecvTask || !Partly(s.recv)) && (t == PingTask || !Partly(s.ping))
    && (t == TimeTask || !Partly(s.time)) && (t == KissTask || !Partly(s.kiss))
  }

  /** The step does not write behind a frame of another sender that is partly out, nor behind one that a
      failed `send` left unfinished. */
  predicate Guard(s: State, a: Action) {
    match a
    case Write(t, _) => !s.cut && Alone(s, t)
    case ControlWrite(_) => !s.cut && Alone(s, RecvTask)
    case _ => true
  }

  predicate Guarded(s: State, acts: seq<Action>)
    decreases |acts|
  {
    acts == [] || (Guard(s, acts[0]) && (Step(s, acts[0]).Some? ==> Guarded(Step(s, acts[0]).value, acts[1..])))
  }

  // ----- the invariant -----

  /** The last piece is the one the phase wrote last. */
  predicate TipOf(ps: seq<Piece>, p: Phase) {
    EntryOf(p).Some? && ps != [] && ps[|ps| - 1].entry == EntryOf(p).value && ps[|ps| - 1].to == p.sent
  }

  ghost predicate NonePartly(s: State) { forall t :: !Partly(Get(s, t)) }

  /** Frames so far in order; the frame left open is the one of the only sender inside a frame, or the one
      that a failed `send` left. */
  ghost predicate Tidy(s: State) {
    GoodPieces(s.pieces) && InFrames(s.pieces)
    && (forall t :: Partly(Get(s, t)) ==> !s.cut && Alone(s, t) && TipOf(s.pieces, Get(s, t)))
    && (NonePartly(s) ==> (TailOpen(s.pieces) <==> s.cut))
  }

  lemma AloneOthers(s: State, t: Task)
    ensures Alone(s, t) <==> forall u :: u != t ==> !Partly(Get(s, u))
  {
    hide Partly;
    assert s.recv == Get(s, RecvTask) && s.ping == Get(s, PingTask) && s.time == Get(s, TimeTask) && s.kiss == Get(s, KissTask);
  }

  /** A step that writes nothing and moves only senders that are between frames. */
  lemma TidyKept(s: State, s': State)
    requires Tidy(s) && s'.pieces == s.pieces && s'.cut == s.cut
    requires forall t :: Get(s', t) == Get(s, t) || (!Partly(Get(s, t)) && !Partly(Get(s', t)))
    ensures Tidy(s')
  {
    hide Partly, GoodPieces, InFrames, TailOpen, TipOf, Alone;
    forall t | Partly(Get(s', t)) ensures Alone(s', t) {
      assert Get(s', t) == Get(s, t);
      AloneOthers(s, t);
      AloneOthers(s', t);
    }
    if NonePartly(s') {
      forall t ensures !Partly(Get(s, t)) { assert !Partly(Get(s', t)); }
    }
  }

  /** Sender `t` is at `from` in the frame of `e`, and the last piece so far is what it has to be. */
  lemma WrittenFollows(s: State, t: Task, x: Piece)
    requires Tidy(s) && GoodPiece(x) && EntryOf(Get(s, t)) == Some(x.entry) && Get(s, t).sent == x.from
    ensures InFrames(s.pieces + [x]) <==> !s.cut && Alone(s, t)
  {
    hide FrameBytes, InFrames, Get, Alone, EntryOf;
    InFramesAppend(s.pieces, x);
    AloneOthers(s, t);
    if s.cut {
      assert NonePartly(s) && !Partly(Get(s, t));
      TailFollows(s.pieces, x);
    } else if Alone(s, t) {
      if Partly(Get(s, t)) {
        assert TipOf(s.pieces, Get(s, t));
      } else {
        assert NonePartly(s);
      }
    } else {
      var u :| u != t && Partly(Get(s, u));
      AloneOthers(s, u);
      TipOpen(s.pieces, Get(s, u));
      assert !Partly(Get(s, t));
      TailFollows(s.pieces, x);
    }
  }

  lemma TipOpen(ps: seq<Piece>, p: Phase)
    requires Partly(p) && TipOf(ps, p)
    ensures TailOpen(ps)
  {
    hide FrameBytes;
  }

  /** Behind an unfinished frame no other frame can start. */
  lemma TailFollows(ps: seq<Piece>, x: Piece)
    requires GoodPieces(ps) && TailOpen(ps) && x.from == 0
    ensures !Follows(ps[|ps| - 1], x)
  {
    hide FrameBytes;
    assert GoodPiece(ps[|ps| - 1]);
  }

  lemma WrittenTidy(s: State, s': State, t: Task, x: Piece)
    requires Tidy(s) && GoodPiece(x) && !s.cut && Alone(s, t) && InFrames(s'.pieces)
    requires EntryOf(Get(s', t)) == Some(x.entry) && Get(s', t).sent == x.to
    requires s'.pieces == s.pieces + [x] && !s'.cut && forall u :: u != t ==> Get(s', u) == Get(s, u)
    ensures Tidy(s')
  {
    hide FrameBytes, InFrames, Get, Alone;
    AloneOthers(s, t);
    AloneOthers(s', t);
    assert s'.pieces[|s.pieces|] == x;
    if NonePartly(s') { assert !Partly(Get(s', t)); }
  }

  /** One `send` of sender `t`: the structure goes on exactly if the guard holds. */
  lemma Written(s: State, s': State, t: Task, x: Piece)
    requires Tidy(s) && GoodPiece(x)
    requires EntryOf(Get(s, t)) == Some(x.entry) && Get(s, t).sent == x.from
    requires EntryOf(Get(s', t)) == Some(x.entry) && Get(s', t).sent == x.to
    requires s'.pieces == s.pieces + [x] && s'.cut == s.cut && forall u :: u != t ==> Get(s', u) == Get(s, u)
    ensures InFrames(s'.pieces) <==> !s.cut && Alone(s, t)
    ensures !s.cut && Alone(s, t) ==> Tidy(s')
  {
    hide FrameBytes, EntryOf, InFrames, Get, Alone, Tidy, GoodPiece;
    WrittenFollows(s, t, x);
    if !s.cut && Alone(s, t) { WrittenTidy(s, s', t, x); }
  }

  /** A failed `send` of sender `t`, which leaves it outside any frame. */
  lemma Failed(s: State, s': State, t: Task)
    requires Tidy(s)
    requires var p := Get(s, t);
             EntryOf(p).Some? && p.sent < |FrameBytes(EntryOf(p).value)| && s'.cut == (s.cut || p.sent > 0)
    requires EntryOf(Get(s', t)).None? && s'.pieces == s.pieces && forall u :: u != t ==> Get(s', u) == Get(s, u)
    ensures Tidy(s')
  {
    hide FrameBytes, EntryOf, InFrames, Get, Alone, GoodPieces;
    var p := Get(s, t);
    AloneOthers(s, t);
    if Partly(p) {
      assert NonePartly(s');
      assert TipOf(s.pieces, p);
    } else {
      forall u | Partly(Get(s', u)) ensures Alone(s', u) {
        AloneOthers(s, u);
        AloneOthers(s', u);
      }
      if NonePartly(s') { assert NonePartly(s); }
    }
  }

  // ----- every step -----

  lemma WriteStep(s: State, t: Task, n: nat)
    requires Tidy(s) && StepSend(s, Write(t, n)).Some?
    ensures var s' := StepSend(s, Write(t, n)).value;
            (InFrames(s'.pieces) <==> Guard(s, Write(t, n))) && (Guard(s, Write(t, n)) ==> Tidy(s'))
  {
    hide FrameOf, Tidy, InFrames, Alone;
    var s' := StepSend(s, Write(t, n)).value;
    forall u | u != t ensures Get(s', u) == Get(s, u) { SendOthers(s, Write(t, n), u); }
    Written(s, s', t, s'.pieces[|s.pieces|]);
  }

  lemma FailStep(s: State, t: Task)
    requires Tidy(s) && StepSend(s, Fail(t)).Some?
    ensures Tidy(StepSend(s, Fail(t)).value)
  {
    hide FrameOf, Tidy;
    var s' := StepSend(s, Fail(t)).value;
    forall u | u != t ensures Get(s', u) == Get(s, u) { SendOthers(s, Fail(t), u); }
    Failed(s, s', t);
  }

  /** Taking the lock, the check and the release move a sender that is between frames. */
  lemma LockStep(s: State, a: Action)
    requires Tidy(s) && (a.Acquire? || a.Check? || a.Release?) && StepSend(s, a).Some?
    ensures Tidy(StepSend(s, a).value)
  {
    hide Tidy;
    var s', t := StepSend(s, a).value, SenderOf(a);
    LockShape(s, a);
    forall u ensures Get(s', u) == Get(s, u) || (!Partly(Get(s, u)) && !Partly(Get(s', u))) {
      if u != t { SendOthers(s, a, u); }
    }
    TidyKept(s, s');
  }

  lemma LockShape(s: State, a: Action)
    requires (a.Acquire? || a.Check? || a.Release?) && StepSend(s, a).Some?
    ensures var s', t := StepSend(s, a).value, SenderOf(a);
            s'.pieces == s.pieces && s'.cut == s.cut && !Partly(Get(s, t)) && !Partly(Get(s', t))
  {
    hide FrameOf, FrameBytes, Partly, EntryOf;
    var s', t := StepSend(s, a).value, SenderOf(a);
    PartlyWriting(Get(s, t));
    PartlyWriting(Get(s', t));
  }

  lemma PartlyWriting(p: Phase)
    ensures !p.Replying? ==> (Partly(p) <==> p.Writing? && 0 < p.sent < |FrameOf(p.msg)|)
  {
    hide FrameOf;
  }

  lemma ControlStep(s: State, a: Action)
    requires Tidy(s) && (a.ControlWrite? || a.ControlFail?) && StepControl(s, a).Some?
    ensures var s' := StepControl(s, a).value;
            (InFrames(s'.pieces) <==> Guard(s, a)) && (Guard(s, a) ==> Tidy(s'))
  {
    hide FrameBytes, Tidy, InFrames, Alone;
    var s' := StepControl(s, a).value;
    if a.ControlWrite? {
      Written(s, s', RecvTask, s'.pieces[|s.pieces|]);
    } else {
      Failed(s, s', RecvTask);
      TidyInFrames(s');
    }
  }

  lemma TidyInFrames(s: State)
    requires Tidy(s)
    ensures InFrames(s.pieces) && GoodPieces(s.pieces)
  {
  }

  lemma TidyStep(s: State, a: Action)
    requires Tidy(s) && Step(s, a).Some?
    ensures var s' := Step(s, a).value;
            (InFrames(s'.pieces) <==> Guard(s, a)) && (Guard(s, a) ==> Tidy(s'))
  {
    hide Step, StepSend, StepControl, Tidy, InFrames, Alone;
    var s' := Step(s, a).value;
    if Sends(a) {
      StepIsSend(s, a);
      match a
      case Write(t, n) => WriteStep(s, t, n);
      case Fail(t) => FailStep(s, t); TidyInFrames(s');
      case _ => LockStep(s, a); TidyInFrames(s');
    } else if a.ControlWrite? || a.ControlFail? {
      StepIsControl(s, a);
      ControlStep(s, a);
    } else {
      OtherSteps(s, a);
      QuietKept(s, s');
      TidyKept(s, s');
      TidyInFrames(s');
    }
  }

  lemma QuietKept(s: State, s': State)
    requires LeavesSenders(s, s')
    ensures s'.pieces == s.pieces && s'.cut == s.cut
    ensures forall t :: Get(s', t) == Get(s, t) || (!Partly(Get(s, t)) && !Partly(Get(s', t)))
  {
    hide FrameBytes, LeavesSenders, Get;
    KeepsLock(s, s');
    forall t ensures Get(s', t) == Get(s, t) || (!Partly(Get(s, t)) && !Partly(Get(s', t))) {
      KeepsEach(s, s', t);
    }
  }

  // ----- every run -----

  /** Pieces are only ever added. */
  lemma PiecesGrow(s: State, a: Action)
    requires Step(s, a).Some?
    ensures s.pieces <= Step(s, a).value.pieces
  {
    hide Step, StepSend, StepControl;
    if Sends(a) {
      StepIsSend(s, a);
      SendGrows(s, a);
    } else if Controls(a) {
      StepIsControl(s, a);
      ControlGrows(s, a);
    } else {
      OtherSteps(s, a);
      KeepsLock(s, Step(s, a).value);
    }
  }

  lemma SendGrows(s: State, a: Action)
    requires Sends(a) && StepSend(s, a).Some?
    ensures s.pieces <= StepSend(s, a).value.pieces
  {
    hide StepSend;
    SendPieces(s, a);
  }

  lemma SendPieces(s: State, a: Action)
    requires Sends(a) && StepSend(s, a).Some?
    ensures !a.Write? ==> StepSend(s, a).value.pieces == s.pieces
    ensures a.Write? ==>
              var p := Get(s, a.t);
              p.Writing? && StepSend(s, a).value.pieces == s.pieces + [Piece(Data(p.msg), p.sent, p.sent + a.n)]
  {
    hide FrameOf, FrameBytes;
  }

  lemma ControlGrows(s: State, a: Action)
    requires StepControl(s, a).Some?
    ensures s.pieces <= StepControl(s, a).value.pieces
  {
    hide FrameBytes;
  }

  lemma InFramesPrefix(ps: seq<Piece>, qs: seq<Piece>)
    requires ps <= qs && InFrames(qs)
    ensures InFrames(ps)
  {
    hide Follows;
    assert forall i :: 0 <= i < |ps| ==> ps[i] == qs[i];
    forall i | 0 < i < |ps| ensures Follows(ps[i - 1], ps[i]) { assert Follows(qs[i - 1], qs[i]); }
  }

  lemma {:induction false} RunGrows(s: State, acts: seq<Action>)
    requires Run(s, acts).Some?
    ensures s.pieces <= Run(s, acts).value.pieces
    decreases |acts|
  {
    hide Step;
    if acts != [] {
      PiecesGrow(s, acts[0]);
      RunGrows(Step(s, acts[0]).value, acts[1..]);
    }
  }

  lemma {:induction false} FrameStructureFrom(s: State, acts: seq<Action>)
    requires Tidy(s) && Run(s, acts).Some?
    ensures InFrames(Run(s, acts).value.pieces) <==> Guarded(s, acts)
    ensures Guarded(s, acts) ==> Tidy(Run(s, acts).value)
    decreases |acts|
  {
    hide Step, Tidy, InFrames, Guard;
    if acts == [] {
      TidyInFrames(s);
    } else {
      var s' := Step(s, acts[0]).value;
      TidyStep(s, acts[0]);
      if Guard(s, acts[0]) {
        FrameStructureFrom(s', acts[1..]);
      } else {
        RunGrows(s', acts[1..]);
        if InFrames(Run(s', acts[1..]).value.pieces) { InFramesPrefix(s'.pieces, Run(s', acts[1..]).value.pieces); }
      }
    }
  }

  lemma TidyInit(inbox: seq<bytes>, now: i64, windows: bool)
    ensures Tidy(Init(inbox, now, windows))
  {
    hide FrameBytes, Ascii;
  }

  /** Frame atomicity, over every run of every session, whatever fails and whatever is answered: what is on
      the wire is whole frames in order and a prefix of one iff every `send` met the guard. */
  lemma FrameStructure(inbox: seq<bytes>, now: i64, windows: bool, acts: seq<Action>)
    requires Run(Init(inbox, now, windows), acts).Some?
    ensures var s := Run(Init(inbox, now, windows), acts).value;
            (InFrames(s.pieces) <==> Guarded(Init(inbox, now, windows), acts))
            && (InFrames(s.pieces) ==> Wire(s) == FramesOf(Completed(s.pieces)) + Tail(s.pieces))
  {
    hide Step, Tidy, InFrames, Tail, FramesOf;
    TidyInit(inbox, now, windows);
    FrameStructureFrom(Init(inbox, now, windows), acts);
    var s := Run(Init(inbox, now, windows), acts).value;
    if InFrames(s.pieces) {
      TidyInFrames(s);
      InFramesBytes(s.pieces);
    }
  }

  // ----- what the mutex is good for -----

  /** No control answer is written and no `send` of a message fails. */
  predicate MessagesOnly(acts: seq<Action>) {
    forall i :: 0 <= i < |acts| ==> !acts[i].ControlWrite? && !acts[i].Fail?
  }

  predicate Unanswered(s: State) {
    !s.cut && !s.ping.Replying? && !s.time.Replying? && !s.kiss.Replying? && (s.recv.Replying? ==> s.recv.sent == 0)
  }

  lemma MutexAlone(s: State, t: Task)
    requires Mutex(s) && Unanswered(s) && Get(s, t).Writing?
    ensures Alone(s, t)
  {
    hide FrameBytes, Mutex;
    AloneOthers(s, t);
    MutexHolder(s, t);
    forall u | u != t ensures !Partly(Get(s, u)) { MutexHolder(s, u); }
  }

  lemma UnansweredStep(s: State, a: Action)
    requires Mutex(s) && Unanswered(s) && !a.ControlWrite? && !a.Fail? && Step(s, a).Some?
    ensures Unanswered(Step(s, a).value) && Guard(s, a)
  {
    hide Step, Mutex, StepSend, StepControl, Alone;
    var s' := Step(s, a).value;
    if Sends(a) {
      StepIsSend(s, a);
      UnansweredSend(s, a);
      if a.Write? { WriteShape(s, a.t, a.n); MutexAlone(s, a.t); }
    } else if Controls(a) {
      StepIsControl(s, a);
      UnansweredControl(s, a);
    } else {
      OtherSteps(s, a);
      UnansweredOther(s, a);
    }
  }

  lemma UnansweredSend(s: State, a: Action)
    requires Unanswered(s) && Sends(a) && !a.Fail? && StepSend(s, a).Some?
    ensures Unanswered(StepSend(s, a).value)
  {
    hide FrameOf;
  }

  lemma UnansweredControl(s: State, a: Action)
    requires Unanswered(s) && !a.ControlWrite? && StepControl(s, a).Some?
    ensures Unanswered(StepControl(s, a).value)
  {
    hide FrameBytes;
  }

  lemma UnansweredOther(s: State, a: Action)
    requires Unanswered(s) && !Sends(a) && !Controls(a) && Step(s, a).Some?
    ensures Unanswered(Step(s, a).value)
  {
    hide StepWatch, React, BackgroundMessage, Utf8Valid, FrameOf;
    if a.WatchTest? || a.WatchCheck? { UnansweredWatch(s, a); }
  }

  lemma UnansweredWatch(s: State, a: Action)
    requires Unanswered(s) && StepWatch(s, a).Some?
    ensures Unanswered(StepWatch(s, a).value)
  {
  }

  lemma {:induction false} UnansweredRun(s: State, acts: seq<Action>)
    requires Mutex(s) && Unanswered(s) && MessagesOnly(acts) && Run(s, acts).Some?
    ensures Guarded(s, acts)
    decreases |acts|
  {
    hide Step, Mutex, Unanswered, Guard;
    if acts != [] {
      MutexStep(s, acts[0]);
      UnansweredStep(s, acts[0]);
      assert forall i :: 0 <= i < |acts[1..]| ==> acts[1..][i] == acts[i + 1];
      UnansweredRun(Step(s, acts[0]).value, acts[1..]);
    }
  }

  /** Between messages the mutex is enough: over every interleaving of the four senders and every partial
      write, the guard is met unless a control answer is written or a `send` of a message fails. */
  lemma MutexSuffices(inbox: seq<bytes>, now: i64, windows: bool, acts: seq<Action>)
    requires MessagesOnly(acts) && Run(Init(inbox, now, windows), acts).Some?
    ensures Guarded(Init(inbox, now, windows), acts)
  {
    hide Run, Guarded, Mutex, Ascii;
    MutexInit(inbox, now, windows);
    UnansweredRun(Init(inbox, now, windows), acts);
  }

  /** A control answer does not take the mutex: where a message is partly out, an answer that goes out in
      one piece lands inside it, and the wire is not the complete frames followed by the part. */
  lemma AnswerTears(s: State, t: Task)
    requires Tidy(s) && Mutex(s) && Partly(Get(s, t)) && Get(s, t).Writing?
    requires s.recv.Replying? && s.recv.sent == 0
    ensures var p, f := Get(s, t), FrameBytes(Control(s.recv.close, s.recv.data));
            var r := StepControl(s, ControlWrite(|f|));
            r.Some? && Completed(r.value.pieces) == Completed(s.pieces) + [Control(s.recv.close, s.recv.data)]
            && p.sent <= |FrameOf(p.msg)|
            && Wire(r.value) == FramesOf(Completed(s.pieces)) + FrameOf(p.msg)[..p.sent] + f
            && Wire(r.value) != FramesOf(Completed(r.value.pieces)) + FrameOf(p.msg)[..p.sent]
  {
    hide FrameBytes, FrameOf, FramesOf, InFrames, Alone;
    var p, e := Get(s, t), Control(s.recv.close, s.recv.data);
    DataFrame(p.msg);
    var f, begun := FrameBytes(e), FrameOf(p.msg)[..p.sent];
    var whole := FramesOf(Completed(s.pieces));
    InFramesBytes(s.pieces);
    assert Tail(s.pieces) == begun;
    var x := Piece(e, 0, |f|);
    assert f[0..|f|] == f;
    JoinAppend(s.pieces, x);
    FramesAppend(Completed(s.pieces), e);
    FirstBytes(p.msg, s.recv.close, s.recv.data);
    assert (whole + begun + f)[|whole|] == begun[0] == FrameOf(p.msg)[0];
    assert (whole + f + begun)[|whole|] == f[0];
  }

  lemma DataFrame(m: Message)
    ensures FrameBytes(Data(m)) == FrameOf(m)
  {
    hide FrameOf;
  }

  lemma FirstBytes(m: Message, close: bool, data: ControlData)
    ensures FrameOf(m)[0] == 0x82 && FrameBytes(Control(close, data))[0] >= 0x88
  {
    hide Encode, LengthBytes, ToBigEndian;
  }

  // ----- after deactivation -----

  /** The bytes of messages alone. */
  function DataBytes(ps: seq<Piece>): (s: bytes) {
    if ps == [] then []
    else DataBytes(ps[..|ps| - 1]) + (if ps[|ps| - 1].entry.Data? then PieceBytes(ps[|ps| - 1]) else [])
  }

  /** The bytes of the lock holder's frame that are still to come, and its message if there are any. */
  function Pending(s: State): (b: bytes) {
    if s.lock.None? then [] else Rest(Get(s, s.lock.value))
  }

  function Rest(p: Phase): (b: bytes) {
    if p.Writing? && p.sent <= |FrameOf(p.msg)| then FrameOf(p.msg)[p.sent..] else []
  }

  function Unfinished(s: State): (m: Option<Message>) {
    if Pending(s) == [] then None else Some(Get(s, s.lock.value).msg)
  }

  lemma DataAppend(ps: seq<Piece>, q: Piece)
    ensures DataBytes(ps + [q]) == DataBytes(ps) + (if q.entry.Data? then PieceBytes(q) else [])
    ensures MessagesOf(Completed(ps + [q])) == MessagesOf(Completed(ps)) + (if q.entry.Data? && Ends(q) then [q.entry.msg] else [])
  {
    hide FrameBytes;
    assert (ps + [q])[..|ps|] == ps;
    JoinAppend(ps, q);
    var es := Completed(ps);
    if Ends(q) {
      assert (es + [q.entry])[..|es|] == es;
    } else {
      assert es + [] == es;
    }
    assert MessagesOf(es) + [] == MessagesOf(es);
  }

  /** The step of an inactive session is none of the writing, part of it, or its failure. */
  predicate Winds(s: State, s': State, fails: bool) {
    !s'.active
    && (if fails then DataBytes(s'.pieces) == DataBytes(s.pieces) && Pending(s') == []
        else DataBytes(s'.pieces) + Pending(s') == DataBytes(s.pieces) + Pending(s))
    && (Unfinished(s') == None || Unfinished(s') == Unfinished(s))
    && (Log(s') == Log(s) || (Unfinished(s).Some? && Unfinished(s') == None && Log(s') == Log(s) + [Unfinished(s).value]))
  }

  lemma WindsSame(s: State, s': State)
    requires !s.active && (s'.active ==> s.active) && s'.pieces == s.pieces && Pending(s') == Pending(s)
    requires Pending(s) != [] ==> Get(s', s'.lock.value).msg == Get(s, s.lock.value).msg
    ensures Winds(s, s', false)
  {
    hide Rest, DataBytes, Completed, MessagesOf;
  }

  lemma WindsWrite(s: State, t: Task, n: nat)
    requires Mutex(s) && !s.active && StepSend(s, Write(t, n)).Some?
    ensures Winds(s, StepSend(s, Write(t, n)).value, false)
  {
    hide FrameOf, FrameBytes, Mutex, DataBytes, Completed, MessagesOf, StepSend, Get;
    WriteShape(s, t, n);
    var s', p := StepSend(s, Write(t, n)).value, Get(s, t);
    var f := FrameOf(p.msg);
    DataFrame(p.msg);
    DataAppend(s.pieces, Piece(Data(p.msg), p.sent, p.sent + n));
    assert f[p.sent..p.sent + n] + f[p.sent + n..] == f[p.sent..];
    Assoc(DataBytes(s.pieces), f[p.sent..p.sent + n], f[p.sent + n..]);
    assert Log(s) + [] == Log(s);
  }

  lemma WriteShape(s: State, t: Task, n: nat)
    requires Mutex(s) && StepSend(s, Write(t, n)).Some?
    ensures var s', p := StepSend(s, Write(t, n)).value, Get(s, t);
            s'.lock == s.lock == Some(t) && s'.active == s.active && p.Writing? && 1 <= n <= |FrameOf(p.msg)| - p.sent
            && Get(s', t) == Writing(p.msg, p.stop, p.sent + n)
            && s'.pieces == s.pieces + [Piece(Data(p.msg), p.sent, p.sent + n)]
  {
    hide FrameOf, FrameBytes, Mutex;
    MutexHolder(s, t);
  }

  lemma WindsLock(s: State, a: Action)
    requires Mutex(s) && !s.active && (a.Acquire? || a.Check? || a.Release? || a.Fail?) && StepSend(s, a).Some?
    ensures Winds(s, StepSend(s, a).value, a.Fail?)
  {
    hide FrameOf, Mutex, DataBytes, Completed, MessagesOf;
    MutexHolder(s, SenderOf(a));
    var s', t := StepSend(s, a).value, SenderOf(a);
    SendPieces(s, a);
    SendOwn(s, a);
  }

  lemma WindsControl(s: State, a: Action)
    requires Mutex(s) && !s.active && (a.ControlWrite? || a.ControlFail?) && StepControl(s, a).Some?
    ensures Winds(s, StepControl(s, a).value, false)
  {
    hide FrameBytes, Mutex, DataBytes, Completed, MessagesOf, Rest;
    MutexHolder(s, RecvTask);
    var s' := StepControl(s, a).value;
    if a.ControlWrite? {
      DataAppend(s.pieces, s'.pieces[|s.pieces|]);
      Identity(DataBytes(s.pieces));
      assert Log(s) + [] == Log(s);
    }
  }

  lemma WindsOther(s: State, s': State)
    requires Mutex(s) && !s.active && LeavesSenders(s, s')
    ensures Winds(s, s', false)
  {
    hide FrameBytes, Mutex, DataBytes, Completed, MessagesOf, LeavesSenders, Rest, Get;
    KeepsLock(s, s');
    if s.lock.Some? {
      KeepsEach(s, s', s.lock.value);
      MutexHolder(s, s.lock.value);
    }
    WindsSame(s, s');
  }

  lemma WindsStep(s: State, a: Action)
    requires Mutex(s) && !s.active && Step(s, a).Some?
    ensures Winds(s, Step(s, a).value, a.Fail?)
  {
    hide Step, StepSend, StepControl, Mutex, Winds;
    if Sends(a) {
      StepIsSend(s, a);
      if a.Write? { WindsWrite(s, a.t, a.n); } else { WindsLock(s, a); }
    } else if a.ControlWrite? || a.ControlFail? {
      StepIsControl(s, a);
      WindsControl(s, a);
    } else {
      OtherSteps(s, a);
      WindsOther(s, Step(s, a).value);
    }
  }

  predicate NoFail(acts: seq<Action>) { forall i :: 0 <= i < |acts| ==> !acts[i].Fail? }

  /** Once `active` is false, in every run all message bytes ever written are bytes still due of the one
      frame whose writer had passed the check, in order, and all of them unless a `send` of it fails. At
      most that one message is completed. */
  lemma {:induction false} NothingNew(s: State, acts: seq<Action>)
    requires Mutex(s) && !s.active && Run(s, acts).Some?
    ensures var t := Run(s, acts).value;
            !t.active
            && DataBytes(t.pieces) + Pending(t) <= DataBytes(s.pieces) + Pending(s)
            && (NoFail(acts) ==> DataBytes(t.pieces) + Pending(t) == DataBytes(s.pieces) + Pending(s))
            && (Unfinished(t) == None || Unfinished(t) == Unfinished(s))
            && (Log(t) == Log(s)
                || (Unfinished(s).Some? && Unfinished(t) == None && Log(t) == Log(s) + [Unfinished(s).value]))
    decreases |acts|
  {
    hide Step, Mutex, Pending, Unfinished, Log, DataBytes;
    if acts != [] {
      var s' := Step(s, acts[0]).value;
      MutexStep(s, acts[0]);
      WindsStep(s, acts[0]);
      assert forall i :: 0 <= i < |acts[1..]| ==> acts[1..][i] == acts[i + 1];
      if acts[0].Fail? { Identity(DataBytes(s'.pieces)); }
      NothingNew(s', acts[1..]);
    }
  }
}
