/** `wsRecvFrame` as a function of the bytes still to come, and its language: the messages of section 5.4
    of RFC 6455 with control frames between their fragments. */
module Receiver {
  import opened Bytes
  import opened Framing

  datatype Received = Message(payload: bytes) | Closed(payload: bytes) | Failed

  /** A control frame the receiver tried to send back. */
  datatype Reply = Reply(opcode: nat, payload: bytes)

  datatype Outcome = Outcome(result: Received, rest: bytes, replies: seq<Reply>)

  /** Bytes a connection still accepts before a `send` fails; `None` if it never fails. */
  type Room = Option<nat>

  function ReplySize(data: bytes, masked: bool): (n: nat) {
    2 + (if masked then 4 else 0) + |data|
  }

  predicate Fits(n: nat, room: Room) { room.None? || n <= room.value }

  function Shrink(room: Room, n: nat): (r: Room)
    requires Fits(n, room)
  {
    if room.None? then None else Some(room.value - n)
  }

  /** The loop of `wsRecvFrame`: `acc` is the message so far, `fragmented` says one has begun. */
  function Receive(s: bytes, expectMasked: bool, acc: bytes, fragmented: bool, room: Room): (o: Outcome)
    ensures |o.rest| <= |s|
    ensures !o.result.Failed? ==> |o.rest| < |s|
    decreases |s|
  {
    match ScanFrame(s, expectMasked, |acc|)
    case Refused => Outcome(Failed, s, [])
    case Scanned(f, rest) =>
      if f.opcode == CLOSE then
        Outcome(Closed(f.payload), rest, [Reply(CLOSE, f.payload)])
      else if f.opcode == PING then
        var size := ReplySize(f.payload, !expectMasked);
        if !Fits(size, room) then Outcome(Failed, rest, [Reply(PONG, f.payload)])
        else
          var o := Receive(rest, expectMasked, acc, fragmented, Shrink(room, size));
          o.(replies := [Reply(PONG, f.payload)] + o.replies)
      else if f.opcode == PONG then
        Receive(rest, expectMasked, acc, fragmented, room)
      else if f.opcode == BINARY && !fragmented then
        if f.fin then Outcome(Message(f.payload), rest, [])
        else Receive(rest, expectMasked, f.payload, true, room)
      else if f.opcode == CONTINUATION && fragmented then
        if f.fin then Outcome(Message(acc + f.payload), rest, [])
        else Receive(rest, expectMasked, acc + f.payload, true, room)
      else Outcome(Failed, rest, [])
  }

  // ----- the grammar of section 5.4 -----

  function DataFrames(fs: seq<WireFrame>): (ds: seq<WireFrame>) {
    if fs == [] then [] else (if IsControl(fs[0]) then [] else [fs[0]]) + DataFrames(fs[1..])
  }

  /** The application data of a sequence of frames. */
  function Body(fs: seq<WireFrame>): (s: bytes) {
    if fs == [] then [] else (if IsControl(fs[0]) then [] else fs[0].payload) + Body(fs[1..])
  }

  predicate Interjection(f: WireFrame) {
    (f.opcode == PING || f.opcode == PONG) && f.fin && |f.payload| <= 125
  }

  /** The data frames of one binary message: the opcode on the first, zero on the others, FIN on the last.
      With `begun`, the first data frame has been seen already. */
  predicate FragmentPattern(ds: seq<WireFrame>, begun: bool) {
    forall i :: 0 <= i < |ds| ==>
      ds[i].opcode == (if i == 0 && !begun then BINARY else CONTINUATION) && ds[i].fin == (i == |ds| - 1)
  }

  /** `fs` is the rest of one binary message, from its next frame to the one with FIN, Pings and Pongs
      anywhere before that one; `have` bytes of the message came before. The size limit is applied at each
      frame, control frames included, to the data collected so far plus that frame. */
  ghost predicate IsMessage(fs: seq<WireFrame>, expectMasked: bool, begun: bool, have: nat) {
    fs != [] && !IsControl(fs[|fs| - 1])
    && (forall i :: 0 <= i < |fs| ==> Serializable(fs[i]) && fs[i].mask.Some? == expectMasked)
    && (forall i :: 0 <= i < |fs| && IsControl(fs[i]) ==> Interjection(fs[i]))
    && FragmentPattern(DataFrames(fs), begun)
    && (forall i :: 0 <= i < |fs| ==> have + |Body(fs[..i])| + |fs[i].payload| <= MAX_MESSAGE_SIZE)
  }

  /** The Pongs owed for the Pings of `fs`, and the echo owed for a Close. */
  function RepliesTo(fs: seq<WireFrame>): (rs: seq<Reply>) {
    if fs == [] then []
    else (if fs[0].opcode == PING then [Reply(PONG, fs[0].payload)]
          else if fs[0].opcode == CLOSE then [Reply(CLOSE, fs[0].payload)] else []) + RepliesTo(fs[1..])
  }

  // ----- the grammar, one frame at a time -----

  lemma IsMessageSerializable(fs: seq<WireFrame>, expectMasked: bool, begun: bool, have: nat)
    requires IsMessage(fs, expectMasked, begun, have)
    ensures AllSerializable(fs)
  {
  }

  lemma IsMessageControl(f: WireFrame, tail: seq<WireFrame>, expectMasked: bool, begun: bool, have: nat)
    requires IsControl(f)
    ensures IsMessage([f] + tail, expectMasked, begun, have) <==>
              Interjection(f) && Acceptable(f, expectMasked, have) && IsMessage(tail, expectMasked, begun, have)
  {
    hide Serializable, Interjection, FragmentPattern, DataFrames, Body, WithinLimits;
    var fs := [f] + tail;
    ControlCons(f, tail);
    LimitsOfInterjection(f, have);
    assert fs[0] == f;
    if IsMessage(fs, expectMasked, begun, have) {
      assert tail != [] && fs[|fs| - 1] == tail[|tail| - 1];
      IsMessageTail(f, tail, expectMasked);
      ControlLimitsDown(f, tail, have);
    }
    if Interjection(f) && Acceptable(f, expectMasked, have) && IsMessage(tail, expectMasked, begun, have) {
      ControlLimitsUp(f, tail, have);
      forall i | 0 <= i < |fs| ensures Serializable(fs[i]) && fs[i].mask.Some? == expectMasked {
        if i > 0 { assert fs[i] == tail[i - 1]; }
      }
    }
  }

  lemma ControlCons(f: WireFrame, tail: seq<WireFrame>)
    requires IsControl(f)
    ensures DataFrames([f] + tail) == DataFrames(tail) && Body([f] + tail) == Body(tail)
  {
    assert ([f] + tail)[1..] == tail;
  }

  lemma ControlLimitsDown(f: WireFrame, tail: seq<WireFrame>, have: nat)
    requires IsControl(f)
    requires forall i :: 0 <= i < |[f] + tail| ==>
               have + |Body(([f] + tail)[..i])| + |([f] + tail)[i].payload| <= MAX_MESSAGE_SIZE
    ensures have + |f.payload| <= MAX_MESSAGE_SIZE
    ensures forall i :: 0 <= i < |tail| ==> have + |Body(tail[..i])| + |tail[i].payload| <= MAX_MESSAGE_SIZE
  {
    hide Body;
    var fs := [f] + tail;
    EmptyPattern();
    assert fs[..0] == [] && fs[0] == f;
    forall i | 0 <= i < |tail| ensures have + |Body(tail[..i])| + |tail[i].payload| <= MAX_MESSAGE_SIZE {
      assert fs[..i + 1] == [f] + tail[..i] && fs[i + 1] == tail[i];
      ControlCons(f, tail[..i]);
    }
  }

  lemma ControlLimitsUp(f: WireFrame, tail: seq<WireFrame>, have: nat)
    requires IsControl(f)
    requires have + |f.payload| <= MAX_MESSAGE_SIZE
    requires forall i :: 0 <= i < |tail| ==> have + |Body(tail[..i])| + |tail[i].payload| <= MAX_MESSAGE_SIZE
    ensures forall i :: 0 <= i < |[f] + tail| ==>
              have + |Body(([f] + tail)[..i])| + |([f] + tail)[i].payload| <= MAX_MESSAGE_SIZE
  {
    hide Body;
    var fs := [f] + tail;
    EmptyPattern();
    forall i | 0 <= i < |fs| ensures have + |Body(fs[..i])| + |fs[i].payload| <= MAX_MESSAGE_SIZE {
      if i == 0 {
        assert fs[..0] == [];
      } else {
        assert fs[..i] == [f] + tail[..i - 1] && fs[i] == tail[i - 1];
        ControlCons(f, tail[..i - 1]);
      }
    }
  }

  lemma LimitsOfInterjection(f: WireFrame, have: nat)
    ensures Interjection(f) && have + |f.payload| <= MAX_MESSAGE_SIZE ==> WithinLimits(f.fin, f.opcode, |f.payload|, have)
    ensures WithinLimits(f.fin, f.opcode, |f.payload|, have) ==> have + |f.payload| <= MAX_MESSAGE_SIZE
  {
  }

  lemma IsMessageTail(f: WireFrame, tail: seq<WireFrame>, expectMasked: bool)
    requires forall i :: 0 <= i < |[f] + tail| ==>
               Serializable(([f] + tail)[i]) && ([f] + tail)[i].mask.Some? == expectMasked
    requires forall i :: 0 <= i < |[f] + tail| && IsControl(([f] + tail)[i]) ==> Interjection(([f] + tail)[i])
    ensures forall i :: 0 <= i < |tail| ==> Serializable(tail[i]) && tail[i].mask.Some? == expectMasked
    ensures forall i :: 0 <= i < |tail| && IsControl(tail[i]) ==> Interjection(tail[i])
  {
    forall i | 0 <= i < |tail| ensures Serializable(tail[i]) && tail[i].mask.Some? == expectMasked
                                       && (IsControl(tail[i]) ==> Interjection(tail[i])) {
      assert ([f] + tail)[i + 1] == tail[i];
    }
  }

  lemma PatternCons(f: WireFrame, ds: seq<WireFrame>, begun: bool)
    ensures FragmentPattern([f] + ds, begun) <==>
              f.opcode == (if begun then CONTINUATION else BINARY) && f.fin == (ds == []) && FragmentPattern(ds, true)
  {
    var all := [f] + ds;
    if FragmentPattern(all, begun) {
      assert all[0] == f;
      forall i | 0 <= i < |ds| ensures ds[i].opcode == CONTINUATION && ds[i].fin == (i == |ds| - 1) {
        assert all[i + 1] == ds[i];
      }
    }
    if f.opcode == (if begun then CONTINUATION else BINARY) && f.fin == (ds == []) && FragmentPattern(ds, true) {
      forall i | 0 <= i < |all|
        ensures all[i].opcode == (if i == 0 && !begun then BINARY else CONTINUATION) && all[i].fin == (i == |all| - 1)
      {
        if i > 0 { assert all[i] == ds[i - 1]; }
      }
    }
  }

  lemma {:induction false} NoData(fs: seq<WireFrame>)
    ensures DataFrames(fs) == [] <==> forall i :: 0 <= i < |fs| ==> IsControl(fs[i])
  {
    if fs != [] {
      NoData(fs[1..]);
      assert forall i :: 0 <= i < |fs[1..]| ==> fs[1..][i] == fs[i + 1];
      if forall i :: 0 <= i < |fs| ==> IsControl(fs[i]) {
        assert forall i :: 0 <= i < |fs[1..]| ==> IsControl(fs[1..][i]);
      }
      if DataFrames(fs) == [] {
        forall i | 0 <= i < |fs| ensures IsControl(fs[i]) {
          if i > 0 { assert fs[i] == fs[1..][i - 1]; }
        }
      }
    }
  }

  lemma IsMessageData(f: WireFrame, tail: seq<WireFrame>, expectMasked: bool, begun: bool, have: nat)
    requires !IsControl(f)
    ensures IsMessage([f] + tail, expectMasked, begun, have) <==>
              Acceptable(f, expectMasked, have) && f.opcode == (if begun then CONTINUATION else BINARY)
              && (if f.fin then tail == [] else IsMessage(tail, expectMasked, true, have + |f.payload|))
  {
    hide Serializable, Interjection, FragmentPattern, DataFrames, Body;
    var fs := [f] + tail;
    assert fs[1..] == tail;
    DataCons(f, tail);
    PatternCons(f, DataFrames(tail), begun);
    NoData(tail);
    if IsMessage(fs, expectMasked, begun, have) {
      IsMessageTail(f, tail, expectMasked);
      MessageLimitsDown(f, tail, have);
      assert fs[0] == f;
      if tail != [] { assert fs[|fs| - 1] == tail[|tail| - 1]; }
    }
    if Acceptable(f, expectMasked, have) && f.opcode == (if begun then CONTINUATION else BINARY)
       && (if f.fin then tail == [] else IsMessage(tail, expectMasked, true, have + |f.payload|)) {
      MessageLimitsUp(f, tail, have);
      EmptyPattern();
      assert fs[|fs| - 1] == if tail == [] then f else tail[|tail| - 1];
      forall i | 0 <= i < |fs| ensures Serializable(fs[i]) && fs[i].mask.Some? == expectMasked {
        if i > 0 { assert fs[i] == tail[i - 1]; }
      }
    }
  }

  lemma EmptyPattern()
    ensures FragmentPattern([], true)
    ensures DataFrames([]) == [] && Body([]) == []
  {
  }

  lemma DataCons(f: WireFrame, tail: seq<WireFrame>)
    requires !IsControl(f)
    ensures DataFrames([f] + tail) == [f] + DataFrames(tail)
    ensures Body([f] + tail) == f.payload + Body(tail)
  {
    assert ([f] + tail)[1..] == tail;
  }

  lemma MessageLimitsDown(f: WireFrame, tail: seq<WireFrame>, have: nat)
    requires !IsControl(f)
    requires forall i :: 0 <= i < |[f] + tail| ==>
               have + |Body(([f] + tail)[..i])| + |([f] + tail)[i].payload| <= MAX_MESSAGE_SIZE
    ensures have + |f.payload| <= MAX_MESSAGE_SIZE
    ensures forall i :: 0 <= i < |tail| ==>
              have + |f.payload| + |Body(tail[..i])| + |tail[i].payload| <= MAX_MESSAGE_SIZE
  {
    hide Body;
    var fs := [f] + tail;
    EmptyPattern();
    assert fs[..0] == [] && fs[0] == f;
    forall i | 0 <= i < |tail| ensures have + |f.payload| + |Body(tail[..i])| + |tail[i].payload| <= MAX_MESSAGE_SIZE {
      assert fs[..i + 1] == [f] + tail[..i] && fs[i + 1] == tail[i];
      DataCons(f, tail[..i]);
    }
  }

  lemma MessageLimitsUp(f: WireFrame, tail: seq<WireFrame>, have: nat)
    requires !IsControl(f)
    requires have + |f.payload| <= MAX_MESSAGE_SIZE
    requires forall i :: 0 <= i < |tail| ==>
               have + |f.payload| + |Body(tail[..i])| + |tail[i].payload| <= MAX_MESSAGE_SIZE
    ensures forall i :: 0 <= i < |[f] + tail| ==>
              have + |Body(([f] + tail)[..i])| + |([f] + tail)[i].payload| <= MAX_MESSAGE_SIZE
  {
    hide Body;
    var fs := [f] + tail;
    EmptyPattern();
    forall i | 0 <= i < |fs| ensures have + |Body(fs[..i])| + |fs[i].payload| <= MAX_MESSAGE_SIZE {
      if i == 0 {
        assert fs[..0] == [];
      } else {
        assert fs[..i] == [f] + tail[..i - 1] && fs[i] == tail[i - 1];
        DataCons(f, tail[..i - 1]);
      }
    }
  }

  // ----- one turn of the loop -----

  /** Where the loop goes on after an accepted frame, or `None` where it returns. */
  function Next(f: WireFrame, acc: bytes, begun: bool): (r: Option<(bytes, bool)>) {
    if f.opcode == PING || f.opcode == PONG then Some((acc, begun))
    else if f.opcode == BINARY && !begun && !f.fin then Some((f.payload, true))
    else if f.opcode == CONTINUATION && begun && !f.fin then Some((acc + f.payload, true))
    else None
  }

  /** What the call returns on a frame after which it does not go on. */
  function Final(f: WireFrame, rest: bytes, acc: bytes, begun: bool): (o: Outcome) {
    if f.opcode == CLOSE then Outcome(Closed(f.payload), rest, [Reply(CLOSE, f.payload)])
    else if f.opcode == BINARY && !begun then Outcome(Message(f.payload), rest, [])
    else if f.opcode == CONTINUATION && begun then Outcome(Message(acc + f.payload), rest, [])
    else Outcome(Failed, rest, [])
  }

  function PongFor(f: WireFrame): (rs: seq<Reply>) {
    if f.opcode == PING then [Reply(PONG, f.payload)] else []
  }

  function Prepend(rs: seq<Reply>, o: Outcome): (r: Outcome) { o.(replies := rs + o.replies) }

  /** What the loop does next, with the result of its Pong taken into account. */
  lemma ReceiveStep(s: bytes, expectMasked: bool, acc: bytes, begun: bool, room: Room)
    ensures var o := Receive(s, expectMasked, acc, begun, room);
            match ScanFrame(s, expectMasked, |acc|)
            case Refused => o == Outcome(Failed, s, [])
            case Scanned(f, rest) =>
              if f.opcode == PING then
                var size := ReplySize(f.payload, !expectMasked);
                if !Fits(size, room) then o == Outcome(Failed, rest, [Reply(PONG, f.payload)])
                else o == Prepend([Reply(PONG, f.payload)], Receive(rest, expectMasked, acc, begun, Shrink(room, size)))
              else
                var next := Next(f, acc, begun);
                if next.Some? then o == Receive(rest, expectMasked, next.value.0, next.value.1, room)
                else o == Final(f, rest, acc, begun)
  {
    hide ScanFrame, ReplySize;
  }

  lemma ReceiveUnfold(s: bytes, expectMasked: bool, acc: bytes, begun: bool)
    ensures Receive(s, expectMasked, acc, begun, None) ==
            match ScanFrame(s, expectMasked, |acc|)
            case Refused => Outcome(Failed, s, [])
            case Scanned(f, rest) =>
              var next := Next(f, acc, begun);
              if next.Some? then Prepend(PongFor(f), Receive(rest, expectMasked, next.value.0, next.value.1, None))
              else Final(f, rest, acc, begun)
  {
    hide ScanFrame, Receive, ReplySize;
    ReceiveStep(s, expectMasked, acc, begun, None);
    var scan := ScanFrame(s, expectMasked, |acc|);
    if scan.Scanned? {
      var next := Next(scan.frame, acc, begun);
      if next.Some? { PrependNothing(Receive(scan.rest, expectMasked, next.value.0, next.value.1, None)); }
    }
  }

  lemma PrependNothing(o: Outcome)
    ensures Prepend([], o) == o
  {
    assert [] + o.replies == o.replies;
  }

  lemma ReceiveUnfoldRoom(s: bytes, expectMasked: bool, acc: bytes, begun: bool, room: nat)
    ensures Receive(s, expectMasked, acc, begun, Some(room)) ==
            match ScanFrame(s, expectMasked, |acc|)
            case Refused => Outcome(Failed, s, [])
            case Scanned(f, rest) =>
              var next := Next(f, acc, begun);
              var size := RepliesSize(PongFor(f), !expectMasked);
              if next.Some? && size > room then Outcome(Failed, rest, PongFor(f))
              else if next.Some? then
                Prepend(PongFor(f), Receive(rest, expectMasked, next.value.0, next.value.1, Some(room - size)))
              else Final(f, rest, acc, begun)
  {
    hide ScanFrame, Receive, ReplySize, RepliesSize;
    ReceiveStep(s, expectMasked, acc, begun, Some(room));
    var scan := ScanFrame(s, expectMasked, |acc|);
    if scan.Scanned? {
      PongForSize(scan.frame, !expectMasked);
      var next := Next(scan.frame, acc, begun);
      if next.Some? { PrependNothing(Receive(scan.rest, expectMasked, next.value.0, next.value.1, Some(room))); }
    }
  }

  // ----- sound and complete -----

  lemma ConsSerialize(f: WireFrame, tail: seq<WireFrame>)
    requires Serializable(f) && AllSerializable(tail)
    ensures AllSerializable([f] + tail)
    ensures SerializeAll([f] + tail) == Serialize(f) + SerializeAll(tail)
  {
    assert ([f] + tail)[1..] == tail;
  }

  lemma ConsReplies(f: WireFrame, tail: seq<WireFrame>)
    ensures RepliesTo([f] + tail) ==
              (if f.opcode == CLOSE then [Reply(CLOSE, f.payload)] else PongFor(f)) + RepliesTo(tail)
  {
    assert ([f] + tail)[1..] == tail;
  }

  /** Completeness: whatever is left of a message is read to its end, whatever follows it. */
  lemma {:induction false} ReceiveComplete(fs: seq<WireFrame>, expectMasked: bool, acc: bytes, begun: bool, q: bytes)
    requires IsMessage(fs, expectMasked, begun, |acc|)
    requires !begun ==> acc == []
    ensures AllSerializable(fs)
    ensures Receive(SerializeAll(fs) + q, expectMasked, acc, begun, None)
         == Outcome(Message(acc + Body(fs)), q, RepliesTo(fs))
    decreases |fs|
  {
    hide IsMessage, Acceptable, Serialize, SerializeAll, ScanFrame, RepliesTo, Body, Interjection, Serializable, Receive;
    IsMessageSerializable(fs, expectMasked, begun, |acc|);
    MessageNonEmpty(fs, expectMasked, begun, |acc|);
    var f, tail := fs[0], fs[1..];
    assert fs == [f] + tail;
    assert AllSerializable(tail) by { assert forall i :: 0 <= i < |tail| ==> tail[i] == fs[i + 1]; }
    ConsSerialize(f, tail);
    ConsReplies(f, tail);
    BodyCons(f, tail);
    var s, rest := SerializeAll(fs) + q, SerializeAll(tail) + q;
    assert s == Serialize(f) + rest;
    ReceiveUnfold(s, expectMasked, acc, begun);
    if IsControl(f) {
      IsMessageControl(f, tail, expectMasked, begun, |acc|);
      InterjectionOpcode(f);
      ScanComplete(f, expectMasked, |acc|, rest);
      ReceiveComplete(tail, expectMasked, acc, begun, q);
      assert [] + Body(tail) == Body(tail);
    } else {
      IsMessageData(f, tail, expectMasked, begun, |acc|);
      ScanComplete(f, expectMasked, |acc|, rest);
      assert [] + RepliesTo(tail) == RepliesTo(tail);
      if f.fin {
        LastFrame(q);
        assert f.payload + [] == f.payload;
        assert [] + f.payload == f.payload;
      } else {
        ReceiveComplete(tail, expectMasked, acc + f.payload, true, q);
        assert (acc + f.payload) + Body(tail) == acc + (f.payload + Body(tail));
        assert [] + f.payload == f.payload;
      }
    }
  }

  lemma LastFrame(q: bytes)
    ensures SerializeAll([]) + q == q
    ensures RepliesTo([]) == [] && Body([]) == []
  {
  }

  lemma MessageNonEmpty(fs: seq<WireFrame>, expectMasked: bool, begun: bool, have: nat)
    requires IsMessage(fs, expectMasked, begun, have)
    ensures fs != []
  {
  }

  lemma InterjectionOpcode(f: WireFrame)
    ensures Interjection(f) ==> f.opcode == PING || f.opcode == PONG
  {
  }

  lemma BodyCons(f: WireFrame, tail: seq<WireFrame>)
    ensures Body([f] + tail) == (if IsControl(f) then [] else f.payload) + Body(tail)
  {
    assert ([f] + tail)[1..] == tail;
  }

  /** Soundness, with the frames that were read: every byte consumed belongs to them. */
  lemma {:induction false} ReceiveSound(s: bytes, expectMasked: bool, acc: bytes, begun: bool)
    returns (fs: seq<WireFrame>)
    requires !begun ==> acc == []
    requires Receive(s, expectMasked, acc, begun, None).result.Message?
    ensures IsMessage(fs, expectMasked, begun, |acc|) && AllSerializable(fs)
    ensures var o := Receive(s, expectMasked, acc, begun, None);
            s == SerializeAll(fs) + o.rest && o.result.payload == acc + Body(fs)
    decreases |s|
  {
    hide IsMessage, Acceptable, Serialize, SerializeAll, ScanFrame, RepliesTo, Body, Serializable, Receive;
    ScanSound(s, expectMasked, |acc|);
    ReceiveUnfold(s, expectMasked, acc, begun);
    var f, rest := ScanFrame(s, expectMasked, |acc|).frame, ScanFrame(s, expectMasked, |acc|).rest;
    var o := Receive(s, expectMasked, acc, begun, None);
    AcceptableSerializable(f, expectMasked, |acc|);
    Identity(f.payload);
    if IsControl(f) {
      var tail := ReceiveSound(rest, expectMasked, acc, begun);
      fs := [f] + tail;
      AcceptableInterjection(f, expectMasked, |acc|);
      IsMessageControl(f, tail, expectMasked, begun, |acc|);
      ConsSerialize(f, tail);
      BodyCons(f, tail);
      Identity(Body(tail));
      Assoc(Serialize(f), SerializeAll(tail), o.rest);
    } else if f.fin {
      fs := [f] + [];
      EmptyFrames();
      IsMessageData(f, [], expectMasked, begun, |acc|);
      ConsSerialize(f, []);
      BodyCons(f, []);
      Identity(Serialize(f));
    } else {
      var tail := ReceiveSound(rest, expectMasked, acc + f.payload, true);
      fs := [f] + tail;
      IsMessageData(f, tail, expectMasked, begun, |acc|);
      ConsSerialize(f, tail);
      BodyCons(f, tail);
      Assoc(acc, f.payload, Body(tail));
      Assoc(Serialize(f), SerializeAll(tail), o.rest);
    }
  }

  lemma EmptyFrames()
    ensures AllSerializable([]) && SerializeAll([]) == [] && Body([]) == []
  {
  }

  lemma AcceptableSerializable(f: WireFrame, expectMasked: bool, have: nat)
    ensures Acceptable(f, expectMasked, have) ==> Serializable(f)
  {
  }

  lemma AcceptableInterjection(f: WireFrame, expectMasked: bool, have: nat)
    requires Acceptable(f, expectMasked, have) && (f.opcode == PING || f.opcode == PONG)
    ensures Interjection(f)
  {
  }

  /** `q` is what is left of the stream after one whole message with body `p`. */
  ghost predicate StartsWithMessage(s: bytes, expectMasked: bool, p: bytes, q: bytes) {
    exists fs: seq<WireFrame> ::
      IsMessage(fs, expectMasked, false, 0) && AllSerializable(fs) && s == SerializeAll(fs) + q && p == Body(fs)
  }

  /** `wsRecvFrame` returns a message iff the stream starts with one of the grammar; the payload is the
      concatenation of the unmasked fragments, within 1 MiB, and exactly the frames' bytes are consumed. */
  lemma MessageIff(s: bytes, expectMasked: bool, p: bytes, q: bytes)
    ensures var o := Receive(s, expectMasked, [], false, None);
            o.result == Message(p) && o.rest == q <==> StartsWithMessage(s, expectMasked, p, q)
    ensures StartsWithMessage(s, expectMasked, p, q) ==> |p| <= 1048576
  {
    hide IsMessage, SerializeAll, Body, Receive;
    var o := Receive(s, expectMasked, [], false, None);
    if o.result == Message(p) && o.rest == q {
      var fs := ReceiveSound(s, expectMasked, [], false);
      assert [] + Body(fs) == Body(fs);
    }
    if StartsWithMessage(s, expectMasked, p, q) {
      var fs :| IsMessage(fs, expectMasked, false, 0) && AllSerializable(fs) && s == SerializeAll(fs) + q && p == Body(fs);
      ReceiveComplete(fs, expectMasked, [], false, q);
      assert [] + Body(fs) == Body(fs);
      BodyBound(fs, expectMasked, false, 0);
    }
  }

  lemma BodyBound(fs: seq<WireFrame>, expectMasked: bool, begun: bool, have: nat)
    requires IsMessage(fs, expectMasked, begun, have)
    ensures have + |Body(fs)| <= MAX_MESSAGE_SIZE
  {
    hide Body, FragmentPattern, Serializable, DataFrames, Interjection;
    var n := |fs| - 1;
    assert fs == fs[..n] + [fs[n]];
    BodyAppend(fs[..n], fs[n]);
    assert have + |Body(fs[..n])| + |fs[n].payload| <= MAX_MESSAGE_SIZE;
  }

  lemma {:induction false} BodyAppend(fs: seq<WireFrame>, f: WireFrame)
    ensures Body(fs + [f]) == Body(fs) + (if IsControl(f) then [] else f.payload)
  {
    if fs == [] {
      assert [] + [f] == [f] && [f][1..] == [];
    } else {
      BodyAppend(fs[1..], f);
      assert (fs + [f])[0] == fs[0] && (fs + [f])[1..] == fs[1..] + [f];
      Assoc(if IsControl(fs[0]) then [] else fs[0].payload, Body(fs[1..]), if IsControl(f) then [] else f.payload);
    }
  }

  // ----- control traffic -----

  /** Over every call, whatever its result: the frames read are a prefix of the stream, there is one Pong
      per Ping with the same data in the same order, and a Close echo can only be the last reply. */
  lemma {:induction false} ControlTraffic(s: bytes, expectMasked: bool, acc: bytes, begun: bool)
    returns (fs: seq<WireFrame>)
    ensures AllSerializable(fs)
    ensures forall i :: 0 <= i < |fs| ==> fs[i].mask.Some? == expectMasked
    ensures forall i :: 0 <= i < |fs| && fs[i].opcode == CLOSE ==> i == |fs| - 1
    ensures var o := Receive(s, expectMasked, acc, begun, None);
            s == SerializeAll(fs) + o.rest && o.replies == RepliesTo(fs)
            && (o.result.Closed? <==> fs != [] && fs[|fs| - 1].opcode == CLOSE)
    ensures forall i :: 0 <= i < |Receive(s, expectMasked, acc, begun, None).replies| ==>
              |Receive(s, expectMasked, acc, begun, None).replies[i].payload| <= 125
    decreases |s|
  {
    hide Acceptable, Serialize, SerializeAll, ScanFrame, RepliesTo, Serializable, Receive;
    ReceiveUnfold(s, expectMasked, acc, begun);
    ScanSound(s, expectMasked, |acc|);
    EmptyFrames();
    if ScanFrame(s, expectMasked, |acc|).Refused? {
      fs := [];
      LastFrame(s);
    } else {
      var f, rest := ScanFrame(s, expectMasked, |acc|).frame, ScanFrame(s, expectMasked, |acc|).rest;
      AcceptableSerializable(f, expectMasked, |acc|);
      AcceptableControl(f, expectMasked, |acc|);
      var next := Next(f, acc, begun);
      if next.Some? {
        var tail := ControlTraffic(rest, expectMasked, next.value.0, next.value.1);
        fs := [f] + tail;
        ConsSerialize(f, tail);
        ConsReplies(f, tail);
      } else {
        fs := [f];
        assert [f] + [] == [f];
        ConsSerialize(f, []);
        ConsReplies(f, []);
        LastFrame([]);
        assert Serialize(f) + [] == Serialize(f);
      }
    }
  }

  lemma AcceptableControl(f: WireFrame, expectMasked: bool, have: nat)
    requires Acceptable(f, expectMasked, have)
    ensures f.mask.Some? == expectMasked
    ensures IsControl(f) ==> |f.payload| <= 125
  {
  }

  /** The reply frame on the wire, for the key drawn. */
  function ReplyFrame(r: Reply, masked: bool, key: Key): (f: WireFrame) {
    ControlFrame(r.opcode, r.payload, if masked then Some(key) else None)
  }

  /** A reply obeys the other endpoint's mask rule: that endpoint scans it, wherever it stands in the
      stream and whatever its key, unless its own size limit is reached. */
  lemma ReplyAccepted(r: Reply, expectMasked: bool, key: Key, have: nat, q: bytes)
    requires r.opcode == PONG || r.opcode == CLOSE
    requires |r.payload| <= 125
    ensures var f := ReplyFrame(r, !expectMasked, key);
            Serializable(f) && |Serialize(f)| == ReplySize(r.payload, !expectMasked)
            && (ScanFrame(Serialize(f) + q, !expectMasked, have) == Scanned(f, q)
                <==> have + |r.payload| <= MAX_MESSAGE_SIZE)
  {
    hide ScanFrame;
    var f := ReplyFrame(r, !expectMasked, key);
    ScanIff(Serialize(f) + q, !expectMasked, have, f, q);
  }

  // ----- a connection that stops accepting bytes -----

  function RepliesSize(rs: seq<Reply>, masked: bool): (n: nat) {
    if rs == [] then 0 else ReplySize(rs[0].payload, masked) + RepliesSize(rs[1..], masked)
  }

  function Pongs(rs: seq<Reply>): (ps: seq<Reply>) {
    if rs == [] then [] else (if rs[0].opcode == PONG then [rs[0]] else []) + Pongs(rs[1..])
  }

  /** A failing `send` shows only through a Pong: with room for every Pong the call gives what it gives on
      a connection that never fails, and without it the call fails. */
  lemma {:induction false} ReceiveRoom(s: bytes, expectMasked: bool, acc: bytes, begun: bool, room: nat)
    ensures var o, free := Receive(s, expectMasked, acc, begun, Some(room)), Receive(s, expectMasked, acc, begun, None);
            if RepliesSize(Pongs(free.replies), !expectMasked) <= room then o == free else o.result.Failed?
    decreases |s|
  {
    hide ScanFrame, Receive, RepliesSize, Pongs;
    ReceiveUnfold(s, expectMasked, acc, begun);
    ReceiveUnfoldRoom(s, expectMasked, acc, begun, room);
    NoPongs();
    var scan := ScanFrame(s, expectMasked, |acc|);
    if scan.Scanned? {
      var f, rest := scan.frame, scan.rest;
      PongForSize(f, !expectMasked);
      var next := Next(f, acc, begun);
      if next.Some? {
        var size := RepliesSize(PongFor(f), !expectMasked);
        var free := Receive(rest, expectMasked, next.value.0, next.value.1, None);
        PongsPrepend(f, free.replies, !expectMasked);
        if size <= room {
          ReceiveRoom(rest, expectMasked, next.value.0, next.value.1, room - size);
        }
      } else {
        FinalPongs(f, rest, acc, begun);
      }
    }
  }

  lemma NoPongs()
    ensures Pongs([]) == [] && forall masked :: RepliesSize([], masked) == 0
  {
  }

  lemma PongForSize(f: WireFrame, masked: bool)
    ensures RepliesSize(PongFor(f), masked) == if f.opcode == PING then ReplySize(f.payload, masked) else 0
  {
  }

  lemma FinalPongs(f: WireFrame, rest: bytes, acc: bytes, begun: bool)
    ensures Pongs(Final(f, rest, acc, begun).replies) == []
  {
  }

  lemma PongsPrepend(f: WireFrame, rs: seq<Reply>, masked: bool)
    ensures RepliesSize(Pongs(PongFor(f) + rs), masked) == RepliesSize(PongFor(f), masked) + RepliesSize(Pongs(rs), masked)
  {
    if f.opcode == PING {
      PongsCons(Reply(PONG, f.payload), rs, masked);
    } else {
      assert [] + rs == rs;
    }
  }

  lemma PongsCons(r: Reply, rs: seq<Reply>, masked: bool)
    requires r.opcode == PONG
    ensures RepliesSize(Pongs([r] + rs), masked) == ReplySize(r.payload, masked) + RepliesSize(Pongs(rs), masked)
  {
    assert ([r] + rs)[1..] == rs;
    var ps := Pongs([r] + rs);
    assert ps == [r] + Pongs(rs) && ps[1..] == Pongs(rs);
  }

  // ----- on the wire, in numbers -----

  function MaskedFrame(first: byte, data: bytes, key: Key): (s: bytes)
    requires |data| <= 125
  {
    [first, 0x80 + |data|] + key + Mask(data, key)
  }

  lemma MaskedFrameIs(fin: bool, opcode: nat, data: bytes, key: Key)
    requires opcode < 16 && |data| <= 125
    ensures var f := WireFrame(fin, opcode, Some(key), Short, data);
            Serializable(f) && Serialize(f) == MaskedFrame((if fin then 0x80 else 0) + opcode, data, key)
  {
    hide Mask, Xor;
    var f := WireFrame(fin, opcode, Some(key), Short, data);
    ThreeParts(FirstByte(f), 0x80 + |data|, key, Mask(data, key));
  }

  lemma ThreeParts(x: byte, y: byte, k: bytes, d: bytes)
    ensures [x] + ([y] + (k + d)) == [x, y] + k + d
  {
  }

  /** A binary message in two fragments, 02 and 80, with a Ping, 89, between them: the message is the two
      together, and the Ping is answered by a Pong, opcode 0A, with the same data. */
  lemma TwoFragmentsAndPing(a: bytes, p: bytes, b: bytes, k1: Key, k2: Key, k3: Key, q: bytes)
    requires |a| <= 125 && |p| <= 125 && |b| <= 125
    ensures Receive(MaskedFrame(0x02, a, k1) + MaskedFrame(0x89, p, k2) + MaskedFrame(0x80, b, k3) + q, true, [], false, None)
         == Outcome(Message(a + b), q, [Reply(0x0A, p)])
  {
    hide Receive, ScanFrame, Serialize, MaskedFrame, ReplySize;
    var f1 := WireFrame(false, BINARY, Some(k1), Short, a);
    var f2 := WireFrame(true, PING, Some(k2), Short, p);
    var f3 := WireFrame(true, CONTINUATION, Some(k3), Short, b);
    MaskedFrameIs(false, BINARY, a, k1);
    MaskedFrameIs(true, PING, p, k2);
    MaskedFrameIs(true, CONTINUATION, b, k3);
    var s3 := MaskedFrame(0x80, b, k3) + q;
    var s2 := MaskedFrame(0x89, p, k2) + s3;
    var s1 := MaskedFrame(0x02, a, k1) + s2;
    assert MaskedFrame(0x02, a, k1) + MaskedFrame(0x89, p, k2) + MaskedFrame(0x80, b, k3) + q == s1;
    ScanComplete(f1, true, 0, s2);
    ScanComplete(f2, true, |a|, s3);
    ScanComplete(f3, true, |a|, q);
    ReceiveStep(s1, true, [], false, None);
    ReceiveStep(s2, true, a, true, None);
    ReceiveStep(s3, true, a, true, None);
  }

  lemma LongFrameIs(data: bytes)
    requires |data| < TWO_63
    ensures var f := WireFrame(true, BINARY, None, Long, data);
            Serializable(f) && Serialize(f) == [0x82, 0x7F] + U64(|data|) + data
  {
    hide ToBigEndian;
    var f := WireFrame(true, BINARY, None, Long, data);
    assert KeyBytes(f.mask) + WirePayload(f) == data;
    assert LengthBytes(Long, false, |data|) == [0x7F] + U64(|data|);
  }

  /** The limit is 1048576 bytes. */
  lemma LimitInNumbers(data: bytes, q: bytes)
    requires |data| < TWO_63
    ensures Receive([0x82, 0x7F] + U64(|data|) + data + q, false, [], false, None).result ==
              if |data| <= 1048576 then Message(data) else Failed
  {
    hide Receive, ScanFrame, Serialize, ToBigEndian, ReplySize;
    var f := WireFrame(true, BINARY, None, Long, data);
    LongFrameIs(data);
    var s := Serialize(f) + q;
    ReceiveStep(s, false, [], false, None);
    if |data| <= 1048576 { ScanComplete(f, false, 0, q); } else { OversizeRefused(f, false, 0, q); }
  }
}
