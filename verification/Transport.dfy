/** The C++ transport as it is written: partial reads and writes, frame senders that build a buffer byte
    by byte, and the receive loop, over a socket that splits every transfer as it likes. */
module Transport {
  import opened Bytes
  import opened Framing
  import opened Receiver

  /** As much of `data` as the connection still accepts. */
  function Accepted(data: bytes, room: Room): (s: bytes) {
    if Fits(|data|, room) then data else data[..room.value]
  }

  lemma AcceptedAppend(a: bytes, b: bytes, room: Room)
    requires Fits(|a|, room)
    ensures Accepted(a + b, room) == a + Accepted(b, Shrink(room, |a|))
    ensures Fits(|a + b|, room) <==> Fits(|b|, Shrink(room, |a|))
  {
    if room.Some? && |a| + |b| > room.value {
      assert (a + b)[..room.value] == a + b[..room.value - |a|];
    }
  }

  /** The two-byte or eight-byte length, most significant byte first. */
  method PushLength(frame: bytes, bit: byte, len: nat) returns (out: bytes)
    requires bit == 0 || bit == 0x80
    requires len < TWO_63
    ensures out == frame + LengthBytes(MinimalForm(len), bit == 0x80, len)
  {
    hide ToBigEndian, Pow256;
    out := frame;
    if len < 126 {
      out := out + [bit + len];
    } else if len <= 65535 {
      out := out + [bit + 126];
      out := out + [(len / 256) % 256];
      out := out + [len % 256];
      U16Bytes(len);
    } else {
      out := out + [bit + 127];
      ghost var head := out;
      EmptyBigEndian(len);
      Identity(U64(len));
      var i := 7;
      while i >= 0
        invariant -1 <= i <= 7
        invariant out + ToBigEndian(len, i + 1) == head + U64(len)
      {
        ToBigEndianHead(len, i + 1);
        var b: byte := (len / Pow256(i)) % 256;
        Assoc(out, [b], ToBigEndian(len, i));
        out := out + [b];
        i := i - 1;
      }
      Identity(out);
    }
  }

  method PushMasked(frame: bytes, data: bytes, key: Key) returns (out: bytes)
    ensures out == frame + Mask(data, key)
  {
    hide Xor;
    out := frame;
    var i := 0;
    Identity(frame);
    while i < |data|
      invariant 0 <= i <= |data|
      invariant out == frame + Mask(data, key)[..i]
    {
      out := out + [Xor(data[i], key[i % 4])];
      i := i + 1;
    }
    assert Mask(data, key)[..i] == Mask(data, key);
  }

  /** One end of a connection. `incoming` is everything the peer sends before the stream ends, by an
      orderly close or an error; `keys` are the random masking keys, in the order they are drawn. */
  class Socket {
    const incoming: bytes
    const keys: nat -> Key
    var pos: nat
    var sent: bytes
    var room: Room
    var drawn: nat

    constructor (incoming: bytes, room: Room, keys: nat -> Key)
      ensures Valid() && this.incoming == incoming == Left() && sent == [] && this.room == room && drawn == 0 && this.keys == keys
    {
      this.incoming := incoming;
      this.keys := keys;
      this.room := room;
      pos, sent, drawn := 0, [], 0;
    }

    ghost predicate Valid()
      reads this
    {
      pos <= |incoming|
    }

    ghost function Left(): (s: bytes)
      requires Valid()
      reads this
    {
      incoming[pos..]
    }

    /** `recv`: any non-empty piece of what is left, at most `max` bytes. */
    method Recv(max: nat) returns (n: int, chunk: bytes)
      requires Valid() && max > 0
      modifies this`pos
      ensures Valid() && pos >= old(pos) && n == |chunk| <= max
      ensures n == 0 <==> old(Left()) == []
      ensures old(Left()) == chunk + Left()
    {
      if pos == |incoming| {
        return 0, [];
      }
      n :| 1 <= n <= max && n <= |incoming| - pos;
      chunk := incoming[pos..pos + n];
      pos := pos + n;
      assert incoming[old(pos)..] == chunk + incoming[pos..];
    }

    /** `send`: takes any non-empty prefix it has room for; zero when there is none. */
    method Send(data: bytes) returns (n: int)
      requires data != []
      modifies this`sent, this`room
      ensures 0 <= n <= |data| && Fits(n, old(room))
      ensures n == 0 <==> old(room) == Some(0)
      ensures sent == old(sent) + data[..n] && room == Shrink(old(room), n)
    {
      if room == Some(0) {
        assert data[..0] == [];
        return 0;
      }
      n :| 1 <= n <= |data| && Fits(n, room);
      sent := sent + data[..n];
      room := Shrink(room, n);
    }

    method RecvAll(len: nat) returns (ok: bool, buf: bytes)
      requires Valid()
      modifies this`pos
      ensures Valid() && pos >= old(pos)
      ensures ok <==> |old(Left())| >= len
      ensures ok ==> |buf| == len && old(Left()) == buf + Left()
    {
      buf := [];
      while |buf| < len
        invariant |buf| <= len && Valid() && pos >= old(pos)
        invariant old(Left()) == buf + Left()
      {
        ghost var before := buf;
        var n, chunk := Recv(len - |buf|);
        Assoc(before, chunk, Left());
        if n <= 0 { return false, buf; }
        buf := buf + chunk;
      }
      ok := true;
    }

    method SendAll(data: bytes) returns (ok: bool)
      modifies this`sent, this`room
      ensures ok <==> Fits(|data|, old(room))
      ensures sent == old(sent) + Accepted(data, old(room))
      ensures ok ==> room == Shrink(old(room), |data|)
    {
      var total := 0;
      Identity(sent);
      assert data[..0] == [];
      while total < |data|
        invariant 0 <= total <= |data| && Fits(total, old(room))
        invariant room == Shrink(old(room), total)
        invariant sent == old(sent) + data[..total]
      {
        var n := Send(data[total..]);
        assert data[..total] + data[total..][..n] == data[..total + n];
        if n <= 0 { return false; }
        total := total + n;
      }
      assert data[..total] == data;
      ok := true;
    }

    // ----- senders -----

    method SendBinary(data: bytes) returns (ok: bool)
      requires |data| < TWO_63
      modifies this`sent, this`room
      ensures var frame := Serialize(BinaryFrame(data, None));
              ok == Fits(|frame|, old(room)) && sent == old(sent) + Accepted(frame, old(room))
              && (ok ==> room == Shrink(old(room), |frame|))
    {
      hide LengthBytes;
      var frame: bytes := [0x82];
      frame := PushLength(frame, 0, |data|);
      frame := frame + data;
      ghost var f := BinaryFrame(data, None);
      assert frame == Serialize(f) by {
        var lb := LengthBytes(f.form, false, |data|);
        assert frame == [0x82] + lb + data;
        Identity(data);
        assert [0x82] + lb + data == [0x82] + (lb + ([] + data));
      }
      ok := SendAll(frame);
    }

    method SendBinaryMasked(data: bytes) returns (ok: bool)
      requires |data| < TWO_63
      modifies this`sent, this`room, this`drawn
      ensures drawn == old(drawn) + 1
      ensures var frame := Serialize(BinaryFrame(data, Some(keys(old(drawn)))));
              ok == Fits(|frame|, old(room)) && sent == old(sent) + Accepted(frame, old(room))
              && (ok ==> room == Shrink(old(room), |frame|))
    {
      hide LengthBytes, Xor;
      var mask := keys(drawn);
      drawn := drawn + 1;
      var frame: bytes := [0x82];
      frame := PushLength(frame, 0x80, |data|);
      ghost var f := BinaryFrame(data, Some(mask));
      ghost var lb := LengthBytes(f.form, true, |data|);
      frame := frame + mask;
      ghost var head := frame;
      frame := PushMasked(frame, data, mask);
      assert frame == Serialize(f) by {
        assert frame == [0x82] + lb + mask + Mask(data, mask);
        assert frame == [0x82] + (lb + (mask + Mask(data, mask)));
      }
      ok := SendAll(frame);
    }

    method SendControl(opcode: nat, payload: bytes, masked: bool) returns (ok: bool)
      requires opcode < 16
      modifies this`sent, this`room, this`drawn
      ensures drawn == old(drawn) + (if masked && |payload| <= 125 then 1 else 0)
      ensures |payload| > 125 ==> !ok && sent == old(sent) && room == old(room)
      ensures |payload| <= 125 ==>
                var frame := Serialize(ReplyFrame(Reply(opcode, payload), masked, keys(old(drawn))));
                ok == Fits(|frame|, old(room)) && sent == old(sent) + Accepted(frame, old(room))
                && (ok ==> room == Shrink(old(room), |frame|))
    {
      hide Xor;
      if |payload| > 125 { return false; }
      var out: bytes := [0x80 + opcode];
      out := out + [(if masked then 0x80 else 0) + |payload|];
      ghost var f := ReplyFrame(Reply(opcode, payload), masked, keys(drawn));
      if masked {
        var key := keys(drawn);
        drawn := drawn + 1;
        out := out + key;
        out := PushMasked(out, payload, key);
        assert out == [FirstByte(f)] + (LengthBytes(Short, true, |payload|) + (key + Mask(payload, key)));
      } else {
        out := out + payload;
        Identity(payload);
        assert out == [FirstByte(f)] + (LengthBytes(Short, false, |payload|) + ([] + payload));
      }
      ok := SendAll(out);
    }

    // ----- the receiver -----

    /** The reading part of one turn of `wsRecvFrame`'s loop. */
    method ReadFrame(expectMasked: bool, have: nat) returns (r: Option<WireFrame>)
      requires Valid()
      modifies this`pos
      ensures Valid() && pos >= old(pos)
      ensures match ScanFrame(old(Left()), expectMasked, have)
              case Refused => r == None
              case Scanned(f, rest) => r == Some(f) && Left() == rest
    {
      hide FromBigEndian, Mask, WithinLimits;
      var ok, hdr := RecvAll(2);
      if !ok { return None; }
      ghost var s := old(Left());
      assert s[0] == hdr[0] && s[1] == hdr[1] && s[2..] == Left();
      var fin := hdr[0] >= 0x80;
      if (hdr[0] / 16) % 8 != 0 { return None; }
      var opcode := hdr[0] % 16;
      var masked := hdr[1] >= 0x80;
      if masked != expectMasked { return None; }
      var l := ReadLength(hdr[1] % 0x80);
      if l.None? { return None; }
      var (form, payloadLen) := l.value;
      if !WithinLimits(fin, opcode, payloadLen, have) { return None; }
      r := ReadBody(fin, opcode, masked, form, payloadLen);
    }

    method ReadLength(len7: nat) returns (r: Option<(LengthForm, nat)>)
      requires Valid()
      modifies this`pos
      ensures Valid() && pos >= old(pos)
      ensures match ScanLength(len7, old(Left()))
              case NoLength => r == None
              case Length(form, n, rest) => r == Some((form, n)) && Left() == rest
    {
      hide FromBigEndian;
      ghost var s := Left();
      if len7 == 126 {
        var ok, ext := RecvAll(2);
        if !ok { return None; }
        assert s[..2] == ext && s[2..] == Left();
        TwoBytesValue(ext);
        var a: int, b: int := ext[0], ext[1];
        r := Some((Medium, a * 256 + b));
      } else if len7 == 127 {
        var ok, ext := RecvAll(8);
        if !ok { return None; }
        assert s[..8] == ext && s[8..] == Left() && s[0] == ext[0];
        if ext[0] >= 0x80 { return None; }
        var payloadLen: nat := 0;
        EmptyValue();
        var i := 0;
        while i < 8
          invariant 0 <= i <= 8
          invariant payloadLen == FromBigEndian(ext[..i])
          invariant Valid() && Left() == s[8..] && pos >= old(pos)
        {
          NextValue(ext, i);
          payloadLen := payloadLen * 256 + ext[i];
          i := i + 1;
        }
        assert ext[..8] == ext;
        r := Some((Long, payloadLen));
      } else {
        r := Some((Short, len7));
      }
    }

    method ReadBody(fin: bool, opcode: nat, masked: bool, form: LengthForm, n: nat) returns (r: Option<WireFrame>)
      requires Valid()
      modifies this`pos
      ensures Valid() && pos >= old(pos)
      ensures match ScanBody(fin, opcode, masked, form, n, old(Left()))
              case Refused => r == None
              case Scanned(f, rest) => r == Some(f) && Left() == rest
    {
      hide Xor;
      ghost var s := Left();
      var mask: bytes := [0, 0, 0, 0];
      if masked {
        var ok, key := RecvAll(4);
        if !ok { return None; }
        mask := key;
        assert s[..4] == mask && s[4..] == Left();
      }
      ghost var s' := Left();
      var payload: bytes := [];
      if n > 0 {
        var ok, data := RecvAll(n);
        if !ok { return None; }
        payload := data;
      }
      assert s'[..n] == payload && s'[n..] == Left();
      if masked {
        assert s[4..4 + n] == payload && s[4 + n..] == Left();
        var clear := Unmask(payload, mask);
        r := Some(WireFrame(fin, opcode, Some(mask), form, clear));
      } else {
        r := Some(WireFrame(fin, opcode, None, form, payload));
      }
    }

    /** The in-place unmasking loop. */
    method Unmask(payload: bytes, key: Key) returns (clear: bytes)
      ensures clear == Mask(payload, key)
    {
      hide Xor;
      var buf := new byte[|payload|](i requires 0 <= i < |payload| => payload[i]);
      var i := 0;
      while i < buf.Length
        invariant 0 <= i <= buf.Length == |payload|
        invariant forall j :: 0 <= j < i ==> buf[j] == Xor(payload[j], key[j % 4])
        invariant forall j :: i <= j < buf.Length ==> buf[j] == payload[j]
      {
        buf[i] := Xor(buf[i], key[i % 4]);
        i := i + 1;
      }
      clear := buf[..];
      assert forall j :: 0 <= j < |payload| ==> clear[j] == Mask(payload, key)[j];
    }

    /** Since the call began with `sent0`, `room0` and `next0` keys drawn, the replies `done` went out whole. */
    ghost predicate Answered(done: seq<Reply>, masked: bool, sent0: bytes, room0: Room, next0: nat)
      reads this
    {
      GoodReplies(done)
      && var out := ReplyBytes(done, masked, keys, next0);
         sent == sent0 + out && Fits(|out|, room0) && room == Shrink(room0, |out|) && (masked ==> drawn == next0 + |done|)
    }

    /** One reply more: whole if there is room for it, cut off otherwise. */
    method Answer(opcode: nat, payload: bytes, masked: bool,
                  ghost done: seq<Reply>, ghost sent0: bytes, ghost room0: Room, ghost next0: nat) returns (ok: bool)
      requires Answered(done, masked, sent0, room0, next0) && GoodReply(Reply(opcode, payload))
      modifies this`sent, this`room, this`drawn
      ensures ok == Fits(ReplySize(payload, masked), old(room))
      ensures ok ==> room == Shrink(old(room), ReplySize(payload, masked))
                     && Answered(done + [Reply(opcode, payload)], masked, sent0, room0, next0)
      ensures GoodReplies(done + [Reply(opcode, payload)])
              && sent == sent0 + Accepted(ReplyBytes(done + [Reply(opcode, payload)], masked, keys, next0), room0)
      ensures old(room) == None ==> room == None
    {
      hide Serialize, Accepted, ReplyBytes, ReplyFrame, ReplySize;
      ghost var reply, key := Reply(opcode, payload), keys(drawn);
      ghost var out := ReplyBytes(done, masked, keys, next0);
      ReplyLength(reply, masked, key);
      ghost var more := Serialize(ReplyFrame(reply, masked, key));
      ContinueReceive(done, reply, masked, keys, next0, key);
      AcceptedAppend(out, more, room0);
      Assoc(sent0, out, Accepted(more, room));
      if Fits(|more|, room) {
        AcceptedAll(more, room);
        ShrinkTwice(room0, |out|, |more|);
      }
      ok := SendControl(opcode, payload, masked);
    }

    /** `wsRecvFrame`, with the control frames it sends on the way. */
    method RecvFrame(expectMasked: bool) returns (r: Received)
      requires Valid()
      modifies this
      ensures Valid() && IsSuffix(Left(), old(Left()))
      ensures GoodReplies(Receive(old(Left()), expectMasked, [], false, old(room)).replies)
      ensures var o := Receive(old(Left()), expectMasked, [], false, old(room));
              r == o.result && IsSuffix(Left(), o.rest) && (!r.Failed? ==> Left() == o.rest)
              && sent == old(sent) + Accepted(ReplyBytes(o.replies, !expectMasked, keys, old(drawn)), old(room))
      ensures old(room) == None ==> room == None
    {
      hide ScanFrame, Serialize, ReplySize, Accepted, ReplyBytes, Receive, Acceptable;
      ghost var whole := Receive(Left(), expectMasked, [], false, room);
      ReceiveGoodReplies(Left(), expectMasked, [], false, room);
      var message: bytes := [];
      var fragmented := false;
      ghost var done: seq<Reply> := [];
      StartReceive(whole, keys, drawn, room, sent);
      while true
        invariant Valid() && pos >= old(pos)
        invariant whole == Prepend(done, Receive(Left(), expectMasked, message, fragmented, room))
        invariant Answered(done, !expectMasked, old(sent), old(room), old(drawn))
        decreases |Left()|
      {
        ghost var here := Left();
        ReceiveStep(here, expectMasked, message, fragmented, room);
        AcceptedAll(ReplyBytes(done, !expectMasked, keys, old(drawn)), old(room));
        assert done + [] == done;
        var read := ReadFrame(expectMasked, |message|);
        if read.None? { return Failed; }
        var frame := read.value;
        ScanSound(here, expectMasked, |message|);
        AcceptableControl(frame, expectMasked, |message|);
        assert |Left()| < |here|;
        if frame.opcode == CLOSE {
          var ignored := Answer(CLOSE, frame.payload, !expectMasked, done, old(sent), old(room), old(drawn));
          return Closed(frame.payload);
        }
        if frame.opcode == PING {
          var ok := Answer(PONG, frame.payload, !expectMasked, done, old(sent), old(room), old(drawn));
          if !ok { return Failed; }
          PrependTwice(done, [Reply(PONG, frame.payload)], Receive(Left(), expectMasked, message, fragmented, room));
          done := done + [Reply(PONG, frame.payload)];
          continue;
        }
        if frame.opcode == PONG { continue; }
        if frame.opcode == BINARY && !fragmented {
          message := frame.payload;
          if frame.fin { return Message(message); }
          fragmented := true;
          continue;
        }
        if frame.opcode == CONTINUATION && fragmented {
          message := message + frame.payload;
          if frame.fin { return Message(message); }
          continue;
        }
        return Failed;
      }
    }
  }

  // ----- lemmas for the methods -----

  lemma EmptyBigEndian(v: nat)
    ensures ToBigEndian(v, 0) == []
  {
  }

  lemma EmptyValue()
    ensures FromBigEndian([]) == 0
  {
  }

  lemma NextValue(s: bytes, i: nat)
    requires i < |s|
    ensures FromBigEndian(s[..i + 1]) == FromBigEndian(s[..i]) * 256 + s[i]
  {
    assert s[..i + 1][..i] == s[..i];
  }

  lemma TwoBytesValue(s: bytes)
    requires |s| == 2
    ensures FromBigEndian(s) == (s[0] as int) * 256 + s[1]
  {
    NextValue(s, 0);
    NextValue(s, 1);
    assert s[..2] == s && s[..0] == [];
  }

  predicate GoodReply(r: Reply) { (r.opcode == PONG || r.opcode == CLOSE) && |r.payload| <= 125 }

  predicate GoodReplies(rs: seq<Reply>) { forall i :: 0 <= i < |rs| ==> GoodReply(rs[i]) }

  /** The bytes of a list of replies; the `i`-th masked one uses the `i`-th key drawn. */
  function ReplyBytes(rs: seq<Reply>, masked: bool, keys: nat -> Key, next: nat): (s: bytes)
    requires GoodReplies(rs)
  {
    if rs == [] then []
    else Serialize(ReplyFrame(rs[0], masked, keys(next))) + ReplyBytes(rs[1..], masked, keys, next + 1)
  }

  lemma {:induction false} ReplyBytesAppend(rs: seq<Reply>, r: Reply, masked: bool, keys: nat -> Key, next: nat)
    requires GoodReplies(rs) && GoodReply(r)
    ensures GoodReplies(rs + [r])
    ensures ReplyBytes(rs + [r], masked, keys, next) ==
              ReplyBytes(rs, masked, keys, next) + Serialize(ReplyFrame(r, masked, keys(next + |rs|)))
    decreases |rs|
  {
    hide Serialize, ReplyFrame;
    GoodReplySerializable(r, masked, keys(next + |rs|));
    if rs == [] {
      assert [] + [r] == [r] && [r][1..] == [];
      Identity(Serialize(ReplyFrame(r, masked, keys(next))));
    } else {
      GoodReplySerializable(rs[0], masked, keys(next));
      assert (rs + [r])[0] == rs[0] && (rs + [r])[1..] == rs[1..] + [r];
      ReplyBytesAppend(rs[1..], r, masked, keys, next + 1);
      Assoc(Serialize(ReplyFrame(rs[0], masked, keys(next))), ReplyBytes(rs[1..], masked, keys, next + 1),
            Serialize(ReplyFrame(r, masked, keys(next + |rs|))));
    }
  }

  lemma GoodReplySerializable(r: Reply, masked: bool, key: Key)
    requires GoodReply(r)
    ensures Serializable(ReplyFrame(r, masked, key))
  {
  }

  lemma ReplyLength(r: Reply, masked: bool, key: Key)
    requires GoodReply(r)
    ensures Serializable(ReplyFrame(r, masked, key))
    ensures |Serialize(ReplyFrame(r, masked, key))| == ReplySize(r.payload, masked)
  {
  }

  /** An unmasked reply does not depend on a key. */
  lemma KeyUnused(r: Reply, key: Key, other: Key)
    ensures ReplyFrame(r, false, key) == ReplyFrame(r, false, other)
  {
  }

  lemma AcceptedAll(data: bytes, room: Room)
    ensures Fits(|data|, room) ==> Accepted(data, room) == data
  {
  }

  lemma ShrinkTwice(room: Room, a: nat, b: nat)
    requires Fits(a, room) && Fits(b, Shrink(room, a))
    ensures Fits(a + b, room) && Shrink(Shrink(room, a), b) == Shrink(room, a + b)
  {
  }

  lemma PrependTwice(a: seq<Reply>, b: seq<Reply>, o: Outcome)
    ensures Prepend(a, Prepend(b, o)) == Prepend(a + b, o)
  {
    assert a + (b + o.replies) == (a + b) + o.replies;
  }

  lemma StartReceive(o: Outcome, keys: nat -> Key, next: nat, room: Room, sent: bytes)
    ensures o == Prepend([], o) && sent + [] == sent
    ensures forall masked :: ReplyBytes([], masked, keys, next) == []
    ensures Fits(0, room) && Shrink(room, 0) == room
  {
    assert [] + o.replies == o.replies;
  }

  lemma {:induction false} ReceiveGoodReplies(s: bytes, expectMasked: bool, acc: bytes, begun: bool, room: Room)
    ensures GoodReplies(Receive(s, expectMasked, acc, begun, room).replies)
    decreases |s|
  {
    hide ScanFrame, ReplySize, Receive, Acceptable, Serialize;
    ReceiveStep(s, expectMasked, acc, begun, room);
    ScanSound(s, expectMasked, |acc|);
    var scan := ScanFrame(s, expectMasked, |acc|);
    if scan.Scanned? {
      AcceptableControl(scan.frame, expectMasked, |acc|);
      var next := Next(scan.frame, acc, begun);
      if next.Some? {
        var room' := if scan.frame.opcode == PING && Fits(ReplySize(scan.frame.payload, !expectMasked), room)
                     then Shrink(room, ReplySize(scan.frame.payload, !expectMasked)) else room;
        ReceiveGoodReplies(scan.rest, expectMasked, next.value.0, next.value.1, room');
      }
    }
  }

  lemma ContinueReceive(done: seq<Reply>, r: Reply, masked: bool, keys: nat -> Key, next: nat, key: Key)
    requires GoodReplies(done) && GoodReply(r)
    requires masked ==> key == keys(next + |done|)
    ensures GoodReplies(done + [r]) && Serializable(ReplyFrame(r, masked, key))
    ensures ReplyBytes(done + [r], masked, keys, next)
         == ReplyBytes(done, masked, keys, next) + Serialize(ReplyFrame(r, masked, key))
  {
    hide Serialize, ReplyFrame, ReplyBytes;
    GoodReplySerializable(r, masked, key);
    GoodReplySerializable(r, masked, keys(next + |done|));
    ReplyBytesAppend(done, r, masked, keys, next);
    if !masked { KeyUnused(r, key, keys(next + |done|)); }
  }
}
