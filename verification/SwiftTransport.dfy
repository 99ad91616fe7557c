/** The Swift frame layer as it is written, which writes and reads the same frames as the C++ one. An answer
    to a control frame is handed to a single `send`; what that call does with it is outside this model. */
module SwiftTransport {
  import opened Bytes
  import opened Framing
  import opened Receiver
  import opened Transport

  // ----- encoding -----

  /** The bytes behind the first: the length, with the mask bit. */
  method AppendLength(frame: bytes, maskBit: byte, len: nat) returns (out: bytes)
    requires maskBit == 0 || maskBit == 0x80
    requires len < TWO_63
    ensures out == frame + LengthBytes(MinimalForm(len), maskBit == 0x80, len)
  {
    hide ToBigEndian, Pow256;
    out := frame;
    if len <= 125 {
      out := out + [maskBit + len];
    } else if len <= 65535 {
      out := out + [maskBit + 126];
      out := out + [(len / 256) % 256];
      out := out + [len % 256];
      U16Bytes(len);
    } else {
      out := out + [maskBit + 127];
      out := AppendLong(out, len);
    }
  }

  /** The eight bytes of a long length, from the highest shift down. */
  method AppendLong(frame: bytes, len: nat) returns (out: bytes)
    ensures out == frame + U64(len)
  {
    hide ToBigEndian, Pow256;
    out := frame;
    EmptyBigEndian(len);
    for i := 8 downto 0
      invariant out + ToBigEndian(len, i) == frame + U64(len)
    {
      ToBigEndianHead(len, i + 1);
      var b: byte := (len / Pow256(i)) % 256;
      Assoc(out, [b], ToBigEndian(len, i));
      out := out + [b];
    }
    Identity(out);
  }

  /** The copy of the data that is masked in place. */
  method MaskedCopy(data: bytes, maskKey: Key) returns (masked: bytes)
    ensures masked == Mask(data, maskKey)
  {
    hide Xor;
    var maskedData := new byte[|data|](i requires 0 <= i < |data| => data[i]);
    for i := 0 to maskedData.Length
      invariant forall j :: 0 <= j < i ==> maskedData[j] == Xor(data[j], maskKey[j % 4])
      invariant forall j :: i <= j < |data| ==> maskedData[j] == data[j]
    {
      maskedData[i] := Xor(maskedData[i], maskKey[i % 4]);
    }
    masked := maskedData[..];
    assert forall j :: 0 <= j < |data| ==> masked[j] == Mask(data, maskKey)[j];
  }

  /** `wsEncodeBinaryFrame`, for the key drawn when masking. */
  method EncodeBinaryFrame(data: bytes, mask: Option<Key>) returns (frame: bytes)
    requires |data| < TWO_63
    ensures frame == Serialize(BinaryFrame(data, mask))
  {
    hide LengthBytes, Mask;
    var maskBit: byte := if mask.Some? then 0x80 else 0;
    frame := AppendLength([0x82], maskBit, |data|);
    ghost var lb := LengthBytes(MinimalForm(|data|), mask.Some?, |data|);
    if mask.Some? {
      var maskKey := mask.value;
      frame := frame + maskKey;
      var maskedData := MaskedCopy(data, maskKey);
      frame := frame + maskedData;
      assert frame == [0x82] + lb + maskKey + Mask(data, maskKey);
      assert frame == [0x82] + (lb + (maskKey + Mask(data, maskKey)));
    } else {
      frame := frame + data;
      Identity(data);
      assert frame == [0x82] + (lb + ([] + data));
    }
  }

  /** `wsEncodeControlFrame`; its precondition on the size is the caller's to keep. */
  method EncodeControlFrame(opcode: nat, payload: bytes, mask: Option<Key>) returns (frame: bytes)
    requires opcode < 16 && |payload| <= 125
    ensures frame == Serialize(ControlFrame(opcode, payload, mask))
  {
    hide Xor;
    frame := [0x80 + opcode, (if mask.Some? then 0x80 else 0) + |payload|];
    ghost var f := ControlFrame(opcode, payload, mask);
    if mask.None? {
      frame := frame + payload;
      Identity(payload);
      assert frame == [FirstByte(f)] + (LengthBytes(Short, false, |payload|) + ([] + payload));
      return;
    }
    var key := mask.value;
    frame := frame + key;
    ghost var head := frame;
    for index := 0 to |payload|
      invariant frame == head + Mask(payload, key)[..index]
    {
      frame := frame + [Xor(payload[index], key[index % 4])];
    }
    assert Mask(payload, key)[..|payload|] == Mask(payload, key);
    assert frame == [FirstByte(f)] + (LengthBytes(Short, true, |payload|) + (key + Mask(payload, key)));
  }

  // ----- reading -----

  /** `recvExact`: `None` where it throws. */
  method RecvExact(sock: Socket, count: nat) returns (r: Option<bytes>)
    requires sock.Valid()
    modifies sock`pos
    ensures sock.Valid() && sock.pos >= old(sock.pos)
    ensures r.Some? <==> |old(sock.Left())| >= count
    ensures r.Some? ==> |r.value| == count && old(sock.Left()) == r.value + sock.Left()
  {
    var result: bytes := [];
    while |result| < count
      invariant |result| <= count && sock.Valid() && sock.pos >= old(sock.pos)
      invariant old(sock.Left()) == result + sock.Left()
    {
      var remaining := count - |result|;
      ghost var before := result;
      var n, chunk := sock.Recv(remaining);
      Assoc(before, chunk, sock.Left());
      if chunk == [] { return None; }
      result := result + chunk;
    }
    r := Some(result);
  }

  /** The fold over the eight bytes of a long length. */
  method Reduce(ext: bytes) returns (n: nat)
    ensures n == FromBigEndian(ext)
  {
    hide FromBigEndian;
    n := 0;
    EmptyValue();
    for i := 0 to |ext|
      invariant n == FromBigEndian(ext[..i])
    {
      NextValue(ext, i);
      n := n * 256 + ext[i];
    }
    assert ext[..|ext|] == ext;
  }

  method ReadLength(sock: Socket, len7: nat) returns (r: Option<nat>)
    requires sock.Valid() && len7 < 128
    modifies sock`pos
    ensures sock.Valid() && sock.pos >= old(sock.pos)
    ensures match ScanLength(len7, old(sock.Left()))
            case NoLength => r == None
            case Length(_, n, rest) => r == Some(n) && sock.Left() == rest
  {
    hide FromBigEndian;
    ghost var s := sock.Left();
    var payloadLength := len7;
    if payloadLength == 126 {
      var ext := RecvExact(sock, 2);
      if ext.None? { return None; }
      assert s[..2] == ext.value && s[2..] == sock.Left();
      TwoBytesValue(ext.value);
      var a: int, b: int := ext.value[0], ext.value[1];
      payloadLength := a * 256 + b;
    } else if payloadLength == 127 {
      var ext := RecvExact(sock, 8);
      if ext.None? { return None; }
      assert s[..8] == ext.value && s[8..] == sock.Left() && s[0] == ext.value[0];
      if ext.value[0] >= 0x80 { return None; }
      payloadLength := Reduce(ext.value);
    }
    r := Some(payloadLength);
  }

  /** The key, the payload and the loop over its indices. */
  method ReadPayload(sock: Socket, masked: bool, payloadLength: nat, ghost fin: bool, ghost opcode: nat,
                     ghost form: LengthForm) returns (r: Option<bytes>)
    requires sock.Valid()
    modifies sock`pos
    ensures sock.Valid() && sock.pos >= old(sock.pos)
    ensures match ScanBody(fin, opcode, masked, form, payloadLength, old(sock.Left()))
            case Refused => r == None
            case Scanned(f, rest) => f.fin == fin && f.opcode == opcode && r == Some(f.payload) && sock.Left() == rest
  {
    hide Xor;
    ghost var s := sock.Left();
    var maskKey: bytes := [];
    if masked {
      var key := RecvExact(sock, 4);
      if key.None? { return None; }
      maskKey := key.value;
      assert s[..4] == maskKey && s[4..] == sock.Left();
    }
    ghost var s' := sock.Left();
    var payload: bytes := [];
    if payloadLength != 0 {
      var data := RecvExact(sock, payloadLength);
      if data.None? { return None; }
      payload := data.value;
    }
    assert s'[..payloadLength] == payload && s'[payloadLength..] == sock.Left();
    if masked {
      assert s[4..4 + payloadLength] == payload && s[4 + payloadLength..] == sock.Left();
      payload := MaskedCopy(payload, maskKey);
    }
    r := Some(payload);
  }

  /** The reading part of one turn of the loop: FIN, opcode and payload. */
  method ReadOne(sock: Socket, expectMasked: bool, complete: nat) returns (r: Option<(bool, nat, bytes)>)
    requires sock.Valid()
    modifies sock`pos
    ensures sock.Valid() && sock.pos >= old(sock.pos)
    ensures match ScanFrame(old(sock.Left()), expectMasked, complete)
            case Refused => r == None
            case Scanned(f, rest) => r == Some((f.fin, f.opcode, f.payload)) && sock.Left() == rest
  {
    hide ScanLength, ScanBody;
    ghost var s := sock.Left();
    var header := RecvExact(sock, 2);
    if header.None? { return None; }
    var b0, b1 := header.value[0], header.value[1];
    assert s[0] == b0 && s[1] == b1 && s[2..] == sock.Left();
    var fin := b0 >= 0x80;
    if (b0 / 16) % 8 != 0 { return None; }
    var opcode := b0 % 16;
    var masked := b1 >= 0x80;
    if masked != expectMasked { return None; }
    var length := ReadLength(sock, b1 % 0x80);
    if length.None? { return None; }
    var payloadLength := length.value;
    var isControl := opcode >= 0x08;
    if !((!isControl || (fin && payloadLength <= 125)) && payloadLength <= MAX_MESSAGE_SIZE
         && complete + payloadLength <= MAX_MESSAGE_SIZE) {
      return None;
    }
    ghost var form := ScanLength(s[1] % 0x80, s[2..]).form;
    var payload := ReadPayload(sock, masked, payloadLength, fin, opcode, form);
    if payload.None? { return None; }
    r := Some((fin, opcode, payload.value));
  }

  /** The `i`-th frame handed over is the `i`-th reply, masked with the `i`-th key if the peer expects it. */
  ghost predicate HandedOver(frames: seq<bytes>, replies: seq<Reply>, masked: bool, keys: nat -> Key) {
    GoodReplies(replies) && |frames| == |replies|
    && forall i :: 0 <= i < |frames| ==> frames[i] == Serialize(ReplyFrame(replies[i], masked, keys(i)))
  }

  /** `wsReadFrame`: the payload, or `None` where it throws, and the frames it hands to `send`. It accepts
      exactly the streams that the C++ receiver accepts, with the same payload, bytes left and replies. */
  method ReadFrame(sock: Socket, expectMasked: bool, keys: nat -> Key) returns (r: Option<bytes>, frames: seq<bytes>)
    requires sock.Valid()
    modifies sock`pos
    ensures sock.Valid() && IsSuffix(sock.Left(), old(sock.Left()))
    ensures var o := Receive(old(sock.Left()), expectMasked, [], false, None);
            r == (if o.result.Message? then Some(o.result.payload) else None)
            && HandedOver(frames, o.replies, !expectMasked, keys)
            && (!o.result.Failed? ==> sock.Left() == o.rest)
  {
    hide ScanFrame, Receive, Serialize, ReplyFrame, Acceptable;
    ghost var whole := Receive(sock.Left(), expectMasked, [], false, None);
    var complete: bytes := [];
    var fragmented := false;
    ghost var replies: seq<Reply> := [];
    frames := [];
    assert [] + whole.replies == whole.replies;
    while true
      invariant sock.Valid() && sock.pos >= old(sock.pos)
      invariant whole == Prepend(replies, Receive(sock.Left(), expectMasked, complete, fragmented, None))
      invariant HandedOver(frames, replies, !expectMasked, keys)
      decreases |sock.Left()|
    {
      ghost var here := sock.Left();
      ReceiveStep(here, expectMasked, complete, fragmented, None);
      assert replies + [] == replies;
      ScanSound(here, expectMasked, |complete|);
      var read := ReadOne(sock, expectMasked, |complete|);
      if read.None? { return None, frames; }
      var (fin, opcode, payload) := read.value;
      AcceptableControl(ScanFrame(here, expectMasked, |complete|).frame, expectMasked, |complete|);
      assert |sock.Left()| < |here|;
      if opcode == CLOSE {
        var close := AnswerFrame(CLOSE, payload, expectMasked, keys, frames, replies);
        return None, frames + [close];
      } else if opcode == PING {
        var pong := AnswerFrame(PONG, payload, expectMasked, keys, frames, replies);
        PrependTwice(replies, [Reply(PONG, payload)], Receive(sock.Left(), expectMasked, complete, fragmented, None));
        replies := replies + [Reply(PONG, payload)];
        frames := frames + [pong];
      } else if opcode == PONG {
      } else if opcode == BINARY && !fragmented {
        complete := payload;
        if fin { return Some(complete), frames; }
        fragmented := true;
      } else if opcode == CONTINUATION && fragmented {
        complete := complete + payload;
        if fin { return Some(complete), frames; }
      } else {
        return None, frames;
      }
    }
  }

  method AnswerFrame(opcode: nat, payload: bytes, expectMasked: bool, keys: nat -> Key,
                frames: seq<bytes>, ghost replies: seq<Reply>) returns (frame: bytes)
    requires HandedOver(frames, replies, !expectMasked, keys) && GoodReply(Reply(opcode, payload))
    ensures HandedOver(frames + [frame], replies + [Reply(opcode, payload)], !expectMasked, keys)
  {
    hide Serialize;
    frame := EncodeControlFrame(opcode, payload, if expectMasked then None else Some(keys(|frames|)));
    assert ReplyFrame(Reply(opcode, payload), !expectMasked, keys(|frames|)) ==
             ControlFrame(opcode, payload, if expectMasked then None else Some(keys(|frames|)));
  }
}
