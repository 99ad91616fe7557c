/** Codec and transport together: what one endpoint encodes and sends, the other receives and decodes. */
module FullStack {
  import opened Bytes
  import opened Messages
  import opened Parsing
  import opened Framing
  import Receiver
  import opened Transport
  import CppDecoder
  import CppCodec
  import opened CppCodecTheorems

  /** A message of the C++ program whose strings are UTF-8 and whose frame keeps the 1 MiB limit. */
  predicate Deliverable(m: Message) {
    ValidStrings(m) && SortedMaps(m) && |Encode(m)| <= MAX_MESSAGE_SIZE
  }

  predicate AllDeliverable(ms: seq<Message>) { forall i :: 0 <= i < |ms| ==> Deliverable(ms[i]) }

  /** The mask of the `i`-th frame an endpoint sends: clients mask, servers do not. */
  function MaskOf(masked: bool, keys: nat -> Key, i: nat): (m: Option<Key>) {
    if masked then Some(keys(i)) else None
  }

  function Wire(ms: seq<Message>, masked: bool, keys: nat -> Key, next: nat): (s: bytes)
    requires AllDeliverable(ms)
  {
    if ms == [] then []
    else Serialize(BinaryFrame(Encode(ms[0]), MaskOf(masked, keys, next))) + Wire(ms[1..], masked, keys, next + 1)
  }

  /** Everything an endpoint gets by receiving and decoding until something fails, and the bytes left. */
  datatype Drained = Drained(messages: seq<Message>, rest: bytes)

  function Drain(s: bytes, expectMasked: bool): (d: Drained)
    decreases |s|
  {
    var o := Receiver.Receive(s, expectMasked, [], false, None);
    if !o.result.Message? then Drained([], s)
    else
      match CppDecoder.Decode(o.result.payload)
      case Rejected(_) => Drained([], s)
      case Decoded(m) =>
        var d := Drain(o.rest, expectMasked);
        Drained([m] + d.messages, d.rest)
  }

  lemma DrainUnfold(s: bytes, expectMasked: bool)
    ensures var o, d := Receiver.Receive(s, expectMasked, [], false, None), Drain(s, expectMasked);
            if o.result.Message? && CppDecoder.Decode(o.result.payload).Decoded?
            then var e := Drain(o.rest, expectMasked);
                 d == Drained([CppDecoder.Decode(o.result.payload).message] + e.messages, e.rest)
            else d == Drained([], s)
  {
    hide Receiver.Receive, CppDecoder.Decode;
  }

  lemma BinaryReceived(data: bytes, mask: Option<Key>, q: bytes, room: Receiver.Room)
    requires |data| <= MAX_MESSAGE_SIZE
    ensures Serializable(BinaryFrame(data, mask))
    ensures Receiver.Receive(Serialize(BinaryFrame(data, mask)) + q, mask.Some?, [], false, room)
         == Receiver.Outcome(Receiver.Message(data), q, [])
  {
    hide ScanFrame, Serialize;
    ScanComplete(BinaryFrame(data, mask), mask.Some?, 0, q);
  }

  lemma DeliverableRoundTrip(m: Message)
    requires Deliverable(m)
    ensures CppDecoder.Decode(Encode(m)) == Decoded(m)
  {
    hide ValidStrings, SortedMaps, CppDecoder.Decode, Payload;
    RoundTrip(m);
  }

  /** One message in front of any other bytes is received as itself and costs exactly its own bytes. */
  lemma DrainCons(m: Message, mask: Option<Key>, q: bytes)
    requires Deliverable(m)
    ensures Serializable(BinaryFrame(Encode(m), mask))
    ensures var d := Drain(q, mask.Some?);
            Drain(Serialize(BinaryFrame(Encode(m), mask)) + q, mask.Some?) == Drained([m] + d.messages, d.rest)
  {
    hide Serialize, Receiver.Receive, CppDecoder.Decode, Encode, ValidStrings, SortedMaps;
    BinaryReceived(Encode(m), mask, q, None);
    DeliverableRoundTrip(m);
  }

  lemma {:induction false} StreamThen(ms: seq<Message>, masked: bool, keys: nat -> Key, next: nat, q: bytes)
    requires AllDeliverable(ms)
    ensures var d := Drain(q, masked);
            Drain(Wire(ms, masked, keys, next) + q, masked) == Drained(ms + d.messages, d.rest)
    decreases |ms|
  {
    hide Serialize, Drain, Deliverable, Encode, BinaryFrame;
    var d := Drain(q, masked);
    if ms == [] {
      Identity(q);
      assert [] + d.messages == d.messages;
      assert Drained(d.messages, d.rest) == d;
    } else {
      var mask := MaskOf(masked, keys, next);
      var tail := Wire(ms[1..], masked, keys, next + 1);
      DrainCons(ms[0], mask, tail + q);
      Assoc(Serialize(BinaryFrame(Encode(ms[0]), mask)), tail, q);
      StreamThen(ms[1..], masked, keys, next + 1, q);
      SplitHead(ms, d.messages);
    }
  }

  lemma SplitHead(a: seq<Message>, b: seq<Message>)
    requires a != []
    ensures [a[0]] + (a[1..] + b) == a + b
  {
  }

  /** Stream round trip: any list of deliverable messages, under any masking keys, is received as exactly
      that list, and exactly the bytes sent are consumed. */
  lemma StreamRoundTrip(ms: seq<Message>, masked: bool, keys: nat -> Key, next: nat)
    requires AllDeliverable(ms)
    ensures Drain(Wire(ms, masked, keys, next), masked) == Drained(ms, [])
  {
    hide Deliverable, Wire;
    StreamThen(ms, masked, keys, next, []);
    Identity(Wire(ms, masked, keys, next));
    assert ms + [] == ms;
  }

  // ----- the same through the methods, with every transfer split at will -----

  method SendMessages(sock: Socket, ms: seq<Message>, masked: bool)
    requires AllDeliverable(ms) && sock.room == None && sock.Valid()
    modifies sock`sent, sock`room, sock`drawn
    ensures sock.sent == old(sock.sent) + Wire(ms, masked, sock.keys, old(sock.drawn))
    ensures sock.room == None
  {
    hide Deliverable, Serialize, Encode;
    ghost var start := sock.drawn;
    ghost var out: bytes := [];
    var i := 0;
    Identity(sock.sent);
    Identity(Wire(ms, masked, sock.keys, start));
    assert ms[0..] == ms;
    while i < |ms|
      invariant 0 <= i <= |ms| && sock.room == None
      invariant masked ==> sock.drawn == start + i
      invariant sock.sent == old(sock.sent) + out
      invariant out + Wire(ms[i..], masked, sock.keys, start + i) == Wire(ms, masked, sock.keys, start)
    {
      DeliverableSize(ms[i]);
      var data := CppCodec.EncodeMessage(ms[i]);
      ghost var frame := Serialize(BinaryFrame(data, MaskOf(masked, sock.keys, start + i)));
      var ok: bool;
      if masked {
        ok := sock.SendBinaryMasked(data);
      } else {
        ok := sock.SendBinary(data);
      }
      assert ms[i..][1..] == ms[i + 1..];
      Assoc(old(sock.sent), out, frame);
      Assoc(out, frame, Wire(ms[i + 1..], masked, sock.keys, start + i + 1));
      out := out + frame;
      i := i + 1;
    }
    assert ms[i..] == [];
    Identity(out);
  }

  lemma DeliverableSize(m: Message)
    requires Deliverable(m)
    ensures |Encode(m)| <= MAX_MESSAGE_SIZE
  {
  }

  method ReceiveMessages(sock: Socket, expectMasked: bool) returns (ms: seq<Message>)
    requires sock.Valid() && sock.room == None
    modifies sock
    ensures sock.Valid() && sock.room == None
    ensures var d := Drain(old(sock.Left()), expectMasked);
            ms == d.messages && IsSuffix(sock.Left(), d.rest)
  {
    hide Receiver.Receive, CppDecoder.Decode, ReplyBytes, Accepted, Drain;
    ms := [];
    ghost var whole := Drain(sock.Left(), expectMasked);
    while true
      invariant sock.Valid() && sock.room == None
      invariant whole.messages == ms + Drain(sock.Left(), expectMasked).messages
      invariant whole.rest == Drain(sock.Left(), expectMasked).rest
      decreases |sock.Left()|
    {
      DrainUnfold(sock.Left(), expectMasked);
      var frame := sock.RecvFrame(expectMasked);
      if !frame.Message? {
        assert ms + [] == ms;
        return;
      }
      var m := CppCodec.DecodeMessage(frame.payload);
      if m.Rejected? {
        assert ms + [] == ms;
        return;
      }
      assert ms + ([m.message] + Drain(sock.Left(), expectMasked).messages)
          == (ms + [m.message]) + Drain(sock.Left(), expectMasked).messages;
      ms := ms + [m.message];
    }
  }

  /** Send over one socket, receive over another that is fed its bytes: the list comes through and no byte
      is left unread. */
  method Exchange(ms: seq<Message>, masked: bool, keys: nat -> Key) returns (got: seq<Message>, left: bytes)
    requires AllDeliverable(ms)
    ensures got == ms && left == []
  {
    hide Deliverable, Drain, Wire;
    var sender := new Socket([], None, keys);
    SendMessages(sender, ms, masked);
    Identity(Wire(ms, masked, keys, 0));
    var receiver := new Socket(sender.sent, None, keys);
    got := ReceiveMessages(receiver, masked);
    StreamRoundTrip(ms, masked, keys, 0);
    left := receiver.incoming[receiver.pos..];
  }
}
