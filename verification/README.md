# Hello WebSocket: transport, codec and session in Dafny

A Dafny model of the parts of this repository that are written from scratch: the C++ WebSocket transport
and its Swift twin (framing, masking, fragment reassembly, partial reads and writes, SHA-1, Base64, the HTTP
upgrade), the binary message codec (C++ and Swift), the C++ server session with its five threads, and the
epoch-to-calendar loops of Rust and Swift. `dafny verify dfyconfig.toml` checks all of it.

## How the model is laid out

| file | content |
|---|---|
| `Bytes.dfy` | big-endian integers, two's complement, exclusive or |
| `Utf8.dfy` | the validator and RFC 3629 |
| `Messages.dfy` | the thirteen messages, their layout, the ordered map |
| `Decoders.dfy` | the C++ and the Swift decoder as functions |
| `SwiftCodecTheorems.dfy`, `CppCodecTheorems.dfy` | round trip, normal form, agreement of the two decoders |
| `CppCodec.dfy` | `ByteWriter`, `ByteReader`, encode and decode as written |
| `Framing.dfy`, `Receiver.dfy` | frames on the wire, the receive loop, the grammar of section 5.4 of RFC 6455 |
| `Transport.dfy`, `SwiftTransport.dfy` | the socket, senders and receivers as written |
| `FullStack.dfy` | messages through codec and transport |
| `Sha.dfy`, `Sha256.dfy`, `Base64.dfy`, `Handshake.dfy` | the opening handshake and its parts |
| `Sha1Vector.dfy`, `Sha256Vector.dfy`, `HandshakeExample.dfy` | known answers, calculated round by round in the proof |
| `Connection.dfy` | a whole connection: handshake, then messages both ways |
| `Session.dfy` | the server session as interleaved steps, mutual exclusion |
| `SessionFrames.dfy`, `SessionTears.dfy` | when the wire keeps its frame structure, and runs in which it does not |
| `SessionReplies.dfy`, `SessionBackground.dfy`, `SessionTimeout.dfy`, `SessionEnds.dfy` | replies, background messages, timeout, and how a session ends |
| `SessionClient.dfy` | what the client gets |
| `Calendar.dfy` | seconds to calendar fields |

Modelling decisions:

- A byte is an `int` from 0 to 255; a mask with `&` or a shift is written as the division or remainder it
  is. Words of the hash functions are `bv32`. A cast that drops bits is written out (`% TWO_32`).
- A `std::string` or Swift `String` is its UTF-8 bytes. A `std::map` is the association list its iterator
  walks, with strictly increasing keys; `Messages.SortedCanonical` shows that nothing is lost by that.
- An exception is a `Rejected` value. `readI64` shifts a value into the sign bit; the model takes the
  two's-complement result.
- A socket is the bytes the peer sends before the stream ends and the bytes written so far. `Recv` and
  `Send` take any non-empty piece; `room` is how many bytes the connection accepts before a `send` fails.
  Random masking keys are an arbitrary function, so statements hold for every choice.
- A session is a deterministic step function over labelled actions; a run is any sequence of enabled
  actions, so a statement over all runs covers every interleaving, every partial write and every timing.
  `sendFrame` is five steps (take the mutex, test `active`, write pieces, release, act on the result), and
  the Pong or Close that `wsRecvFrame` writes without the mutex is a frame of its own, in pieces as well.
- The wire of a session is the list of pieces that single `send` calls took, each with the frame it belongs
  to. Frame structure is stated on pieces, because two interleavings can happen to give the same bytes;
  what it means for the bytes is proved beside it.
- Swift's `String(bytes:encoding:)` is taken to accept exactly the byte strings that `Utf8.Valid` accepts.
  That is an assumption about Foundation; the agreement of the two decoders rests on it.

Where the code and its documentation differ, the model follows the code:

- PROTOCOL.md section 7 asks for codes 3, 4 and 5 and a close with status 1002; the C++ server answers every
  decode failure but an unknown type with code 1 and closes the socket.
- PROTOCOL.md section 6 asks for a monotonic clock; the server reads the system clock. That time does not
  run backwards is an assumption of the timeout results.
- `recvHttpHeaders` tests for the end of the block before it tests the limit of 8192 bytes, so a block of
  8193 bytes is accepted.
- A Ping or Pong between fragments counts against the 1 MiB limit of the message it interrupts.
- Non-minimal length forms are accepted, so two different byte strings can carry the same frame content.

## Model

| member | source | states |
|---|---|---|
| `Utf8.IsValidUtf8` | hello-websocket-cpp/common/codec.hpp:93-119 | accepts a byte string iff it is the encoding of some sequence of Unicode scalar values (no overlong forms, no surrogates, nothing above 0x10FFFF) |
| `Utf8.CharacterAt` | hello-websocket-cpp/common/codec.hpp:96-116 | one turn of the outer loop finds the length of the character at that place, or rejects exactly when there is none |
| `Utf8.Continuations` | hello-websocket-cpp/common/codec.hpp:106-110 | the inner loop accepts iff every byte is a continuation byte and then has shifted in six bits of each |
| `Utf8.ValidIffEncoding` | hello-websocket-cpp/common/codec.hpp:93-119 | the validator's language is the set of encodings of sections 3 and 4 of RFC 3629, both directions |
| `Utf8.EncodingUnique` | hello-websocket-cpp/common/codec.hpp:90-119 | an accepted string encodes exactly one sequence of scalar values |
| `Messages.PutSorted` | hello-websocket-cpp/common/codec.hpp:154 | storing into the map keeps its keys strictly increasing |
| `Messages.PutLastWins` | hello-websocket-cpp/common/codec.hpp:154 | storing into the map is finite-map update |
| `Messages.LessIff` | hello-websocket-cpp/common/codec.hpp:79-82 | one key comes before another iff, where they first differ, it has ended or has the smaller unsigned byte: the order of `std::string` |
| `Messages.CollapseDenotes` | hello-websocket-cpp/common/codec.hpp:147-157 | entries stored one by one give the sorted map in which the last entry for a key wins |
| `Messages.CollapseFixpoint` | hello-websocket-cpp/common/codec.hpp:147-157 | reading entries into the map changes nothing iff their keys are strictly increasing |
| `Messages.SortedCanonical` | hello-websocket-cpp/common/codec.hpp:79-82 | the order in which a map is written is determined by the map alone |
| `SwiftCodecTheorems.PayloadRoundTrip` | hello-websocket-swift/common/Codec.swift:320-376 | every message type is read back from its payload, whatever bytes follow, and those bytes are left |
| `SwiftCodecTheorems.PayloadInverse` | hello-websocket-swift/common/Codec.swift:320-376 | a payload that is accepted is the layout of what it decodes to, followed by the unread bytes, and its strings are UTF-8 |
| `SwiftCodecTheorems.PairsRoom` | hello-websocket-cpp/common/codec.hpp:149 | every map entry takes at least eight bytes, so the guard never rejects an encoding |
| `SwiftCodecTheorems.ResultsRoom` | hello-websocket-cpp/common/codec.hpp:301 | every result takes at least thirteen bytes, so the guard never rejects an encoding |
| `CppCodecTheorems.I64Agree` | hello-websocket-cpp/common/codec.hpp:136-139 | two 32-bit reads accept and give what one 64-bit two's-complement read does |
| `CppCodecTheorems.EntriesAgree` | hello-websocket-cpp/common/codec.hpp:151-155 | storing into the map while reading accepts the same bytes as collecting the entries, and gives their collapsed map |
| `CppCodecTheorems.DecodersAgree` | hello-websocket-cpp/common/codec.hpp:290-323 | the C++ and the Swift decoder accept the same byte strings with the same fields; each C++ map is the last-wins map of Swift's entry list |
| `CppCodecTheorems.UnknownTypeVerdicts` | hello-websocket-swift/common/Codec.swift:268-288 | both decoders call an input "unknown type" alike, except exactly where the type is unknown and the length field is wrong |
| `CppCodecTheorems.WorkedExample` | PROTOCOL.md:244-260 | the byte-level example of the protocol document |
| `CppCodecTheorems.EncodeIsLayout` | hello-websocket-cpp/common/codec.hpp:265-287 | every message is written with the type code and the fields, in order, that PROTOCOL.md gives in numbers |
| `CppCodecTheorems.KnownTypes` | hello-websocket-cpp/common/codec.hpp:294-321 | the known types are the thirteen codes |
| `CppCodecTheorems.RoundTrip` | hello-websocket-cpp/common/codec.hpp:265-323 | `decodeMessage(encode(m)) == m` iff the strings of `m` are UTF-8 and its payload is shorter than 2^32 |
| `CppCodecTheorems.NormalForm` | hello-websocket-cpp/common/codec.hpp:265-323 | re-encoding an accepted input decodes to the same message and is not longer |
| `CppCodecTheorems.NormalFormBytes` | hello-websocket-cpp/common/codec.hpp:147-186 | re-encoding gives back the input iff FLAGS is zero, the payload was fully read and every map's keys were strictly increasing |
| `CppCodecTheorems.PayloadExtension` | hello-websocket-cpp/common/codec.hpp:177-186 | bytes behind an accepted payload, and other FLAGS, change nothing iff the length field can state the new length |
| `CppCodecTheorems.EchoResponseAccounting` | hello-websocket-cpp/common/codec.hpp:298-310 | 8 + 13 per result + 8 and the texts per entry read + the unread bytes is exactly the payload length |
| `CppCodec.ByteWriter.WriteU32` | hello-websocket-cpp/common/codec.hpp:66-69 | appends the four big-endian bytes |
| `CppCodec.ByteWriter.WriteI64` | hello-websocket-cpp/common/codec.hpp:71-74 | the two halves are the eight two's-complement bytes |
| `CppCodec.ByteWriter.WriteString` | hello-websocket-cpp/common/codec.hpp:75-78 | appends the 32-bit length, then the bytes |
| `CppCodec.ByteWriter.WriteKV` | hello-websocket-cpp/common/codec.hpp:79-82 | appends the count, then every entry in map order |
| `CppCodec.ByteWriter.WriteResults` | hello-websocket-cpp/common/codec.hpp:273 | appends every result in order |
| `CppCodec.FrameBytes` | hello-websocket-cpp/common/codec.hpp:165-173 | the buffer filled in place is header and payload |
| `CppCodec.EncodeMessage` | hello-websocket-cpp/common/codec.hpp:265-287 | the writer produces the layout of PROTOCOL.md for every message |
| `CppCodec.ByteReader.ReadWord` | hello-websocket-cpp/common/codec.hpp:132-134 | reads four bytes and advances, or throws with too few left |
| `CppCodec.ByteReader.ReadLong` | hello-websocket-cpp/common/codec.hpp:136-139 | reads a signed 64-bit integer |
| `CppCodec.ByteReader.ReadText` | hello-websocket-cpp/common/codec.hpp:140-146 | reads a length-prefixed string and throws on a length past the end or invalid UTF-8 |
| `CppCodec.ByteReader.ReadMap` | hello-websocket-cpp/common/codec.hpp:147-157 | guard and loop build the map the functions describe |
| `CppCodec.ByteReader.ReadEcho` | hello-websocket-cpp/common/codec.hpp:298-310 | guard and nested loops read the result array |
| `CppCodec.DecodePayload` | hello-websocket-cpp/common/codec.hpp:294-321 | the switch on the type, with every error |
| `CppCodec.DecodeMessage` | hello-websocket-cpp/common/codec.hpp:290-323 | header checks in order, then the payload: the decoder that the theorems are about |
| `Framing.MaskInvolutive` | hello-websocket-cpp/common/ws.hpp:355-357 | unmasking undoes masking, for every key (section 5.3 of RFC 6455) |
| `Framing.MaskBits` | hello-websocket-cpp/common/ws.hpp:283 | octet i of the masked data is octet i of the data exclusive or octet i modulo 4 of the key, bit for bit (section 5.3 of RFC 6455) |
| `Bytes.XorIsExclusive` | hello-websocket-cpp/common/ws.hpp:356 | each of the eight bits is set iff it is set in one byte and not in the other |
| `Framing.ScanIff` | hello-websocket-cpp/common/ws.hpp:326-357 | one turn of the loop accepts a frame iff the stream starts with the bytes of an acceptable one, in any of the three length forms |
| `Framing.OversizeRefused` | hello-websocket-cpp/common/ws.hpp:347-349 | a frame over the limits is refused on its header, whatever follows |
| `Receiver.ReceiveComplete` | hello-websocket-cpp/common/ws.hpp:320-385 | every message of the fragmentation grammar is read to its end, whatever follows, with its Pongs |
| `Receiver.ReceiveSound` | hello-websocket-cpp/common/ws.hpp:320-385 | a returned message is one of the grammar and every byte consumed belongs to its frames |
| `Receiver.MessageIff` | hello-websocket-cpp/common/ws.hpp:320-385 | a message is returned iff some prefix of the stream is one fragmented or whole binary message with Pings and Pongs interleaved, within the limit at each frame; payload and bytes left are determined, and the payload is at most 1 MiB |
| `Receiver.TwoFragmentsAndPing` | hello-websocket-cpp/common/ws.hpp:359-382 | frames 02 and 80 with an 89 between them give the message of the two fragments and one reply with opcode 0A and the data of the 89 |
| `Receiver.LimitInNumbers` | hello-websocket-cpp/common/ws.hpp:321-349 | a message is returned iff it has at most 1048576 bytes |
| `Receiver.ControlTraffic` | hello-websocket-cpp/common/ws.hpp:347-369 | over every call: one Pong per Ping with the same data in order, a Close echo only as the last reply, each at most 125 bytes |
| `Receiver.ReplyAccepted` | hello-websocket-cpp/common/ws.hpp:302-318 | the other endpoint's mask rule accepts every reply, iff its own size limit is not exceeded |
| `Receiver.ReceiveRoom` | hello-websocket-cpp/common/ws.hpp:360-368 | a failing `send` matters only for a Pong: with room for the Pongs nothing changes, without it the call fails |
| `Transport.Socket.RecvAll` | hello-websocket-cpp/common/ws.hpp:198-207 | however the bytes are split, succeeds iff enough come, and then returns exactly those |
| `Transport.Socket.SendAll` | hello-websocket-cpp/common/ws.hpp:209-218 | however the bytes are split, writes all of them or as many as fit |
| `Transport.PushLength` | hello-websocket-cpp/common/ws.hpp:241-251 | the length bytes are the shortest form |
| `Transport.PushMasked` | hello-websocket-cpp/common/ws.hpp:282-284 | appends the masked payload |
| `Transport.Socket.SendBinary` | hello-websocket-cpp/common/ws.hpp:237-254 | writes the unmasked, unfragmented frame of the grammar |
| `Transport.Socket.SendBinaryMasked` | hello-websocket-cpp/common/ws.hpp:261-286 | writes the frame masked with the key drawn |
| `Transport.Socket.SendControl` | hello-websocket-cpp/common/ws.hpp:302-318 | refuses more than 125 bytes, otherwise writes the control frame |
| `Transport.Socket.ReadLength` | hello-websocket-cpp/common/ws.hpp:334-345 | the three length forms, with the top bit of the long one rejected |
| `Transport.Socket.Unmask` | hello-websocket-cpp/common/ws.hpp:355-357 | the in-place loop unmasks the payload |
| `Transport.Socket.ReadFrame` | hello-websocket-cpp/common/ws.hpp:326-357 | the reads and checks of one turn give what the scan of the stream gives |
| `Transport.Socket.Answer` | hello-websocket-cpp/common/ws.hpp:360-368 | a reply goes out whole behind the earlier ones, or cut off where the connection stops taking bytes |
| `Transport.Socket.RecvFrame` | hello-websocket-cpp/common/ws.hpp:320-385 | the loop returns the result, consumes the bytes and writes the replies that the theorems are about; after a failure what is left is a suffix of what that turn began with |
| `SwiftTransport.EncodeBinaryFrame` | hello-websocket-swift/common/WebSocket.swift:7-44 | the Swift encoder gives the frame bytes that the C++ senders are proved to write |
| `SwiftTransport.EncodeControlFrame` | hello-websocket-swift/common/WebSocket.swift:107-116 | the same for control frames, with Swift's own masking loop |
| `SwiftTransport.AppendLength` | hello-websocket-swift/common/WebSocket.swift:15-26 | the three length branches give the shortest form |
| `SwiftTransport.MaskedCopy` | hello-websocket-swift/common/WebSocket.swift:34-37 | the copy masked in place is the masked payload |
| `SwiftTransport.RecvExact` | hello-websocket-swift/common/WebSocket.swift:119-130 | however the bytes are split, throws iff too few come, and otherwise returns exactly those |
| `SwiftTransport.Reduce` | hello-websocket-swift/common/WebSocket.swift:68 | the fold over the length bytes is their big-endian value |
| `SwiftTransport.ReadLength` | hello-websocket-swift/common/WebSocket.swift:61-69 | the three length forms, with the top bit of the long one rejected |
| `SwiftTransport.ReadPayload` | hello-websocket-swift/common/WebSocket.swift:78-82 | key, payload and the loop over its indices give the unmasked payload |
| `SwiftTransport.ReadOne` | hello-websocket-swift/common/WebSocket.swift:54-82 | the reads and the conjunctive guard of one turn accept exactly the frames the C++ turn accepts |
| `SwiftTransport.ReadFrame` | hello-websocket-swift/common/WebSocket.swift:48-105 | returns a payload on exactly the streams on which the C++ receiver does, with the same payload, bytes left and control answers |
| `FullStack.DrainCons` | hello-websocket-cpp/common/ws.hpp:320-385 | one sent message in front of any bytes is received as itself and costs exactly its own bytes |
| `FullStack.StreamRoundTrip` | hello-websocket-cpp/common/ws.hpp:237-286 | any list of well-formed messages of at most 1 MiB, under any keys, is received and decoded as that list, to the last byte |
| `FullStack.SendMessages` | hello-websocket-cpp/common/ws.hpp:237-286 | encoding and sending in pieces puts the frames on the wire back to back |
| `FullStack.ReceiveMessages` | hello-websocket-cpp/common/ws.hpp:320-385 | receiving in pieces and decoding gives the messages of the stream; what is left is a suffix of what they leave |
| `FullStack.Exchange` | hello-websocket-cpp/common/ws.hpp:198-286 | through two sockets that split every transfer at will, the list comes through and no byte is left unread |
| `ShaPadding.PadMessage` | hello-websocket-cpp/common/codec.hpp:206-211 | the padding loop ends and gives the padding of section 5.1.1 of FIPS 180-4, a multiple of 64 bytes |
| `ShaPadding.ZeroCountLeast` | hello-websocket-cpp/common/codec.hpp:209 | no fewer zero bytes would do |
| `ShaPadding.PadInjective` | hello-websocket-cpp/common/codec.hpp:206-211 | messages under 2^61 bytes with the same padded form are equal |
| `ShaWords.WordRoundTrip` | hello-websocket-cpp/common/ws.hpp:125-130 | the output bytes of a word are the bytes an input word is read from |
| `Sha1.CodeForms` | hello-websocket-cpp/common/ws.hpp:86-91 | choice and majority, which the code writes with bitwise or, are the functions of section 4.1.1 of FIPS 180-4 |
| `Sha1.Transform` | hello-websocket-cpp/common/ws.hpp:74-96 | the schedule, the eighty rounds and the addition are the compression of section 6.1.2 of FIPS 180-4 |
| `Sha1.CompressAdds` | hello-websocket-cpp/common/ws.hpp:95 | what compression adds to each word of the state is that word after round 80 |
| `Sha1.ConstantRoots` | hello-websocket-cpp/common/ws.hpp:88-91 | the round constants are the square roots of 2, 3, 5 and 10 cut off 30 bits behind the point |
| `Sha1Vector.ExampleDigest` | hello-websocket-cpp/common/ws.hpp:66-133 | the digest of the example of section 1.3 of RFC 6455, two blocks, is the published one |
| `Sha1.HashOnce` | hello-websocket-swift/common/SHA1.swift:6-71 | the one-shot Swift hash is the SHA-1 digest the streaming C++ hash is proved to give |
| `Sha1.Sha1Stream.Update` | hello-websocket-cpp/common/ws.hpp:98-107 | the buffered state stands for every byte passed so far |
| `Sha1.Sha1Stream.Final` | hello-websocket-cpp/common/ws.hpp:109-132 | the digest of those bytes, with the extra block when the buffer is too full for the length |
| `Sha1.HashPieces` | hello-websocket-cpp/common/ws.hpp:66-133 | however a message is cut into `update` calls, the digest is the one-shot digest |
| `Sha256.CodeSigmas` | hello-websocket-cpp/common/codec.hpp:221-230 | the rotations and shifts as the code writes them are the four sigma functions of section 4.1.2 of FIPS 180-4 |
| `Sha256.CompressBlock` | hello-websocket-cpp/common/codec.hpp:215-235 | one block is the compression of section 6.2.2 of FIPS 180-4 |
| `Sha256.HashOnce` | hello-websocket-cpp/common/codec.hpp:193-241 | padding, blocks and output bytes together are the SHA-256 digest |
| `Sha256Vector.InitialRoots` | hello-websocket-cpp/common/codec.hpp:204 | the initial value is the fractional parts of the square roots of the first eight primes |
| `Sha256Vector.Keys0Roots` | hello-websocket-cpp/common/codec.hpp:195 | constants 0 to 7 are the fractional parts of cube roots of primes |
| `Sha256Vector.Keys1Roots` | hello-websocket-cpp/common/codec.hpp:196 | constants 8 to 15 are the fractional parts of cube roots of primes |
| `Sha256Vector.Keys2Roots` | hello-websocket-cpp/common/codec.hpp:197 | constants 16 to 23 are the fractional parts of cube roots of primes |
| `Sha256Vector.Keys3Roots` | hello-websocket-cpp/common/codec.hpp:198 | constants 24 to 31 are the fractional parts of cube roots of primes |
| `Sha256Vector.Keys4Roots` | hello-websocket-cpp/common/codec.hpp:199 | constants 32 to 39 are the fractional parts of cube roots of primes |
| `Sha256Vector.Keys5Roots` | hello-websocket-cpp/common/codec.hpp:200 | constants 40 to 47 are the fractional parts of cube roots of primes |
| `Sha256Vector.Keys6Roots` | hello-websocket-cpp/common/codec.hpp:201 | constants 48 to 55 are the fractional parts of cube roots of primes |
| `Sha256Vector.Keys7Roots` | hello-websocket-cpp/common/codec.hpp:202 | constants 56 to 63 are the fractional parts of cube roots of primes |
| `Sha256Vector.Keys0Are` | hello-websocket-cpp/common/codec.hpp:195 | the table row holds those constants |
| `Sha256Vector.Keys1Are` | hello-websocket-cpp/common/codec.hpp:196 | the table row holds those constants |
| `Sha256Vector.Keys2Are` | hello-websocket-cpp/common/codec.hpp:197 | the table row holds those constants |
| `Sha256Vector.Keys3Are` | hello-websocket-cpp/common/codec.hpp:198 | the table row holds those constants |
| `Sha256Vector.Keys4Are` | hello-websocket-cpp/common/codec.hpp:199 | the table row holds those constants |
| `Sha256Vector.Keys5Are` | hello-websocket-cpp/common/codec.hpp:200 | the table row holds those constants |
| `Sha256Vector.Keys6Are` | hello-websocket-cpp/common/codec.hpp:201 | the table row holds those constants |
| `Sha256Vector.Keys7Are` | hello-websocket-cpp/common/codec.hpp:202 | the table row holds those constants |
| `Sha256.DecimalRoundTrip` | hello-websocket-cpp/common/codec.hpp:350-351 | the decimal text is ASCII and determines the number |
| `Sha256.HashNumber` | hello-websocket-cpp/common/codec.hpp:350-357 | ten ASCII characters, so a HASH_RESPONSE always holds valid UTF-8 |
| `Sha256.HexRoundTrip` | hello-websocket-cpp/common/codec.hpp:355 | two hexadecimal digits per byte determine the bytes |
| `Sha256.HashNumberCpp` | hello-websocket-cpp/common/codec.hpp:350-357 | the printing loop gives that text, and reading it back gives the first five bytes of the digest of the decimal form |
| `Sha256Vector.HashOf42` | hello-websocket-cpp/common/codec.hpp:350-357 | `hashNumber(42)` is "73475cb40a" |
| `Base64.TableIsAlphabet` | hello-websocket-cpp/common/ws.hpp:140 | the table is the alphabet of RFC 4648 |
| `Base64.EncodeLength` | hello-websocket-cpp/common/ws.hpp:139-152 | four characters for every three bytes begun |
| `Base64.RoundTrip` | hello-websocket-cpp/common/ws.hpp:139-152 | a decoder after section 4 of RFC 4648 recovers every input |
| `Base64.EncodeCpp` | hello-websocket-cpp/common/ws.hpp:139-152 | the single loop gives that encoding |
| `Base64.EncodeSwift` | hello-websocket-swift/common/SHA1.swift:78-105 | whole groups first, then the rest: the same text |
| `Handshake.RecvHttpHeaders` | hello-websocket-cpp/common/ws.hpp:221-232 | reads byte by byte up to the first blank line within the limit and nothing behind it |
| `Handshake.HeadersFromSpec` | hello-websocket-cpp/common/ws.hpp:221-232 | the block returned ends at the first blank line; it is refused iff it is longer than 8193 bytes |
| `Handshake.NoBlankLine` | hello-websocket-cpp/common/ws.hpp:221-232 | a stream without a blank line is refused, whatever its length |
| `Handshake.ExtractHeaderCpp` | hello-websocket-cpp/common/ws.hpp:178-194 | the search on lower-cased copies cuts the value out of the original text |
| `Handshake.FindFromIsLeast` | hello-websocket-cpp/common/ws.hpp:187 | the search finds the first occurrence, and nothing only if there is none |
| `Handshake.LowerIff` | hello-websocket-cpp/common/ws.hpp:183-186 | two texts have the same lower-case copy iff they differ in the case of ASCII letters alone |
| `Handshake.FoundInAnyCase` | hello-websocket-cpp/common/ws.hpp:178-194 | a header is found under its name with letters in either case |
| `Handshake.ExtractFromLines` | hello-websocket-cpp/common/ws.hpp:178-194 | on a block of lines, the header found is the first line behind the request line with that name, in any case |
| `Handshake.BlockRead` | hello-websocket-cpp/common/ws.hpp:221-232 | a block of lines is read exactly, whatever follows it, iff it keeps the limit |
| `Handshake.AcceptKeyCpp` | hello-websocket-cpp/common/ws.hpp:160-166 | the streaming hash and the Base64 loop give the accept key of section 4.2.2 of RFC 6455 |
| `HandshakeExample.AcceptKeyOfExample` | hello-websocket-cpp/common/ws.hpp:160-166 | the key of section 1.3 of RFC 6455 gives the accept key printed there |
| `Handshake.CleanCpp` | hello-websocket-cpp/common/ws.hpp:475-476 | the removing loop and the cut leave the first 128 bytes that are no control characters |
| `Handshake.GeneratedStart` | hello-websocket-cpp/common/ws.hpp:477-479 | a generated user id is "cpp-" and the time in decimal |
| `Handshake.RequestIs` | hello-websocket-cpp/common/ws.hpp:545-553 | the text the client puts together is the request line and the six headers |
| `Handshake.ResponseIs` | hello-websocket-cpp/common/ws.hpp:485-490 | the text the server puts together is the status line and the three headers |
| `Handshake.Accept` | hello-websocket-cpp/common/ws.hpp:453-497 | the server's checks in order, its response, the user id it goes on with (generated if none is left), and what it leaves unread |
| `Handshake.Connect` | hello-websocket-cpp/common/ws.hpp:543-573 | the client's request, the response block it reads, when it is content with it, and what it leaves unread |
| `Handshake.Agreement` | hello-websocket-cpp/common/ws.hpp:543-568 | for every path, host and user id without CR or LF: the server reads the request iff it keeps the limit, extracts the client's key, the client accepts the response, and bytes behind either block are untouched |
| `Handshake.PathDecides` | hello-websocket-cpp/common/ws.hpp:459-464 | the server serves a request iff it asks for the path it expects |
| `Handshake.UserIdArrives` | hello-websocket-cpp/common/ws.hpp:473-479 | the server goes on with the user id as the client gave it iff it has 1 to 128 bytes, none below 0x20 and none 0x7F, and does not start with a space |
| `Connection.OpenClient` | hello-websocket-cpp/common/ws.hpp:543-573 | the client is content, its messages follow its request, and what the server sends behind its response is still to be read |
| `Connection.OpenServer` | hello-websocket-cpp/common/ws.hpp:453-497 | the server accepts iff the request keeps the header limit; its messages follow its response, and what the client sends behind its request is still to be read |
| `Connection.Converse` | hello-websocket-cpp/common/ws.hpp:453-573 | handshake and message lists in both directions over two sockets, each fed what the other sends: everything arrives and no byte is left over, iff the request keeps the header limit |
| `Calendar.NextYear` | hello-websocket-rust/common/lib.rs:476-478 | the closed-form count of leap years grows as the leap rule says |
| `Calendar.YearOf` | hello-websocket-rust/common/lib.rs:449-458 | the year loop leaves a day of that year |
| `Calendar.MonthOf` | hello-websocket-rust/common/lib.rs:459-471 | the month loop stops at a month of the table, never at 13 |
| `Calendar.UnixToUtc` | hello-websocket-rust/common/lib.rs:443-473 | always a valid date and time; it counts back to the argument iff the day number fits 32 bits |
| `Calendar.SwiftFields` | hello-websocket-swift/common/Codec.swift:386-408 | a valid date and time that counts back to the argument |
| `Calendar.SecondsOrder` | hello-websocket-rust/common/lib.rs:443-473 | fields are ordered as the seconds are, and determined by them |
| `Calendar.SameFields` | hello-websocket-swift/common/Codec.swift:384-410 | both programs give the same fields iff the day number fits 32 bits |
| `Calendar.LaterFields` | hello-websocket-rust/common/lib.rs:443-473 | later seconds give later fields |
| `Session.MutexStep` | hello-websocket-cpp/server/ws_server.cpp:61-66 | every step of every thread keeps mutual exclusion: exactly the lock holder is between lock and unlock |
| `Session.MutexRun` | hello-websocket-cpp/server/ws_server.cpp:50-235 | so does every run |
| `SessionFrames.InFramesBytes` | hello-websocket-cpp/common/ws.hpp:209-218 | pieces that each go on where the last stopped, or start a frame where one ended, are on the wire as whole frames in order of completion and a prefix of one |
| `SessionFrames.FrameStructure` | hello-websocket-cpp/server/ws_server.cpp:50-235 | over every run of every session, with control answers and failed sends: the wire is whole frames, messages and control answers, in order and a prefix of one, iff no `send` took bytes while another frame was partly out or after a failed `send` had left one unfinished |
| `SessionFrames.MutexSuffices` | hello-websocket-cpp/server/ws_server.cpp:54-113 | over every interleaving and partial write, the mutex makes every `send` meet that condition unless a control answer is written or a `send` of a message fails |
| `SessionFrames.AnswerTears` | hello-websocket-cpp/common/ws.hpp:359-368 | where a message is partly out, a control answer that goes out at once lands inside it: the wire is the complete frames, the part of the message, then the answer, and that is not the complete frames, the answer among them, followed by the part |
| `SessionFrames.NothingNew` | hello-websocket-cpp/server/ws_server.cpp:61-66 | once inactive, in every run, all message bytes ever written are bytes still due of the one frame whose writer had passed the check, in order, and all of them unless a `send` fails; at most that message is completed |
| `SessionTears.AnswerTearsRun` | hello-websocket-cpp/common/ws.hpp:365-368 | in every session there is a run from the start in which a Pong lands inside a PING message: both frames are written completely, and the client decodes nothing |
| `SessionTears.FailureTearsRun` | hello-websocket-cpp/server/ws_server.cpp:64-76 | in every session there is a run from the start in which a message follows one that failed with two bytes out, before its sender reacts: the client decodes nothing |
| `SessionReplies.SaysUnknownIff` | hello-websocket-cpp/server/ws_server.cpp:139 | the test on the exception text holds for the unknown-type error alone |
| `SessionReplies.ReplyTrace` | hello-websocket-cpp/server/ws_server.cpp:130-219 | over every run in which the receive loop's own replies go out: the replies sent are a prefix of one fold over the first payloads that came in, in order, complete while the session is active but for the reply in hand, and nothing is dispatched after a payload that ends it |
| `SessionReplies.ReactAnswers` | hello-websocket-cpp/server/ws_server.cpp:138-218 | a payload is answered iff it is not KISS_RESPONSE, PONG, DISCONNECT or ERROR, and each kind with its own answer: BONJOUR, ECHO_RESPONSE, HASH_RESPONSE, or ERROR with code 1 or 2 and the text of the source |
| `SessionReplies.AnswersSent` | hello-websocket-cpp/server/ws_server.cpp:130-219 | in every such run the replies on the wire are, in order, the answers to the payloads that came in and ask for one, and nothing else |
| `SessionReplies.LanguageIsLastHello` | hello-websocket-cpp/server/ws_server.cpp:150-151 | the language echoed is that of the most recent HELLO, or "unknown" |
| `SessionReplies.HashesInOrder` | hello-websocket-cpp/server/ws_server.cpp:187-197 | the fold owes one HASH_RESPONSE per RANDOM_NUMBER, in order, with its id and hash |
| `SessionReplies.HashesSent` | hello-websocket-cpp/server/ws_server.cpp:187-197 | in every such run the HASH_RESPONSE messages on the wire answer the RANDOM_NUMBER payloads that came in, one each, in order, and all that were dispatched while the session is active with no reply in hand |
| `SessionReplies.EchoReplyCarries` | hello-websocket-cpp/server/ws_server.cpp:161-177 | status 200, one OK result with the server's time, and a map with the request id, data, meta and language |
| `SessionReplies.EchoOrder` | hello-websocket-cpp/server/ws_server.cpp:170-173 | the four entries are written data, id, lang, meta |
| `SessionReplies.EchoSent` | hello-websocket-cpp/server/ws_server.cpp:150-177 | in every such run an ECHO_RESPONSE on the wire answers an ECHO_REQUEST that came in, with its fields, the time it was dispatched and the language of the last HELLO in front of it |
| `SessionReplies.ErrorReplies` | hello-websocket-cpp/server/ws_server.cpp:138-159 | code 2 and go on iff the type is unknown or unhandled; code 1 and stop iff the payload does not decode otherwise; BONJOUR iff HELLO |
| `SessionReplies.FatalErrorIsLast` | hello-websocket-cpp/server/ws_server.cpp:138-146 | in every such run an ERROR with code 1 on the wire is the last reply on the wire and answers the last payload dispatched |
| `SessionTimeout.TimeoutFiresIff` | hello-websocket-cpp/server/ws_server.cpp:116-127 | a check ends an active session iff the session and every PONG dispatched are more than 60000 ms old |
| `SessionTimeout.SilentSessionEnds` | hello-websocket-cpp/server/ws_server.cpp:116-127 | with checks at most 5000 + d ms apart, no session is active more than 65000 + d ms after the last PONG recorded (or its start) |
| `SessionTimeout.PongTimestampsIgnored` | hello-websocket-cpp/server/ws_server.cpp:183-185 | two sessions whose inputs differ only in PONG timestamps can take the same steps and stay equal in everything else |
| `SessionBackground.WakeStamps` | hello-websocket-cpp/server/ws_server.cpp:68-113 | a background sender that wakes in an active session stamps its message with the time, and names the platform |
| `SessionBackground.BackgroundSent` | hello-websocket-cpp/server/ws_server.cpp:68-113 | in every run a PING or TIME_NOTIFICATION on the wire bears a time between the start of the session and now, and a KISS_REQUEST names the platform |
| `SessionEnds.EndsStep` | hello-websocket-cpp/server/ws_server.cpp:50-235 | a step ends an active session iff it is one of five: the receive loop leaves, a background sender learns of its failure, the reply to a payload that does not decode is done, DISCONNECT comes in, 60000 ms without PONG are found |
| `SessionEnds.SessionActiveIff` | hello-websocket-cpp/server/ws_server.cpp:50-235 | in every run the session is active iff no step so far was one of those |
| `SessionEnds.FailedSenderEnds` | hello-websocket-cpp/server/ws_server.cpp:76-111 | after a background sender has learnt of its failure the session is inactive and the sender stopped, at every later moment |
| `SessionEnds.FailureIsOwn` | hello-websocket-cpp/server/ws_server.cpp:61-66 | in an active session such a failure is a failed `send` of that sender |
| `SessionEnds.HangupEnds` | hello-websocket-cpp/server/ws_server.cpp:133-227 | once the receive loop leaves, the session is inactive and nothing is dispatched, at every later moment |
| `SessionEnds.CloseEnds` | hello-websocket-cpp/common/ws.hpp:359-364 | in every run, once a Close has been answered nothing that comes in is dispatched, however the run goes on |
| `SessionEnds.FailedAnswerEnds` | hello-websocket-cpp/common/ws.hpp:365-366 | the same once an answer could not be sent |
| `SessionEnds.ControlAnswered` | hello-websocket-cpp/common/ws.hpp:302-368 | a Ping is answered by 8A and the same data and changes nothing else; a Close by 88 and the same data, and the loop leaves |
| `SessionEnds.StoppedOnlyWhenInactive` | hello-websocket-cpp/server/ws_server.cpp:69-127 | in every run no thread has left its loop while the session is active |
| `SessionEnds.WindsDown` | hello-websocket-cpp/server/ws_server.cpp:69-113 | once the session is inactive a background thread takes only so many more steps, however the run goes on, and then it has left |
| `SessionEnds.WatchLeavesNow` | hello-websocket-cpp/server/ws_server.cpp:116-127 | so does the timeout thread, at its next step |
| `SessionEnds.NeverStuck` | hello-websocket-cpp/server/ws_server.cpp:50-235 | at every moment of every run a thread that has not left can go on, by a `send` of any size if it is writing, or waits for the mutex and its holder can go on |
| `SessionEnds.TimePasses` | hello-websocket-cpp/server/ws_server.cpp:120 | any time can pass at any moment |
| `SessionClient.CutFrameRefused` | hello-websocket-cpp/common/ws.hpp:326-357 | a proper prefix of any frame, acceptable or not, is never taken for a frame |
| `SessionClient.DataRefused` | hello-websocket-cpp/common/ws.hpp:340-349 | a message over the limit is refused on its header, up to any size a 64-bit length can state |
| `SessionClient.EntriesDrained` | hello-websocket-cpp/common/ws.hpp:359-385 | on whole frames of a server the client passes over Pongs, stops at a Close, and decodes every message before |
| `SessionClient.ReactProper` | hello-websocket-cpp/server/ws_server.cpp:130-219 | a reply to any decoder result has UTF-8 strings and a sorted map, if the language kept is UTF-8, and the language kept next is UTF-8 |
| `SessionClient.ProperRun` | hello-websocket-cpp/server/ws_server.cpp:50-219 | over every run, everything logged or waiting to be sent has UTF-8 strings and sorted maps |
| `SessionClient.ClientView` | hello-websocket-cpp/server/ws_server.cpp:54-113 | at every moment of every run that keeps the frame structure, with control answers and failed sends, a client decodes the completely written messages in lock order up to the first over its 1 MiB limit or behind a Close, and is left with exactly the frames and the part of a frame behind the last of them; it decodes all iff none is over the limit or behind a Close |

## Left out

- Transport.Socket.SendAll: the cast of a chunk length to a 32-bit `int` is not modelled; it matters for buffers of 2 GiB and more.
- Transport.Socket.SendBinary: a buffer of 2^63 bytes or more is excluded, as no vector holds one.
- SessionClient.ClientView: messages of 2^64 bytes or more are excluded, as `size_t` cannot count them.
- SessionReplies.ReplyTrace: runs in which a reply itself fails to go out are excluded; the receive loop ignores that failure and the reply is missing from the trace.
- SwiftTransport.ReadFrame: a failing `sendBytes` is not modelled; the answers are returned as the frames handed to it.
- Swift `sendBytes` and `recvHTTP`: a single `send` without a retry, and reads past the header block.
- Swift `ByteReader`: modelled as functions of the bytes left, not as an object with a cursor; the C++ reader is modelled in that form and the two are proved to accept the same inputs.
- Swift `SHA256.hash`: runs the same loops as the C++ function, so one method stands for both.
- Which Ping and Close frames a session gets: any may come at any time while the receive loop is inside `wsRecvFrame`; `Receiver` says how they stand in the stream.
- The effect of closing or shutting down a socket: a later `send` or `recv` fails, which is a step of the model.
- The lengths of the background senders' sleeps, thread creation and joining, logging.
- `wsSendClose`, which nothing calls, and the C++ client's own loops.
- The text of the ISO date, beyond its fields.
- The codecs and servers in the other languages, over library integers, UTF-8 and WebSocket code.
