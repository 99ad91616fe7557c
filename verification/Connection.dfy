/** A whole connection: opening handshake, then messages in both directions, through two sockets each of
    which is fed what the other sends. */
module Connection {
  import opened Bytes
  import opened Messages
  import opened Framing
  import opened Transport
  import opened FullStack
  import Base64
  import Handshake

  function Request(path: bytes, host: bytes, port: nat, keyBytes: bytes, userId: bytes): (s: bytes) {
    Handshake.Text(Handshake.RequestLines(path, host, port, Base64.Encode(keyBytes), userId))
  }

  function Response(keyBytes: bytes): (s: bytes) {
    Handshake.Text(Handshake.ResponseLines(Handshake.AcceptKey(Base64.Encode(keyBytes))))
  }

  lemma PrefixOf(a: bytes, b: bytes)
    ensures (a + b)[..|a|] == a && (a + b)[|a|..] == b
  {
  }

  lemma UserIdExtracted(path: bytes, host: bytes, port: nat, userId: bytes, keyBytes: bytes)
    requires Handshake.Plain(path) && Handshake.Plain(host) && Handshake.Plain(userId) && |keyBytes| == 16
    ensures Handshake.ExtractHeader(Request(path, host, port, keyBytes, userId), Handshake.UserId()) == Handshake.Trimmed(userId)
  {
    hide Handshake.ExtractHeader, Handshake.Text, Handshake.RequestLines, Handshake.Plain, Base64.Encode;
    Handshake.KeyText(keyBytes);
    Handshake.RequestHeaders(path, host, port, Base64.Encode(keyBytes), userId);
  }

  /** The client connects and sends `ms`. `tail` is what the server sends behind its response. */
  method OpenClient(client: Socket, path: bytes, host: bytes, port: nat, userId: bytes, keyBytes: bytes,
                    ms: seq<Message>, ghost tail: bytes) returns (ok: bool)
    requires Handshake.Plain(path) && Handshake.Plain(host) && Handshake.Plain(userId) && |keyBytes| == 16
    requires AllDeliverable(ms) && client.Valid() && client.room == None && client.sent == [] && client.drawn == 0
    requires client.Left() == Response(keyBytes) + tail
    modifies client
    ensures ok && client.Valid() && client.room == None && client.Left() == tail
    ensures client.sent == Request(path, host, port, keyBytes, userId) + Wire(ms, true, client.keys, 0)
  {
    hide Handshake.Text, Handshake.RequestLines, Handshake.ResponseLines, Handshake.AcceptKey, Base64.Encode;
    hide Handshake.HeadersFrom, Handshake.Serve, Handshake.ClientAccepts, Handshake.Plain, Deliverable, Wire;
    Handshake.Agreement(path, host, port, userId, keyBytes, [], tail);
    PrefixOf(Response(keyBytes), tail);
    Identity(Request(path, host, port, keyBytes, userId));
    ok := Handshake.Connect(client, path, host, port, userId, keyBytes);
    SendMessages(client, ms, true);
  }

  /** The server accepts and sends `rs`. `tail` is what the client sends behind its request. */
  method OpenServer(server: Socket, path: bytes, now: i64, rs: seq<Message>,
                    ghost host: bytes, ghost port: nat, ghost userId: bytes, ghost keyBytes: bytes, ghost tail: bytes)
    returns (user: Option<bytes>)
    requires Handshake.Plain(path) && Handshake.Plain(host) && Handshake.Plain(userId) && |keyBytes| == 16
    requires AllDeliverable(rs) && server.Valid() && server.room == None && server.sent == [] && server.drawn == 0
    requires server.Left() == Request(path, host, port, keyBytes, userId) + tail
    modifies server
    ensures server.Valid() && server.room == None
    ensures if |Request(path, host, port, keyBytes, userId)| <= 8193
            then user == Some(Handshake.ServerUserId(Handshake.Trimmed(userId), now)) && server.Left() == tail
                 && server.sent == Response(keyBytes) + Wire(rs, false, server.keys, 0)
            else user == None
  {
    hide Handshake.Text, Handshake.RequestLines, Handshake.ResponseLines, Handshake.AcceptKey, Base64.Encode;
    hide Handshake.HeadersFrom, Handshake.Serve, Handshake.ExtractHeader, Handshake.ServerUserId, Handshake.Trimmed;
    hide Handshake.Plain, Handshake.UserId, Deliverable, Wire;
    Handshake.Agreement(path, host, port, userId, keyBytes, tail, []);
    UserIdExtracted(path, host, port, userId, keyBytes);
    PrefixOf(Request(path, host, port, keyBytes, userId), tail);
    Identity(Response(keyBytes));
    user := Handshake.Accept(server, path, now);
    if user.None? { return; }
    SendMessages(server, rs, false);
  }

  /** The client connects and sends `ms`, the server accepts and sends `rs`, and each receives. If the
      request keeps the header limit, everything arrives: frames sent right behind a header block are read
      intact by the other side, and no byte is lost or left over. If not, the server turns the client away.
      `wired` says that what each socket was fed is what the other one sent. */
  method Converse(path: bytes, host: bytes, port: nat, userId: bytes, keyBytes: bytes, now: i64,
                  ms: seq<Message>, rs: seq<Message>, clientKeys: nat -> Key, serverKeys: nat -> Key)
    returns (user: Option<bytes>, wired: bool, atServer: seq<Message>, atClient: seq<Message>, unread: nat)
    requires Handshake.Plain(path) && Handshake.Plain(host) && Handshake.Plain(userId) && |keyBytes| == 16
    requires AllDeliverable(ms) && AllDeliverable(rs)
    ensures if |Request(path, host, port, keyBytes, userId)| <= 8193
            then user == Some(Handshake.ServerUserId(Handshake.Trimmed(userId), now))
                 && wired && atServer == ms && atClient == rs && unread == 0
            else user == None
  {
    hide Handshake.Plain, Deliverable, Wire, Drain, Handshake.ServerUserId, Handshake.Trimmed, Request, Response;
    var downstream := Wire(rs, false, serverKeys, 0);
    ghost var upstream := Wire(ms, true, clientKeys, 0);
    StreamRoundTrip(ms, true, clientKeys, 0);
    StreamRoundTrip(rs, false, serverKeys, 0);
    var client := new Socket(Response(keyBytes) + downstream, None, clientKeys);
    var ok := OpenClient(client, path, host, port, userId, keyBytes, ms, downstream);
    var server := new Socket(client.sent, None, serverKeys);
    user := OpenServer(server, path, now, rs, host, port, userId, keyBytes, upstream);
    wired, atServer, atClient, unread := false, [], [], 0;
    if user.None? { return; }
    wired := ok && server.sent == client.incoming && client.sent == server.incoming;
    atServer := ReceiveMessages(server, true);
    atClient := ReceiveMessages(client, false);
    unread := |server.incoming| - server.pos + |client.incoming| - client.pos;
  }
}
