/** The thirteen protocol messages, their payload layout, and the ordered string map that one of them
    carries. A `std::string` or a Swift `String` is its UTF-8 bytes. A `std::map` is the association list
    that its iterator walks: strictly increasing keys, compared as unsigned bytes. */
module Messages {
  import opened Bytes
  import opened Utf8

  datatype Pair = Pair(key: bytes, value: bytes)

  datatype EchoResult = EchoResult(idx: i64, kind: byte, kv: seq<Pair>)

  datatype Message =
    | Hello(clientLanguage: bytes)
    | Bonjour(serverLanguage: bytes)
    | EchoRequest(echoId: i64, echoMeta: bytes, echoData: bytes)
    | EchoResponse(echoStatus: i32, echoResults: seq<EchoResult>)
    | KissRequest(osName: bytes, osVersion: bytes, osRelease: bytes, osArch: bytes)
    | KissResponse(kissLanguage: bytes, kissEncoding: bytes, kissTimeZone: bytes)
    | Ping(timestampMs: i64)
    | Pong(timestampMs: i64)
    | TimeNotification(timestampMs: i64, iso8601: bytes)
    | RandomNumber(randomId: i64, randomNumber: i64)
    | HashResponse(randomId: i64, hashHex: bytes)
    | Disconnect(disconnectReason: bytes)
    | ErrorReport(errorCode: i32, errorMessage: bytes)

  const MAGIC: byte := 0x48
  const VERSION: byte := 0x01
  const HEADER_LEN: nat := 8

  function TypeOf(m: Message): (t: byte) {
    match m
    case Hello(_) => 0x01
    case Bonjour(_) => 0x02
    case EchoRequest(_, _, _) => 0x03
    case EchoResponse(_, _) => 0x04
    case KissRequest(_, _, _, _) => 0x05
    case KissResponse(_, _, _) => 0x06
    case Ping(_) => 0x07
    case Pong(_) => 0x08
    case TimeNotification(_, _) => 0x09
    case RandomNumber(_, _) => 0x0A
    case HashResponse(_, _) => 0x0B
    case Disconnect(_) => 0x0C
    case ErrorReport(_, _) => 0x7F
  }

  predicate KnownType(t: byte) { 0x01 <= t <= 0x0C || t == 0x7F }

  // ----- layout (PROTOCOL.md, sections 2, 3 and 5) -----

  /** Two's complement; the length of a string and the count of a map keep 32 bits, as in the source. */
  function I32(v: i32): (s: bytes) ensures |s| == 4 { U32(Wrap(v, TWO_32)) }
  function I64(v: i64): (s: bytes) ensures |s| == 8 { U64(Wrap(v, TWO_64)) }
  function Str(s: bytes): (r: bytes) ensures |r| == 4 + |s| { U32(|s|) + s }

  function Pairs(ps: seq<Pair>): (s: bytes) {
    if ps == [] then [] else Str(ps[0].key) + (Str(ps[0].value) + Pairs(ps[1..]))
  }

  function Kv(ps: seq<Pair>): (s: bytes) { U32(|ps|) + Pairs(ps) }

  function Result(r: EchoResult): (s: bytes) { I64(r.idx) + ([r.kind] + Kv(r.kv)) }

  function Results(rs: seq<EchoResult>): (s: bytes) {
    if rs == [] then [] else Result(rs[0]) + Results(rs[1..])
  }

  function Payload(m: Message): (s: bytes) {
    match m
    case Hello(a) => Str(a)
    case Bonjour(a) => Str(a)
    case EchoRequest(id, a, b) => I64(id) + (Str(a) + Str(b))
    case EchoResponse(st, rs) => I32(st) + (U32(|rs|) + Results(rs))
    case KissRequest(a, b, c, d) => Str(a) + (Str(b) + (Str(c) + Str(d)))
    case KissResponse(a, b, c) => Str(a) + (Str(b) + Str(c))
    case Ping(t) => I64(t)
    case Pong(t) => I64(t)
    case TimeNotification(t, a) => I64(t) + Str(a)
    case RandomNumber(id, n) => I64(id) + I64(n)
    case HashResponse(id, a) => I64(id) + Str(a)
    case Disconnect(a) => Str(a)
    case ErrorReport(c, a) => I32(c) + Str(a)
  }

  function EncodeFrame(msgType: byte, flags: byte, payload: bytes): (s: bytes) {
    [MAGIC, VERSION, msgType, flags] + U32(|payload|) + payload
  }

  function Encode(m: Message): (s: bytes) { EncodeFrame(TypeOf(m), 0, Payload(m)) }

  // ----- well-formed messages -----

  predicate ValidPairs(ps: seq<Pair>) {
    forall i :: 0 <= i < |ps| ==> Valid(ps[i].key) && Valid(ps[i].value)
  }

  predicate ValidResults(rs: seq<EchoResult>) {
    forall i :: 0 <= i < |rs| ==> ValidPairs(rs[i].kv)
  }

  /** Every string of the message is UTF-8. */
  predicate ValidStrings(m: Message) {
    match m
    case Hello(a) => Valid(a)
    case Bonjour(a) => Valid(a)
    case EchoRequest(_, a, b) => Valid(a) && Valid(b)
    case EchoResponse(_, rs) => ValidResults(rs)
    case KissRequest(a, b, c, d) => Valid(a) && Valid(b) && Valid(c) && Valid(d)
    case KissResponse(a, b, c) => Valid(a) && Valid(b) && Valid(c)
    case Ping(_) => true
    case Pong(_) => true
    case TimeNotification(_, a) => Valid(a)
    case RandomNumber(_, _) => true
    case HashResponse(_, a) => Valid(a)
    case Disconnect(a) => Valid(a)
    case ErrorReport(_, a) => Valid(a)
  }

  /** Every map of the message is one a `std::map` can hold. */
  predicate SortedMaps(m: Message) {
    m.EchoResponse? ==> forall i :: 0 <= i < |m.echoResults| ==> Sorted(m.echoResults[i].kv)
  }

  // ----- the ordered map -----

  /** Lexicographic order on unsigned bytes: the order of `std::string`. */
  predicate Less(a: bytes, b: bytes) {
    if b == [] then false
    else if a == [] then true
    else if a[0] != b[0] then a[0] < b[0]
    else Less(a[1..], b[1..])
  }

  /** `a` comes first where the two first differ: there `a` has ended or has the smaller unsigned byte. */
  lemma {:induction false} LessIff(a: bytes, b: bytes)
    ensures Less(a, b) <==> exists i: nat :: DiffersAt(a, b, i)
  {
    if b != [] && a != [] && a[0] == b[0] {
      LessIff(a[1..], b[1..]);
      if Less(a, b) {
        var i: nat :| DiffersAt(a[1..], b[1..], i);
        assert a[..i + 1] == [a[0]] + a[1..][..i] && b[..i + 1] == [b[0]] + b[1..][..i];
        assert DiffersAt(a, b, i + 1);
      }
      if i: nat :| DiffersAt(a, b, i) {
        assert i > 0;
        assert a[1..][..i - 1] == a[..i][1..] && b[1..][..i - 1] == b[..i][1..];
        assert DiffersAt(a[1..], b[1..], i - 1);
      }
    } else if b != [] {
      if Less(a, b) { assert DiffersAt(a, b, 0); }
      forall i: nat ensures DiffersAt(a, b, i) && i > 0 ==> a[0] == b[0] { SameStart(a, b, i); }
    }
  }

  lemma SameStart(a: bytes, b: bytes, i: nat)
    ensures 0 < i <= |a| && i <= |b| && a[..i] == b[..i] ==> a[0] == b[0]
  {
    if 0 < i <= |a| && i <= |b| { assert a[..i][0] == a[0] && b[..i][0] == b[0]; }
  }

  ghost predicate DiffersAt(a: bytes, b: bytes, i: nat) {
    i <= |a| && i < |b| && a[..i] == b[..i] && (i == |a| || a[i] < b[i])
  }

  lemma {:induction false} LessTrichotomy(a: bytes, b: bytes)
    ensures Less(a, b) || a == b || Less(b, a)
    ensures !(Less(a, b) && Less(b, a))
    ensures !Less(a, a)
  {
    if a != [] && b != [] {
      LessTrichotomy(a[1..], b[1..]);
      assert a == [a[0]] + a[1..] && b == [b[0]] + b[1..];
    }
    if a != [] { LessTrichotomy(a[1..], a[1..]); }
  }

  lemma {:induction false} LessTransitive(a: bytes, b: bytes, c: bytes)
    requires Less(a, b) && Less(b, c)
    ensures Less(a, c)
  {
    if a != [] && a[0] == b[0] && b[0] == c[0] {
      LessTransitive(a[1..], b[1..], c[1..]);
    }
  }

  predicate Sorted(m: seq<Pair>) {
    forall i, j :: 0 <= i < j < |m| ==> Less(m[i].key, m[j].key)
  }

  /** `m[k] = v` on the ordered map. */
  function Put(m: seq<Pair>, k: bytes, v: bytes): (r: seq<Pair>) {
    if m == [] || Less(k, m[0].key) then [Pair(k, v)] + m
    else if k == m[0].key then [Pair(k, v)] + m[1..]
    else [m[0]] + Put(m[1..], k, v)
  }

  function PutAll(m: seq<Pair>, ps: seq<Pair>): (r: seq<Pair>)
    decreases |ps|
  {
    if ps == [] then m else PutAll(Put(m, ps[0].key, ps[0].value), ps[1..])
  }

  /** What is left of a list of entries once they have been stored one by one. */
  function Collapse(ps: seq<Pair>): (r: seq<Pair>) { PutAll([], ps) }

  /** The finite map that a list of entries denotes: the last entry for a key wins. */
  function LastWins(ps: seq<Pair>): (r: map<bytes, bytes>) {
    if ps == [] then map[]
    else LastWins(ps[..|ps| - 1])[ps[|ps| - 1].key := ps[|ps| - 1].value]
  }

  // Four laws of finite maps.
  lemma UpdateIsMerge(a: map<bytes, bytes>, k: bytes, v: bytes)
    ensures a[k := v] == a + map[k := v]
  {
  }

  lemma MergeAssociative(a: map<bytes, bytes>, b: map<bytes, bytes>, c: map<bytes, bytes>)
    ensures (a + b) + c == a + (b + c)
  {
  }

  lemma UpdateMerge(a: map<bytes, bytes>, b: map<bytes, bytes>, k: bytes, v: bytes)
    ensures a + b[k := v] == (a + b)[k := v]
  {
  }

  lemma FrontFresh(m: map<bytes, bytes>, k: bytes, v: bytes, w: bytes)
    requires k !in m
    ensures map[k := v] + m == m[k := v]
    ensures (map[k := w] + m)[k := v] == m[k := v]
  {
  }

  lemma {:induction false} LastWinsHead(ps: seq<Pair>)
    requires ps != []
    ensures LastWins(ps) == map[ps[0].key := ps[0].value] + LastWins(ps[1..])
    decreases |ps|
  {
    if |ps| == 1 {
      assert ps[..0] == [] && ps[1..] == [];
      assert LastWins(ps[..0]) == map[];
    } else {
      var front := ps[..|ps| - 1];
      LastWinsHead(front);
      assert ps[1..][..|ps| - 2] == front[1..];
      var last := ps[|ps| - 1];
      UpdateMerge(map[ps[0].key := ps[0].value], LastWins(front[1..]), last.key, last.value);
    }
  }

  lemma {:induction false} PutKeepsKeys(m: seq<Pair>, k: bytes, v: bytes)
    ensures forall p :: p in Put(m, k, v) ==> p == Pair(k, v) || p in m
  {
    if m == [] || Less(k, m[0].key) || k == m[0].key {
    } else {
      PutKeepsKeys(m[1..], k, v);
    }
  }

  lemma SortedCons(p: Pair, m: seq<Pair>)
    requires Sorted(m)
    requires forall q :: q in m ==> Less(p.key, q.key)
    ensures Sorted([p] + m)
  {
    var s := [p] + m;
    forall i, j | 0 <= i < j < |s| ensures Less(s[i].key, s[j].key) {
      if i == 0 { assert s[j] == m[j - 1]; } else { assert s[i] == m[i - 1] && s[j] == m[j - 1]; }
    }
  }

  lemma SortedTail(m: seq<Pair>)
    requires Sorted(m) && m != []
    ensures Sorted(m[1..])
    ensures forall q :: q in m[1..] ==> Less(m[0].key, q.key)
  {
    forall i, j | 0 <= i < j < |m[1..]| ensures Less(m[1..][i].key, m[1..][j].key) {
      assert m[1..][i] == m[i + 1] && m[1..][j] == m[j + 1];
    }
    forall q | q in m[1..] ensures Less(m[0].key, q.key) {
      var i :| 0 <= i < |m[1..]| && m[1..][i] == q;
      assert q == m[i + 1];
    }
  }

  /** Storing keeps the keys strictly increasing. */
  lemma {:induction false} PutSorted(m: seq<Pair>, k: bytes, v: bytes)
    requires Sorted(m)
    ensures Sorted(Put(m, k, v))
  {
    if m == [] {
    } else {
      SortedTail(m);
      if Less(k, m[0].key) {
        forall q | q in m ensures Less(k, q.key) {
          if q != m[0] {
            assert q in m[1..] by { var i :| 0 <= i < |m| && m[i] == q; assert m[1..][i - 1] == q; }
            LessTransitive(k, m[0].key, q.key);
          }
        }
        SortedCons(Pair(k, v), m);
      } else if k == m[0].key {
        SortedCons(Pair(k, v), m[1..]);
      } else {
        LessTrichotomy(k, m[0].key);
        PutSorted(m[1..], k, v);
        PutKeepsKeys(m[1..], k, v);
        SortedCons(m[0], Put(m[1..], k, v));
      }
    }
  }

  lemma {:induction false} LastWinsKeys(m: seq<Pair>, k: bytes)
    requires forall q :: q in m ==> q.key != k
    ensures k !in LastWins(m)
  {
    if m != [] { LastWinsKeys(m[..|m| - 1], k); }
  }

  /** Storing is map update. */
  lemma {:induction false} PutLastWins(m: seq<Pair>, k: bytes, v: bytes)
    requires Sorted(m)
    ensures LastWins(Put(m, k, v)) == LastWins(m)[k := v]
  {
    var r := Put(m, k, v);
    LastWinsHead(r);
    if m == [] {
      assert r[1..] == [];
    } else {
      SortedTail(m);
      LastWinsHead(m);
      if Less(k, m[0].key) {
        assert r[1..] == m;
        forall q | q in m ensures q.key != k {
          LessTrichotomy(k, k);
          if q != m[0] {
            assert q in m[1..] by { var i :| 0 <= i < |m| && m[i] == q; assert m[1..][i - 1] == q; }
            LessTransitive(k, m[0].key, q.key);
          }
        }
        LastWinsKeys(m, k);
        FrontFresh(LastWins(m), k, v, v);
      } else if k == m[0].key {
        assert r[1..] == m[1..];
        LessTrichotomy(k, k);
        LastWinsKeys(m[1..], k);
        FrontFresh(LastWins(m[1..]), k, v, m[0].value);
      } else {
        assert r[1..] == Put(m[1..], k, v);
        PutLastWins(m[1..], k, v);
        UpdateMerge(map[m[0].key := m[0].value], LastWins(m[1..]), k, v);
      }
    }
  }

  lemma {:induction false} PutAllDenotes(m: seq<Pair>, ps: seq<Pair>)
    requires Sorted(m)
    ensures Sorted(PutAll(m, ps))
    ensures LastWins(PutAll(m, ps)) == LastWins(m) + LastWins(ps)
    decreases |ps|
  {
    if ps == [] {
      assert LastWins(m) + map[] == LastWins(m);
    } else {
      var m' := Put(m, ps[0].key, ps[0].value);
      PutSorted(m, ps[0].key, ps[0].value);
      PutLastWins(m, ps[0].key, ps[0].value);
      PutAllDenotes(m', ps[1..]);
      LastWinsHead(ps);
      UpdateIsMerge(LastWins(m), ps[0].key, ps[0].value);
      MergeAssociative(LastWins(m), map[ps[0].key := ps[0].value], LastWins(ps[1..]));
    }
  }

  /** The ordered map built from a list of entries is sorted and is the last-wins map of the list. */
  lemma CollapseDenotes(ps: seq<Pair>)
    ensures Sorted(Collapse(ps))
    ensures LastWins(Collapse(ps)) == LastWins(ps)
  {
    PutAllDenotes([], ps);
    assert map[] + LastWins(ps) == LastWins(ps);
  }

  lemma {:induction false} LastWinsHasKeys(m: seq<Pair>, q: Pair)
    requires q in m
    ensures q.key in LastWins(m)
  {
    if q != m[|m| - 1] {
      var i :| 0 <= i < |m| && m[i] == q;
      assert m[..|m| - 1][i] == q;
      LastWinsHasKeys(m[..|m| - 1], q);
    }
  }

  lemma LastWinsEmpty()
    ensures LastWins([]) == map[]
  {
  }

  /** A key of the denoted map is the key of some entry. */
  lemma {:induction false} LastWinsFrom(m: seq<Pair>, k: bytes) returns (q: Pair)
    requires k in LastWins(m)
    ensures q in m && q.key == k
  {
    if m[|m| - 1].key == k {
      q := m[|m| - 1];
    } else {
      q := LastWinsFrom(m[..|m| - 1], k);
    }
  }

  /** A sorted list is determined by the map it denotes, so the list form loses nothing. */
  lemma {:induction false} SortedCanonical(a: seq<Pair>, b: seq<Pair>)
    requires Sorted(a) && Sorted(b) && LastWins(a) == LastWins(b)
    ensures a == b
    decreases |a|
  {
    hide Less, LastWins;
    if a == [] {
      LastWinsEmpty();
      if b != [] { LastWinsHasKeys(b, b[0]); }
    } else if b == [] {
      LastWinsEmpty();
      LastWinsHasKeys(a, a[0]);
    } else {
      SameFirstKey(a, b);
      SortedRemoveFirst(a);
      SortedRemoveFirst(b);
      SortedCanonical(a[1..], b[1..]);
      assert a[0] == Pair(a[0].key, a[0].value) && b[0] == Pair(b[0].key, b[0].value);
      assert a == [a[0]] + a[1..] && b == [b[0]] + b[1..];
    }
  }

  lemma SortedRemoveFirst(a: seq<Pair>)
    requires Sorted(a) && a != []
    ensures Sorted(a[1..])
    ensures a[0].key in LastWins(a) && LastWins(a)[a[0].key] == a[0].value
    ensures LastWins(a[1..]) == LastWins(a) - {a[0].key}
  {
    hide Less;
    SortedTail(a);
    LastWinsHead(a);
    LessTrichotomy(a[0].key, a[0].key);
    LastWinsKeys(a[1..], a[0].key);
    FrontFresh(LastWins(a[1..]), a[0].key, a[0].value, a[0].value);
  }

  lemma SameFirstKey(a: seq<Pair>, b: seq<Pair>)
    requires Sorted(a) && Sorted(b) && a != [] && b != []
    requires LastWins(a) == LastWins(b)
    ensures a[0].key == b[0].key
  {
    LastWinsHasKeys(a, a[0]);
    LastWinsHasKeys(b, b[0]);
    var p := LastWinsFrom(b, a[0].key);
    var q := LastWinsFrom(a, b[0].key);
    FirstIsLeast(b, p);
    FirstIsLeast(a, q);
    LessTrichotomy(a[0].key, b[0].key);
  }

  lemma FirstIsLeast(m: seq<Pair>, q: Pair)
    requires Sorted(m) && q in m
    ensures q == m[0] || Less(m[0].key, q.key)
  {
    var i :| 0 <= i < |m| && m[i] == q;
  }

  // ----- sorted lists are kept as they are, and collapsing never grows the encoding -----

  lemma {:induction false} PutLast(m: seq<Pair>, k: bytes, v: bytes)
    requires forall q :: q in m ==> Less(q.key, k)
    ensures Put(m, k, v) == m + [Pair(k, v)]
  {
    if m != [] {
      assert m[0] in m;
      LessTrichotomy(m[0].key, k);
      PutLast(m[1..], k, v);
      assert m + [Pair(k, v)] == [m[0]] + (m[1..] + [Pair(k, v)]);
    }
  }

  lemma {:induction false} PutAllSorted(m: seq<Pair>, ps: seq<Pair>)
    requires Sorted(m + ps)
    ensures PutAll(m, ps) == m + ps
    decreases |ps|
  {
    if ps != [] {
      forall q | q in m ensures Less(q.key, ps[0].key) {
        var i :| 0 <= i < |m| && m[i] == q;
        assert (m + ps)[i] == q && (m + ps)[|m|] == ps[0];
      }
      PutLast(m, ps[0].key, ps[0].value);
      assert ps[0] == Pair(ps[0].key, ps[0].value);
      assert m + [ps[0]] + ps[1..] == m + ps;
      PutAllSorted(m + [ps[0]], ps[1..]);
    }
  }

  /** Collapsing changes nothing exactly on lists with strictly increasing keys. */
  lemma CollapseFixpoint(ps: seq<Pair>)
    ensures Collapse(ps) == ps <==> Sorted(ps)
  {
    CollapseDenotes(ps);
    if Sorted(ps) {
      assert [] + ps == ps;
      PutAllSorted([], ps);
    }
  }

  lemma {:induction false} PutSize(m: seq<Pair>, k: bytes, v: bytes)
    ensures |Pairs(Put(m, k, v))| <= |Pairs(m)| + 8 + |k| + |v|
    ensures |Put(m, k, v)| <= |m| + 1
  {
    var r := Put(m, k, v);
    if m == [] || Less(k, m[0].key) {
      assert r[1..] == m;
    } else if k == m[0].key {
      assert r[1..] == m[1..];
    } else {
      PutSize(m[1..], k, v);
      assert r[1..] == Put(m[1..], k, v);
    }
  }

  lemma {:induction false} PutAllSize(m: seq<Pair>, ps: seq<Pair>)
    ensures |Pairs(PutAll(m, ps))| <= |Pairs(m)| + |Pairs(ps)|
    ensures |PutAll(m, ps)| <= |m| + |ps|
    decreases |ps|
  {
    if ps != [] {
      PutSize(m, ps[0].key, ps[0].value);
      PutAllSize(Put(m, ps[0].key, ps[0].value), ps[1..]);
    }
  }

  lemma {:induction false} PutAllValid(m: seq<Pair>, ps: seq<Pair>)
    requires ValidPairs(m) && ValidPairs(ps)
    ensures ValidPairs(PutAll(m, ps))
    decreases |ps|
  {
    if ps != [] {
      var r := Put(m, ps[0].key, ps[0].value);
      PutKeepsKeys(m, ps[0].key, ps[0].value);
      forall i | 0 <= i < |r| ensures Valid(r[i].key) && Valid(r[i].value) {
        assert r[i] in r;
      }
      PutAllValid(r, ps[1..]);
    }
  }
}
