/** The opening handshake (sections 4.1 and 4.2.2 of RFC 6455): reading HTTP headers byte by byte, finding
    a header in them, and the request and response texts of the C++ client and server. */
module Handshake {
  import opened Bytes
  import opened Framing
  import opened Receiver
  import Base64
  import Sha1
  import Sha256
  import opened Transport

  const CR: byte := 13
  const LF: byte := 10
  const CRLF: bytes := [13, 10]
  const BLANK_LINE: bytes := [13, 10, 13, 10]
  const HEADER_LIMIT: nat := 8192

  // ----- reading the header block -----

  /** `recvHttpHeaders`: the length of the block, with `n` bytes read so far. The end of the block is looked
      for before the limit is, so the longest block it returns has one byte more than the limit. */
  function HeadersFrom(s: bytes, n: nat): (r: Option<nat>)
    requires n <= |s|
    decreases |s| - n
  {
    if n == |s| then None
    else if EndsAt(s, n + 1) then Some(n + 1)
    else if n + 1 > HEADER_LIMIT then None
    else HeadersFrom(s, n + 1)
  }

  predicate EndsAt(s: bytes, n: nat)
    requires n <= |s|
  {
    n >= 4 && s[n - 4..n] == BLANK_LINE
  }

  /** The block ends at the first blank line, if that comes within the limit. */
  lemma {:induction false} HeadersFromSpec(s: bytes, n: nat, end: nat)
    requires n < end <= |s| && EndsAt(s, end)
    requires forall m :: n < m < end ==> !EndsAt(s, m)
    ensures HeadersFrom(s, n) == if end <= 8193 || n + 1 == end then Some(end) else None
    decreases end - n
  {
    if n + 1 < end && n + 1 <= HEADER_LIMIT {
      HeadersFromSpec(s, n + 1, end);
    }
  }

  /** Without a blank line the block never ends, whatever its length. */
  lemma {:induction false} NoBlankLine(s: bytes, n: nat)
    requires n <= |s| && forall m :: n < m <= |s| ==> !EndsAt(s, m)
    ensures HeadersFrom(s, n) == None
    decreases |s| - n
  {
    if n < |s| && n + 1 <= HEADER_LIMIT { NoBlankLine(s, n + 1); }
  }

  method RecvHttpHeaders(sock: Socket) returns (r: Option<bytes>)
    requires sock.Valid()
    modifies sock`pos
    ensures sock.Valid()
    ensures var s := old(sock.Left());
            match HeadersFrom(s, 0)
            case None => r == None
            case Some(n) => n <= |s| && r == Some(s[..n]) && sock.Left() == s[n..]
  {
    ghost var s := sock.Left();
    var buf: bytes := [];
    while true
      invariant sock.Valid() && s == buf + sock.Left()
      invariant HeadersFrom(s, 0) == HeadersFrom(s, |buf|)
      decreases |sock.Left()|
    {
      ghost var before := buf;
      var n, ch := sock.Recv(1);
      Assoc(before, ch, sock.Left());
      if n <= 0 {
        assert s == before;
        return None;
      }
      buf := buf + ch;
      assert s[..|buf|] == buf && s[|buf|..] == sock.Left();
      if |buf| >= 4 {
        assert buf[|buf| - 4..] == s[|buf| - 4..|buf|];
        if buf[|buf| - 4..] == BLANK_LINE { return Some(buf); }
      }
      if |buf| > HEADER_LIMIT { return None; }
    }
  }

  // ----- finding a header -----

  function ToLower(b: byte): (r: byte) { if 65 <= b <= 90 then b + 32 else b }

  function Lower(s: bytes): (r: bytes)
    ensures |r| == |s| && forall i :: 0 <= i < |s| ==> r[i] == ToLower(s[i])
  {
    seq(|s|, i requires 0 <= i < |s| => ToLower(s[i]))
  }

  /** `find`: the least index from `i` on where `pat` stands. */
  function FindFrom(s: bytes, pat: bytes, i: nat): (r: Option<nat>)
    ensures r.Some? ==> i <= r.value && r.value + |pat| <= |s|
    decreases |s| - i
  {
    if i + |pat| > |s| then None
    else if s[i..i + |pat|] == pat then Some(i)
    else if i == |s| then None
    else FindFrom(s, pat, i + 1)
  }

  predicate StandsAt(s: bytes, pat: bytes, i: nat) { i + |pat| <= |s| && s[i..i + |pat|] == pat }

  /** `find` gives the least such index, and nothing only if there is none. */
  lemma {:induction false} FindFromIsLeast(s: bytes, pat: bytes, i: nat)
    ensures match FindFrom(s, pat, i)
            case None => forall j :: i <= j ==> !StandsAt(s, pat, j)
            case Some(r) => StandsAt(s, pat, r) && forall j :: i <= j < r ==> !StandsAt(s, pat, j)
    decreases |s| - i
  {
    if i + |pat| <= |s| && s[i..i + |pat|] != pat && i != |s| {
      FindFromIsLeast(s, pat, i + 1);
      assert !StandsAt(s, pat, i);
    } else if i + |pat| <= |s| && s[i..i + |pat|] == pat {
      assert StandsAt(s, pat, i);
    }
  }

  /** The same byte, or the same letter in the other case. */
  predicate SameLetter(a: byte, b: byte) {
    a == b || (0x41 <= a <= 0x5A && b == a + 0x20) || (0x41 <= b <= 0x5A && a == b + 0x20)
  }

  lemma ToLowerIff(a: byte, b: byte)
    ensures ToLower(a) == ToLower(b) <==> SameLetter(a, b)
  {
  }

  predicate SameLetters(a: bytes, b: bytes) { |a| == |b| && forall i :: 0 <= i < |a| ==> SameLetter(a[i], b[i]) }

  lemma LowerIff(a: bytes, b: bytes)
    ensures Lower(a) == Lower(b) <==> SameLetters(a, b)
  {
    hide ToLower, SameLetter;
    forall i | 0 <= i < |a| && i < |b| ensures ToLower(a[i]) == ToLower(b[i]) <==> SameLetter(a[i], b[i]) {
      ToLowerIff(a[i], b[i]);
    }
    if |a| == |b| && SameLetters(a, b) {
      assert forall i :: 0 <= i < |a| ==> Lower(a)[i] == Lower(b)[i];
    }
    if Lower(a) == Lower(b) {
      assert |a| == |b|;
      assert forall i :: 0 <= i < |a| ==> Lower(a)[i] == ToLower(a[i]) && Lower(b)[i] == ToLower(b[i]);
    }
  }

  predicate IsBlank(b: byte) { b == 32 || b == 9 }

  function SkipBlanks(s: bytes, i: nat): (j: nat)
    requires i <= |s|
    ensures i <= j <= |s|
    decreases |s| - i
  {
    if i < |s| && IsBlank(s[i]) then SkipBlanks(s, i + 1) else i
  }

  /** From `pos` on: blanks skipped, up to the end of the line. */
  function ValueAt(s: bytes, pos: nat): (v: bytes)
    requires pos <= |s|
  {
    var start := SkipBlanks(s, pos);
    match FindFrom(s, CRLF, start)
    case None => s[start..]
    case Some(end) => s[start..end]
  }

  /** A value without its leading blanks. */
  function Trimmed(s: bytes): (r: bytes)
    ensures |r| <= |s| && (|r| == |s| <==> s == [] || !IsBlank(s[0]))
  {
    s[SkipBlanks(s, 0)..]
  }

  function SearchKey(key: bytes): (p: bytes) { Lower(CRLF + key + [58]) }

  function ExtractHeader(text: bytes, key: bytes): (v: bytes) {
    var pat := SearchKey(key);
    match FindFrom(Lower(text), pat, 0)
    case None => []
    case Some(p) => ValueAt(text, p + |pat|)
  }

  /** As written, on the lower-cased copies. */
  method ExtractHeaderCpp(httpText: bytes, key: bytes) returns (v: bytes)
    ensures v == ExtractHeader(httpText, key)
  {
    hide FindFrom, ToLower, ValueAt;
    var lowerKey := LowerCopy(CRLF + key + [58]);
    var lowerText := LowerCopy(httpText);
    var found := FindFrom(lowerText, lowerKey, 0);
    if found.None? { return []; }
    v := CutValue(httpText, lowerText, found.value + |lowerKey|);
  }

  method CutValue(httpText: bytes, lowerText: bytes, start: nat) returns (v: bytes)
    requires lowerText == Lower(httpText) && start <= |httpText|
    ensures v == ValueAt(httpText, start)
  {
    hide FindFrom, ToLower;
    var pos := start;
    while pos < |lowerText| && (lowerText[pos] == 32 || lowerText[pos] == 9)
      invariant start <= pos <= |lowerText|
      invariant SkipBlanks(httpText, start) == SkipBlanks(httpText, pos)
    {
      BlankLower(httpText[pos]);
      pos := pos + 1;
    }
    if pos < |lowerText| { BlankLower(httpText[pos]); }
    LowerCrLf(httpText, pos);
    var end := FindFrom(lowerText, CRLF, pos);
    v := httpText[pos..if end.Some? then end.value else |lowerText|];
  }

  method LowerCopy(s: bytes) returns (r: bytes)
    ensures r == Lower(s)
  {
    var a := new byte[|s|](i requires 0 <= i < |s| => s[i]);
    var i := 0;
    while i < a.Length
      invariant 0 <= i <= a.Length == |s|
      invariant forall j :: 0 <= j < i ==> a[j] == ToLower(s[j])
      invariant forall j :: i <= j < |s| ==> a[j] == s[j]
    {
      a[i] := ToLower(a[i]);
      i := i + 1;
    }
    r := a[..];
    assert forall j :: 0 <= j < |s| ==> r[j] == Lower(s)[j];
  }

  lemma BlankLower(b: byte)
    ensures IsBlank(ToLower(b)) <==> IsBlank(b)
  {
  }

  lemma CrLfLower(b: byte)
    ensures (ToLower(b) == CR <==> b == CR) && (ToLower(b) == LF <==> b == LF)
  {
  }

  lemma TwoBytes(s: bytes, i: nat)
    requires i + 2 <= |s|
    ensures s[i..i + 2] == CRLF <==> s[i] == CR && s[i + 1] == LF
  {
    assert s[i..i + 2] == [s[i], s[i + 1]];
  }

  /** Looking for the end of a line in the lower-cased text gives the same place. */
  lemma {:induction false} LowerCrLf(s: bytes, i: nat)
    ensures FindFrom(Lower(s), CRLF, i) == FindFrom(s, CRLF, i)
    decreases |s| - i
  {
    if i + 2 <= |s| {
      TwoBytes(s, i);
      TwoBytes(Lower(s), i);
      CrLfLower(s[i]);
      CrLfLower(s[i + 1]);
      LowerCrLf(s, i + 1);
    }
  }

  // ----- header blocks made of lines -----

  predicate Plain(s: bytes) { forall i :: 0 <= i < |s| ==> s[i] != CR && s[i] != LF }

  predicate PlainLines(ls: seq<bytes>) { forall i :: 0 <= i < |ls| ==> Plain(ls[i]) && ls[i] != [] }

  /** Lines, each ended by CRLF, and the blank line. */
  function Text(ls: seq<bytes>): (s: bytes)
    ensures |s| >= 2
  {
    if ls == [] then CRLF else ls[0] + (CRLF + Text(ls[1..]))
  }

  predicate StartsWith(s: bytes, p: bytes) { |p| <= |s| && s[..|p|] == p }

  lemma PrefixAt(s: bytes, p: bytes, i: nat)
    requires i < |p|
    ensures StartsWith(s, p) ==> i < |s| && s[i] == p[i]
  {
    if StartsWith(s, p) { assert s[..|p|][i] == s[i]; }
  }

  /** The header named `key`: the first line that starts with the name and a colon, in any case. */
  function FirstHeader(hs: seq<bytes>, key: bytes): (v: bytes) {
    if hs == [] then []
    else if StartsWith(Lower(hs[0]), Lower(key + [58])) then ValueAt(hs[0], |key| + 1)
    else FirstHeader(hs[1..], key)
  }

  lemma LowerAppend(a: bytes, b: bytes)
    ensures Lower(a + b) == Lower(a) + Lower(b)
  {
  }

  /** Searching from inside a text is searching the rest of it. */
  lemma {:induction false} FindShift(a: bytes, b: bytes, pat: bytes, i: nat)
    ensures FindFrom(a + b, pat, |a| + i) ==
              match FindFrom(b, pat, i) case None => None case Some(p) => Some(|a| + p)
    decreases |b| - i
  {
    if i + |pat| <= |b| {
      assert (a + b)[|a| + i..|a| + i + |pat|] == b[i..i + |pat|];
      if b[i..i + |pat|] != pat && i < |b| { FindShift(a, b, pat, i + 1); }
    }
  }

  lemma {:induction false} BlanksShift(a: bytes, b: bytes, i: nat)
    requires i <= |b|
    ensures SkipBlanks(a + b, |a| + i) == |a| + SkipBlanks(b, i)
    decreases |b| - i
  {
    if i < |b| {
      assert (a + b)[|a| + i] == b[i];
      if IsBlank(b[i]) { BlanksShift(a, b, i + 1); }
    }
  }

  lemma ValueShift(a: bytes, b: bytes, i: nat)
    requires i <= |b|
    ensures ValueAt(a + b, |a| + i) == ValueAt(b, i)
  {
    hide FindFrom, SkipBlanks;
    BlanksShift(a, b, i);
    var start := SkipBlanks(b, i);
    FindShift(a, b, CRLF, start);
    var end := FindFrom(b, CRLF, start);
    if end.Some? {
      assert (a + b)[|a| + start..|a| + end.value] == b[start..end.value];
    } else {
      assert (a + b)[|a| + start..] == b[start..];
    }
  }

  /** A line without CR or LF holds no match of a pattern that starts with CR. */
  lemma {:induction false} SkipPlain(l: bytes, rest: bytes, pat: bytes, i: nat)
    requires Plain(l) && i <= |l| && pat != [] && pat[0] == CR
    ensures FindFrom(l + rest, pat, i) == FindFrom(l + rest, pat, |l|)
    decreases |l| - i
  {
    var s := l + rest;
    if i < |l| {
      if i + |pat| <= |s| {
        assert s[i..i + |pat|][0] == s[i] == l[i];
      }
      SkipPlain(l, rest, pat, i + 1);
    }
  }

  /** Inside the first line: the value is cut at its end. */
  lemma ValueInLine(l: bytes, rest: bytes, i: nat)
    requires Plain(l) && i <= |l|
    ensures ValueAt(l + (CRLF + rest), i) == ValueAt(l, i)
  {
    hide FindFrom;
    var s := l + (CRLF + rest);
    BlanksInLine(l, CRLF + rest, i);
    var start := SkipBlanks(l, i);
    SkipPlain(l, CRLF + rest, CRLF, start);
    NoCrLf(l, start);
    assert FindFrom(s, CRLF, |l|) == Some(|l|) by { FoundHere(s, |l|); }
    assert s[start..|l|] == l[start..];
  }

  lemma FoundHere(s: bytes, i: nat)
    requires i + 2 <= |s| && s[i] == CR && s[i + 1] == LF
    ensures FindFrom(s, CRLF, i) == Some(i)
  {
    TwoBytes(s, i);
  }

  lemma {:induction false} NoCrLf(l: bytes, i: nat)
    requires Plain(l)
    ensures FindFrom(l, CRLF, i) == None
    decreases |l| - i
  {
    if i + 2 <= |l| {
      TwoBytes(l, i);
      NoCrLf(l, i + 1);
    }
  }

  lemma {:induction false} BlanksInLine(l: bytes, rest: bytes, i: nat)
    requires i <= |l|
    requires rest == [] || !IsBlank(rest[0])
    ensures SkipBlanks(l + rest, i) == SkipBlanks(l, i)
    decreases |l| - i
  {
    if i < |l| {
      assert (l + rest)[i] == l[i];
      if IsBlank(l[i]) { BlanksInLine(l, rest, i + 1); }
    } else if rest != [] {
      assert (l + rest)[i] == rest[0];
    }
  }

  lemma SearchKeyShape(key: bytes)
    ensures |SearchKey(key)| == |key| + 3 && SearchKey(key)[0] == CR && SearchKey(key)[1] == LF
    ensures SearchKey(key)[2..] == Lower(key + [58])
    ensures SearchKey(key) == CRLF + Lower(key + [58])
  {
    assert CRLF + key + [58] == CRLF + (key + [58]);
    LowerAppend(CRLF, key + [58]);
    assert Lower(CRLF) == CRLF;
  }

  /** One line: either the next line is the header looked for, or the search goes on behind it. */
  lemma ExtractStep(l: bytes, rest: bytes, key: bytes)
    requires Plain(l)
    ensures ExtractHeader(l + (CRLF + rest), key) ==
              if StartsWith(Lower(rest), Lower(key + [58])) then ValueAt(rest, |key| + 1) else ExtractHeader(rest, key)
  {
    hide FindFrom, ToLower, ValueAt, SearchKey;
    var pat := SearchKey(key);
    SearchKeyShape(key);
    var s := l + (CRLF + rest);
    LowerAppend(l, CRLF + rest);
    LowerAppend(CRLF, rest);
    LowerPlain(l);
    var ll, lr := Lower(l), Lower(rest);
    assert Lower(CRLF) == CRLF by { CrLfText(); }
    assert Lower(s) == ll + (CRLF + lr);
    SkipPlain(ll, CRLF + lr, pat, 0);
    FindShift(ll, CRLF + lr, pat, 0);
    FindAfterCrLf(lr, pat);
    assert s == (l + CRLF) + rest && |l + CRLF| == |l| + 2;
    if StartsWith(lr, pat[2..]) {
      ValueShift(l + CRLF, rest, |key| + 1);
    } else {
      var p := FindFrom(lr, pat, 0);
      if p.Some? { ValueShift(l + CRLF, rest, p.value + |pat|); }
    }
  }

  lemma CrLfText()
    ensures Lower(CRLF) == CRLF
  {
  }

  lemma LowerPlain(l: bytes)
    requires Plain(l)
    ensures Plain(Lower(l))
  {
    forall i | 0 <= i < |l| ensures Lower(l)[i] != CR && Lower(l)[i] != LF { CrLfLower(l[i]); }
  }

  lemma FindAfterCrLf(r: bytes, pat: bytes)
    requires |pat| >= 2 && pat[0] == CR && pat[1] == LF
    ensures FindFrom(CRLF + r, pat, 0) ==
              if StartsWith(r, pat[2..]) then Some(0)
              else match FindFrom(r, pat, 0) case None => None case Some(p) => Some(p + 2)
  {
    var s := CRLF + r;
    assert pat == CRLF + pat[2..];
    if |pat| <= |s| {
      assert s[0..|pat|] == CRLF + r[..|pat| - 2];
      if StartsWith(r, pat[2..]) {
        assert s[0..|pat|] == pat;
      } else {
        assert s[0..|pat|][2..] == r[..|pat| - 2];
        assert s[0..|pat|] != pat;
        if 1 + |pat| <= |s| { assert s[1..1 + |pat|][0] == LF; }
        assert FindFrom(s, pat, 0) == FindFrom(s, pat, 1);
        if 1 + |pat| <= |s| { assert FindFrom(s, pat, 1) == FindFrom(s, pat, 2); }
        FindShift(CRLF, r, pat, 0);
      }
    }
  }

  /** On a block of lines, `extractHeader` is the first line with that name behind the request line. */
  lemma {:induction false} ExtractFromLines(ls: seq<bytes>, key: bytes)
    requires ls != [] && PlainLines(ls) && Plain(key)
    ensures ExtractHeader(Text(ls), key) == FirstHeader(ls[1..], key)
    decreases |ls|
  {
    hide ExtractHeader, ValueAt, ToLower;
    var rest := Text(ls[1..]);
    ExtractStep(ls[0], rest, key);
    if ls[1..] == [] {
      NoHeaderAtEnd(key);
    } else {
      var l := ls[1];
      assert l == ls[1..][0];
      assert PlainLines(ls[1..]) by { assert forall i :: 0 <= i < |ls[1..]| ==> ls[1..][i] == ls[i + 1]; }
      StartsInLine(l, Text(ls[1..][1..]), key);
      ExtractFromLines(ls[1..], key);
    }
  }

  lemma NoHeaderAtEnd(key: bytes)
    ensures Text([]) == CRLF
    ensures Plain(key) ==> !StartsWith(Lower(CRLF), Lower(key + [58])) && ExtractHeader(CRLF, key) == []
  {
    hide ToLower;
    CrLfText();
    SearchKeyShape(key);
    if Plain(key) {
      LowerPlain(key + [58]);
      assert Lower(key + [58])[0] != CR;
      PrefixAt(CRLF, Lower(key + [58]), 0);
      var pat := SearchKey(key);
      assert |pat| > 2;
      assert FindFrom(CRLF, pat, 0) == None;
    }
  }

  /** A line decides by itself whether it carries the header, and what its value is. */
  lemma StartsInLine(l: bytes, rest: bytes, key: bytes)
    requires Plain(l) && Plain(key)
    ensures StartsWith(Lower(l + (CRLF + rest)), Lower(key + [58])) <==> StartsWith(Lower(l), Lower(key + [58]))
    ensures StartsWith(Lower(l), Lower(key + [58])) ==> ValueAt(l + (CRLF + rest), |key| + 1) == ValueAt(l, |key| + 1)
  {
    hide ToLower, ValueAt;
    var p := Lower(key + [58]);
    LowerAppend(l, CRLF + rest);
    LowerAppend(CRLF, rest);
    CrLfText();
    var s := Lower(l + (CRLF + rest));
    LowerPlain(key + [58]);
    assert s[|l|] == CR;
    if |l| < |p| { PrefixAt(s, p, |l|); }
    if |p| <= |l| { assert s[..|p|] == Lower(l)[..|p|]; }
    if StartsWith(Lower(l), p) { ValueInLine(l, rest, |key| + 1); }
  }

  /** The only blank line of the block is at its end. */
  lemma {:induction false} OnlyBlankLine(ls: seq<bytes>, i: nat)
    requires ls != [] && PlainLines(ls) && i + 4 <= |Text(ls)|
    ensures Text(ls)[i] == CR && Text(ls)[i + 2] == CR ==> i + 4 == |Text(ls)|
    decreases |ls|
  {
    var l, rest := ls[0], Text(ls[1..]);
    var s := Text(ls);
    if i < |l| {
      assert s[i] == l[i];
    } else if i == |l| {
      assert s[i + 2] == rest[0];
      if ls[1..] != [] {
        assert ls[1..][0] == ls[1];
        assert rest[0] == ls[1][0];
      }
    } else if i == |l| + 1 {
      assert s[i] == LF;
    } else {
      assert s[i] == rest[i - |l| - 2] && s[i + 2] == rest[i - |l|];
      if ls[1..] != [] {
        assert PlainLines(ls[1..]) by { assert forall k :: 0 <= k < |ls[1..]| ==> ls[1..][k] == ls[k + 1]; }
        OnlyBlankLine(ls[1..], i - |l| - 2);
      }
    }
  }

  lemma {:induction false} TextEnds(ls: seq<bytes>)
    requires ls != []
    ensures |Text(ls)| >= 4 && EndsAt(Text(ls), |Text(ls)|)
    decreases |ls|
  {
    var s := Text(ls);
    if ls[1..] == [] {
      assert Text(ls[1..]) == CRLF;
      assert s == ls[0] + (CRLF + CRLF);
      assert s[|s| - 4..] == CRLF + CRLF;
    } else {
      TextEnds(ls[1..]);
      var rest := Text(ls[1..]);
      assert s == (ls[0] + CRLF) + rest;
      assert s[|s| - 4..] == rest[|rest| - 4..];
    }
  }

  /** `recvHttpHeaders` reads exactly the block, whatever the peer has sent behind it, iff the block keeps
      the limit. */
  lemma BlockRead(ls: seq<bytes>, tail: bytes)
    requires ls != [] && PlainLines(ls)
    ensures HeadersFrom(Text(ls) + tail, 0) == if |Text(ls)| <= 8193 then Some(|Text(ls)|) else None
  {
    hide Text;
    var t := Text(ls);
    var s := t + tail;
    TextEnds(ls);
    assert s[|t| - 4..|t|] == t[|t| - 4..];
    forall m | 0 < m < |t| ensures !EndsAt(s, m) {
      if m >= 4 {
        var w := s[m - 4..m];
        assert w[0] == s[m - 4] == t[m - 4] && w[2] == s[m - 2] == t[m - 2];
        OnlyBlankLine(ls, m - 4);
      }
    }
    HeadersFromSpec(s, 0, |t|);
  }

  // ----- the two endpoints -----

  function AcceptKey(key: bytes): (a: bytes) {
    Base64.Encode(Sha1.Digest(key + Ascii("258EAFA5-E914-47DA-95CA-C5AB0DC85B11")))
  }

  method AcceptKeyCpp(clientKey: bytes) returns (a: bytes)
    ensures a == AcceptKey(clientKey)
  {
    hide Sha1.Digest, Sha1.Sha1Stream.Valid, Base64.Encode;
    var combined := clientKey + Ascii("258EAFA5-E914-47DA-95CA-C5AB0DC85B11");
    var sha := new Sha1.Sha1Stream();
    sha.Update(combined);
    Identity(combined);
    var hash := sha.Final();
    a := Base64.EncodeCpp(hash);
  }

  // The names and fixed values of the headers.
  function Host(): (s: bytes) { Ascii("Host") }
  function Upgrade(): (s: bytes) { Ascii("Upgrade") }
  function Connection(): (s: bytes) { Ascii("Connection") }
  function SecKey(): (s: bytes) { Ascii("Sec-WebSocket-Key") }
  function SecVersion(): (s: bytes) { Ascii("Sec-WebSocket-Version") }
  function SecAccept(): (s: bytes) { Ascii("Sec-WebSocket-Accept") }
  function UserId(): (s: bytes) { Ascii("userId") }
  function WebSocket(): (s: bytes) { Ascii("websocket") }
  function Get(): (s: bytes) { Ascii("GET ") }
  function Http11(): (s: bytes) { Ascii(" HTTP/1.1") }
  function Status101(): (s: bytes) { Ascii("HTTP/1.1 101 ") }
  function Reason(): (s: bytes) { Ascii("Switching Protocols") }

  /** A header line: name, colon, space, value. */
  function Line(name: bytes, value: bytes): (l: bytes) { name + [58, 32] + value }

  function RequestLines(path: bytes, host: bytes, port: nat, key: bytes, userId: bytes): (ls: seq<bytes>) {
    [Get() + path + Http11(),
     Line(Host(), host + [58] + Sha256.Decimal(port)),
     Line(Upgrade(), WebSocket()),
     Line(Connection(), Upgrade()),
     Line(SecKey(), key),
     Line(SecVersion(), Ascii("13")),
     Line(UserId(), userId)]
  }

  function ResponseLines(accept: bytes): (ls: seq<bytes>) {
    [Status101() + Reason(),
     Line(Upgrade(), WebSocket()),
     Line(Connection(), Upgrade()),
     Line(SecAccept(), accept)]
  }

  /** The request as the client puts it together. */
  function RequestText(path: bytes, host: bytes, port: nat, key: bytes, userId: bytes): (s: bytes) {
    Ascii("GET ") + path + Ascii(" HTTP/1.1\r\n")
    + (Ascii("Host: ") + host + Ascii(":") + Sha256.Decimal(port) + Ascii("\r\n")
    + (Ascii("Upgrade: websocket\r\n")
    + (Ascii("Connection: Upgrade\r\n")
    + (Ascii("Sec-WebSocket-Key: ") + key + Ascii("\r\n")
    + (Ascii("Sec-WebSocket-Version: 13\r\n")
    + (Ascii("userId: ") + userId + Ascii("\r\n")
    + Ascii("\r\n")))))))
  }

  /** The response as the server puts it together. */
  function ResponseText(accept: bytes): (s: bytes) {
    Ascii("HTTP/1.1 101 Switching Protocols\r\n")
    + (Ascii("Upgrade: websocket\r\n")
    + (Ascii("Connection: Upgrade\r\n")
    + (Ascii("Sec-WebSocket-Accept: ") + accept + Ascii("\r\n")
    + Ascii("\r\n"))))
  }

  /** What the server does with a header block: the key it found and the response it sends, or `None`
      where it closes the connection. */
  function Serve(text: bytes, expectedPath: bytes): (r: Option<(bytes, bytes)>) {
    if !StartsWith(text, Get() + expectedPath + Http11() + CRLF) then None
    else if ExtractHeader(text, Upgrade()) != WebSocket() then None
    else
      var key := ExtractHeader(text, SecKey());
      if key == [] then None else Some((key, Text(ResponseLines(AcceptKey(key)))))
  }

  predicate ClientAccepts(response: bytes, key: bytes) {
    StartsWith(response, Status101()) && ExtractHeader(response, SecAccept()) == AcceptKey(key)
  }

  /** The user id the server keeps: control characters removed, at most 128 bytes. */
  function CleanUserId(s: bytes): (r: bytes) {
    var t := DropControls(s);
    if |t| > 128 then t[..128] else t
  }

  function DropControls(s: bytes): (r: bytes) {
    if s == [] then [] else (if IsControl(s[0]) then [] else [s[0]]) + DropControls(s[1..])
  }

  predicate IsControl(b: byte) { b < 32 || b == 127 }

  lemma {:induction false} DropControlsKeeps(s: bytes)
    ensures |DropControls(s)| <= |s|
    ensures DropControls(s) == s <==> forall i :: 0 <= i < |s| ==> !IsControl(s[i])
  {
    if s != [] {
      DropControlsKeeps(s[1..]);
      if IsControl(s[0]) {
        assert |DropControls(s)| < |s|;
      } else {
        assert DropControls(s)[1..] == DropControls(s[1..]);
        assert s == [s[0]] + s[1..];
      }
    }
  }

  lemma {:induction false} DropControlsSnoc(s: bytes, b: byte)
    ensures DropControls(s + [b]) == DropControls(s) + (if IsControl(b) then [] else [b])
  {
    if s == [] {
      assert [] + [b] == [b] && [b][1..] == [];
    } else {
      assert (s + [b])[1..] == s[1..] + [b];
      DropControlsSnoc(s[1..], b);
    }
  }

  /** `erase` of `remove_if`, then `resize`. */
  method CleanCpp(s: bytes) returns (userId: bytes)
    ensures userId == CleanUserId(s)
  {
    userId := [];
    for i := 0 to |s|
      invariant userId == DropControls(s[..i])
    {
      assert s[..i + 1] == s[..i] + [s[i]];
      DropControlsSnoc(s[..i], s[i]);
      if !(s[i] <= 0x1F || s[i] == 0x7F) { userId := userId + [s[i]]; }
    }
    assert s[..|s|] == s;
    if |userId| > 128 { userId := userId[..128]; }
  }

  /** The user id the server gives a client that sends none: "cpp-" and the time. */
  function GeneratedId(now: i64): (id: bytes) { Ascii("cpp-") + Sha256.Decimal(now) }

  /** The user id the server goes on with, for a header value and the time. */
  function ServerUserId(value: bytes, now: i64): (id: bytes) {
    if CleanUserId(value) == [] then GeneratedId(now) else CleanUserId(value)
  }

  /** `WSServer::accept` on a connected socket, at the time `now`: the user id, or `None` where the socket is
      closed. */
  method Accept(sock: Socket, expectedPath: bytes, now: i64) returns (r: Option<bytes>)
    requires sock.Valid()
    modifies sock`pos, sock`sent, sock`room
    ensures sock.Valid()
    ensures old(sock.room) == None ==> sock.room == None
    ensures var s := old(sock.Left());
            match HeadersFrom(s, 0)
            case None => r == None && sock.sent == old(sock.sent)
            case Some(n) =>
              n <= |s| && sock.Left() == s[n..]
              && match Serve(s[..n], expectedPath)
                 case None => r == None && sock.sent == old(sock.sent)
                 case Some(answer) =>
                   sock.sent == old(sock.sent) + Accepted(answer.1, old(sock.room))
                   && r == if Fits(|answer.1|, old(sock.room)) then Some(ServerUserId(ExtractHeader(s[..n], UserId()), now)) else None
  {
    hide HeadersFrom, ExtractHeader, AcceptKey, Text, ResponseLines, ResponseText, CleanUserId, GeneratedId;
    hide Get, Http11, Upgrade, WebSocket, SecKey, UserId;
    var headers := RecvHttpHeaders(sock);
    if headers.None? { return None; }
    var text := headers.value;
    if !StartsWith(text, Get() + expectedPath + Http11() + CRLF) { return None; }
    var upgrade := ExtractHeaderCpp(text, Upgrade());
    if upgrade != WebSocket() { return None; }
    var wsKey := ExtractHeaderCpp(text, SecKey());
    if wsKey == [] { return None; }
    var userId := ExtractHeaderCpp(text, UserId());
    userId := CleanCpp(userId);
    if userId == [] { userId := GeneratedId(now); }
    var acceptKey := AcceptKeyCpp(wsKey);
    ResponseIs(acceptKey);
    var ok := sock.SendAll(ResponseText(acceptKey));
    if !ok { return None; }
    r := Some(userId);
  }

  /** The client's side, for the sixteen random bytes of its key: send the request, read the response. */
  method Connect(sock: Socket, path: bytes, host: bytes, port: nat, userId: bytes, keyBytes: bytes) returns (ok: bool)
    requires sock.Valid()
    modifies sock`pos, sock`sent, sock`room
    ensures sock.Valid()
    ensures old(sock.room) == None ==> sock.room == None
    ensures var key := Base64.Encode(keyBytes);
            var request := Text(RequestLines(path, host, port, key, userId));
            sock.sent == old(sock.sent) + Accepted(request, old(sock.room))
            && var s := old(sock.Left());
               match (if Fits(|request|, old(sock.room)) then HeadersFrom(s, 0) else None)
               case None => !ok
               case Some(n) => n <= |s| && sock.Left() == s[n..] && (ok <==> ClientAccepts(s[..n], key))
  {
    hide HeadersFrom, ExtractHeader, AcceptKey, Text, RequestLines, RequestText, Base64.Encode, Status101, SecAccept;
    var key := Base64.EncodeCpp(keyBytes);
    RequestIs(path, host, port, key, userId);
    ok := sock.SendAll(RequestText(path, host, port, key, userId));
    if !ok { return; }
    var headers := RecvHttpHeaders(sock);
    if headers.None? { return false; }
    var response := headers.value;
    if !StartsWith(response, Status101()) { return false; }
    var accept := ExtractHeaderCpp(response, SecAccept());
    var expected := AcceptKeyCpp(key);
    ok := accept == expected;
  }

  // ----- the texts -----

  lemma AsciiAppend(a: string, b: string)
    ensures Ascii(a + b) == Ascii(a) + Ascii(b)
  {
    var s, t := Ascii(a + b), Ascii(a) + Ascii(b);
    assert forall i :: 0 <= i < |s| ==> s[i] == t[i];
  }

  lemma LineEnd()
    ensures Ascii("\r\n") == CRLF && Ascii(": ") == [58, 32] && Ascii(":") == [58]
  {
  }

  lemma NameAnd(name: string, value: string)
    ensures Ascii(name + ": " + value + "\r\n") == Line(Ascii(name), Ascii(value)) + CRLF
  {
    hide Ascii;
    AsciiAppend(name + ": " + value, "\r\n");
    AsciiAppend(name + ": ", value);
    AsciiAppend(name, ": ");
    LineEnd();
  }

  lemma NameOf(name: string, value: bytes)
    ensures Ascii(name + ": ") + value + Ascii("\r\n") == Line(Ascii(name), value) + CRLF
  {
    hide Ascii;
    AsciiAppend(name, ": ");
    LineEnd();
  }

  lemma FixedLines()
    ensures Ascii("Upgrade: websocket\r\n") == Line(Upgrade(), WebSocket()) + CRLF
    ensures Ascii("Connection: Upgrade\r\n") == Line(Connection(), Upgrade()) + CRLF
    ensures Ascii("Sec-WebSocket-Version: 13\r\n") == Line(SecVersion(), Ascii("13")) + CRLF
  {
    hide Ascii, Line;
    NameAnd("Upgrade", "websocket");
    NameAnd("Connection", "Upgrade");
    NameAnd("Sec-WebSocket-Version", "13");
    assert "Upgrade" + ": " + "websocket" + "\r\n" == "Upgrade: websocket\r\n";
    assert "Connection" + ": " + "Upgrade" + "\r\n" == "Connection: Upgrade\r\n";
    assert "Sec-WebSocket-Version" + ": " + "13" + "\r\n" == "Sec-WebSocket-Version: 13\r\n";
  }

  lemma NamedLines(host: bytes, key: bytes, userId: bytes, accept: bytes)
    ensures Ascii("Host: ") + host + Ascii("\r\n") == Line(Host(), host) + CRLF
    ensures Ascii("Sec-WebSocket-Key: ") + key + Ascii("\r\n") == Line(SecKey(), key) + CRLF
    ensures Ascii("userId: ") + userId + Ascii("\r\n") == Line(UserId(), userId) + CRLF
    ensures Ascii("Sec-WebSocket-Accept: ") + accept + Ascii("\r\n") == Line(SecAccept(), accept) + CRLF
  {
    hide Ascii, Line;
    NameOf("Host", host);
    NameOf("Sec-WebSocket-Key", key);
    NameOf("userId", userId);
    NameOf("Sec-WebSocket-Accept", accept);
    assert "Host" + ": " == "Host: " && "userId" + ": " == "userId: ";
    assert "Sec-WebSocket-Key" + ": " == "Sec-WebSocket-Key: " && "Sec-WebSocket-Accept" + ": " == "Sec-WebSocket-Accept: ";
  }

  lemma FirstLines()
    ensures Ascii("HTTP/1.1 101 Switching Protocols\r\n") == Status101() + Reason() + CRLF
    ensures Ascii(" HTTP/1.1\r\n") == Http11() + CRLF
  {
    hide Ascii;
    LineEnd();
    AsciiAppend("HTTP/1.1 101 " + "Switching Protocols", "\r\n");
    AsciiAppend("HTTP/1.1 101 ", "Switching Protocols");
    AsciiAppend(" HTTP/1.1", "\r\n");
    assert "HTTP/1.1 101 " + "Switching Protocols" + "\r\n" == "HTTP/1.1 101 Switching Protocols\r\n";
    assert " HTTP/1.1" + "\r\n" == " HTTP/1.1\r\n";
  }

  lemma TextCons(l: bytes, ls: seq<bytes>)
    ensures Text([l] + ls) == l + CRLF + Text(ls)
  {
    assert ([l] + ls)[1..] == ls;
    Assoc(l, CRLF, Text(ls));
  }

  lemma TextNil()
    ensures Text([]) == CRLF
  {
  }

  /** The text the client puts together is the request line and six headers of section 4.1 of RFC 6455. */
  lemma RequestIs(path: bytes, host: bytes, port: nat, key: bytes, userId: bytes)
    ensures RequestText(path, host, port, key, userId) == Text(RequestLines(path, host, port, key, userId))
  {
    hide Ascii, Line, Text, Get, Http11, Host, Upgrade, WebSocket, Connection, SecKey, SecVersion, UserId, Sha256.Decimal;
    var ls := RequestLines(path, host, port, key, userId);
    var h := host + [58] + Sha256.Decimal(port);
    FixedLines();
    NamedLines(h, key, userId, []);
    FirstLines();
    LineEnd();
    GetText();
    TextCons(ls[0], ls[1..]);
    TextCons(ls[1], ls[2..]);
    TextCons(ls[2], ls[3..]);
    TextCons(ls[3], ls[4..]);
    TextCons(ls[4], ls[5..]);
    TextCons(ls[5], ls[6..]);
    TextCons(ls[6], []);
    TextNil();
    Split(ls);
    assert Ascii("Host: ") + host + Ascii(":") + Sha256.Decimal(port) + Ascii("\r\n") == Ascii("Host: ") + h + Ascii("\r\n");
    assert Ascii("GET ") + path + Ascii(" HTTP/1.1\r\n") == ls[0] + CRLF;
  }

  lemma GetText()
    ensures Get() == Ascii("GET ")
  {
  }

  lemma Split(ls: seq<bytes>)
    requires |ls| == 7
    ensures ls == [ls[0]] + ls[1..] && ls[1..] == [ls[1]] + ls[2..] && ls[2..] == [ls[2]] + ls[3..]
    ensures ls[3..] == [ls[3]] + ls[4..] && ls[4..] == [ls[4]] + ls[5..] && ls[5..] == [ls[5]] + ls[6..] && ls[6..] == [ls[6]] + []
  {
  }

  /** The text the server puts together is the status line and three headers of section 4.2.2. */
  lemma ResponseIs(accept: bytes)
    ensures ResponseText(accept) == Text(ResponseLines(accept))
  {
    hide Ascii, Line, Text, Upgrade, WebSocket, Connection, SecAccept, Status101, Reason;
    var ls := ResponseLines(accept);
    FixedLines();
    NamedLines([], [], [], accept);
    FirstLines();
    LineEnd();
    TextCons(ls[0], ls[1..]);
    TextCons(ls[1], ls[2..]);
    TextCons(ls[2], ls[3..]);
    TextCons(ls[3], []);
    TextNil();
    assert ls == [ls[0]] + ls[1..] && ls[1..] == [ls[1]] + ls[2..] && ls[2..] == [ls[2]] + ls[3..] && ls[3..] == [ls[3]] + [];
  }

  // ----- agreement -----

  lemma PlainText(text: string)
    requires '\r' !in text && '\n' !in text
    ensures Plain(Ascii(text))
  {
    forall i | 0 <= i < |text| ensures Ascii(text)[i] != CR && Ascii(text)[i] != LF { assert text[i] in text; }
  }

  lemma HostText()
    ensures Plain(Host()) && |Host()| > 0 && Host()[0] == 0x48
  {
    PlainText("Host");
  }

  lemma UpgradeText()
    ensures Plain(Upgrade()) && |Upgrade()| > 1 && Upgrade()[0] == 0x55 && Upgrade()[1] == 0x70
  {
    PlainText("Upgrade");
  }

  lemma ConnectionText()
    ensures Plain(Connection()) && |Connection()| > 0 && Connection()[0] == 0x43
  {
    PlainText("Connection");
  }

  lemma SecKeyText()
    ensures Plain(SecKey()) && |SecKey()| > 0 && SecKey()[0] == 0x53
  {
    PlainText("Sec-WebSocket-Key");
  }

  lemma SecVersionText()
    ensures Plain(SecVersion()) && |SecVersion()| > 0 && SecVersion()[0] == 0x53
  {
    PlainText("Sec-WebSocket-Version");
  }

  lemma SecAcceptText()
    ensures Plain(SecAccept()) && |SecAccept()| > 0 && SecAccept()[0] == 0x53
  {
    PlainText("Sec-WebSocket-Accept");
  }

  lemma UserIdText()
    ensures Plain(UserId()) && |UserId()| > 1 && UserId()[0] == 0x75 && UserId()[1] == 0x73
  {
    PlainText("userId");
  }

  lemma WebSocketText()
    ensures Plain(WebSocket()) && |WebSocket()| > 0 && WebSocket()[0] == 0x77
  {
    PlainText("websocket");
  }

  lemma FirstLineTexts()
    ensures Plain(Get()) && Get() != [] && Plain(Http11()) && Plain(Ascii("13"))
  {
    PlainText("GET ");
    PlainText(" HTTP/1.1");
    PlainText("13");
  }

  lemma StatusTexts()
    ensures Plain(Status101()) && Status101() != [] && Plain(Reason()) && |Status101()| < 50 && |Reason()| < 50
  {
    PlainText("HTTP/1.1 101 ");
    PlainText("Switching Protocols");
  }

  lemma PlainLine(name: bytes, value: bytes)
    requires Plain(name) && Plain(value)
    ensures Plain(Line(name, value)) && Line(name, value) != []
  {
  }

  lemma PlainAppend(a: bytes, b: bytes)
    requires Plain(a) && Plain(b)
    ensures Plain(a + b)
  {
  }

  lemma PlainBase64(s: bytes)
    ensures Plain(Base64.Encode(s))
    ensures Base64.Encode(s) != [] ==> !IsBlank(Base64.Encode(s)[0])
  {
    Base64.EncodeAlphabet(s);
  }

  lemma PlainDecimal(v: nat)
    ensures Plain(Sha256.Decimal(v))
  {
    Sha256.DecimalDigits(v);
  }

  lemma RequestPlain(path: bytes, host: bytes, port: nat, key: bytes, userId: bytes)
    requires Plain(path) && Plain(host) && Plain(key) && Plain(userId)
    ensures PlainLines(RequestLines(path, host, port, key, userId))
  {
    hide Plain, Ascii, Sha256.Decimal, Host, Upgrade, Connection, SecKey, SecVersion, UserId, WebSocket, Get, Http11, Line;
    FirstLineTexts();
    HostText();
    UpgradeText();
    ConnectionText();
    SecKeyText();
    SecVersionText();
    UserIdText();
    WebSocketText();
    PlainDecimal(port);
    PlainAppend(Get(), path);
    PlainAppend(Get() + path, Http11());
    PlainColon(host, Sha256.Decimal(port));
    PlainLine(Host(), host + [58] + Sha256.Decimal(port));
    PlainLine(Upgrade(), WebSocket());
    PlainLine(Connection(), Upgrade());
    PlainLine(SecKey(), key);
    PlainLine(SecVersion(), Ascii("13"));
    PlainLine(UserId(), userId);
  }

  lemma PlainColon(a: bytes, b: bytes)
    requires Plain(a) && Plain(b)
    ensures Plain(a + [58] + b)
  {
  }

  lemma ResponsePlain(accept: bytes)
    requires Plain(accept)
    ensures PlainLines(ResponseLines(accept))
  {
    hide Plain, Ascii, Upgrade, Connection, SecAccept, WebSocket, Status101, Reason, Line;
    StatusTexts();
    UpgradeText();
    ConnectionText();
    SecAcceptText();
    WebSocketText();
    PlainAppend(Status101(), Reason());
    PlainLine(Upgrade(), WebSocket());
    PlainLine(Connection(), Upgrade());
    PlainLine(SecAccept(), accept);
  }

  /** A line whose first letter, or second, differs from the header's does not carry it. */
  lemma OtherLine(l: bytes, key: bytes, i: nat)
    requires i < |key|
    requires i >= |l| || ToLower(l[i]) != ToLower(key[i])
    ensures !StartsWith(Lower(l), Lower(key + [58]))
  {
    hide ToLower;
    var p := Lower(key + [58]);
    PrefixAt(Lower(l), p, i);
  }

  /** A line `name: value` carries its value, without leading blanks. */
  lemma OwnLine(name: bytes, value: bytes)
    requires Plain(value)
    ensures StartsWith(Lower(Line(name, value)), Lower(name + [58]))
    ensures ValueAt(Line(name, value), |name| + 1) == Trimmed(value)
  {
    hide ToLower, FindFrom, SkipBlanks;
    var head, v := name + [58], [32] + value;
    assert Line(name, value) == head + v;
    OwnStart(head, v);
    ValueShift(head, v, 0);
    OwnValue(value);
  }

  lemma OwnStart(head: bytes, v: bytes)
    ensures StartsWith(Lower(head + v), Lower(head))
  {
    hide ToLower;
    LowerAppend(head, v);
    assert (Lower(head) + Lower(v))[..|head|] == Lower(head);
  }

  lemma OwnValue(value: bytes)
    requires Plain(value)
    ensures ValueAt([32] + value, 0) == Trimmed(value)
  {
    hide FindFrom;
    var v := [32] + value;
    assert SkipBlanks(v, 0) == SkipBlanks(v, 1);
    BlanksShift([32], value, 0);
    NoCrLf(v, SkipBlanks(v, 0));
  }

  /** A header is found under its name in any case: the first line behind the request line that has the name,
      its letters in either case, gives the value. */
  lemma FoundInAnyCase(first: bytes, name: bytes, written: bytes, value: bytes, rest: seq<bytes>)
    requires SameLetters(name, written) && Plain(name) && Plain(written) && Plain(value) && Plain(first) && first != []
    requires PlainLines(rest)
    ensures ExtractHeader(Text([first, Line(written, value)] + rest), name) == Trimmed(value)
  {
    hide ExtractHeader, Text, ToLower, ValueAt, Trimmed, FindFrom, SameLetter;
    var ls := [first, Line(written, value)] + rest;
    assert PlainLines(ls) by { assert forall i :: 2 <= i < |ls| ==> ls[i] == rest[i - 2]; }
    ExtractFromLines(ls, name);
    OwnLine(written, value);
    LowerIff(name, written);
    LowerAppend(name, [58]);
    LowerAppend(written, [58]);
    assert ls[1..][0] == Line(written, value);
  }

  lemma FirstHeaderSkip(hs: seq<bytes>, key: bytes, i: nat)
    requires hs != [] && i < |key|
    requires i >= |hs[0]| || ToLower(hs[0][i]) != ToLower(key[i])
    ensures FirstHeader(hs, key) == FirstHeader(hs[1..], key)
  {
    hide ToLower, ValueAt;
    OtherLine(hs[0], key, i);
  }

  lemma FirstHeaderHere(hs: seq<bytes>, key: bytes, value: bytes)
    requires hs != [] && hs[0] == Line(key, value)
    requires Plain(value)
    ensures FirstHeader(hs, key) == Trimmed(value)
  {
    hide ToLower, ValueAt, Trimmed;
    OwnLine(key, value);
  }

  /** What the server finds in the client's request. */
  lemma RequestHeaders(path: bytes, host: bytes, port: nat, key: bytes, userId: bytes)
    requires Plain(path) && Plain(host) && Plain(userId) && Plain(key) && key != [] && !IsBlank(key[0])
    ensures var text := Text(RequestLines(path, host, port, key, userId));
            ExtractHeader(text, Upgrade()) == WebSocket() && ExtractHeader(text, SecKey()) == key
            && ExtractHeader(text, UserId()) == Trimmed(userId)
  {
    hide Plain, Ascii, Sha256.Decimal, Host, Upgrade, Connection, SecKey, SecVersion, UserId, WebSocket, Get, Http11;
    hide ExtractHeader, FirstHeader, Text;
    var ls := RequestLines(path, host, port, key, userId);
    RequestPlain(path, host, port, key, userId);
    HostText();
    UpgradeText();
    ConnectionText();
    SecKeyText();
    SecVersionText();
    UserIdText();
    WebSocketText();
    ExtractFromLines(ls, Upgrade());
    ExtractFromLines(ls, SecKey());
    ExtractFromLines(ls, UserId());
    var h1, h2, h3, h4, h5, h6 := ls[1..], ls[2..], ls[3..], ls[4..], ls[5..], ls[6..];
    assert h1[1..] == h2 && h2[1..] == h3 && h3[1..] == h4 && h4[1..] == h5 && h5[1..] == h6;
    FirstHeaderSkip(h1, Upgrade(), 0);
    FirstHeaderHere(h2, Upgrade(), WebSocket());
    FirstHeaderSkip(h1, SecKey(), 0);
    FirstHeaderSkip(h2, SecKey(), 0);
    FirstHeaderSkip(h3, SecKey(), 0);
    FirstHeaderHere(h4, SecKey(), key);
    FirstHeaderSkip(h1, UserId(), 0);
    FirstHeaderSkip(h2, UserId(), 1);
    FirstHeaderSkip(h3, UserId(), 0);
    FirstHeaderSkip(h4, UserId(), 0);
    FirstHeaderSkip(h5, UserId(), 0);
    FirstHeaderHere(h6, UserId(), userId);
  }

  lemma ResponseHeaders(accept: bytes)
    requires Plain(accept) && accept != [] && !IsBlank(accept[0])
    ensures ExtractHeader(Text(ResponseLines(accept)), SecAccept()) == accept
  {
    hide Plain, Ascii, Upgrade, Connection, SecAccept, WebSocket, Status101, Reason;
    hide ExtractHeader, FirstHeader, Text;
    var ls := ResponseLines(accept);
    ResponsePlain(accept);
    UpgradeText();
    ConnectionText();
    SecAcceptText();
    ExtractFromLines(ls, SecAccept());
    var h1, h2, h3 := ls[1..], ls[2..], ls[3..];
    assert h1[1..] == h2 && h2[1..] == h3;
    FirstHeaderSkip(h1, SecAccept(), 0);
    FirstHeaderSkip(h2, SecAccept(), 0);
    FirstHeaderHere(h3, SecAccept(), accept);
  }

  lemma TextStart(l: bytes, ls: seq<bytes>, p: bytes)
    requires StartsWith(l + CRLF, p)
    ensures StartsWith(Text([l] + ls), p)
  {
    assert ([l] + ls)[1..] == ls;
    var s := Text([l] + ls);
    assert s == (l + CRLF) + Text(ls);
    assert s[..|p|] == (l + CRLF)[..|p|];
  }

  lemma KeyText(s: bytes)
    requires |s| > 0
    ensures var k := Base64.Encode(s); Plain(k) && k != [] && !IsBlank(k[0])
  {
    hide Base64.Encode;
    PlainBase64(s);
    Base64.EncodeLength(s);
  }

  /** Handshake agreement. For every path, host and user id without CR or LF and every sixteen key bytes,
      the server answers iff the request keeps the header limit; it extracts the client's key, the client
      accepts the response, and neither side touches a byte behind the other's header block. */
  lemma Agreement(path: bytes, host: bytes, port: nat, userId: bytes, keyBytes: bytes, tail: bytes, tail': bytes)
    requires Plain(path) && Plain(host) && Plain(userId) && |keyBytes| == 16
    ensures var key := Base64.Encode(keyBytes);
            var request := Text(RequestLines(path, host, port, key, userId));
            var response := Text(ResponseLines(AcceptKey(key)));
            HeadersFrom(request + tail, 0) == (if |request| <= 8193 then Some(|request|) else None)
            && Serve(request, path) == Some((key, response))
            && HeadersFrom(response + tail', 0) == Some(|response|)
            && ClientAccepts(response, key)
  {
    hide Plain, Ascii, Upgrade, SecAccept, SecKey, WebSocket, Status101, Get, Http11, Reason, AcceptKey;
    hide ExtractHeader, Text, HeadersFrom, Base64.Encode, RequestLines, ResponseLines;
    var key := Base64.Encode(keyBytes);
    KeyText(keyBytes);
    RequestPlain(path, host, port, key, userId);
    RequestHeaders(path, host, port, key, userId);
    RequestStart(path, host, port, key, userId);
    BlockRead(RequestLines(path, host, port, key, userId), tail);
    AcceptKeyText(key);
    ResponsePlain(AcceptKey(key));
    ResponseHeaders(AcceptKey(key));
    ResponseStart(AcceptKey(key));
    BlockRead(ResponseLines(AcceptKey(key)), tail');
    ResponseSize(AcceptKey(key));
  }

  lemma RequestStart(path: bytes, host: bytes, port: nat, key: bytes, userId: bytes)
    ensures RequestLines(path, host, port, key, userId) != []
    ensures StartsWith(Text(RequestLines(path, host, port, key, userId)), Get() + path + Http11() + CRLF)
  {
    hide Ascii, Get, Http11, Text, Line;
    var ls := RequestLines(path, host, port, key, userId);
    assert ls == [ls[0]] + ls[1..];
    var p := Get() + path + Http11() + CRLF;
    assert p[..|p|] == p;
    TextStart(ls[0], ls[1..], p);
  }

  lemma ResponseStart(accept: bytes)
    ensures ResponseLines(accept) != []
    ensures StartsWith(Text(ResponseLines(accept)), Status101())
  {
    hide Ascii, Status101, Reason, Text, Line;
    var ls := ResponseLines(accept);
    assert ls == [ls[0]] + ls[1..];
    assert (ls[0] + CRLF)[..|Status101()|] == Status101();
    TextStart(ls[0], ls[1..], Status101());
  }

  lemma AcceptKeyText(key: bytes)
    ensures var a := AcceptKey(key); Plain(a) && a != [] && !IsBlank(a[0]) && |a| == 28
  {
    hide Base64.Encode, Sha1.Digest, Plain;
    var d := Sha1.Digest(key + Ascii("258EAFA5-E914-47DA-95CA-C5AB0DC85B11"));
    KeyText(d);
    Base64.EncodeLength(d);
  }

  lemma ResponseSize(accept: bytes)
    requires |accept| == 28
    ensures |Text(ResponseLines(accept))| <= HEADER_LIMIT
  {
    var ls := ResponseLines(accept);
    assert ls[1..][1..] == ls[2..];
    assert ls[2..][1..] == ls[3..];
    var none: seq<bytes> := ls[4..];
    assert ls[3..][1..] == none;
    assert |Text(ls[3..])| == |ls[3]| + 2 + |CRLF|;
    assert |Text(ls[2..])| == |ls[2]| + 2 + |Text(ls[3..])|;
    assert |Text(ls[1..])| == |ls[1]| + 2 + |Text(ls[2..])|;
  }

  /** The server goes on with the client's user id as it was given exactly when that is not empty, has at
      most 128 bytes, holds no control character and does not start with a blank. */
  lemma UserIdArrives(path: bytes, host: bytes, port: nat, key: bytes, userId: bytes, now: i64)
    requires Plain(path) && Plain(host) && Plain(userId) && Plain(key) && key != [] && !IsBlank(key[0])
    ensures ServerUserId(ExtractHeader(Text(RequestLines(path, host, port, key, userId)), UserId()), now) == userId <==>
              0 < |userId| <= 128 && userId[0] != 0x20 && forall i :: 0 <= i < |userId| ==> userId[i] >= 0x20 && userId[i] != 0x7F
  {
    hide ExtractHeader, Text, RequestLines, UserId, GeneratedId, Plain;
    RequestHeaders(path, host, port, key, userId);
    var t := Trimmed(userId);
    DropControlsKeeps(t);
    GeneratedStart(now);
    if CleanUserId(t) == [] && userId != [] { DropsFirst(userId); }
  }

  /** A generated user id is "cpp-" and the time in decimal. */
  lemma GeneratedStart(now: i64)
    ensures var id := GeneratedId(now);
            |id| > 4 && id[..4] == [0x63, 0x70, 0x70, 0x2D] && Sha256.ParseDecimal(id[4..]) == now && id[0] == 0x63
  {
    hide Sha256.Decimal, Sha256.ParseDecimal;
    var p := Ascii("cpp-");
    assert p == [0x63, 0x70, 0x70, 0x2D];
    Sha256.DecimalRoundTrip(now);
    DecimalNotEmpty(now);
    assert GeneratedId(now)[4..] == Sha256.Decimal(now);
  }

  lemma DecimalNotEmpty(v: int)
    ensures Sha256.Decimal(v) != []
  {
  }

  /** If nothing is left of a user id, its first byte is a blank or a control character. */
  lemma DropsFirst(userId: bytes)
    requires userId != [] && CleanUserId(Trimmed(userId)) == []
    ensures IsBlank(userId[0]) || IsControl(userId[0])
  {
    var t := Trimmed(userId);
    if !IsBlank(userId[0]) {
      assert t == userId;
      assert DropControls(t) == [];
    }
  }

  /** The server serves a request exactly if it asks for the path it expects. */
  lemma PathDecides(path: bytes, expected: bytes, host: bytes, port: nat, key: bytes, userId: bytes)
    requires Plain(path) && Plain(expected) && Plain(host) && Plain(userId) && Plain(key) && key != [] && !IsBlank(key[0])
    ensures Serve(Text(RequestLines(path, host, port, key, userId)), expected).Some? <==> path == expected
  {
    hide Ascii, Get, Http11, Text, Line, ExtractHeader, Plain, Upgrade, WebSocket, SecKey, AcceptKey, ResponseLines;
    var ls := RequestLines(path, host, port, key, userId);
    RequestHeaders(path, host, port, key, userId);
    if path == expected {
      RequestStart(path, host, port, key, userId);
    } else {
      assert ls == [ls[0]] + ls[1..];
      PathPlain(expected);
      OtherPath(path, expected, Text(ls[1..]));
      TextCons(ls[0], ls[1..]);
      PathPlain(path);
    }
  }

  lemma PathPlain(path: bytes)
    requires Plain(path)
    ensures Plain(Get() + path + Http11())
  {
    FirstLineTexts();
  }

  /** The first line of a text is determined by it. */
  lemma OtherPath(path: bytes, expected: bytes, rest: bytes)
    requires Plain(path) && Plain(expected) && Plain(Get() + expected + Http11()) && path != expected
    ensures !StartsWith(Get() + path + Http11() + CRLF + rest, Get() + expected + Http11() + CRLF)
  {
    hide Get, Http11;
    PathPlain(path);
    var l, m := Get() + path + Http11(), Get() + expected + Http11();
    SameMiddle(Get(), path, expected, Http11());
    FirstLineUnique(l, rest, m);
  }

  lemma SameMiddle(a: bytes, x: bytes, y: bytes, b: bytes)
    ensures a + x + b == a + y + b ==> x == y
  {
    var l, m := a + x + b, a + y + b;
    assert l[|a|..|l| - |b|] == x && m[|a|..|m| - |b|] == y;
  }

  lemma FirstLineUnique(l: bytes, rest: bytes, m: bytes)
    requires Plain(l) && Plain(m)
    ensures StartsWith(l + CRLF + rest, m + CRLF) ==> l == m
  {
    var s, p := l + CRLF + rest, m + CRLF;
    PrefixAt(s, p, |m|);
    if StartsWith(s, p) {
      assert |l| <= |m|;
      if |l| < |m| { PrefixAt(s, p, |l|); }
      assert s[..|m|] == p[..|m|];
    }
  }
}
