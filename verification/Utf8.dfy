/** The hand-written UTF-8 validator of the codec, against the encoding of sections 3 and 4 of RFC 3629. */
module Utf8 {
  import opened Bytes

  /** A Unicode scalar value: a code point that is not a surrogate. */
  type Scalar = c: int | 0 <= c <= 0x10FFFF && !(0xD800 <= c <= 0xDFFF)

  predicate IsScalar(c: int) {
    0 <= c <= 0x10FFFF && !(0xD800 <= c <= 0xDFFF)
  }

  /** The one encoding RFC 3629 gives a scalar value. */
  function EncodeScalar(c: Scalar): (s: bytes)
    ensures 1 <= |s| <= 4
  {
    if c < 0x80 then [c as byte]
    else if c < 0x800 then [(0xC0 + c / 0x40) as byte, Trail(c)]
    else if c < 0x1_0000 then [(0xE0 + c / 0x1000) as byte, Trail(c / 0x40), Trail(c)]
    else [(0xF0 + c / 0x4_0000) as byte, Trail(c / 0x1000), Trail(c / 0x40), Trail(c)]
  }

  /** A continuation byte carrying the low six bits of `v`. */
  function Trail(v: nat): (b: byte) { 0x80 + v % 0x40 }

  function EncodeScalars(cs: seq<Scalar>): (s: bytes) {
    if cs == [] then [] else EncodeScalar(cs[0]) + EncodeScalars(cs[1..])
  }

  // ----- what the validator's loop body does -----

  /** What a leading byte announces: continuation bytes, its own payload bits, and the least code point
      that needs that many bytes. */
  datatype Lead = Lead(extra: nat, bits: nat, least: nat) | BadLead

  function LeadOf(b0: byte): (l: Lead)
    ensures l.Lead? ==> l.extra <= 3
  {
    if b0 <= 0x7F then Lead(0, b0, 0)
    else if b0 / 0x20 == 0xC0 / 0x20 then Lead(1, b0 % 0x20, 0x80)
    else if b0 / 0x10 == 0xE0 / 0x10 then Lead(2, b0 % 0x10, 0x800)
    else if b0 / 0x08 == 0xF0 / 0x08 then Lead(3, b0 % 0x08, 0x1_0000)
    else BadLead
  }

  predicate IsContinuation(b: byte) { b / 0x40 == 0x80 / 0x40 }

  predicate AllContinuation(s: bytes) { forall k :: 0 <= k < |s| ==> IsContinuation(s[k]) }

  /** Shifts six bits of each byte into `bits`. */
  function Accumulate(bits: nat, s: bytes): (c: nat) {
    if s == [] then bits else Accumulate(bits, s[..|s| - 1]) * 0x40 + Low6(s[|s| - 1])
  }

  function Low6(b: byte): (r: nat) { b % 0x40 }

  /** The first character of a non-empty string, if it is well formed: its scalar value and length. */
  datatype First = First(value: Scalar, length: nat) | NoFirst

  function FirstOf(s: bytes): (f: First)
    requires s != []
    ensures f.First? ==> 1 <= f.length <= |s|
  {
    var l := LeadOf(s[0]);
    if l.BadLead? || l.extra >= |s| || !AllContinuation(s[1..1 + l.extra]) then NoFirst
    else
      var c := Accumulate(l.bits, s[1..1 + l.extra]);
      if c < l.least || !IsScalar(c) then NoFirst else First(c, l.extra + 1)
  }

  predicate Valid(s: bytes)
    decreases |s|
  {
    s == [] || (FirstOf(s).First? && Valid(s[FirstOf(s).length..]))
  }

  /** The validator's outer loop, over characters. */
  method IsValidUtf8(data: bytes) returns (ok: bool)
    ensures ok == Valid(data)
    ensures ok <==> exists cs: seq<Scalar> :: EncodeScalars(cs) == data
  {
    hide FirstOf, EncodeScalars;
    ValidIffEncoding(data);
    var i := 0;
    while i < |data|
      invariant 0 <= i <= |data|
      invariant Valid(data) == Valid(data[i..])
    {
      var n := CharacterAt(data, i);
      if n == 0 { return false; }
      assert data[i..][n..] == data[i + n..];
      i := i + n;
    }
    return true;
  }

  /** The body of that loop: the length of the character that starts at `i`, or 0 where the validator
      returns false. */
  method CharacterAt(data: bytes, i: nat) returns (n: nat)
    requires i < |data|
    ensures FirstOf(data[i..]).First? <==> n > 0
    ensures n > 0 ==> n == FirstOf(data[i..]).length
  {
    ghost var rest := data[i..];
    var b0 := data[i];
    if b0 <= 0x7F {
      AsciiFirst(rest);
      return 1;
    }
    var extra: nat, codepoint: nat, minCodepoint: nat;
    if b0 / 0x20 == 0xC0 / 0x20 { extra, codepoint, minCodepoint := 1, b0 % 0x20, 0x80; }
    else if b0 / 0x10 == 0xE0 / 0x10 { extra, codepoint, minCodepoint := 2, b0 % 0x10, 0x800; }
    else if b0 / 0x08 == 0xF0 / 0x08 { extra, codepoint, minCodepoint := 3, b0 % 0x08, 0x1_0000; }
    else { return 0; }
    assert LeadOf(rest[0]) == Lead(extra, codepoint, minCodepoint);
    if i + extra >= |data| { return 0; }
    var ok: bool;
    ok, codepoint := Continuations(data[i + 1..i + 1 + extra], codepoint);
    assert data[i + 1..i + 1 + extra] == rest[1..1 + extra];
    if !ok || codepoint < minCodepoint || codepoint > 0x10FFFF || (codepoint >= 0xD800 && codepoint <= 0xDFFF) {
      return 0;
    }
    return extra + 1;
  }

  /** The inner loop, over the continuation bytes. */
  method Continuations(tail: bytes, bits: nat) returns (ok: bool, codepoint: nat)
    ensures ok == AllContinuation(tail)
    ensures ok ==> codepoint == Accumulate(bits, tail)
  {
    codepoint := bits;
    var k := 0;
    while k < |tail|
      invariant 0 <= k <= |tail|
      invariant codepoint == Accumulate(bits, tail[..k])
      invariant AllContinuation(tail[..k])
    {
      var bk := tail[k];
      if bk / 0x40 != 0x80 / 0x40 { return false, codepoint; }
      assert tail[..k + 1][..k] == tail[..k];
      codepoint := codepoint * 0x40 + Low6(bk);
      k := k + 1;
    }
    assert tail[..k] == tail;
    ok := true;
  }

  lemma AsciiFirst(s: bytes)
    requires s != [] && s[0] <= 0x7F
    ensures FirstOf(s) == First(s[0], 1)
  {
    assert s[1..1] == [];
  }

  // ----- one character -----

  lemma Accumulate1(bits: nat, s: bytes)
    requires |s| == 1
    ensures Accumulate(bits, s) == bits * 0x40 + Low6(s[0])
  {
    assert s[..0] == [];
  }

  lemma Accumulate2(bits: nat, s: bytes)
    requires |s| == 2
    ensures Accumulate(bits, s) == bits * 0x1000 + 0x40 * Low6(s[0]) + Low6(s[1])
  {
    Accumulate1(bits, s[..1]);
  }

  lemma Accumulate3(bits: nat, s: bytes)
    requires |s| == 3
    ensures Accumulate(bits, s) == bits * 0x4_0000 + 0x1000 * Low6(s[0]) + 0x40 * Low6(s[1]) + Low6(s[2])
  {
    Accumulate2(bits, s[..2]);
  }

  /** Everything the validator accepts as a first character is the encoding of its scalar value. */
  lemma FirstIsEncoding(s: bytes)
    requires s != [] && FirstOf(s).First?
    ensures EncodeScalar(FirstOf(s).value) == s[..FirstOf(s).length]
  {
    var l := LeadOf(s[0]);
    if l.extra == 0 { assert s[1..1] == []; }
    else if l.extra == 1 { FirstIsEncoding2(s); }
    else if l.extra == 2 { FirstIsEncoding3(s); }
    else { FirstIsEncoding4(s); }
  }

  lemma FirstIsEncoding2(s: bytes)
    requires s != [] && FirstOf(s).First? && LeadOf(s[0]).extra == 1
    ensures EncodeScalar(FirstOf(s).value) == s[..2]
  {
    var t := s[1..2];
    assert t[0] == s[1] && IsContinuation(t[0]);
    Accumulate1(s[0] % 0x20, t);
  }

  lemma FirstIsEncoding3(s: bytes)
    requires s != [] && FirstOf(s).First? && LeadOf(s[0]).extra == 2
    ensures EncodeScalar(FirstOf(s).value) == s[..3]
  {
    var t := s[1..3];
    assert t[0] == s[1] && t[1] == s[2] && IsContinuation(t[0]) && IsContinuation(t[1]);
    Accumulate2(s[0] % 0x10, t);
    Digits64(FirstOf(s).value, 0, s[0] % 0x10, Low6(t[0]), Low6(t[1]));
  }

  lemma FirstIsEncoding4(s: bytes)
    requires s != [] && FirstOf(s).First? && LeadOf(s[0]).extra == 3
    ensures EncodeScalar(FirstOf(s).value) == s[..4]
  {
    var t := s[1..4];
    assert t[0] == s[1] && t[1] == s[2] && t[2] == s[3];
    assert IsContinuation(t[0]) && IsContinuation(t[1]) && IsContinuation(t[2]);
    Accumulate3(s[0] % 0x08, t);
    Digits64(FirstOf(s).value, s[0] % 0x08, Low6(t[0]), Low6(t[1]), Low6(t[2]));
  }

  lemma Recompose64(v: nat)
    ensures v == (v / 0x4_0000) * 0x4_0000 + 0x1000 * ((v / 0x1000) % 0x40) + 0x40 * ((v / 0x40) % 0x40) + v % 0x40
  {
    var q := v / 0x40;
    var r := q / 0x40;
    Digits64(v, r / 0x40, r % 0x40, q % 0x40, v % 0x40);
  }

  /** Every encoded scalar value is accepted, with its own value and length, whatever follows it. */
  lemma EncodingIsFirst(c: Scalar, rest: bytes)
    ensures FirstOf(EncodeScalar(c) + rest) == First(c, |EncodeScalar(c)|)
  {
    var e := EncodeScalar(c);
    var s := e + rest;
    assert s[1..|e|] == e[1..];
    if |e| == 1 { AsciiFirst(s); }
    else if |e| == 2 { EncodingIsFirst2(c, s); }
    else if |e| == 3 { EncodingIsFirst3(c, s); }
    else { EncodingIsFirst4(c, s); }
  }

  lemma EncodingIsFirst2(c: Scalar, s: bytes)
    requires 0x80 <= c < 0x800 && |s| >= 2 && s[..2] == EncodeScalar(c)
    ensures FirstOf(s) == First(c, 2)
  {
    var e, t := s[..2], s[1..2];
    assert s[0] == e[0] && t == [e[1]];
    Accumulate1(c / 0x40, t);
  }

  lemma EncodingIsFirst3(c: Scalar, s: bytes)
    requires 0x800 <= c < 0x1_0000 && |s| >= 3 && s[..3] == EncodeScalar(c)
    ensures FirstOf(s) == First(c, 3)
  {
    hide LeadOf;
    var e, t := s[..3], s[1..3];
    assert s[0] == e[0] == 0xE0 + c / 0x1000 && t == [e[1], e[2]] == [Trail(c / 0x40), Trail(c)];
    LeadBytes(c / 0x1000);
    TrailIsContinuation(c);
    TrailIsContinuation(c / 0x40);
    assert Accumulate(c / 0x1000, t) == c by {
      hide LeadOf, Trail, Low6, EncodeScalar;
      Accumulate2(c / 0x1000, t);
      Recompose64(c);
    }
  }

  lemma EncodingIsFirst4(c: Scalar, s: bytes)
    requires 0x1_0000 <= c && |s| >= 4 && s[..4] == EncodeScalar(c)
    ensures FirstOf(s) == First(c, 4)
  {
    hide LeadOf;
    var e, t := s[..4], s[1..4];
    assert s[0] == e[0] && t == [e[1], e[2], e[3]] == [Trail(c / 0x1000), Trail(c / 0x40), Trail(c)];
    LeadBytes(c / 0x4_0000);
    TrailIsContinuation(c);
    TrailIsContinuation(c / 0x40);
    TrailIsContinuation(c / 0x1000);
    assert Accumulate(c / 0x4_0000, t) == c by {
      hide LeadOf, Trail, Low6, EncodeScalar;
      Accumulate3(c / 0x4_0000, t);
      Recompose64(c);
    }
  }

  lemma LeadBytes(q: nat)
    ensures q < 0x10 ==> LeadOf(0xE0 + q) == Lead(2, q, 0x800)
    ensures q < 0x08 ==> LeadOf(0xF0 + q) == Lead(3, q, 0x1_0000)
  {
  }

  lemma TrailIsContinuation(v: nat)
    ensures IsContinuation(Trail(v)) && Low6(Trail(v)) == v % 0x40
  {
  }

  // ----- whole strings -----

  lemma {:induction false} EncodingIsValid(cs: seq<Scalar>)
    ensures Valid(EncodeScalars(cs))
  {
    hide FirstOf, EncodeScalar;
    if cs != [] {
      EncodingIsFirst(cs[0], EncodeScalars(cs[1..]));
      EncodingIsValid(cs[1..]);
      assert EncodeScalars(cs)[|EncodeScalar(cs[0])|..] == EncodeScalars(cs[1..]);
    }
  }

  lemma {:induction false} ValidIsEncoding(s: bytes) returns (cs: seq<Scalar>)
    requires Valid(s)
    ensures EncodeScalars(cs) == s
    decreases |s|
  {
    hide FirstOf, EncodeScalar;
    if s == [] {
      cs := [];
    } else {
      var f := FirstOf(s);
      var rest := ValidIsEncoding(s[f.length..]);
      cs := [f.value] + rest;
      FirstIsEncoding(s);
      assert cs[1..] == rest;
      assert s == s[..f.length] + s[f.length..];
    }
  }

  /** The validator's language is exactly the set of encodings of scalar value sequences. */
  lemma ValidIffEncoding(s: bytes)
    ensures Valid(s) <==> exists cs: seq<Scalar> :: EncodeScalars(cs) == s
  {
    if Valid(s) {
      var cs := ValidIsEncoding(s);
    }
    if exists cs: seq<Scalar> :: EncodeScalars(cs) == s {
      var cs: seq<Scalar> :| EncodeScalars(cs) == s;
      EncodingIsValid(cs);
    }
  }

  /** A string encodes at most one sequence of scalar values. */
  lemma {:induction false} EncodingUnique(cs: seq<Scalar>, ds: seq<Scalar>)
    requires EncodeScalars(cs) == EncodeScalars(ds)
    ensures cs == ds
  {
    hide FirstOf, EncodeScalar;
    if cs != [] && ds != [] {
      EncodingIsFirst(cs[0], EncodeScalars(cs[1..]));
      EncodingIsFirst(ds[0], EncodeScalars(ds[1..]));
      var s, n := EncodeScalars(cs), |EncodeScalar(cs[0])|;
      assert s[n..] == EncodeScalars(cs[1..]) && s[n..] == EncodeScalars(ds[1..]);
      EncodingUnique(cs[1..], ds[1..]);
      assert cs == [cs[0]] + cs[1..] && ds == [ds[0]] + ds[1..];
    }
  }

  /** ASCII text is valid; used for the fixed texts the server sends. */
  lemma {:induction false} AsciiIsValid(s: bytes)
    requires forall i :: 0 <= i < |s| ==> s[i] < 0x80
    ensures Valid(s)
    decreases |s|
  {
    if s != [] {
      AsciiFirst(s);
      AsciiIsValid(s[1..]);
    }
  }
}
