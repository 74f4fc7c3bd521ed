/** UTF-8 as sections 3 and 4 of RFC 3629 define it, the editor's decoder, and
    the JSON writer's validator.  Bit operations on bytes are written as
    comparisons, quotients and remainders. */
module Utf8 {
  import Basics

  type Byte = Basics.Byte

  /** Scalar values: code points that are not surrogates. */
  predicate Scalar(cp: int) {
    0 <= cp < 0xD800 || 0xE000 <= cp <= 0x10FFFF
  }

  predicate Continuation(b: Byte) {
    0x80 <= b < 0xC0
  }

  /** The unique encoding of a scalar value. */
  function Encode(cp: int): (s: seq<Byte>)
    requires Scalar(cp)
    ensures 1 <= |s| <= 4
  {
    if cp < 0x80 then [cp]
    else if cp < 0x800 then [0xC0 + cp / 64, 0x80 + cp % 64]
    else if cp < 0x10000 then [0xE0 + cp / 64 / 64, 0x80 + cp / 64 % 64, 0x80 + cp % 64]
    else [0xF0 + cp / 64 / 64 / 64, 0x80 + cp / 64 / 64 % 64, 0x80 + cp / 64 % 64, 0x80 + cp % 64]
  }

  /** utf8ByteLen: the length the lead byte announces. */
  function ByteLen(c: Byte): (n: nat)
    ensures 1 <= n <= 4
  {
    if c < 0x80 then 1
    else if 0xC0 <= c < 0xE0 then 2
    else if 0xE0 <= c < 0xF0 then 3
    else if 0xF0 <= c < 0xF8 then 4
    else 1
  }

  /** The low bits of a byte below the power of two `m`. */
  function Low(b: Byte, m: int): (r: int)
    requires m > 0
    ensures 0 <= r < m
  {
    var x: int := b;
    x % m
  }

  /** utf8DecodeChar: the value bits of the sequence the lead byte announces. */
  function DecodeChar(s: seq<Byte>): (cp: nat)
    requires s != [] && |s| >= ByteLen(s[0])
  {
    if s[0] < 0x80 then s[0]
    else if 0xC0 <= s[0] < 0xE0 then Low(s[0], 32) * 64 + Low(s[1], 64)
    else if 0xE0 <= s[0] < 0xF0 then (Low(s[0], 16) * 64 + Low(s[1], 64)) * 64 + Low(s[2], 64)
    else if 0xF0 <= s[0] < 0xF8 then ((Low(s[0], 8) * 64 + Low(s[1], 64)) * 64 + Low(s[2], 64)) * 64 + Low(s[3], 64)
    else s[0]
  }

  const REPLACEMENT := 0xFFFD

  /** linenoiseUtf8Decode: bytes consumed and code point.  Zero bytes means more
      are needed; a byte that starts no sequence is consumed alone. */
  function Decode(s: seq<Byte>): (r: (nat, int))
    ensures r.0 <= |s| && r.0 <= 4
  {
    if s == [] then (0, REPLACEMENT)
    else
      var lead, n := s[0], ByteLen(s[0]);
      if lead < 0x80 then (1, lead)
      else if lead < 0xC2 || lead > 0xF4 then (1, REPLACEMENT)
      else if exists i :: 1 <= i < n && i < |s| && !Continuation(s[i]) then (1, REPLACEMENT)
      else if |s| < n then (0, REPLACEMENT)
      else
        var value := DecodeChar(s);
        if value > 0x10FFFF || 0xD800 <= value <= 0xDFFF || (n == 3 && value < 0x800) || (n == 4 && value < 0x10000)
        then (1, REPLACEMENT)
        else (n, value)
  }

  /** Decoding undoes encoding, whatever follows. */
  lemma DecodeEncode(cp: int, rest: seq<Byte>)
    requires Scalar(cp)
    ensures Decode(Encode(cp) + rest) == (|Encode(cp)|, cp)
  {
    var e := Encode(cp);
    var s := e + rest;
    assert s[..|e|] == e;
    EncodeShape(cp);
    assert forall i :: 0 <= i < |e| ==> s[i] == e[i];
    DecodeCharReads(s, e);
  }

  lemma DecodeCharReads(s: seq<Byte>, e: seq<Byte>)
    requires e != [] && |e| == ByteLen(e[0]) && e <= s
    ensures DecodeChar(s) == DecodeChar(e)
  {
    assert forall i :: 0 <= i < |e| ==> s[i] == e[i];
  }

  /** An encoding has the announced length, continuation bytes only after the
      lead, and the value bits of its code point. */
  lemma EncodeShape(cp: int)
    requires Scalar(cp)
    ensures var e := Encode(cp);
      && |e| == ByteLen(e[0]) && DecodeChar(e) == cp
      && (cp >= 0x80 ==> 0xC2 <= e[0] <= 0xF4) && (cp < 0x80 ==> e[0] == cp)
      && !Continuation(e[0]) && (forall i :: 1 <= i < |e| ==> Continuation(e[i]))
      && (|e| == 3 ==> cp >= 0x800) && (|e| == 4 ==> cp >= 0x10000)
  {
    hide DecodeChar;
    EncodeValue(cp);
  }

  lemma EncodeValue(cp: int)
    requires Scalar(cp)
    ensures var e := Encode(cp); |e| == ByteLen(e[0]) && DecodeChar(e) == cp
  {
    hide Low;
    var a: nat := cp / 64;
    var b: nat := a / 64;
    LowBits(cp % 64);
    if cp < 0x80 {
    } else if cp < 0x800 {
      LowBits(a);
    } else if cp < 0x10000 {
      LowBits(a % 64);
      LowBits(b);
    } else {
      LowBits(a % 64);
      LowBits(b % 64);
      LowBits(b / 64);
    }
  }

  /** Value bits under each marker. */
  lemma LowBits(v: nat)
    ensures v < 64 ==> Low(0x80 + v, 64) == v
    ensures v < 32 ==> Low(0xC0 + v, 32) == v
    ensures v < 16 ==> Low(0xE0 + v, 16) == v
    ensures v < 8 ==> Low(0xF0 + v, 8) == v
  {
  }

  /** Whatever the decoder accepts is a scalar value's unique encoding. */
  lemma EncodeDecode(s: seq<Byte>)
    requires s != [] && Decode(s).0 > 0 && !(Decode(s).0 == 1 && s[0] >= 0x80)
    ensures Scalar(Decode(s).1) && s[..Decode(s).0] == Encode(Decode(s).1)
  {
    var (n, cp) := Decode(s);
    if n > 1 {
      hide Encode;
      ValueBits(s, n);
    }
  }

  lemma Digits(hi: nat, lo: nat)
    requires lo < 64
    ensures (hi * 64 + lo) / 64 == hi && (hi * 64 + lo) % 64 == lo
  {
  }

  lemma Value2(x: Byte, y: Byte)
    requires 0xC2 <= x < 0xE0 && Continuation(y)
    ensures Encode(Low(x, 32) * 64 + Low(y, 64)) == [x, y]
  {
    Digits(Low(x, 32), Low(y, 64));
  }

  lemma Value3(x: Byte, y: Byte, z: Byte)
    requires 0xE0 <= x < 0xF0 && Continuation(y) && Continuation(z)
    requires var v := (Low(x, 16) * 64 + Low(y, 64)) * 64 + Low(z, 64); v >= 0x800 && Scalar(v)
    ensures Encode((Low(x, 16) * 64 + Low(y, 64)) * 64 + Low(z, 64)) == [x, y, z]
  {
    var a := Low(x, 16) * 64 + Low(y, 64);
    Digits(Low(x, 16), Low(y, 64));
    Digits(a, Low(z, 64));
    assert a * 64 + Low(z, 64) < 0x10000;
  }

  lemma Value4(x: Byte, y: Byte, z: Byte, w: Byte)
    requires 0xF0 <= x < 0xF8 && Continuation(y) && Continuation(z) && Continuation(w)
    requires var v := ((Low(x, 8) * 64 + Low(y, 64)) * 64 + Low(z, 64)) * 64 + Low(w, 64); v >= 0x10000 && Scalar(v)
    ensures Encode(((Low(x, 8) * 64 + Low(y, 64)) * 64 + Low(z, 64)) * 64 + Low(w, 64)) == [x, y, z, w]
  {
    var a := Low(x, 8) * 64 + Low(y, 64);
    var b := a * 64 + Low(z, 64);
    Digits(Low(x, 8), Low(y, 64));
    Digits(a, Low(z, 64));
    Digits(b, Low(w, 64));
  }

  /** The value bits of a well-shaped sequence give back its bytes. */
  lemma ValueBits(s: seq<Byte>, n: nat)
    requires s != [] && n == ByteLen(s[0]) && 1 < n <= |s| && 0xC2 <= s[0] <= 0xF4
    requires forall i :: 1 <= i < n ==> Continuation(s[i])
    requires Scalar(DecodeChar(s))
    requires (n == 3 ==> DecodeChar(s) >= 0x800) && (n == 4 ==> DecodeChar(s) >= 0x10000)
    ensures s[..n] == Encode(DecodeChar(s))
  {
    hide Encode;
    assert Continuation(s[1]);
    if n == 2 {
      Value2(s[0], s[1]);
    } else if n == 3 {
      assert Continuation(s[2]);
      Value3(s[0], s[1], s[2]);
    } else {
      assert Continuation(s[2]) && Continuation(s[3]);
      Value4(s[0], s[1], s[2], s[3]);
    }
  }

  /** Text that decodes from end to end without an error or an incomplete tail. */
  predicate WellFormed(s: seq<Byte>)
    decreases |s|
  {
    s == [] ||
    (var n := Decode(s).0; n > 0 && !(n == 1 && s[0] >= 0x80) && WellFormed(s[n..]))
  }

  /** Its code points. */
  function CodePoints(s: seq<Byte>): (cps: seq<int>)
    requires WellFormed(s)
    decreases |s|
  {
    if s == [] then [] else [Decode(s).1] + CodePoints(s[Decode(s).0..])
  }

  predicate Scalars(cps: seq<int>) {
    forall i :: 0 <= i < |cps| ==> Scalar(cps[i])
  }

  function EncodeAll(cps: seq<int>): (s: seq<Byte>)
    requires Scalars(cps)
  {
    if cps == [] then [] else Encode(cps[0]) + EncodeAll(cps[1..])
  }

  /** Well-formed text is exactly the encoding of its code points. */
  lemma {:induction false} CodePointsEncode(s: seq<Byte>)
    requires WellFormed(s)
    ensures Scalars(CodePoints(s)) && EncodeAll(CodePoints(s)) == s
    decreases |s|
  {
    hide Encode, Decode;
    if s != [] {
      EncodeDecode(s);
      CodePointsEncode(s[Decode(s).0..]);
      assert CodePoints(s)[1..] == CodePoints(s[Decode(s).0..]);
    }
  }

  /** And every sequence of scalar values encodes to well-formed text. */
  lemma {:induction false} EncodeCodePoints(cps: seq<int>)
    requires Scalars(cps)
    ensures WellFormed(EncodeAll(cps)) && CodePoints(EncodeAll(cps)) == cps
  {
    if cps != [] {
      var s := EncodeAll(cps);
      DecodeEncode(cps[0], EncodeAll(cps[1..]));
      EncodeCodePoints(cps[1..]);
      EncodeShape(cps[0]);
      assert s[|Encode(cps[0])|..] == EncodeAll(cps[1..]);
      assert s[0] == Encode(cps[0])[0];
    }
  }

  lemma {:induction false} EncodeAllAppend(a: seq<int>, b: seq<int>)
    requires Scalars(a) && Scalars(b)
    ensures Scalars(a + b) && EncodeAll(a + b) == EncodeAll(a) + EncodeAll(b)
  {
    hide Encode;
    if a == [] {
      assert a + b == b;
    } else {
      EncodeAllAppend(a[1..], b);
      assert (a + b)[1..] == a[1..] + b && (a + b)[0] == a[0];
      Basics.Regroup(Encode(a[0]), EncodeAll(a[1..]), EncodeAll(b));
    }
  }

  /** Well-formed texts concatenate, code points and all. */
  lemma WellFormedAppend(a: seq<Byte>, b: seq<Byte>)
    requires WellFormed(a) && WellFormed(b)
    ensures WellFormed(a + b) && CodePoints(a + b) == CodePoints(a) + CodePoints(b)
  {
    CodePointsEncode(a);
    CodePointsEncode(b);
    EncodeAllAppend(CodePoints(a), CodePoints(b));
    EncodeCodePoints(CodePoints(a) + CodePoints(b));
  }

  lemma Join(a: seq<Byte>, b: seq<Byte>)
    requires WellFormed(a) && WellFormed(b)
    ensures WellFormed(a + b)
  {
    WellFormedAppend(a, b);
  }

  lemma Cut(a: seq<Byte>, b: seq<Byte>)
    requires WellFormed(a) && WellFormed(a + b)
    ensures WellFormed(b)
  {
    WellFormedRest(a, b);
  }

  /** The first code point of a well-formed text does not depend on what follows. */
  lemma DecodePrefix(a: seq<Byte>, b: seq<Byte>)
    requires a != [] && WellFormed(a)
    ensures Decode(a + b) == Decode(a)
  {
    hide Encode, WellFormed;
    var (n, cp) := Decode(a);
    assert n > 0 && !(n == 1 && a[0] >= 0x80) by { Head(a); }
    EncodeDecode(a);
    assert a + b == Encode(cp) + (a[n..] + b);
    DecodeEncode(cp, a[n..] + b);
    DecodeEncode(cp, a[n..]);
    assert a == Encode(cp) + a[n..];
  }

  lemma Head(a: seq<Byte>)
    requires a != [] && WellFormed(a)
    ensures Decode(a).0 > 0 && !(Decode(a).0 == 1 && a[0] >= 0x80) && WellFormed(a[Decode(a).0..])
  {
  }

  /** Dropping a well-formed prefix of well-formed text leaves well-formed text. */
  lemma {:induction false} WellFormedRest(a: seq<Byte>, b: seq<Byte>)
    requires WellFormed(a) && WellFormed(a + b)
    ensures WellFormed(b) && CodePoints(a + b) == CodePoints(a) + CodePoints(b)
    decreases |a|
  {
    if a == [] {
      assert a + b == b;
    } else {
      DecodePrefix(a, b);
      var n := Decode(a).0;
      assert (a + b)[n..] == a[n..] + b;
      WellFormedRest(a[n..], b);
      assert CodePoints(a + b) == [Decode(a).1] + CodePoints(a[n..] + b);
    }
  }

  /** The tests json_utf8_valid makes on a lead byte and the `need` bytes after it. */
  predicate JsonSequence(s: seq<Byte>, need: nat)
    requires s != []
  {
    && 1 + need <= |s|
    && (need > 0 ==> !(s[0] == 0xE0 && s[1] < 0xA0) && !(s[0] == 0xED && s[1] >= 0xA0)
                     && !(s[0] == 0xF0 && s[1] < 0x90) && !(s[0] == 0xF4 && s[1] >= 0x90))
    && forall j :: 1 <= j < 1 + need ==> Continuation(s[j])
  }

  lemma JsonSequenceDecodes(s: seq<Byte>, need: nat)
    requires s != [] && 0xC2 <= s[0] <= 0xF4 && 1 + need == ByteLen(s[0])
    ensures JsonSequence(s, need) <==> Decode(s).0 > 1
    ensures Decode(s).0 > 1 ==> Decode(s).0 == 1 + need
  {
    if 1 + need <= |s| && forall j :: 1 <= j < 1 + need ==> Continuation(s[j]) {
      assert Continuation(s[1]);
      if need == 2 { assert Continuation(s[2]); }
      if need == 3 { assert Continuation(s[2]) && Continuation(s[3]); }
    }
  }

  lemma JsonStep(s: seq<Byte>, need: nat)
    requires s != [] && 0xC2 <= s[0] <= 0xF4 && 1 + need == ByteLen(s[0])
    ensures WellFormed(s) <==> JsonSequence(s, need) && WellFormed(s[1 + need..])
  {
    hide Decode;
    JsonSequenceDecodes(s, need);
  }

  /** json_utf8_valid accepts exactly the well-formed texts. */
  method JsonUtf8Valid(s: seq<Byte>) returns (valid: bool)
    ensures valid == WellFormed(s)
  {
    hide Decode;
    var i := 0;
    assert s[0..] == s;
    while i < |s|
      invariant 0 <= i <= |s| && WellFormed(s) == WellFormed(s[i..])
    {
      ghost var rest := s[i..];
      var c := s[i];
      i := i + 1;
      if c < 0x80 {
        AsciiStep(rest);
        assert rest[1..] == s[i..];
        continue;
      }
      var need := 0;
      if 0xC2 <= c <= 0xDF { need := 1; }
      else if 0xE0 <= c <= 0xEF { need := 2; }
      else if 0xF0 <= c <= 0xF4 { need := 3; }
      else {
        BadLead(rest);
        return false;
      }
      JsonStep(rest, need);
      assert forall k :: 0 <= k < |rest| ==> rest[k] == s[i - 1 + k];
      if i + need > |s| { return false; }
      var c1 := s[i];
      if c == 0xE0 && c1 < 0xA0 { return false; }
      if c == 0xED && c1 >= 0xA0 { return false; }
      if c == 0xF0 && c1 < 0x90 { return false; }
      if c == 0xF4 && c1 >= 0x90 { return false; }
      for j := 0 to need
        invariant forall k :: 1 <= k < 1 + j ==> Continuation(rest[k])
      {
        var cc := s[i + j];
        if !Continuation(cc) {
          assert rest[1 + j] == cc;
          return false;
        }
        assert rest[1 + j] == cc;
      }
      i := i + need;
      assert rest[1 + need..] == s[i..];
    }
    return true;
  }

  lemma AsciiStep(s: seq<Byte>)
    requires s != [] && s[0] < 0x80
    ensures WellFormed(s) == WellFormed(s[1..])
  {
  }

  lemma BadLead(s: seq<Byte>)
    requires s != [] && 0x80 <= s[0] && (s[0] < 0xC2 || s[0] > 0xF4)
    ensures !WellFormed(s)
  {
  }
}
