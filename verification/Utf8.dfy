// str.encode("utf-8") and strict bytes.decode("utf-8") (RFC 3629), the text layer under LAN signaling.
module Utf8 {
  import opened Basics

  function EncodeChar(c: char): bytes { EncodeValue(c as int) }

  function EncodeValue(v: int): bytes
    requires 0 <= v < 0x11_0000
  {
    if v < 0x80 then [v]
    else if v < 0x800 then [0xC0 + v / 64, 0x80 + v % 64]
    else if v < 0x1_0000 then [0xE0 + v / 4096, 0x80 + v / 64 % 64, 0x80 + v % 64]
    else [0xF0 + v / 262144, 0x80 + v / 4096 % 64, 0x80 + v / 64 % 64, 0x80 + v % 64]
  }

  function Encode(s: string): bytes {
    if s == "" then [] else EncodeChar(s[0]) + Encode(s[1..])
  }

  predicate Continuation(b: byte) { 0x80 <= b < 0xC0 }

  predicate IsScalar(v: int) { 0 <= v < 0xD800 || 0xE000 <= v < 0x11_0000 }

  function Value2(a: int, b: int): int { (a - 0xC0) * 64 + (b - 0x80) }

  function Value3(a: int, b: int, c: int): int { (a - 0xE0) * 4096 + (b - 0x80) * 64 + (c - 0x80) }

  function Value4(a: int, b: int, c: int, d: int): int {
    (a - 0xF0) * 262144 + (b - 0x80) * 4096 + (c - 0x80) * 64 + (d - 0x80)
  }

  datatype Step = Malformed | Decoded(c: char, length: nat)

  // One strict decoding step: no overlong forms, no surrogates, nothing above U+10FFFF.
  function DecodeStep(b: bytes): (r: Step)
    requires b != []
    ensures r.Decoded? ==> 1 <= r.length <= |b|
  {
    if b[0] < 0x80 then Decoded(b[0] as char, 1)
    else if 0xC0 <= b[0] < 0xE0 && |b| >= 2 && Continuation(b[1]) then
      var v := Value2(b[0], b[1]);
      if v >= 0x80 then Decoded(v as char, 2) else Malformed
    else if 0xE0 <= b[0] < 0xF0 && |b| >= 3 && Continuation(b[1]) && Continuation(b[2]) then
      var v := Value3(b[0], b[1], b[2]);
      if v >= 0x800 && IsScalar(v) then Decoded(v as char, 3) else Malformed
    else if 0xF0 <= b[0] < 0xF8 && |b| >= 4 && Continuation(b[1]) && Continuation(b[2]) && Continuation(b[3]) then
      var v := Value4(b[0], b[1], b[2], b[3]);
      if v >= 0x1_0000 && IsScalar(v) then Decoded(v as char, 4) else Malformed
    else Malformed
  }

  function Decode(b: bytes): Option<string> {
    if b == [] then Some("")
    else
      match DecodeStep(b)
      case Malformed => None
      case Decoded(c, n) =>
        match Decode(b[n..])
        case None => None
        case Some(rest) => Some([c] + rest)
  }

  lemma Digits64(v: nat)
    ensures v / 4096 == v / 64 / 64 && v / 262144 == v / 64 / 64 / 64
  {
  }

  lemma DecodeStepOfEncoding(c: char, rest: bytes)
    ensures DecodeStep(EncodeChar(c) + rest) == Decoded(c, |EncodeChar(c)|)
  {
    var v := c as int;
    var e := EncodeChar(c);
    var b := e + rest;
    assert IsScalar(v);
    Digits64(v);
    assert forall i :: 0 <= i < |e| ==> b[i] == e[i];
    if 0x80 <= v < 0x800 {
      assert Value2(e[0], e[1]) == v;
    } else if 0x800 <= v < 0x1_0000 {
      assert Value3(e[0], e[1], e[2]) == v;
    } else if 0x1_0000 <= v {
      assert Value4(e[0], e[1], e[2], e[3]) == v;
    }
  }

  lemma {:induction false} DecodeEncode(s: string)
    ensures Decode(Encode(s)) == Some(s)
  {
    if s != "" {
      var b := Encode(s);
      DecodeStepOfEncoding(s[0], Encode(s[1..]));
      assert b[|EncodeChar(s[0])|..] == Encode(s[1..]);
      DecodeEncode(s[1..]);
      assert s == [s[0]] + s[1..];
    }
  }

  lemma DecodeStepExtends(a: bytes, b: bytes)
    requires a != [] && DecodeStep(a).Decoded?
    ensures DecodeStep(a + b) == DecodeStep(a)
  {
    assert forall i :: 0 <= i < |a| ==> (a + b)[i] == a[i];
  }

  // Cutting valid UTF-8 between characters cuts the text; any other cut is malformed.
  lemma {:induction false} DecodePrefix(a: bytes, b: bytes)
    requires Decode(a).Some? && Decode(a + b).Some?
    ensures Decode(a).value <= Decode(a + b).value
    ensures b != [] ==> Decode(a).value != Decode(a + b).value
  {
    if a != [] {
      var n := DecodeStep(a).length;
      DecodeStepExtends(a, b);
      assert (a + b)[n..] == a[n..] + b;
      DecodePrefix(a[n..], b);
    } else {
      assert a + b == b;
    }
  }

  // The first and last character of each length (section 3 of RFC 3629), and its euro sign.
  lemma Widths()
    ensures EncodeChar('\U{7F}') == [0x7F] && EncodeChar('\U{80}') == [0xC2, 0x80]
    ensures EncodeChar('\U{7FF}') == [0xDF, 0xBF] && EncodeChar('\U{800}') == [0xE0, 0xA0, 0x80]
    ensures EncodeChar('\U{20AC}') == [0xE2, 0x82, 0xAC] && EncodeChar('\U{FFFF}') == [0xEF, 0xBF, 0xBF]
    ensures EncodeChar('\U{10000}') == [0xF0, 0x90, 0x80, 0x80]
    ensures EncodeChar('\U{10FFFF}') == [0xF4, 0x8F, 0xBF, 0xBF]
  {
  }

  lemma Units2(a: int, b: int)
    requires 0xC0 <= a < 0xE0 && 0x80 <= b < 0xC0 && Value2(a, b) >= 0x80
    ensures EncodeValue(Value2(a, b)) == [a, b]
  {
    assert Value2(a, b) / 64 == a - 0xC0 && Value2(a, b) % 64 == b - 0x80;
  }

  lemma Units3(a: int, b: int, c: int)
    requires 0xE0 <= a < 0xF0 && 0x80 <= b < 0xC0 && 0x80 <= c < 0xC0 && Value3(a, b, c) >= 0x800
    ensures EncodeValue(Value3(a, b, c)) == [a, b, c]
  {
    var v := Value3(a, b, c);
    assert v / 64 == (a - 0xE0) * 64 + (b - 0x80) && v % 64 == c - 0x80;
    assert v / 4096 == a - 0xE0 && v / 64 % 64 == b - 0x80;
  }

  lemma Units4(a: int, b: int, c: int, d: int)
    requires 0xF0 <= a < 0xF8 && 0x80 <= b < 0xC0 && 0x80 <= c < 0xC0 && 0x80 <= d < 0xC0
    requires 0x1_0000 <= Value4(a, b, c, d) < 0x11_0000
    ensures EncodeValue(Value4(a, b, c, d)) == [a, b, c, d]
  {
    var v := Value4(a, b, c, d);
    assert v / 64 == (a - 0xF0) * 4096 + (b - 0x80) * 64 + (c - 0x80) && v % 64 == d - 0x80;
    assert v / 4096 == (a - 0xF0) * 64 + (b - 0x80) && v / 64 % 64 == c - 0x80;
    assert v / 262144 == a - 0xF0 && v / 4096 % 64 == b - 0x80;
  }

  lemma EncodingOfStep(b: bytes)
    requires b != [] && DecodeStep(b).Decoded?
    ensures EncodeChar(DecodeStep(b).c) == b[..DecodeStep(b).length]
  {
    var n := DecodeStep(b).length;
    if n == 2 {
      Units2(b[0], b[1]);
    } else if n == 3 {
      Units3(b[0], b[1], b[2]);
    } else if n == 4 {
      Units4(b[0], b[1], b[2], b[3]);
    }
  }

  lemma DecodedFirst(b: bytes, s: string) returns (first: bytes, rest: bytes)
    requires b != [] && Decode(b) == Some(s)
    ensures b == first + rest && |rest| < |b| && s != "" && first == EncodeChar(s[0]) && Decode(rest) == Some(s[1..])
  {
    var step := DecodeStep(b);
    first, rest := b[..step.length], b[step.length..];
    assert s == [step.c] + Decode(rest).value;
    EncodingOfStep(b);
  }

  lemma {:induction false} EncodeDecoded(b: bytes, s: string)
    requires Decode(b) == Some(s)
    ensures Encode(s) == b
    decreases |b|
  {
    if b != [] {
      var first, rest := DecodedFirst(b, s);
      EncodeDecoded(rest, s[1..]);
    }
  }

  // Strict: bytes are read as a text exactly when they are that text's encoding, so no overlong
  // form, no surrogate and nothing beyond the last character is read at all.
  lemma DecodeExact(b: bytes, s: string)
    ensures Decode(b) == Some(s) <==> b == Encode(s)
  {
    DecodeEncode(s);
    if Decode(b) == Some(s) {
      EncodeDecoded(b, s);
    }
  }
}
