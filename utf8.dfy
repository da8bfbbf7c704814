/** UTF-8 as Rust's `String::from_utf8` accepts it: the backend turns the bytes
    of an uploaded file into the text it stores with it, and refuses (or traps
    on) bytes that are not well-formed UTF-8. Dafny's `char` is a Unicode
    scalar value, so a `string` is what a Rust `String` holds. */
module Utf8 {
  import opened Base

  /** A continuation byte 10xxxxxx. */
  predicate IsContinuation(b: byte)
  {
    0x80 <= b <= 0xBF
  }

  /** The second byte allowed after lead byte `b0` of a three- or four-byte
      sequence: the narrowed ranges exclude overlong forms, surrogates and
      values above U+10FFFF. */
  predicate SecondByteOk(b0: byte, b1: byte)
  {
    if b0 == 0xE0 then 0xA0 <= b1 <= 0xBF
    else if b0 == 0xED then 0x80 <= b1 <= 0x9F
    else if b0 == 0xF0 then 0x90 <= b1 <= 0xBF
    else if b0 == 0xF4 then 0x80 <= b1 <= 0x8F
    else IsContinuation(b1)
  }

  /** Length of the well-formed sequence that starts `s`, or 0 when `s` does
      not start with one. */
  function PrefixLength(s: seq<byte>): (n: nat)
    ensures n <= 4 && n <= |s|
  {
    if |s| == 0 then 0
    else if s[0] <= 0x7F then 1
    else if 0xC2 <= s[0] <= 0xDF then
      (if |s| >= 2 && IsContinuation(s[1]) then 2 else 0)
    else if 0xE0 <= s[0] <= 0xEF then
      (if |s| >= 3 && SecondByteOk(s[0], s[1]) && IsContinuation(s[2]) then 3 else 0)
    else if 0xF0 <= s[0] <= 0xF4 then
      (if |s| >= 4 && SecondByteOk(s[0], s[1]) && IsContinuation(s[2]) && IsContinuation(s[3]) then 4 else 0)
    else 0
  }

  predicate IsScalarValue(v: int)
  {
    0 <= v < 0xD800 || 0xE000 <= v <= 0x10FFFF
  }

  /** The code point the leading well-formed sequence of `s` encodes; the
      byte ranges of PrefixLength make it a scalar value that needs exactly
      that many bytes. */
  function ScalarOf(s: seq<byte>): (v: int)
    requires PrefixLength(s) > 0
    ensures IsScalarValue(v)
    ensures PrefixLength(s) == 1 <==> v < 0x80
    ensures PrefixLength(s) == 2 <==> 0x80 <= v < 0x800
    ensures PrefixLength(s) == 3 <==> 0x800 <= v < 0x10000
    ensures PrefixLength(s) == 4 <==> 0x10000 <= v
  {
    var n := PrefixLength(s);
    var b0: int := s[0];
    if n == 1 then b0
    else
      var b1: int := s[1];
      if n == 2 then (b0 - 0xC0) * 64 + (b1 - 0x80)
      else
        var b2: int := s[2];
        if n == 3 then (b0 - 0xE0) * 4096 + (b1 - 0x80) * 64 + (b2 - 0x80)
        else
          var b3: int := s[3];
          (b0 - 0xF0) * 0x40000 + (b1 - 0x80) * 4096 + (b2 - 0x80) * 64 + (b3 - 0x80)
  }

  /** `String::from_utf8`: the text, or None when the bytes are not
      well-formed UTF-8. */
  function Decode(s: seq<byte>): Option<string>
    decreases |s|
  {
    if s == [] then Some("")
    else
      var n := PrefixLength(s);
      if n == 0 then None
      else match Decode(s[n..])
        case None => None
        case Some(rest) => Some([ScalarOf(s) as char] + rest)
  }

  /** The UTF-8 encoding of one character. */
  function EncodeChar(c: char): (r: seq<byte>)
    ensures 1 <= |r| <= 4
  {
    var v := c as int;
    if v < 0x80 then [v]
    else if v < 0x800 then [0xC0 + v / 64, 0x80 + v % 64]
    else if v < 0x10000 then [0xE0 + v / 4096, 0x80 + v / 64 % 64, 0x80 + v % 64]
    else [0xF0 + v / 0x40000, 0x80 + v / 4096 % 64, 0x80 + v / 64 % 64, 0x80 + v % 64]
  }

  /** The UTF-8 encoding of a string (`String::into_bytes`). */
  function Encode(s: string): seq<byte>
  {
    if s == [] then [] else EncodeChar(s[0]) + Encode(s[1..])
  }

  lemma DivMod64(q: int, r: int)
    requires 0 <= r < 64
    ensures (q * 64 + r) / 64 == q && (q * 64 + r) % 64 == r
  {
  }

  lemma DivMod4096(q: int, r: int)
    requires 0 <= r < 4096
    ensures (q * 4096 + r) / 4096 == q && (q * 4096 + r) % 4096 == r
  {
  }

  lemma DivMod40000(q: int, r: int)
    requires 0 <= r < 0x40000
    ensures (q * 0x40000 + r) / 0x40000 == q
  {
  }

  /** Decoding the encoding of a character, whatever follows it, reads back
      exactly that character and consumes exactly its bytes. */
  lemma EncodeCharDecodes(c: char, rest: seq<byte>)
    ensures PrefixLength(EncodeChar(c) + rest) == |EncodeChar(c)|
    ensures ScalarOf(EncodeChar(c) + rest) == c as int
  {
    var v := c as int;
    if v < 0x80 {
    } else if v < 0x800 {
      TwoByteDecodes(v, rest);
    } else if v < 0x10000 {
      ThreeByteDecodes(v, rest);
    } else {
      FourByteDecodes(v, rest);
    }
  }

  lemma TwoByteDecodes(v: int, rest: seq<byte>)
    requires 0x80 <= v < 0x800
    ensures var s := [0xC0 + v / 64, 0x80 + v % 64] + rest;
      PrefixLength(s) == 2 && ScalarOf(s) == v
  {
  }

  lemma ThreeByteDecodes(v: int, rest: seq<byte>)
    requires 0x800 <= v < 0x10000 && IsScalarValue(v)
    ensures var s := [0xE0 + v / 4096, 0x80 + v / 64 % 64, 0x80 + v % 64] + rest;
      PrefixLength(s) == 3 && ScalarOf(s) == v
  {
    var hi, mid, lo := v / 4096, v / 64 % 64, v % 64;
    assert v / 64 == hi * 64 + mid;
    assert v == hi * 4096 + mid * 64 + lo;
  }

  lemma FourByteDecodes(v: int, rest: seq<byte>)
    requires 0x10000 <= v <= 0x10FFFF
    ensures var s := [0xF0 + v / 0x40000, 0x80 + v / 4096 % 64, 0x80 + v / 64 % 64, 0x80 + v % 64] + rest;
      PrefixLength(s) == 4 && ScalarOf(s) == v
  {
    var top, hi, mid, lo := v / 0x40000, v / 4096 % 64, v / 64 % 64, v % 64;
    assert v / 4096 == top * 64 + hi;
    assert v / 64 == (top * 64 + hi) * 64 + mid;
    assert v == top * 0x40000 + hi * 4096 + mid * 64 + lo;
  }

  /** Re-encoding the character a well-formed sequence decodes to gives back
      that sequence's bytes: there is exactly one encoding per scalar value. */
  lemma DecodedCharEncodes(s: seq<byte>)
    requires PrefixLength(s) > 0
    ensures EncodeChar(ScalarOf(s) as char) == s[..PrefixLength(s)]
  {
    var n := PrefixLength(s);
    var v := ScalarOf(s);
    assert (v as char) as int == v;
    if n == 1 {
      assert s[..1] == [s[0]];
    } else if n == 2 {
      TwoBytesReencode(s[0], s[1]);
      assert s[..2] == [s[0], s[1]];
    } else if n == 3 {
      ThreeBytesReencode(s[0], s[1], s[2]);
      assert s[..3] == [s[0], s[1], s[2]];
    } else {
      FourBytesReencode(s[0], s[1], s[2], s[3]);
      assert s[..4] == [s[0], s[1], s[2], s[3]];
    }
  }

  lemma TwoBytesReencode(b0: byte, b1: byte)
    requires 0xC2 <= b0 <= 0xDF && IsContinuation(b1)
    ensures var v := (b0 as int - 0xC0) * 64 + (b1 as int - 0x80);
      0x80 + v % 64 == b1 as int && 0xC0 + v / 64 == b0 as int
  {
    DivMod64(b0 as int - 0xC0, b1 as int - 0x80);
  }

  lemma ThreeBytesReencode(b0: byte, b1: byte, b2: byte)
    requires 0xE0 <= b0 <= 0xEF && IsContinuation(b1) && IsContinuation(b2)
    ensures var v := (b0 as int - 0xE0) * 4096 + (b1 as int - 0x80) * 64 + (b2 as int - 0x80);
      && 0xE0 + v / 4096 == b0 as int && 0x80 + v / 64 % 64 == b1 as int && 0x80 + v % 64 == b2 as int
  {
    var a, b, c := b0 as int - 0xE0, b1 as int - 0x80, b2 as int - 0x80;
    DivMod64(a * 64 + b, c);
    DivMod64(a, b);
    DivMod4096(a, b * 64 + c);
  }

  lemma FourBytesReencode(b0: byte, b1: byte, b2: byte, b3: byte)
    requires 0xF0 <= b0 <= 0xF4 && IsContinuation(b1) && IsContinuation(b2) && IsContinuation(b3)
    ensures var v := (b0 as int - 0xF0) * 0x40000 + (b1 as int - 0x80) * 4096 + (b2 as int - 0x80) * 64 + (b3 as int - 0x80);
      && 0xF0 + v / 0x40000 == b0 as int && 0x80 + v / 4096 % 64 == b1 as int
      && 0x80 + v / 64 % 64 == b2 as int && 0x80 + v % 64 == b3 as int
  {
    var a, b, c, d := b0 as int - 0xF0, b1 as int - 0x80, b2 as int - 0x80, b3 as int - 0x80;
    var v := a * 0x40000 + b * 4096 + c * 64 + d;
    assert v == ((a * 64 + b) * 64 + c) * 64 + d;
    DivMod64((a * 64 + b) * 64 + c, d);
    DivMod64(a * 64 + b, c);
    DivMod64(a, b);
    assert v / 4096 == a * 64 + b by {
      DivMod4096(a * 64 + b, c * 64 + d);
    }
    DivMod40000(a, b * 4096 + c * 64 + d);
  }

  /** Decoding what Encode produced gives back the text (the `from_utf8` of
      `into_bytes` round trip). */
  lemma {:induction false} DecodeEncode(s: string)
    ensures Decode(Encode(s)) == Some(s)
  {
    if s != [] {
      var head := EncodeChar(s[0]);
      var tail := Encode(s[1..]);
      EncodeCharDecodes(s[0], tail);
      assert (head + tail)[|head|..] == tail;
      DecodeEncode(s[1..]);
      assert [s[0]] + s[1..] == s;
    }
  }

  lemma TakeDrop<T>(s: seq<T>, n: nat)
    requires n <= |s|
    ensures s[..n] + s[n..] == s
  {
  }

  /** One step of Decode on well-formed bytes: the first character, then the
      decoding of the rest. */
  lemma DecodeStep(b: seq<byte>)
    requires b != [] && Decode(b).Some?
    ensures PrefixLength(b) > 0 && Decode(b[PrefixLength(b)..]).Some?
    ensures Decode(b).value == [ScalarOf(b) as char] + Decode(b[PrefixLength(b)..]).value
  {
  }

  /** Every byte sequence Decode accepts is the encoding of the text it
      decodes to; with DecodeEncode, Decode(b) == Some(s) exactly when
      Encode(s) == b. */
  lemma {:induction false} EncodeDecode(b: seq<byte>)
    requires Decode(b).Some?
    ensures Encode(Decode(b).value) == b
    decreases |b|
  {
    if b != [] {
      DecodeStep(b);
      var n := PrefixLength(b);
      var c := ScalarOf(b) as char;
      var rest := Decode(b[n..]).value;
      var s := [c] + rest;
      assert s[0] == c && s[1..] == rest;
      DecodedCharEncodes(b);
      EncodeDecode(b[n..]);
      TakeDrop(b, n);
      assert Encode(s) == EncodeChar(c) + Encode(rest);
    }
  }

  /** Well-formed exactly when some text encodes to these bytes. */
  lemma DecodeSucceedsIffEncoding(b: seq<byte>, s: string)
    ensures Decode(b) == Some(s) <==> Encode(s) == b
  {
    if Decode(b) == Some(s) {
      EncodeDecode(b);
    }
    if Encode(s) == b {
      DecodeEncode(s);
    }
  }
}
