/**
 * UTF-8 (RFC 3629): the byte encoding Python's `quote` applies to a `str`
 * before percent-encoding it, and the strict decoder that inverts it.
 * Dafny's `char` is a Unicode scalar value, so every string has an encoding.
 */
module Utf8 {
  import opened Wrappers

  type Byte = b: int | 0 <= b < 0x100

  /** A continuation byte: 10xxxxxx. */
  predicate IsContinuation(b: Byte) {
    0x80 <= b < 0xC0
  }

  /** The one to four bytes that encode a single scalar value. */
  function EncodeChar(c: char): (bs: seq<Byte>)
    ensures 1 <= |bs| <= 4
    ensures |bs| == 1 <==> (c as int) < 0x80
    ensures |bs| == 1 ==> bs[0] == c as int
    ensures forall k :: 1 <= k < |bs| ==> IsContinuation(bs[k])
  {
    var n := c as int;
    if n < 0x80 then [n]
    else if n < 0x800 then [0xC0 + n / 0x40, 0x80 + n % 0x40]
    else if n < 0x10000 then [0xE0 + n / 0x1000, 0x80 + (n / 0x40) % 0x40, 0x80 + n % 0x40]
    else [0xF0 + n / 0x40000, 0x80 + (n / 0x1000) % 0x40, 0x80 + (n / 0x40) % 0x40, 0x80 + n % 0x40]
  }

  /** The UTF-8 encoding of a whole string: the encodings of its characters, in order. */
  function Encode(s: string): (bs: seq<Byte>)
    ensures |bs| >= |s|
  {
    if s == [] then [] else EncodeChar(s[0]) + Encode(s[1..])
  }

  /**
   * Decodes the first scalar value of `bs`, returning it with the number of
   * bytes it took.  Overlong forms, surrogates and values above U+10FFFF are
   * rejected, as RFC 3629 requires.
   */
  function DecodeFirst(bs: seq<Byte>): (r: Option<(char, nat)>)
    requires bs != []
    ensures r.Some? ==> 1 <= r.value.1 <= |bs| && r.value.1 <= 4
  {
    var b0 := bs[0] as int;
    if b0 < 0x80 then Some((b0 as char, 1))
    else if 0xC2 <= b0 < 0xE0 then
      if |bs| >= 2 && IsContinuation(bs[1]) then
        Some((((b0 - 0xC0) * 0x40 + (bs[1] as int - 0x80)) as char, 2))
      else None
    else if 0xE0 <= b0 < 0xF0 then
      if |bs| >= 3 && IsContinuation(bs[1]) && IsContinuation(bs[2]) then
        var n := (b0 - 0xE0) * 0x1000 + (bs[1] as int - 0x80) * 0x40 + (bs[2] as int - 0x80);
        if 0x800 <= n && !(0xD800 <= n < 0xE000) then Some((n as char, 3)) else None
      else None
    else if 0xF0 <= b0 < 0xF5 then
      if |bs| >= 4 && IsContinuation(bs[1]) && IsContinuation(bs[2]) && IsContinuation(bs[3]) then
        var n := (b0 - 0xF0) * 0x40000 + (bs[1] as int - 0x80) * 0x1000
                 + (bs[2] as int - 0x80) * 0x40 + (bs[3] as int - 0x80);
        if 0x10000 <= n < 0x110000 then Some((n as char, 4)) else None
      else None
    else None
  }

  /** Strict decoding of a whole byte sequence; `None` if any part is malformed. */
  function Decode(bs: seq<Byte>): (r: Option<string>)
    decreases |bs|
  {
    if bs == [] then Some([])
    else match DecodeFirst(bs)
      case None => None
      case Some((c, k)) =>
        match Decode(bs[k..])
        case None => None
        case Some(cs) => Some([c] + cs)
  }

  lemma TwoByteArithmetic(n: int)
    requires 0x80 <= n < 0x800
    ensures 0xC2 <= 0xC0 + n / 0x40 < 0xE0
    ensures (n / 0x40) * 0x40 + n % 0x40 == n
  {
  }

  lemma ThreeByteArithmetic(n: int)
    requires 0x800 <= n < 0x10000
    ensures 0xE0 <= 0xE0 + n / 0x1000 < 0xF0
    ensures (n / 0x1000) * 0x1000 + ((n / 0x40) % 0x40) * 0x40 + n % 0x40 == n
  {
  }

  lemma FourByteArithmetic(n: int)
    requires 0x10000 <= n < 0x110000
    ensures 0xF0 <= 0xF0 + n / 0x40000 < 0xF5
    ensures (n / 0x40000) * 0x40000 + ((n / 0x1000) % 0x40) * 0x1000
            + ((n / 0x40) % 0x40) * 0x40 + n % 0x40 == n
  {
  }

  /** Decoding the front of `EncodeChar(c) + rest` gives back `c` and consumes exactly its bytes. */
  lemma DecodeFirstEncodeChar(c: char, rest: seq<Byte>)
    ensures DecodeFirst(EncodeChar(c) + rest) == Some((c, |EncodeChar(c)|))
  {
    var n := c as int;
    var bs := EncodeChar(c) + rest;
    if n < 0x80 {
    } else if n < 0x800 {
      TwoByteArithmetic(n);
    } else if n < 0x10000 {
      ThreeByteArithmetic(n);
      assert !(0xD800 <= n < 0xE000);
    } else {
      FourByteArithmetic(n);
    }
  }

  /** Round trip: strict decoding recovers every string from its UTF-8 encoding. */
  lemma {:induction false} DecodeEncode(s: string)
    ensures Decode(Encode(s)) == Some(s)
  {
    if s != [] {
      var head := EncodeChar(s[0]);
      var tail := Encode(s[1..]);
      assert Encode(s) == head + tail;
      DecodeFirstEncodeChar(s[0], tail);
      assert (head + tail)[|head|..] == tail;
      DecodeEncode(s[1..]);
      assert [s[0]] + s[1..] == s;
    }
  }

  /** An ASCII-only string encodes to its own code points, one byte per character. */
  lemma {:induction false} EncodeAscii(s: string)
    requires forall i :: 0 <= i < |s| ==> (s[i] as int) < 0x80
    ensures |Encode(s)| == |s|
    ensures forall i :: 0 <= i < |s| ==> Encode(s)[i] == s[i] as int
  {
    if s != [] {
      EncodeAscii(s[1..]);
    }
  }
}
