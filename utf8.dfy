/** UTF-8 as RFC 3629 defines it. `unescape(encodeURIComponent(s))` turns a string into the
    byte string of its UTF-8 form, and `decodeURIComponent(escape(raw))` turns such a byte
    string back, throwing a URIError on anything that is not well-formed UTF-8 (a stray
    continuation byte, a truncated sequence, an overlong form, a surrogate, a value past
    U+10FFFF). */
module Utf8 {
  import opened Wrappers

  type Byte = b: int | 0 <= b < 256

  predicate IsContinuation(b: Byte) { 0x80 <= b < 0xC0 }

  /** The code point of `c` is a Unicode scalar value. */
  lemma ScalarRange(c: char)
    ensures 0 <= c as int < 0xD800 || 0xE000 <= c as int < 0x11_0000
  {
  }

  /** The one to four bytes that encode one character. */
  function EncodeChar(c: char): (r: seq<Byte>)
    ensures 1 <= |r| <= 4
    ensures (c as int < 0x80) == (|r| == 1)
    ensures |r| > 1 ==> 0xC2 <= r[0] <= 0xF4 && forall k :: 1 <= k < |r| ==> IsContinuation(r[k])
  {
    ScalarRange(c);
    var n := c as int;
    if n < 0x80 then [n]
    else if n < 0x800 then [0xC0 + n / 64, 0x80 + n % 64]
    else if n < 0x1_0000 then [0xE0 + n / 4096, 0x80 + (n / 64) % 64, 0x80 + n % 64]
    else [0xF0 + n / 262144, 0x80 + (n / 4096) % 64, 0x80 + (n / 64) % 64, 0x80 + n % 64]
  }

  /** The UTF-8 form of a string. */
  function Encode(s: string): (r: seq<Byte>)
    ensures |r| >= |s|
  {
    if s == [] then [] else EncodeChar(s[0]) + Encode(s[1..])
  }

  /** A two-, three- or four-byte sequence's code point, if it is a scalar value that needs
      exactly that many bytes. */
  function Scalar(n: int, len: nat): Option<char> {
    var min := if len == 2 then 0x80 else if len == 3 then 0x800 else 0x1_0000;
    if min <= n < 0x11_0000 && !(0xD800 <= n < 0xE000) then Some(n as char) else None
  }

  /** The character that the bytes at the start of `b` encode, with the number of bytes. */
  function DecodeFirst(b: seq<Byte>): (r: Option<(char, nat)>)
    requires b != []
    ensures r.Some? ==> 1 <= r.value.1 <= |b|
  {
    var b0: int := b[0];
    if b0 < 0x80 then Some((b0 as char, 1))
    else if 0xC2 <= b0 < 0xE0 then
      if |b| >= 2 && IsContinuation(b[1]) then
        match Scalar((b0 - 0xC0) * 64 + (b[1] as int - 0x80), 2)
        case Some(c) => Some((c, 2))
        case None => None
      else None
    else if 0xE0 <= b0 < 0xF0 then
      if |b| >= 3 && IsContinuation(b[1]) && IsContinuation(b[2]) then
        match Scalar((b0 - 0xE0) * 4096 + (b[1] as int - 0x80) * 64 + (b[2] as int - 0x80), 3)
        case Some(c) => Some((c, 3))
        case None => None
      else None
    else if 0xF0 <= b0 < 0xF5 then
      if |b| >= 4 && IsContinuation(b[1]) && IsContinuation(b[2]) && IsContinuation(b[3]) then
        match Scalar((b0 - 0xF0) * 262144 + (b[1] as int - 0x80) * 4096 + (b[2] as int - 0x80) * 64 + (b[3] as int - 0x80), 4)
        case Some(c) => Some((c, 4))
        case None => None
      else None
    else None
  }

  /** Decoding a whole byte string; None is the URIError. */
  function Decode(b: seq<Byte>): Option<string>
    decreases |b|
  {
    if b == [] then Some([])
    else match DecodeFirst(b)
      case None => None
      case Some((c, n)) =>
        match Decode(b[n..])
        case None => None
        case Some(rest) => Some([c] + rest)
  }

  /** A lone continuation byte, or a byte that never starts a sequence, is rejected. */
  lemma StrayByteRejected(b: seq<Byte>)
    requires b != [] && (IsContinuation(b[0]) || b[0] == 0xC0 || b[0] == 0xC1 || b[0] >= 0xF5)
    ensures Decode(b) == None
  {
  }

  /** The bytes of one character, followed by anything, decode to that character first. */
  lemma DecodeEncodedChar(c: char, rest: seq<Byte>)
    ensures DecodeFirst(EncodeChar(c) + rest) == Some((c, |EncodeChar(c)|))
  {
    ScalarRange(c);
    var n := c as int;
    var e := EncodeChar(c);
    var b := e + rest;
    if n < 0x80 {
    } else if n < 0x800 {
      assert b[0] == 0xC0 + n / 64 && b[1] == 0x80 + n % 64;
      assert (b[0] as int - 0xC0) * 64 + (b[1] as int - 0x80) == n;
    } else if n < 0x1_0000 {
      assert b[0] == 0xE0 + n / 4096 && b[1] == 0x80 + (n / 64) % 64 && b[2] == 0x80 + n % 64;
      Split3(n);
    } else {
      assert b[0] == 0xF0 + n / 262144 && b[1] == 0x80 + (n / 4096) % 64;
      assert b[2] == 0x80 + (n / 64) % 64 && b[3] == 0x80 + n % 64;
      Split4(n);
    }
  }

  lemma Split3(n: int)
    requires 0 <= n
    ensures (n / 4096) * 4096 + ((n / 64) % 64) * 64 + n % 64 == n
  {
    var q := n / 64;
    assert n == q * 64 + n % 64;
    assert q == (q / 64) * 64 + q % 64;
    assert n / 4096 == q / 64;
  }

  lemma Split4(n: int)
    requires 0 <= n
    ensures (n / 262144) * 262144 + ((n / 4096) % 64) * 4096 + ((n / 64) % 64) * 64 + n % 64 == n
  {
    var q := n / 64;
    var p := q / 64;
    assert n == q * 64 + n % 64;
    assert q == p * 64 + q % 64;
    assert p == (p / 64) * 64 + p % 64;
    assert n / 4096 == p;
    assert n / 262144 == p / 64;
  }

  /** Decoding the UTF-8 form of a string gives the string back. */
  lemma {:induction false} DecodeEncode(s: string)
    ensures Decode(Encode(s)) == Some(s)
  {
    if s != [] {
      var e := EncodeChar(s[0]);
      var rest := Encode(s[1..]);
      DecodeEncodedChar(s[0], rest);
      assert (e + rest)[|e|..] == rest;
      DecodeEncode(s[1..]);
      assert s == [s[0]] + s[1..];
    }
  }
}
