/** The share-token codec: `b64urlEncode` / `b64urlDecode`. Encoding takes the UTF-8 form
    of the string, applies `btoa` (standard base64, section 4 of RFC 4648, with '=' padding),
    swaps '+' and '/' for '-' and '_' and strips the trailing '=' (the URL-safe alphabet of
    section 5 without the padding of section 3.2). Decoding undoes the swap, pads with '='
    to a multiple of four, and applies `atob` and UTF-8 decoding, either of which can fail. */
module Base64Url {
  import opened Wrappers
  import opened Utf8

  /** The standard base64 alphabet "A-Z a-z 0-9 + /". */
  function SextetChar(v: int): (c: char)
    requires 0 <= v < 64
  {
    if v < 26 then ('A' as int + v) as char
    else if v < 52 then ('a' as int + (v - 26)) as char
    else if v < 62 then ('0' as int + (v - 52)) as char
    else if v == 62 then '+'
    else '/'
  }

  predicate InAlphabet(c: char) {
    ('A' <= c <= 'Z') || ('a' <= c <= 'z') || ('0' <= c <= '9') || c == '+' || c == '/'
  }

  function CharSextet(c: char): (v: int)
    requires InAlphabet(c)
    ensures 0 <= v < 64 && SextetChar(v) == c
  {
    if 'A' <= c <= 'Z' then c as int - 'A' as int
    else if 'a' <= c <= 'z' then c as int - 'a' as int + 26
    else if '0' <= c <= '9' then c as int - '0' as int + 52
    else if c == '+' then 62
    else 63
  }

  lemma SextetRoundTrip(v: int)
    requires 0 <= v < 64
    ensures InAlphabet(SextetChar(v)) && CharSextet(SextetChar(v)) == v
  {
  }

  /** The four characters of a 24-bit group, most significant sextet first. */
  function Quad(n: int): (r: string)
    requires 0 <= n < 0x100_0000
    ensures |r| == 4 && forall k :: 0 <= k < 4 ==> InAlphabet(r[k])
  {
    [SextetChar(n / 262144), SextetChar((n / 4096) % 64), SextetChar((n / 64) % 64), SextetChar(n % 64)]
  }

  /** The unpadded base64 text of a byte string: four characters per three bytes, two for a
      final single byte and three for a final pair. */
  function Body(b: seq<Byte>): (r: string)
    ensures |r| == BodyLength(|b|)
    ensures forall k :: 0 <= k < |r| ==> InAlphabet(r[k])
  {
    if |b| >= 3 then
      var q, t := Quad(Group3(b[0], b[1], b[2])), Body(b[3..]);
      AlphabetConcat(q, t);
      q + t
    else if |b| == 2 then Tail2(b[0], b[1])
    else if |b| == 1 then Tail1(b[0])
    else []
  }

  /** The three characters of a final pair of bytes: their 16 bits and two zero bits. */
  function Tail2(x: Byte, y: Byte): (r: string)
    ensures |r| == 3 && forall k :: 0 <= k < 3 ==> InAlphabet(r[k])
  {
    var n := x as int * 256 + y as int;
    [SextetChar(n / 1024), SextetChar((n / 16) % 64), SextetChar((n % 16) * 4)]
  }

  /** The two characters of a final single byte: its 8 bits and four zero bits. */
  function Tail1(x: Byte): (r: string)
    ensures |r| == 2 && forall k :: 0 <= k < 2 ==> InAlphabet(r[k])
  {
    [SextetChar(x / 4), SextetChar((x % 4) * 16)]
  }

  /** Two pieces of alphabet text make alphabet text. */
  lemma AlphabetConcat(q: string, t: string)
    requires forall k :: 0 <= k < |q| ==> InAlphabet(q[k])
    requires forall k :: 0 <= k < |t| ==> InAlphabet(t[k])
    ensures forall k :: 0 <= k < |q + t| ==> InAlphabet((q + t)[k])
  {
    forall k | 0 <= k < |q + t| ensures InAlphabet((q + t)[k]) {
      if k < |q| { assert (q + t)[k] == q[k]; } else { assert (q + t)[k] == t[k - |q|]; }
    }
  }

  /** The length of the base64 text of `n` bytes, without padding. */
  function BodyLength(n: nat): (len: nat)
    ensures len % 4 == (if n % 3 == 0 then 0 else n % 3 + 1)
  {
    if n >= 3 then 4 + BodyLength(n - 3) else if n == 0 then 0 else n + 1
  }

  /** Three bytes as one 24-bit number. */
  function Group3(x: Byte, y: Byte, z: Byte): (n: int)
    ensures 0 <= n < 0x100_0000
  {
    x as int * 65536 + y as int * 256 + z as int
  }

  function Padding(k: nat): (r: string)
    ensures |r| == k && forall i :: 0 <= i < k ==> r[i] == '='
  {
    if k == 0 then [] else "=" + Padding(k - 1)
  }

  /** `btoa` on a byte string. */
  function Btoa(b: seq<Byte>): string {
    Body(b) + Padding(if |b| % 3 == 0 then 0 else 3 - |b| % 3)
  }

  /** `s.replace(/x/g, y)` for single characters. */
  function ReplaceAll(s: string, x: char, y: char): (r: string)
    ensures |r| == |s|
    ensures forall k :: 0 <= k < |s| ==> r[k] == (if s[k] == x then y else s[k])
  {
    if s == [] then [] else [if s[0] == x then y else s[0]] + ReplaceAll(s[1..], x, y)
  }

  /** `s.replace(/=+$/, '')`. */
  function StripTrailingPad(s: string): (r: string)
    ensures |r| <= |s| && r == s[..|r|]
    ensures forall k :: |r| <= k < |s| ==> s[k] == '='
    ensures r == [] || r[|r| - 1] != '='
  {
    if s != [] && s[|s| - 1] == '=' then StripTrailingPad(s[..|s| - 1]) else s
  }

  /** `b64urlEncode(str)`. */
  function Encode(str: string): (r: string)
    ensures forall k :: 0 <= k < |r| ==> r[k] != '+' && r[k] != '/' && r[k] != '='
    ensures forall k :: 0 <= k < |r| ==> IsUrlSafe(r[k])
  {
    var b := Utf8.Encode(str);
    EncodeIsUrlBody(b);
    StripTrailingPad(ToUrl(Btoa(b)))
  }

  /** The characters a token is made of, none of which `encodeURIComponent` changes. */
  predicate IsUrlSafe(c: char) {
    ('A' <= c <= 'Z') || ('a' <= c <= 'z') || ('0' <= c <= '9') || c == '-' || c == '_'
  }

  /** The URL-safe spelling of a base64 body. */
  function ToUrl(s: string): string {
    ReplaceAll(ReplaceAll(s, '+', '-'), '/', '_')
  }

  function FromUrl(s: string): string {
    ReplaceAll(ReplaceAll(s, '-', '+'), '_', '/')
  }

  /** Swapping the alphabet of `btoa`'s output and stripping its padding leaves the URL-safe
      spelling of the body. */
  lemma EncodeIsUrlBody(b: seq<Byte>)
    ensures StripTrailingPad(ToUrl(Btoa(b))) == ToUrl(Body(b))
    ensures forall k :: 0 <= k < |ToUrl(Body(b))| ==> IsUrlSafe(ToUrl(Body(b))[k])
  {
    var body := Body(b);
    var pad := Padding(if |b| % 3 == 0 then 0 else 3 - |b| % 3);
    ToUrlOfPadded(body, pad);
    StripPadOnBody(ToUrl(body), pad);
  }

  /** The alphabet swap leaves '=' alone and turns every alphabet character into a URL-safe one. */
  lemma ToUrlOfPadded(body: string, pad: string)
    requires forall k :: 0 <= k < |body| ==> InAlphabet(body[k])
    requires forall k :: 0 <= k < |pad| ==> pad[k] == '='
    ensures ToUrl(body + pad) == ToUrl(body) + pad
    ensures forall k :: 0 <= k < |ToUrl(body)| ==> IsUrlSafe(ToUrl(body)[k])
    ensures ToUrl(body) == [] || ToUrl(body)[|body| - 1] != '='
  {
    assert ToUrl(body + pad) == ToUrl(body) + pad;
  }

  lemma {:induction false} StripPadOnBody(t: string, pad: string)
    requires t == [] || t[|t| - 1] != '='
    requires forall i :: 0 <= i < |pad| ==> pad[i] == '='
    ensures StripTrailingPad(t + pad) == t
    decreases |pad|
  {
    if pad == [] {
      assert t + pad == t;
    } else {
      var s := t + pad;
      assert s[..|s| - 1] == t + pad[..|pad| - 1];
      StripPadOnBody(t, pad[..|pad| - 1]);
    }
  }

  /** The padding loop of `b64urlDecode`: '=' is appended until the length is a multiple of 4. */
  function PadTo4(s: string): (r: string)
    ensures |r| % 4 == 0
  {
    PadCount(|s|);
    s + Padding((4 - |s| % 4) % 4)
  }

  /** The number of '=' the padding loop appends brings the length to a multiple of 4. */
  lemma PadCount(n: nat)
    ensures (n + (4 - n % 4) % 4) % 4 == 0
  {
    var q, r := n / 4, n % 4;
    assert n == 4 * q + r;
    if r == 0 {
      assert n + (4 - r) % 4 == 4 * q;
    } else {
      assert n + (4 - r) % 4 == 4 * (q + 1);
    }
  }

  predicate IsAsciiWhitespace(c: char) {
    c == '\t' || c == '\n' || c == '\U{000C}' || c == '\r' || c == ' '
  }

  function RemoveWhitespace(s: string): (r: string)
    ensures forall k :: 0 <= k < |r| ==> !IsAsciiWhitespace(r[k]) && r[k] in s
  {
    if s == [] then []
    else if IsAsciiWhitespace(s[0]) then RemoveWhitespace(s[1..])
    else [s[0]] + RemoveWhitespace(s[1..])
  }

  /** Decoding the characters of a body back into bytes; the bits left over in a final group
      of two or three characters are dropped. */
  function DecodeBody(s: string): seq<Byte>
    requires forall k :: 0 <= k < |s| ==> InAlphabet(s[k])
    requires |s| % 4 != 1
  {
    if |s| >= 4 then Ungroup(QuadValue(s[0], s[1], s[2], s[3])) + DecodeBody(s[4..])
    else if |s| == 3 then
      var n := (CharSextet(s[0]) * 4096 + CharSextet(s[1]) * 64 + CharSextet(s[2])) / 4;
      [n / 256, n % 256]
    else if |s| == 2 then
      [(CharSextet(s[0]) * 64 + CharSextet(s[1])) / 16]
    else []
  }

  /** The 24-bit number that four characters spell. */
  function QuadValue(c0: char, c1: char, c2: char, c3: char): (n: int)
    requires InAlphabet(c0) && InAlphabet(c1) && InAlphabet(c2) && InAlphabet(c3)
    ensures 0 <= n < 0x100_0000
  {
    CharSextet(c0) * 262144 + CharSextet(c1) * 4096 + CharSextet(c2) * 64 + CharSextet(c3)
  }

  /** The three bytes of a 24-bit number, most significant first. */
  function Ungroup(n: int): (r: seq<Byte>)
    requires 0 <= n < 0x100_0000
    ensures |r| == 3
  {
    [n / 65536, (n / 256) % 256, n % 256]
  }

  lemma QuadRoundTrip(n: int)
    requires 0 <= n < 0x100_0000
    ensures QuadValue(Quad(n)[0], Quad(n)[1], Quad(n)[2], Quad(n)[3]) == n
  {
    var q := Quad(n);
    SextetRoundTrip(n / 262144); SextetRoundTrip((n / 4096) % 64);
    SextetRoundTrip((n / 64) % 64); SextetRoundTrip(n % 64);
    Utf8.Split4(n);
  }

  lemma UngroupGroup(x: Byte, y: Byte, z: Byte)
    ensures Ungroup(Group3(x, y, z)) == [x, y, z]
  {
    var n := Group3(x, y, z);
    assert n == (x * 256 + y) * 256 + z;
    assert n / 256 == x * 256 + y;
    assert n / 65536 == (n / 256) / 256;
  }

  /** `atob`, the forgiving base64 decoder: ASCII white space is ignored, one or two final
      '=' are dropped when the length is a multiple of four, and the input is rejected when
      what remains has a length of the form 4k+1 or a character outside the alphabet. */
  function Atob(s: string): (r: Option<seq<Byte>>)
  {
    var s2 := StripFinalPad(RemoveWhitespace(s));
    if |s2| % 4 == 1 then None
    else if exists k :: 0 <= k < |s2| && !InAlphabet(s2[k]) then None
    else Some(DecodeBody(s2))
  }

  /** The step of `atob` that drops one or two final '=' from an input whose length is a
      multiple of four. */
  function StripFinalPad(s: string): (r: string)
    ensures |s| % 4 != 0 ==> r == s
  {
    if |s| % 4 == 0 && |s| >= 2 && s[|s| - 1] == '=' && s[|s| - 2] == '=' then s[..|s| - 2]
    else if |s| % 4 == 0 && |s| >= 1 && s[|s| - 1] == '=' then s[..|s| - 1]
    else s
  }

  /** What `b64urlDecode(str)` returns; None is a thrown exception. */
  function DecodeSpec(str: string): Option<string> {
    match Atob(PadTo4(FromUrl(str)))
    case None => None
    case Some(raw) => Utf8.Decode(raw)
  }

  /** `b64urlDecode`, with the padding loop of the source. */
  method Decode(str: string) returns (r: Option<string>)
    ensures r == DecodeSpec(str)
  {
    var s := FromUrl(str);
    ghost var base := s;
    while |s| % 4 != 0
      invariant s + Padding((4 - |s| % 4) % 4) == PadTo4(base)
      decreases (4 - |s| % 4) % 4
    {
      ghost var p := (4 - |s| % 4) % 4;
      assert Padding(p) == "=" + Padding(p - 1);
      s := s + "=";
      assert (4 - |s| % 4) % 4 == p - 1;
    }
    assert s + Padding(0) == s;
    assert s == PadTo4(FromUrl(str));
    var raw := Atob(s);
    match raw {
      case None => r := None;
      case Some(bytes) => r := Utf8.Decode(bytes);
    }
  }

  /** Each group of the body decodes to the bytes it was made from. */
  lemma {:induction false} DecodeBodyOfBody(b: seq<Byte>)
    ensures DecodeBody(Body(b)) == b
    decreases |b|
  {
    var s := Body(b);
    if |b| >= 3 {
      var n := Group3(b[0], b[1], b[2]);
      var q := Quad(n);
      assert Body(b) == q + Body(b[3..]);
      DecodeBodyAfterQuad(q, Body(b[3..]));
      QuadRoundTrip(n);
      UngroupGroup(b[0], b[1], b[2]);
      DecodeBodyOfBody(b[3..]);
      assert b == [b[0], b[1], b[2]] + b[3..];
    } else if |b| == 2 {
      assert s == Tail2(b[0], b[1]);
      DecodeBodyOfPair(b[0], b[1]);
      assert b == [b[0], b[1]];
    } else if |b| == 1 {
      assert s == Tail1(b[0]);
      DecodeBodyOfSingle(b[0]);
      assert b == [b[0]];
    }
  }

  lemma DecodeBodyOfSingle(x: Byte)
    ensures DecodeBody(Tail1(x)) == [x]
  {
    SextetRoundTrip(x / 4); SextetRoundTrip((x % 4) * 16);
  }

  /** Decoding goes one group of four characters at a time. */
  lemma DecodeBodyAfterQuad(q: string, t: string)
    requires |q| == 4 && forall k :: 0 <= k < 4 ==> InAlphabet(q[k])
    requires |t| % 4 != 1 && forall k :: 0 <= k < |t| ==> InAlphabet(t[k])
    ensures forall k :: 0 <= k < |q + t| ==> InAlphabet((q + t)[k])
    ensures DecodeBody(q + t) == Ungroup(QuadValue(q[0], q[1], q[2], q[3])) + DecodeBody(t)
  {
    var s := q + t;
    assert s[4..] == t;
    assert s[0] == q[0] && s[1] == q[1] && s[2] == q[2] && s[3] == q[3];
  }

  lemma DecodeBodyOfPair(x: Byte, y: Byte)
    ensures DecodeBody(Tail2(x, y)) == [x, y]
  {
    var n := x as int * 256 + y as int;
    SextetRoundTrip(n / 1024); SextetRoundTrip((n / 16) % 64); SextetRoundTrip((n % 16) * 4);
    var q := n / 16;
    assert n == q * 16 + n % 16;
    assert q == (q / 64) * 64 + q % 64;
    assert n / 1024 == q / 64;
    assert (n / 1024) * 4096 + ((n / 16) % 64) * 64 + (n % 16) * 4 == 4 * n;
  }

  lemma FromUrlToUrl(s: string)
    requires forall k :: 0 <= k < |s| ==> InAlphabet(s[k])
    ensures FromUrl(ToUrl(s)) == s
  {
  }

  /** Reading a token back gives the bytes of `btoa(...)` again. */
  lemma AtobOfPaddedBody(b: seq<Byte>)
    ensures Atob(PadTo4(Body(b))) == Some(b)
  {
    var body := Body(b);
    var s := PadTo4(body);
    NoWhitespace(s);
    StripOfPadTo4(body);
    DecodeBodyOfBody(b);
  }

  /** The padding that `PadTo4` adds to a body is what `atob` drops again. */
  lemma StripOfPadTo4(body: string)
    requires |body| % 4 != 1
    requires body == [] || body[|body| - 1] != '='
    ensures StripFinalPad(PadTo4(body)) == body
  {
    var p := (4 - |body| % 4) % 4;
    var s := PadTo4(body);
    assert s[..|body|] == body;
    if p == 0 {
      assert s == body;
    } else if p == 1 {
      assert s[|s| - 2] == body[|body| - 1];
    } else {
      assert p == 2;
    }
  }

  lemma NoWhitespace(s: string)
    requires forall k :: 0 <= k < |s| ==> !IsAsciiWhitespace(s[k])
    ensures RemoveWhitespace(s) == s
  {
  }

  /** `b64urlDecode(b64urlEncode(s))` is `s`. */
  lemma DecodeEncode(s: string)
    ensures DecodeSpec(Encode(s)) == Some(s)
  {
    var b := Utf8.Encode(s);
    EncodeIsUrlBody(b);
    FromUrlToUrl(Body(b));
    AtobOfPaddedBody(b);
    Utf8.DecodeEncode(s);
  }

  /** The token of a non-empty string is not empty. */
  lemma EncodeNonEmpty(s: string)
    requires s != []
    ensures Encode(s) != []
  {
    var b := Utf8.Encode(s);
    EncodeIsUrlBody(b);
    assert |ToUrl(Body(b))| == |Body(b)| == BodyLength(|b|);
  }
}
