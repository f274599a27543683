/** The runtime encodings `getResizedImage` chains: UTF-8 (`Buffer.from`),
    base64 with padding (section 4 of RFC 4648, `toString('base64')`) and
    percent-encoding (`encodeURIComponent`), each with its decoder. */
module Encoding {
  import opened Wrappers

  type Byte = b: int | 0 <= b < 256

  /** A Unicode scalar value, the range of a `char`. */
  predicate IsScalar(n: int) {
    0 <= n < 0xD800 || 0xE000 <= n < 0x11_0000
  }

  predicate IsCont(b: Byte) {
    0x80 <= b < 0xC0
  }

  /** The UTF-8 bytes of one character. */
  function Utf8Char(c: char): (r: seq<Byte>)
    ensures 1 <= |r| <= 4
    ensures (|r| == 1) <==> (c as int) < 0x80
    ensures |r| == 1 ==> r[0] == c as int
    ensures forall k :: 1 <= k < |r| ==> IsCont(r[k])
  {
    var n := c as int;
    if n < 0x80 then [n]
    else if n < 0x800 then [0xC0 + n / 64, 0x80 + n % 64]
    else if n < 0x1_0000 then [0xE0 + n / 4096, 0x80 + (n / 64) % 64, 0x80 + n % 64]
    else [0xF0 + n / 262144, 0x80 + (n / 4096) % 64, 0x80 + (n / 64) % 64, 0x80 + n % 64]
  }

  /** `Buffer.from(s)`: the UTF-8 bytes of a string. */
  function Utf8(s: string): seq<Byte> {
    if |s| == 0 then [] else Utf8Char(s[0]) + Utf8(s[1..])
  }

  /** The code point of a two-, three- or four-byte sequence, from its lead
      byte's payload and its continuation bytes. */
  function Payload(lead: int, conts: seq<Byte>): int
    decreases |conts|
  {
    if |conts| == 0 then lead else Payload(lead * 64 + (conts[0] as int - 0x80), conts[1..])
  }

  /** The character of a sequence of `width` bytes, if it is the shortest
      encoding of a scalar value. */
  function Decoded(n: int, width: nat): Option<char> {
    if width == 2 && 0x80 <= n < 0x800 then Some(n as char)
    else if width == 3 && 0x800 <= n < 0x1_0000 && IsScalar(n) then Some(n as char)
    else if width == 4 && 0x1_0000 <= n < 0x11_0000 then Some(n as char)
    else None
  }

  /** How many bytes a sequence starting with `b0` takes, 0 for a byte no
      sequence starts with. */
  function Width(b0: Byte): nat {
    if b0 < 0x80 then 1
    else if 0xC0 <= b0 < 0xE0 then 2
    else if 0xE0 <= b0 < 0xF0 then 3
    else if 0xF0 <= b0 < 0xF8 then 4
    else 0
  }

  /** The lead byte's payload bits. */
  function LeadBits(b0: Byte): int {
    if b0 < 0xE0 then b0 - 0xC0 else if b0 < 0xF0 then b0 - 0xE0 else b0 - 0xF0
  }

  /** The character the bytes start with and how many bytes it takes, if the
      bytes start with a well-formed, shortest UTF-8 sequence. */
  function DecodeFirst(bs: seq<Byte>): (r: Option<(char, nat)>)
    requires |bs| >= 1
    ensures r.Some? ==> 1 <= r.value.1 <= |bs|
  {
    var w := Width(bs[0]);
    if w == 1 then Some((bs[0] as char, 1))
    else if w == 0 || |bs| < w || exists k :: 1 <= k < w && !IsCont(bs[k]) then None
    else match Decoded(Payload(LeadBits(bs[0]), bs[1..w]), w)
      case None => None
      case Some(c) => Some((c, w))
  }

  /** The string the bytes encode in UTF-8, if they are well-formed. */
  function Unutf8(bs: seq<Byte>): Option<string>
    decreases |bs|
  {
    if |bs| == 0 then Some("")
    else match DecodeFirst(bs)
      case None => None
      case Some((c, w)) =>
        match Unutf8(bs[w..])
        case None => None
        case Some(rest) => Some([c] + rest)
  }

  lemma Payload2(n: int)
    requires 0 <= n
    ensures Payload(n / 64, [0x80 + n % 64]) == n
  {
    assert [0x80 + n % 64][1..] == [];
  }

  lemma Payload3(n: int)
    requires 0 <= n
    ensures Payload(n / 4096, [0x80 + (n / 64) % 64, 0x80 + n % 64]) == n
  {
    var cs := [0x80 + (n / 64) % 64, 0x80 + n % 64];
    assert cs[1..] == [0x80 + n % 64];
    assert (n / 4096) * 64 + (n / 64) % 64 == n / 64;
    Payload2(n);
  }

  lemma Payload4(n: int)
    requires 0 <= n
    ensures Payload(n / 262144, [0x80 + (n / 4096) % 64, 0x80 + (n / 64) % 64, 0x80 + n % 64]) == n
  {
    var cs := [0x80 + (n / 4096) % 64, 0x80 + (n / 64) % 64, 0x80 + n % 64];
    assert cs[1..] == [0x80 + (n / 64) % 64, 0x80 + n % 64];
    assert (n / 262144) * 64 + (n / 4096) % 64 == n / 4096;
    Payload3(n);
  }

  /** A character's bytes decode to it, whatever follows them. */
  lemma DecodeFirstChar(c: char, rest: seq<Byte>)
    ensures DecodeFirst(Utf8Char(c) + rest) == Some((c, |Utf8Char(c)|))
  {
    var n := c as int;
    var head := Utf8Char(c);
    var bs := head + rest;
    assert bs[..|head|] == head;
    if n < 0x80 {
    } else if n < 0x800 {
      assert bs[1..2] == head[1..];
      Payload2(n);
    } else if n < 0x1_0000 {
      assert bs[1..3] == head[1..];
      Payload3(n);
    } else {
      assert bs[1..4] == head[1..];
      Payload4(n);
    }
  }

  /** Decoding the UTF-8 bytes of a string gives the string back. */
  lemma {:induction false} Utf8RoundTrip(s: string)
    ensures Unutf8(Utf8(s)) == Some(s)
  {
    if |s| > 0 {
      var head := Utf8Char(s[0]);
      var tail := Utf8(s[1..]);
      DecodeFirstChar(s[0], tail);
      assert (head + tail)[|head|..] == tail;
      Utf8RoundTrip(s[1..]);
      assert [s[0]] + s[1..] == s;
    }
  }

  /** The base64 alphabet of section 4 of RFC 4648. */
  function B64Char(i: nat): (c: char)
    requires i < 64
    ensures c != '='
  {
    if i < 26 then (65 + i) as char
    else if i < 52 then (97 + i - 26) as char
    else if i < 62 then (48 + i - 52) as char
    else if i == 62 then '+'
    else '/'
  }

  /** The value of a base64 alphabet character; the padding `=` and every
      other character have none. */
  function B64Index(c: char): (r: Option<nat>)
    ensures r.Some? ==> r.value < 64 && B64Char(r.value) == c
  {
    if 'A' <= c <= 'Z' then Some(c as int - 65)
    else if 'a' <= c <= 'z' then Some(c as int - 97 + 26)
    else if '0' <= c <= '9' then Some(c as int - 48 + 52)
    else if c == '+' then Some(62)
    else if c == '/' then Some(63)
    else None
  }

  lemma B64IndexOf(i: nat)
    requires i < 64
    ensures B64Index(B64Char(i)) == Some(i)
  {
  }

  /** `toString('base64')`: every three bytes become four characters; a last
      group of one or two bytes is zero-filled and padded with `=`. */
  function Base64(bs: seq<Byte>): (s: string)
    decreases |bs|
  {
    if |bs| == 0 then ""
    else if |bs| == 1 then
      var n := bs[0] as int * 16;
      [B64Char(n / 64), B64Char(n % 64), '=', '=']
    else if |bs| == 2 then
      var n := (bs[0] as int * 256 + bs[1] as int) * 4;
      [B64Char(n / 4096), B64Char((n / 64) % 64), B64Char(n % 64), '=']
    else Quad(Triple(bs[0], bs[1], bs[2])) + Base64(bs[3..])
  }

  /** Three bytes as one 24-bit number. */
  function Triple(b0: Byte, b1: Byte, b2: Byte): (n: nat)
    ensures n < 0x100_0000
  {
    b0 * 65536 + b1 * 256 + b2
  }

  /** A 24-bit number as four base64 characters. */
  function Quad(n: nat): (s: string)
    requires n < 0x100_0000
    ensures |s| == 4 && s[2] != '=' && s[3] != '='
  {
    [B64Char(n / 262144), B64Char((n / 4096) % 64), B64Char((n / 64) % 64), B64Char(n % 64)]
  }

  /** Four sextets as one 24-bit number. */
  function Pack(a: nat, b: nat, c: nat, d: nat): nat {
    ((a * 64 + b) * 64 + c) * 64 + d
  }

  /** A 24-bit number as three bytes. */
  function Bytes(n: nat): seq<Byte>
    requires n < 0x100_0000
  {
    [n / 65536, (n / 256) % 256, n % 256]
  }

  /** The bytes a padded base64 string encodes, if it is one: every group of
      four holds alphabet characters, but for `=` padding at the very end
      whose zero-filled bits really are zero. */
  function Unbase64(s: string): Option<seq<Byte>>
    decreases |s|
  {
    if |s| == 0 then Some([])
    else if |s| < 4 then None
    else
      var a, b, c, d := B64Index(s[0]), B64Index(s[1]), B64Index(s[2]), B64Index(s[3]);
      if a.None? || b.None? then None
      else if |s| == 4 && s[2] == '=' && s[3] == '=' then
        var n := a.value * 64 + b.value;
        if n % 16 == 0 then Some([n / 16]) else None
      else if c.None? then None
      else if |s| == 4 && s[3] == '=' then
        var n := (a.value * 64 + b.value) * 64 + c.value;
        if n % 4 == 0 then Some([n / 1024, (n / 4) % 256]) else None
      else if d.None? then None
      else if Pack(a.value, b.value, c.value, d.value) >= 0x100_0000 then None
      else
        match Unbase64(s[4..])
        case None => None
        case Some(rest) => Some(Bytes(Pack(a.value, b.value, c.value, d.value)) + rest)
  }

  lemma Block1(b0: Byte)
    ensures var n := b0 * 16; (n / 64) * 64 + n % 64 == n && n % 16 == 0 && n / 16 == b0
  {
  }

  lemma Block2(b0: Byte, b1: Byte)
    ensures var n := (b0 * 256 + b1) * 4;
      ((n / 4096) * 64 + (n / 64) % 64) * 64 + n % 64 == n && n % 4 == 0 && n / 1024 == b0 && (n / 4) % 256 == b1
  {
    var m := b0 * 256 + b1;
    var n := m * 4;
    assert m / 256 == b0 && m % 256 == b1;
    assert n / 4 == m && n % 4 == 0;
    assert n / 1024 == m / 256;
    assert (n / 4096) * 64 + (n / 64) % 64 == n / 64;
  }

  lemma Base64One(b0: Byte)
    ensures Unbase64(Base64([b0])) == Some([b0])
  {
    var n := b0 as int * 16;
    Block1(b0);
    B64IndexOf(n / 64);
    B64IndexOf(n % 64);
  }

  lemma Base64Two(b0: Byte, b1: Byte)
    ensures Unbase64(Base64([b0, b1])) == Some([b0, b1])
  {
    var n := (b0 as int * 256 + b1 as int) * 4;
    Block2(b0, b1);
    B64IndexOf(n / 4096);
    B64IndexOf((n / 64) % 64);
    B64IndexOf(n % 64);
    var s := Base64([b0, b1]);
    assert s == [B64Char(n / 4096), B64Char((n / 64) % 64), B64Char(n % 64), '='];
    assert s[2] != '=';
  }

  /** The characters of a group read back as its number. */
  lemma QuadIndices(n: nat)
    requires n < 0x100_0000
    ensures var q := Quad(n);
      B64Index(q[0]).Some? && B64Index(q[1]).Some? && B64Index(q[2]).Some? && B64Index(q[3]).Some? &&
      Pack(B64Index(q[0]).value, B64Index(q[1]).value, B64Index(q[2]).value, B64Index(q[3]).value) == n
  {
    B64IndexOf(n / 262144);
    B64IndexOf((n / 4096) % 64);
    B64IndexOf((n / 64) % 64);
    B64IndexOf(n % 64);
    assert (n / 262144) * 64 + (n / 4096) % 64 == n / 4096;
    assert (n / 4096) * 64 + (n / 64) % 64 == n / 64;
  }

  lemma TripleBytes(b0: Byte, b1: Byte, b2: Byte)
    ensures Bytes(Triple(b0, b1, b2)) == [b0, b1, b2]
  {
    var m := b0 * 256 + b1;
    var n := Triple(b0, b1, b2);
    assert n == m * 256 + b2;
    assert n / 256 == m && n % 256 == b2;
    assert m / 256 == b0 && m % 256 == b1;
    assert n / 65536 == m / 256;
  }

  /** A full group reads back as its three bytes in front of what follows. */
  lemma UnbaseQuad(n: nat, tail: string)
    requires n < 0x100_0000
    requires Unbase64(tail).Some?
    ensures Unbase64(Quad(n) + tail) == Some(Bytes(n) + Unbase64(tail).value)
  {
    var s := Quad(n) + tail;
    assert s[..4] == Quad(n) && s[4..] == tail;
    QuadIndices(n);
  }

  /** A full group of three bytes decodes back in front of what follows. */
  lemma Base64Three(bs: seq<Byte>)
    requires |bs| >= 3
    requires Unbase64(Base64(bs[3..])) == Some(bs[3..])
    ensures Unbase64(Base64(bs)) == Some(bs)
  {
    var n := Triple(bs[0], bs[1], bs[2]);
    UnbaseQuad(n, Base64(bs[3..]));
    TripleBytes(bs[0], bs[1], bs[2]);
    assert [bs[0], bs[1], bs[2]] + bs[3..] == bs;
  }

  /** Decoding base64 gives back the bytes encoded. */
  lemma {:induction false} Base64RoundTrip(bs: seq<Byte>)
    ensures Unbase64(Base64(bs)) == Some(bs)
    decreases |bs|
  {
    if |bs| == 1 {
      Base64One(bs[0]);
      assert bs == [bs[0]];
    } else if |bs| == 2 {
      Base64Two(bs[0], bs[1]);
      assert bs == [bs[0], bs[1]];
    } else if |bs| >= 3 {
      Base64RoundTrip(bs[3..]);
      Base64Three(bs);
    }
  }

  /** The characters `encodeURIComponent` leaves as they are. */
  predicate Unreserved(c: char) {
    ('A' <= c <= 'Z') || ('a' <= c <= 'z') || ('0' <= c <= '9') ||
    c == '-' || c == '_' || c == '.' || c == '!' || c == '~' || c == '*' || c == '\'' || c == '(' || c == ')'
  }

  /** An upper-case hexadecimal digit. */
  function HexDigit(d: nat): (c: char)
    requires d < 16
    ensures Unreserved(c)
  {
    if d < 10 then (48 + d) as char else (55 + d) as char
  }

  /** The value of a hexadecimal digit of either case. */
  function HexValue(c: char): (r: Option<nat>)
    ensures r.Some? ==> r.value < 16
  {
    if '0' <= c <= '9' then Some(c as int - 48)
    else if 'A' <= c <= 'F' then Some(c as int - 55)
    else if 'a' <= c <= 'f' then Some(c as int - 87)
    else None
  }

  lemma HexRoundTrip(d: nat)
    requires d < 16
    ensures HexValue(HexDigit(d)) == Some(d)
  {
  }

  /** `%XY` for every byte. */
  function Escapes(bs: seq<Byte>): string {
    if |bs| == 0 then "" else ['%', HexDigit(bs[0] / 16), HexDigit(bs[0] % 16)] + Escapes(bs[1..])
  }

  lemma {:induction false} EscapesAreSafe(bs: seq<Byte>)
    ensures forall k :: 0 <= k < |Escapes(bs)| ==> Escapes(bs)[k] == '%' || Unreserved(Escapes(bs)[k])
  {
    if |bs| > 0 {
      EscapesAreSafe(bs[1..]);
    }
  }

  /** `encodeURIComponent`: an unreserved character is kept, any other is
      replaced by the escapes of its UTF-8 bytes. */
  function EncodeURIComponent(s: string): string {
    if |s| == 0 then ""
    else (if Unreserved(s[0]) then [s[0]] else Escapes(Utf8Char(s[0]))) + EncodeURIComponent(s[1..])
  }

  /** The bytes a percent-encoded string stands for: `%XY` is one byte, any
      other character its UTF-8 bytes. */
  function Unescape(s: string): Option<seq<Byte>>
    decreases |s|
  {
    if |s| == 0 then Some([])
    else if s[0] == '%' then
      if |s| < 3 || HexValue(s[1]).None? || HexValue(s[2]).None? then None
      else match Unescape(s[3..])
        case None => None
        case Some(rest) => Some([HexValue(s[1]).value * 16 + HexValue(s[2]).value] + rest)
    else match Unescape(s[1..])
      case None => None
      case Some(rest) => Some(Utf8Char(s[0]) + rest)
  }

  /** `decodeURIComponent` */
  function DecodeURIComponent(s: string): Option<string> {
    match Unescape(s)
    case None => None
    case Some(bs) => Unutf8(bs)
  }

  /** One escape reads back as its byte in front of what follows. */
  lemma UnescapeOne(b: Byte, tail: string)
    requires Unescape(tail).Some?
    ensures Unescape(['%', HexDigit(b / 16), HexDigit(b % 16)] + tail) == Some([b] + Unescape(tail).value)
  {
    var t := ['%', HexDigit(b / 16), HexDigit(b % 16)] + tail;
    assert t[3..] == tail;
    HexRoundTrip(b / 16);
    HexRoundTrip(b % 16);
  }

  lemma {:induction false} UnescapeEscapes(bs: seq<Byte>, rest: string)
    requires Unescape(rest).Some?
    ensures Unescape(Escapes(bs) + rest) == Some(bs + Unescape(rest).value)
  {
    if |bs| > 0 {
      var e := ['%', HexDigit(bs[0] / 16), HexDigit(bs[0] % 16)];
      var tail := Escapes(bs[1..]) + rest;
      assert Escapes(bs) + rest == e + tail;
      UnescapeEscapes(bs[1..], rest);
      UnescapeOne(bs[0], tail);
      assert [bs[0]] + (bs[1..] + Unescape(rest).value) == bs + Unescape(rest).value;
    } else {
      assert Escapes(bs) + rest == rest;
      assert bs + Unescape(rest).value == Unescape(rest).value;
    }
  }

  /** What `encodeURIComponent` produces stands for the UTF-8 bytes of its input. */
  lemma {:induction false} UnescapeEncoded(s: string)
    ensures Unescape(EncodeURIComponent(s)) == Some(Utf8(s))
  {
    if |s| > 0 {
      UnescapeEncoded(s[1..]);
      var tail := EncodeURIComponent(s[1..]);
      if Unreserved(s[0]) {
        assert ([s[0]] + tail)[1..] == tail;
      } else {
        UnescapeEscapes(Utf8Char(s[0]), tail);
      }
    }
  }

  /** `decodeURIComponent(encodeURIComponent(s)) == s` */
  lemma URIRoundTrip(s: string)
    ensures DecodeURIComponent(EncodeURIComponent(s)) == Some(s)
  {
    UnescapeEncoded(s);
    Utf8RoundTrip(s);
  }

  /** `encodeURIComponent` leaves only unreserved characters and `%`: no
      `&`, `=`, `+` or `/`. */
  lemma {:induction false} EncodedIsSafe(s: string)
    ensures forall k :: 0 <= k < |EncodeURIComponent(s)| ==>
              EncodeURIComponent(s)[k] == '%' || Unreserved(EncodeURIComponent(s)[k])
  {
    if |s| > 0 {
      EncodedIsSafe(s[1..]);
      EscapesAreSafe(Utf8Char(s[0]));
    }
  }
}
