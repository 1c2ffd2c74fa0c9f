/**
 * `encodeURIComponent` as defined in ECMA-262 6th edition (ES2015),
 * section 18.2.6.5: every character outside the unescaped set is converted
 * to its UTF-8 octets and each octet is written as `%HH` with two uppercase
 * hexadecimal digits (section 2.1 of RFC 3986). The unescaped set is the
 * ASCII letters, the decimal digits and the marks `- _ . ! ~ * ' ( )`.
 *
 * Characters are Unicode scalar values, so the `URIError` thrown for a lone
 * surrogate cannot arise. The decoder below is a reference partner used to
 * state the round trip; the client itself never decodes.
 */
module Uri {
  import opened Common

  type Byte = b: int | 0 <= b < 256
  type Nibble = n: int | 0 <= n < 16

  /** The characters `encodeURIComponent` leaves as they are. */
  predicate Unreserved(c: char)
  {
    || ('A' <= c <= 'Z')
    || ('a' <= c <= 'z')
    || ('0' <= c <= '9')
    || c == '-' || c == '_' || c == '.' || c == '!'
    || c == '~' || c == '*' || c == '\'' || c == '(' || c == ')'
  }

  /** Uppercase hexadecimal digit of a nibble. */
  function HexDigit(n: Nibble): (h: char)
    ensures '0' <= h <= '9' || 'A' <= h <= 'F'
  {
    if n < 10 then ('0' as int + n) as char else ('A' as int + n - 10) as char
  }

  /** Value of a hexadecimal digit (either case), if `h` is one. */
  function HexValue(h: char): Option<Nibble>
  {
    if '0' <= h <= '9' then Some(h as int - '0' as int)
    else if 'A' <= h <= 'F' then Some(h as int - 'A' as int + 10)
    else if 'a' <= h <= 'f' then Some(h as int - 'a' as int + 10)
    else None
  }

  lemma HexRoundTrip(n: Nibble)
    ensures HexValue(HexDigit(n)) == Some(n)
  {
  }

  /** `%HH` for one octet. */
  function PercentTriple(b: Byte): string
  {
    ['%', HexDigit(b / 16), HexDigit(b % 16)]
  }

  function PercentBytes(bs: seq<Byte>): (s: string)
    ensures |s| == 3 * |bs|
  {
    if bs == [] then [] else PercentTriple(bs[0]) + PercentBytes(bs[1..])
  }

  /** The UTF-8 octets of one Unicode scalar value. */
  function Utf8Char(c: char): (bs: seq<Byte>)
    ensures 1 <= |bs| <= 4
    ensures |bs| == 1 <==> c as int < 0x80
  {
    var n := c as int;
    if n < 0x80 then [n]
    else if n < 0x800 then [0xC0 + n / 64, 0x80 + n % 64]
    else if n < 0x10000 then [0xE0 + n / 4096, 0x80 + (n / 64) % 64, 0x80 + n % 64]
    else [0xF0 + n / 262144, 0x80 + (n / 4096) % 64, 0x80 + (n / 64) % 64, 0x80 + n % 64]
  }

  function Utf8Encode(s: string): seq<Byte>
  {
    if s == [] then [] else Utf8Char(s[0]) + Utf8Encode(s[1..])
  }

  /** What `encodeURIComponent` writes for one character. */
  function EncodeChar(c: char): (e: string)
    ensures Unreserved(c) ==> e == [c]
    ensures !Unreserved(c) ==> |e| == 3 * |Utf8Char(c)| && e[0] == '%'
  {
    if Unreserved(c) then [c] else PercentBytes(Utf8Char(c))
  }

  /** `encodeURIComponent(s)`. */
  function EncodeUriComponent(s: string): string
  {
    if s == [] then [] else EncodeChar(s[0]) + EncodeUriComponent(s[1..])
  }

  // ---------------------------------------------------------------------
  // Shape of the output

  /** A string made only of unreserved characters and `%HH` triples with uppercase hex digits. */
  predicate IsEncoded(s: string)
    decreases |s|
  {
    if s == [] then true
    else if Unreserved(s[0]) then IsEncoded(s[1..])
    else
      && |s| >= 3 && s[0] == '%'
      && ('0' <= s[1] <= '9' || 'A' <= s[1] <= 'F')
      && ('0' <= s[2] <= '9' || 'A' <= s[2] <= 'F')
      && IsEncoded(s[3..])
  }

  lemma PercentBytesCons(bs: seq<Byte>, tail: string)
    requires bs != []
    ensures PercentBytes(bs) + tail == PercentTriple(bs[0]) + (PercentBytes(bs[1..]) + tail)
  {
    var triple, more := PercentTriple(bs[0]), PercentBytes(bs[1..]);
    assert (triple + more) + tail == triple + (more + tail);
  }

  lemma TripleEncoded(b: Byte, tail: string)
    requires IsEncoded(tail)
    ensures IsEncoded(PercentTriple(b) + tail)
  {
    var s := PercentTriple(b) + tail;
    assert s[0] == '%' && !Unreserved(s[0]);
    assert s[3..] == tail;
  }

  lemma {:induction false} PercentBytesEncoded(bs: seq<Byte>, tail: string)
    requires IsEncoded(tail)
    ensures IsEncoded(PercentBytes(bs) + tail)
  {
    if bs != [] {
      PercentBytesEncoded(bs[1..], tail);
      TripleEncoded(bs[0], PercentBytes(bs[1..]) + tail);
      PercentBytesCons(bs, tail);
    } else {
      assert PercentBytes(bs) + tail == tail;
    }
  }

  /** Every output of `encodeURIComponent` has the encoded shape. */
  lemma {:induction false} EncodeUriComponentIsEncoded(s: string)
    ensures IsEncoded(EncodeUriComponent(s))
  {
    if s != [] {
      EncodeUriComponentIsEncoded(s[1..]);
      var tail := EncodeUriComponent(s[1..]);
      if Unreserved(s[0]) {
        assert ([s[0]] + tail)[1..] == tail;
      } else {
        PercentBytesEncoded(Utf8Char(s[0]), tail);
      }
    }
  }

  /** Encoded strings contain neither `/` nor a space. */
  lemma {:induction false} EncodedHasNoSlashOrSpace(s: string)
    requires IsEncoded(s)
    ensures '/' !in s && ' ' !in s
    decreases |s|
  {
    if s != [] {
      if Unreserved(s[0]) {
        EncodedHasNoSlashOrSpace(s[1..]);
        assert s == [s[0]] + s[1..];
      } else {
        EncodedHasNoSlashOrSpace(s[3..]);
        assert s == s[..3] + s[3..];
      }
    }
  }

  /** The encoding of one character holds neither `/` nor a space. */
  lemma EncodeCharClean(c: char)
    ensures '/' !in EncodeChar(c) && ' ' !in EncodeChar(c)
  {
    if !Unreserved(c) {
      var e := PercentBytes(Utf8Char(c));
      PercentBytesEncoded(Utf8Char(c), "");
      assert e + "" == e;
      EncodedHasNoSlashOrSpace(e);
    }
  }

  // ---------------------------------------------------------------------
  // Algebraic facts

  /** Encoding works character by character. */
  lemma {:induction false} EncodeUriComponentAppend(a: string, b: string)
    ensures EncodeUriComponent(a + b) == EncodeUriComponent(a) + EncodeUriComponent(b)
  {
    if a == [] {
      assert a + b == b;
    } else {
      assert (a + b)[1..] == a[1..] + b;
      EncodeUriComponentAppend(a[1..], b);
    }
  }

  /** Encoding never shortens a string, and lengthens it as soon as one character needs escaping. */
  lemma {:induction false} EncodeUriComponentLength(s: string)
    ensures |EncodeUriComponent(s)| >= |s|
    ensures |EncodeUriComponent(s)| == |s| <==> forall k :: 0 <= k < |s| ==> Unreserved(s[k])
  {
    if s != [] {
      EncodeUriComponentLength(s[1..]);
      if forall k :: 0 <= k < |s| ==> Unreserved(s[k]) {
        assert forall k :: 0 <= k < |s[1..]| ==> Unreserved(s[1..][k]) by {
          forall k | 0 <= k < |s[1..]| ensures Unreserved(s[1..][k]) {
            assert s[1..][k] == s[k + 1];
          }
        }
      } else {
        var j :| 0 <= j < |s| && !Unreserved(s[j]);
        if j > 0 {
          assert s[1..][j - 1] == s[j];
        }
      }
    }
  }

  /** A string is left unchanged exactly when all its characters are unreserved. */
  lemma EncodeUriComponentIdentity(s: string)
    ensures EncodeUriComponent(s) == s <==> forall k :: 0 <= k < |s| ==> Unreserved(s[k])
  {
    EncodeUriComponentLength(s);
    if forall k :: 0 <= k < |s| ==> Unreserved(s[k]) {
      UnreservedIdentity(s);
    }
  }

  lemma {:induction false} UnreservedIdentity(s: string)
    requires forall k :: 0 <= k < |s| ==> Unreserved(s[k])
    ensures EncodeUriComponent(s) == s
  {
    if s != [] {
      assert forall k :: 0 <= k < |s[1..]| ==> Unreserved(s[1..][k]) by {
        forall k | 0 <= k < |s[1..]| ensures Unreserved(s[1..][k]) {
          assert s[1..][k] == s[k + 1];
        }
      }
      UnreservedIdentity(s[1..]);
      assert s == [s[0]] + s[1..];
    }
  }

  /** A space becomes `%20`. */
  /** Parentheses are unreserved, so they are written as they are. */
  lemma ParenthesesKept()
    ensures EncodeUriComponent("(") == "(" && EncodeUriComponent(")") == ")"
  {
    UnreservedIdentity("(");
    UnreservedIdentity(")");
  }

  lemma SpaceEncoding()
    ensures EncodeUriComponent(" ") == "%20"
  {
    assert Utf8Char(' ') == [0x20];
    assert PercentBytes([0x20]) == PercentTriple(0x20) + PercentBytes([]);
  }

  // ---------------------------------------------------------------------
  // Reference decoder

  /** Percent-decodes to octets; a literal character stands for its UTF-8 octets. */
  function PercentDecode(s: string): Option<seq<Byte>>
    decreases |s|
  {
    if s == [] then Some([])
    else if s[0] == '%' then
      if |s| < 3 then None
      else
        match (HexValue(s[1]), HexValue(s[2]), PercentDecode(s[3..]))
        case (Some(hi), Some(lo), Some(rest)) => Some([hi as int * 16 + lo as int] + rest)
        case _ => None
    else
      match PercentDecode(s[1..])
      case Some(rest) => Some(Utf8Char(s[0]) + rest)
      case None => None
  }

  predicate IsContinuation(b: Byte)
  {
    0x80 <= b < 0xC0
  }

  /** The first scalar value of a UTF-8 octet sequence and its length in octets; rejects overlong forms, surrogates and values past U+10FFFF. */
  function Utf8DecodeFirst(bs: seq<Byte>): (r: Option<(char, nat)>)
    requires bs != []
    ensures r.Some? ==> 1 <= r.value.1 <= |bs|
  {
    var b0: int := bs[0];
    if b0 < 0x80 then Some((b0 as char, 1))
    else if 0xC2 <= b0 < 0xE0 && |bs| >= 2 && IsContinuation(bs[1]) then
      var n := (b0 - 0xC0) * 64 + (bs[1] as int - 0x80);
      Some((n as char, 2))
    else if 0xE0 <= b0 < 0xF0 && |bs| >= 3 && IsContinuation(bs[1]) && IsContinuation(bs[2]) then
      var n := (b0 - 0xE0) * 4096 + (bs[1] as int - 0x80) * 64 + (bs[2] as int - 0x80);
      if 0x800 <= n < 0xD800 || 0xE000 <= n then Some((n as char, 3)) else None
    else if 0xF0 <= b0 < 0xF5 && |bs| >= 4 && IsContinuation(bs[1]) && IsContinuation(bs[2]) && IsContinuation(bs[3]) then
      var n := (b0 - 0xF0) * 262144 + (bs[1] as int - 0x80) * 4096 + (bs[2] as int - 0x80) * 64 + (bs[3] as int - 0x80);
      if 0x10000 <= n < 0x110000 then Some((n as char, 4)) else None
    else None
  }

  function Utf8Decode(bs: seq<Byte>): Option<string>
    decreases |bs|
  {
    if bs == [] then Some([])
    else
      match Utf8DecodeFirst(bs)
      case None => None
      case Some((c, len)) =>
        match Utf8Decode(bs[len..])
        case None => None
        case Some(rest) => Some([c] + rest)
  }

  /** `decodeURIComponent`, as the reference inverse. */
  function DecodeUriComponent(s: string): Option<string>
  {
    match PercentDecode(s)
    case None => None
    case Some(bs) => Utf8Decode(bs)
  }

  // ---------------------------------------------------------------------
  // Round trip

  lemma TripleDecodes(b: Byte, tail: string, rest: seq<Byte>)
    requires PercentDecode(tail) == Some(rest)
    ensures PercentDecode(PercentTriple(b) + tail) == Some([b] + rest)
  {
    var s := PercentTriple(b) + tail;
    assert s[0] == '%' && s[1] == HexDigit(b / 16) && s[2] == HexDigit(b % 16);
    assert s[3..] == tail;
    HexRoundTrip(b / 16);
    HexRoundTrip(b % 16);
  }

  lemma BytesCons(bs: seq<Byte>, rest: seq<Byte>)
    requires bs != []
    ensures bs + rest == [bs[0]] + (bs[1..] + rest)
  {
    assert bs == [bs[0]] + bs[1..];
  }

  lemma {:induction false} PercentDecodeBytes(bs: seq<Byte>, tail: string, rest: seq<Byte>)
    requires PercentDecode(tail) == Some(rest)
    ensures PercentDecode(PercentBytes(bs) + tail) == Some(bs + rest)
  {
    if bs != [] {
      PercentDecodeBytes(bs[1..], tail, rest);
      TripleDecodes(bs[0], PercentBytes(bs[1..]) + tail, bs[1..] + rest);
      PercentBytesCons(bs, tail);
      BytesCons(bs, rest);
    } else {
      assert PercentBytes(bs) + tail == tail;
      assert bs + rest == rest;
    }
  }

  lemma {:induction false} PercentDecodeOfEncode(s: string)
    ensures PercentDecode(EncodeUriComponent(s)) == Some(Utf8Encode(s))
  {
    if s != [] {
      PercentDecodeOfEncode(s[1..]);
      var tail := EncodeUriComponent(s[1..]);
      if Unreserved(s[0]) {
        assert ([s[0]] + tail)[1..] == tail;
      } else {
        PercentDecodeBytes(Utf8Char(s[0]), tail, Utf8Encode(s[1..]));
      }
    }
  }

  lemma DivMod64(n: int)
    requires 0 <= n
    ensures n == 64 * (n / 64) + n % 64
    ensures n / 4096 == (n / 64) / 64
    ensures n / 262144 == (n / 4096) / 64
  {
  }

  /** The base-64 digits of a scalar value that three- and four-octet forms carry. */
  lemma Digits64(n: int)
    requires 0 <= n
    ensures n == 4096 * (n / 4096) + 64 * ((n / 64) % 64) + n % 64
    ensures n == 262144 * (n / 262144) + 4096 * ((n / 4096) % 64) + 64 * ((n / 64) % 64) + n % 64
  {
    DivMod64(n);
    DivMod64(n / 64);
    DivMod64(n / 4096);
  }

  lemma Utf8OneOctet(c: char, tail: seq<Byte>)
    requires c as int < 0x80
    ensures Utf8DecodeFirst(Utf8Char(c) + tail) == Some((c, 1))
  {
    assert (Utf8Char(c) + tail)[0] == c as int;
  }

  lemma Utf8TwoOctets(c: char, tail: seq<Byte>)
    requires 0x80 <= c as int < 0x800
    ensures Utf8DecodeFirst(Utf8Char(c) + tail) == Some((c, 2))
  {
    var n := c as int;
    var bytes := Utf8Char(c) + tail;
    DivMod64(n);
    var b0: int, b1: int := bytes[0], bytes[1];
    assert b0 == 0xC0 + n / 64 && b1 == 0x80 + n % 64;
    assert (b0 - 0xC0) * 64 + (b1 - 0x80) == n;
  }

  lemma Utf8ThreeOctets(c: char, tail: seq<Byte>)
    requires 0x800 <= c as int < 0x10000
    ensures Utf8DecodeFirst(Utf8Char(c) + tail) == Some((c, 3))
  {
    var n := c as int;
    var bytes := Utf8Char(c) + tail;
    Digits64(n);
    var b0: int, b1: int, b2: int := bytes[0], bytes[1], bytes[2];
    assert b0 == 0xE0 + n / 4096 && b1 == 0x80 + (n / 64) % 64 && b2 == 0x80 + n % 64;
    assert (b0 - 0xE0) * 4096 + (b1 - 0x80) * 64 + (b2 - 0x80) == n;
  }

  lemma Utf8FourOctets(c: char, tail: seq<Byte>)
    requires 0x10000 <= c as int
    ensures Utf8DecodeFirst(Utf8Char(c) + tail) == Some((c, 4))
  {
    var n := c as int;
    var bytes := Utf8Char(c) + tail;
    Digits64(n);
    var b0: int, b1: int, b2: int, b3: int := bytes[0], bytes[1], bytes[2], bytes[3];
    assert b0 == 0xF0 + n / 262144 && b1 == 0x80 + (n / 4096) % 64;
    assert b2 == 0x80 + (n / 64) % 64 && b3 == 0x80 + n % 64;
    assert (b0 - 0xF0) * 262144 + (b1 - 0x80) * 4096 + (b2 - 0x80) * 64 + (b3 - 0x80) == n;
  }

  /** The decoder reads back exactly the octets the encoder wrote for one character. */
  lemma Utf8DecodeFirstOfChar(c: char, tail: seq<Byte>)
    ensures Utf8DecodeFirst(Utf8Char(c) + tail) == Some((c, |Utf8Char(c)|))
  {
    var n := c as int;
    if n < 0x80 {
      Utf8OneOctet(c, tail);
    } else if n < 0x800 {
      Utf8TwoOctets(c, tail);
    } else if n < 0x10000 {
      Utf8ThreeOctets(c, tail);
    } else {
      Utf8FourOctets(c, tail);
    }
  }

  lemma {:induction false} Utf8RoundTrip(s: string)
    ensures Utf8Decode(Utf8Encode(s)) == Some(s)
  {
    if s != [] {
      var head := Utf8Char(s[0]);
      var tail := Utf8Encode(s[1..]);
      Utf8DecodeFirstOfChar(s[0], tail);
      assert (head + tail)[|head|..] == tail;
      Utf8RoundTrip(s[1..]);
      assert s == [s[0]] + s[1..];
    }
  }

  /** Decoding undoes `encodeURIComponent`. */
  lemma EncodeUriComponentRoundTrip(s: string)
    ensures DecodeUriComponent(EncodeUriComponent(s)) == Some(s)
  {
    PercentDecodeOfEncode(s);
    Utf8RoundTrip(s);
  }
}
