/**
 * ECMAScript's `encodeURIComponent` and `decodeURIComponent` (sections 19.2.6.2, 19.2.6.5 and the
 * Encode/Decode operations of ECMA-262), which the cookie helpers apply to stored values.
 * A string is a sequence of Unicode scalar values; characters are escaped as the `%XX` triples of
 * their UTF-8 bytes (RFC 3629), upper-case hex on output, either case accepted on input.
 */
module UriComponent {
  import opened Wrappers
  import opened Text

  /** The characters `encodeURIComponent` leaves alone: letters, digits and `-_.!~*'()`. */
  predicate IsUnescaped(c: char) {
    IsAlnum(c) || c in "-_.!~*'()"
  }

  predicate IsUpperHex(c: char) {
    IsDigit(c) || 'A' <= c <= 'F'
  }

  function HexUpper(d: nat): (c: char)
    requires d < 16
    ensures IsUpperHex(c)
  {
    if d < 10 then ('0' as int + d) as char else ('A' as int + d - 10) as char
  }

  /** The value of a hex digit of either case. */
  function HexValue(c: char): (r: Option<nat>)
    ensures r.Some? ==> r.value < 16
  {
    if '0' <= c <= '9' then Some(c as int - '0' as int)
    else if 'A' <= c <= 'F' then Some(c as int - 'A' as int + 10)
    else if 'a' <= c <= 'f' then Some(c as int - 'a' as int + 10)
    else None
  }

  lemma HexRoundTrip(d: nat)
    requires d < 16
    ensures HexValue(HexUpper(d)) == Some(d)
  {
  }

  /** A code point a string may hold: below 0x110000 and not a surrogate. */
  predicate IsScalar(cp: int) {
    0 <= cp < 0xD800 || 0xE000 <= cp < 0x110000
  }

  /** The UTF-8 bytes of a scalar value. */
  function Utf8(cp: int): (r: seq<nat>)
    requires IsScalar(cp)
    ensures 1 <= |r| <= 4 && forall i :: 0 <= i < |r| ==> r[i] < 256
  {
    var q1 := cp / 64;
    var q2 := q1 / 64;
    if cp < 0x80 then [cp]
    else if cp < 0x800 then [0xC0 + q1, 0x80 + cp % 64]
    else if cp < 0x10000 then [0xE0 + q2, 0x80 + q1 % 64, 0x80 + cp % 64]
    else [0xF0 + q2 / 64, 0x80 + q2 % 64, 0x80 + q1 % 64, 0x80 + cp % 64]
  }

  /** One byte as `%XX`. */
  function EncodeOctet(b: nat): (r: string)
    requires b < 256
    ensures |r| == 3
  {
    ['%', HexUpper(b / 16), HexUpper(b % 16)]
  }

  function EncodeOctets(bytes: seq<nat>): (r: string)
    requires forall i :: 0 <= i < |bytes| ==> bytes[i] < 256
    ensures |r| == 3 * |bytes|
  {
    if bytes == [] then [] else EncodeOctet(bytes[0]) + EncodeOctets(bytes[1..])
  }

  function EncodeChar(c: char): string {
    if IsUnescaped(c) then [c] else EncodeOctets(Utf8(c as int))
  }

  /** A character that can appear in `encodeURIComponent`'s output. */
  predicate IsEncodedChar(c: char) {
    IsUnescaped(c) || c == '%' || IsUpperHex(c)
  }

  lemma EncodeOctetsChars(bytes: seq<nat>)
    requires forall i :: 0 <= i < |bytes| ==> bytes[i] < 256
    ensures forall c :: c in EncodeOctets(bytes) ==> IsEncodedChar(c)
  {
  }

  /** `encodeURIComponent`: its output is made only of unreserved characters, '%' and upper-case
      hex digits. */
  function EncodeUriComponent(s: string): (r: string)
    ensures forall c :: c in r ==> IsEncodedChar(c)
  {
    if s == [] then []
    else
      var c := s[0];
      assert forall x :: x in EncodeChar(c) ==> IsEncodedChar(x) by {
        if !IsUnescaped(c) { EncodeOctetsChars(Utf8(c as int)); }
      }
      EncodeChar(c) + EncodeUriComponent(s[1..])
  }

  /* ---------- decoding ---------- */

  /** The byte of a `%XX` triple at the head of `s`. */
  function ParseOctet(s: string): (r: Option<nat>)
    ensures r.Some? ==> |s| >= 3 && r.value < 256
  {
    if |s| < 3 || s[0] != '%' then None
    else match (HexValue(s[1]), HexValue(s[2]))
      case (Some(h), Some(l)) => Some(h * 16 + l)
      case _ => None
  }

  /** The number of bytes a UTF-8 sequence with this leading byte has, or 0 when no sequence can
      start with it (a continuation byte, or more than four leading 1 bits). */
  function SequenceLength(b: nat): nat {
    if b < 0x80 then 1
    else if b < 0xC0 then 0
    else if b < 0xE0 then 2
    else if b < 0xF0 then 3
    else if b < 0xF8 then 4
    else 0
  }

  /** `count` continuation bytes (10xxxxxx), each a `%XX` triple, at the head of `s`. */
  function ParseContinuations(s: string, count: nat): (r: Option<seq<nat>>)
    ensures r.Some? ==> (|s| >= 3 * count && |r.value| == count
                         && forall i :: 0 <= i < count ==> 0x80 <= r.value[i] < 0xC0)
    decreases count
  {
    if count == 0 then Some([])
    else match ParseOctet(s)
      case None => None
      case Some(b) =>
        if b < 0x80 || b >= 0xC0 then None
        else match ParseContinuations(s[3..], count - 1)
          case None => None
          case Some(rest) => Some([b] + rest)
  }

  /** The code point of a leading byte and its continuation bytes. */
  function CodePoint(lead: nat, cont: seq<nat>): int
    requires 1 <= |cont| <= 3
  {
    var l: int := lead;
    var c: seq<int> := cont;
    if |c| == 1 then (l - 0xC0) * 64 + (c[0] - 0x80)
    else if |c| == 2 then ((l - 0xE0) * 64 + (c[0] - 0x80)) * 64 + (c[1] - 0x80)
    else (((l - 0xF0) * 64 + (c[0] - 0x80)) * 64 + (c[1] - 0x80)) * 64 + (c[2] - 0x80)
  }

  /** The smallest code point a sequence of `n` bytes may encode (anything smaller is overlong). */
  function MinCodePoint(n: nat): int {
    if n == 2 then 0x80 else if n == 3 then 0x800 else 0x10000
  }

  function Prepend(c: char, o: Option<string>): (r: Option<string>)
    ensures r.Some? <==> o.Some?
  {
    match o
    case None => None
    case Some(t) => Some([c] + t)
  }

  /** `decodeURIComponent`: None where it throws URIError (a '%' without two hex digits after it,
      or bytes that are not the UTF-8 encoding of a scalar value). */
  function DecodeUriComponent(s: string): (r: Option<string>)
    decreases |s|
  {
    if s == [] then Some([])
    else if s[0] != '%' then Prepend(s[0], DecodeUriComponent(s[1..]))
    else match ParseOctet(s)
      case None => None
      case Some(b) =>
        if b < 0x80 then Prepend(b as char, DecodeUriComponent(s[3..]))
        else
          var n := SequenceLength(b);
          if n < 2 then None
          else match ParseContinuations(s[3..], n - 1)
            case None => None
            case Some(cont) =>
              var cp := CodePoint(b, cont);
              if cp < MinCodePoint(n) || !IsScalar(cp) then None
              else Prepend(cp as char, DecodeUriComponent(s[3 * n..]))
  }

  /** Reading back one encoded byte. */
  lemma ParseEncodedOctet(b: nat, rest: string)
    requires b < 256
    ensures ParseOctet(EncodeOctet(b) + rest) == Some(b)
  {
    HexRoundTrip(b / 16);
    HexRoundTrip(b % 16);
  }

  /** Reading back encoded continuation bytes. */
  lemma {:induction false} ParseEncodedContinuations(bytes: seq<nat>, rest: string)
    requires forall i :: 0 <= i < |bytes| ==> 0x80 <= bytes[i] < 0xC0
    ensures ParseContinuations(EncodeOctets(bytes) + rest, |bytes|) == Some(bytes)
    decreases |bytes|
  {
    if bytes != [] {
      var s := EncodeOctets(bytes) + rest;
      assert s == EncodeOctet(bytes[0]) + (EncodeOctets(bytes[1..]) + rest);
      ParseEncodedOctet(bytes[0], EncodeOctets(bytes[1..]) + rest);
      assert ParseOctet(s) == Some(bytes[0]);
      ParseEncodedContinuations(bytes[1..], rest);
      assert s[3..] == EncodeOctets(bytes[1..]) + rest;
      assert ParseContinuations(s[3..], |bytes| - 1) == Some(bytes[1..]);
      assert bytes == [bytes[0]] + bytes[1..];
    }
  }

  /** The leading byte, the continuation bytes and the code point of a multi-byte encoding. */
  lemma Utf8Shape(cp: int)
    requires IsScalar(cp) && cp >= 0x80
    ensures var u := Utf8(cp);
            && SequenceLength(u[0]) == |u| && |u| >= 2
            && (forall i :: 1 <= i < |u| ==> 0x80 <= u[i] < 0xC0)
            && CodePoint(u[0], u[1..]) == cp
            && cp >= MinCodePoint(|u|)
  {
    var q1 := cp / 64;
    var q2 := q1 / 64;
    assert cp == q1 * 64 + cp % 64;
    assert q1 == q2 * 64 + q1 % 64;
    assert q2 == (q2 / 64) * 64 + q2 % 64;
  }

  /** An escaped character below 0x80 is one `%XX` triple. */
  lemma DecodeEncodedAscii(c: char, rest: string)
    requires !IsUnescaped(c) && (c as int) < 0x80
    ensures DecodeUriComponent(EncodeChar(c) + rest) == Prepend(c, DecodeUriComponent(rest))
  {
    var cp := c as int;
    assert Utf8(cp) == [cp];
    var s := EncodeChar(c) + rest;
    assert EncodeChar(c) == EncodeOctet(cp);
    ParseEncodedOctet(cp, rest);
    assert ParseOctet(s) == Some(cp);
    assert s[3..] == rest;
  }

  /** Decoding the triples of a well-formed multi-byte sequence for `cp` gives `cp`. */
  lemma DecodeEncodedSequence(u: seq<nat>, cp: int, rest: string)
    requires |u| >= 2 && u[0] < 256 && SequenceLength(u[0]) == |u|
    requires forall i :: 1 <= i < |u| ==> 0x80 <= u[i] < 0xC0
    requires IsScalar(cp) && CodePoint(u[0], u[1..]) == cp && cp >= MinCodePoint(|u|)
    ensures DecodeUriComponent(EncodeOctets(u) + rest) == Prepend(cp as char, DecodeUriComponent(rest))
  {
    var s := EncodeOctets(u) + rest;
    assert EncodeOctets(u) == EncodeOctet(u[0]) + EncodeOctets(u[1..]);
    assert s == EncodeOctet(u[0]) + (EncodeOctets(u[1..]) + rest);
    ParseEncodedOctet(u[0], EncodeOctets(u[1..]) + rest);
    assert s[0] == '%';
    assert ParseOctet(s) == Some(u[0]);
    assert s[3..] == EncodeOctets(u[1..]) + rest;
    ParseEncodedContinuations(u[1..], rest);
    assert ParseContinuations(s[3..], |u| - 1) == Some(u[1..]);
    assert s[3 * |u|..] == rest;
  }

  /** An escaped character from 0x80 on is its leading byte's triple and the continuations'. */
  lemma DecodeEncodedMultiByte(c: char, rest: string)
    requires (c as int) >= 0x80
    ensures DecodeUriComponent(EncodeChar(c) + rest) == Prepend(c, DecodeUriComponent(rest))
  {
    var cp := c as int;
    assert !IsUnescaped(c);
    assert EncodeChar(c) == EncodeOctets(Utf8(cp));
    Utf8Shape(cp);
    DecodeEncodedSequence(Utf8(cp), cp, rest);
  }

  /** Decoding the encoding of one character gives that character back, then decodes the rest. */
  lemma DecodeEncodedChar(c: char, rest: string)
    ensures DecodeUriComponent(EncodeChar(c) + rest) == Prepend(c, DecodeUriComponent(rest))
  {
    if IsUnescaped(c) {
      var s := EncodeChar(c) + rest;
      assert s[0] == c && s[1..] == rest;
    } else if (c as int) < 0x80 {
      DecodeEncodedAscii(c, rest);
    } else {
      DecodeEncodedMultiByte(c, rest);
    }
  }

  /** `decodeURIComponent(encodeURIComponent(s))` is `s`. */
  lemma {:induction false} DecodeEncode(s: string)
    ensures DecodeUriComponent(EncodeUriComponent(s)) == Some(s)
    decreases |s|
  {
    if s != [] {
      DecodeEncode(s[1..]);
      DecodeEncodedChar(s[0], EncodeUriComponent(s[1..]));
      assert [s[0]] + s[1..] == s;
    }
  }

  /** A lone '%' makes decoding fail. */
  lemma LonePercentFails()
    ensures DecodeUriComponent("%") == None
    ensures DecodeUriComponent("%zz") == None
  {
  }
}
