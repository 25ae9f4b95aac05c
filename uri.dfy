/** Percent-decoding as ECMAScript's `decodeURIComponent` does it (the
    Decode operation of the ECMAScript standard with an empty set of
    reserved characters): each `%XY` escape, together with the escapes
    that continue it, must spell the UTF-8 encoding (RFC 3629) of one
    Unicode scalar value, which replaces them; anything else throws a
    URIError. `encodeURIComponent` is modelled beside it as its inverse.
    Characters are Unicode scalar values. */
module Uri {
  import opened Text

  /** The message of the URIError a malformed escape throws. */
  const UriError := "URI malformed"

  // ---------------------------------------------------------------------
  // Hexadecimal digits

  predicate IsHexDigit(c: char) {
    ('0' <= c <= '9') || ('a' <= c <= 'f') || ('A' <= c <= 'F')
  }

  function HexValue(c: char): (v: nat)
    requires IsHexDigit(c)
    ensures v < 16
  {
    if '0' <= c <= '9' then (c as int) - ('0' as int)
    else if 'a' <= c <= 'f' then (c as int) - ('a' as int) + 10
    else (c as int) - ('A' as int) + 10
  }

  /** The upper-case digit `encodeURIComponent` writes. */
  function HexDigit(v: nat): (c: char)
    requires v < 16
    ensures IsHexDigit(c) && HexValue(c) == v
    ensures c != '%' && c != '&' && c != '='
  {
    if v < 10 then (('0' as int) + v) as char else (('A' as int) + v - 10) as char
  }

  // ---------------------------------------------------------------------
  // UTF-8 (RFC 3629)

  predicate IsScalar(v: nat) {
    v < 0xD800 || (0xE000 <= v < 0x11_0000)
  }

  predicate IsContinuation(b: nat) {
    0x80 <= b < 0xC0
  }

  /** The number of octets announced by a leading octet (its leading one
      bits), or 0 when the octet cannot start a sequence: a continuation
      octet, or five or more leading ones. */
  function Utf8Width(b: nat): (n: nat)
    ensures n <= 4
  {
    if b < 0x80 then 1
    else if b < 0xC0 then 0
    else if b < 0xE0 then 2
    else if b < 0xF0 then 3
    else if b < 0xF8 then 4
    else 0
  }

  /** The scalar value a sequence of octets encodes, if it is a valid,
      shortest-form UTF-8 sequence whose length its first octet announces. */
  function Utf8Decode(o: seq<nat>): (r: Option<nat>)
    ensures r.Some? ==> IsScalar(r.value)
  {
    if |o| == 0 || Utf8Width(o[0]) != |o| then None
    else if |o| == 1 then Some(o[0])
    else if exists k :: 1 <= k < |o| && !IsContinuation(o[k]) then None
    else if |o| == 2 then
      var v := (o[0] - 0xC0) * 64 + (o[1] - 0x80);
      if v < 0x80 then None else Some(v)
    else if |o| == 3 then
      var v := (o[0] - 0xE0) * 4096 + (o[1] - 0x80) * 64 + (o[2] - 0x80);
      if v < 0x800 || (0xD800 <= v < 0xE000) then None else Some(v)
    else
      var v := (o[0] - 0xF0) * 262144 + (o[1] - 0x80) * 4096 + (o[2] - 0x80) * 64 + (o[3] - 0x80);
      if v < 0x1_0000 || 0x11_0000 <= v then None else Some(v)
  }

  /** The UTF-8 encoding of a scalar value. */
  function Utf8Encode(v: nat): (o: seq<nat>)
    requires IsScalar(v)
    ensures 1 <= |o| <= 4 && forall k :: 0 <= k < |o| ==> o[k] < 256
  {
    if v < 0x80 then [v]
    else if v < 0x800 then [0xC0 + v / 64, 0x80 + v % 64]
    else if v < 0x1_0000 then [0xE0 + v / 64 / 64, 0x80 + v / 64 % 64, 0x80 + v % 64]
    else [0xF0 + v / 64 / 64 / 64, 0x80 + v / 64 / 64 % 64, 0x80 + v / 64 % 64, 0x80 + v % 64]
  }

  /** Decoding the encoding of a scalar value gives it back. */
  lemma Utf8RoundTrip(v: nat)
    requires IsScalar(v)
    ensures Utf8Width(Utf8Encode(v)[0]) == |Utf8Encode(v)|
    ensures Utf8Decode(Utf8Encode(v)) == Some(v)
  {
    if v < 0x80 {
    } else if v < 0x800 {
      Utf8RoundTrip2(v);
    } else if v < 0x1_0000 {
      Utf8RoundTrip3(v);
    } else {
      Utf8RoundTrip4(v);
    }
  }

  lemma Utf8RoundTrip2(v: nat)
    requires 0x80 <= v < 0x800
    ensures Utf8Width(Utf8Encode(v)[0]) == 2
    ensures Utf8Decode(Utf8Encode(v)) == Some(v)
  {
    var o := Utf8Encode(v);
    var q, r := v / 64, v % 64;
    assert v == 64 * q + r;
    assert o == [0xC0 + q, 0x80 + r];
    assert IsContinuation(o[1]);
  }

  lemma Utf8RoundTrip3(v: nat)
    requires 0x800 <= v < 0x1_0000 && IsScalar(v)
    ensures Utf8Width(Utf8Encode(v)[0]) == 3
    ensures Utf8Decode(Utf8Encode(v)) == Some(v)
  {
    var o := Utf8Encode(v);
    var q1, r1 := v / 64, v % 64;
    var q2, r2 := q1 / 64, q1 % 64;
    assert v == 64 * q1 + r1 && q1 == 64 * q2 + r2;
    assert q2 < 16;
    assert o == [0xE0 + q2, 0x80 + r2, 0x80 + r1];
    assert IsContinuation(o[1]) && IsContinuation(o[2]);
    assert (o[0] - 0xE0) * 4096 + (o[1] - 0x80) * 64 + (o[2] - 0x80) == v;
  }

  lemma Utf8RoundTrip4(v: nat)
    requires 0x1_0000 <= v < 0x11_0000
    ensures Utf8Width(Utf8Encode(v)[0]) == 4
    ensures Utf8Decode(Utf8Encode(v)) == Some(v)
  {
    var o := Utf8Encode(v);
    var q1, r1 := v / 64, v % 64;
    var q2, r2 := q1 / 64, q1 % 64;
    var q3, r3 := q2 / 64, q2 % 64;
    assert v == 64 * q1 + r1 && q1 == 64 * q2 + r2 && q2 == 64 * q3 + r3;
    assert q3 < 8;
    assert o == [0xF0 + q3, 0x80 + r3, 0x80 + r2, 0x80 + r1];
    assert IsContinuation(o[1]) && IsContinuation(o[2]) && IsContinuation(o[3]);
    assert (o[0] - 0xF0) * 262144 + (o[1] - 0x80) * 4096 + (o[2] - 0x80) * 64 + (o[3] - 0x80) == v;
  }

  // ---------------------------------------------------------------------
  // decodeURIComponent

  /** The octet of the escape `%XY` at position `k`, if there is one. */
  function OctetAt(s: string, k: nat): (r: Option<nat>)
    ensures r.Some? ==> k + 3 <= |s| && s[k] == '%' && r.value < 256
  {
    if k + 3 <= |s| && s[k] == '%' && IsHexDigit(s[k + 1]) && IsHexDigit(s[k + 2]) then
      Some(16 * HexValue(s[k + 1]) + HexValue(s[k + 2]))
    else None
  }

  /** The octets of `n` consecutive escapes starting at position `k`. */
  function OctetsAt(s: string, k: nat, n: nat): (r: Option<seq<nat>>)
    ensures r.Some? ==> |r.value| == n && (n > 0 ==> k + 3 * n <= |s|)
    decreases n
  {
    if n == 0 then Some([])
    else match OctetAt(s, k)
      case None => None
      case Some(b) =>
        match OctetsAt(s, k + 3, n - 1)
        case None => None
        case Some(rest) => Some([b] + rest)
  }

  /** The character spelled by the escapes at the start of `s`, and how
      many characters they take. */
  function EscapeAt(s: string): (r: Option<(char, nat)>)
    ensures r.Some? ==> 3 <= r.value.1 <= |s|
  {
    match OctetAt(s, 0)
    case None => None
    case Some(b) =>
      var n := Utf8Width(b);
      if n == 0 then None
      else match OctetsAt(s, 0, n)
        case None => None
        case Some(o) =>
          match Utf8Decode(o)
          case None => None
          case Some(v) => Some((v as char, 3 * n))
  }

  function Prepend(x: string, r: Result<string, string>): Result<string, string> {
    match r
    case Ok(t) => Ok(x + t)
    case Err(e) => Err(e)
  }

  /** `decodeURIComponent(s)`: every escape decoded, or the URIError. */
  function DecodeUriComponent(s: string): (r: Result<string, string>)
    ensures r.Err? ==> r.error == UriError && '%' in s
    decreases |s|
  {
    if s == [] then Ok([])
    else if s[0] != '%' then Prepend([s[0]], DecodeUriComponent(s[1..]))
    else match EscapeAt(s)
      case None => Err(UriError)
      case Some((c, n)) => Prepend([c], DecodeUriComponent(s[n..]))
  }

  /** Text without `%` decodes to itself, in front of whatever follows. */
  lemma {:induction false} DecodePlainPrefix(x: string, y: string)
    requires '%' !in x
    ensures DecodeUriComponent(x + y) == Prepend(x, DecodeUriComponent(y))
  {
    if x != [] {
      assert (x + y)[0] == x[0];
      assert (x + y)[1..] == x[1..] + y;
      DecodePlainPrefix(x[1..], y);
      assert [x[0]] + x[1..] == x;
      match DecodeUriComponent(y)
      case Ok(t) => assert [x[0]] + (x[1..] + t) == x + t;
      case Err(_) =>
    } else {
      assert x + y == y;
      match DecodeUriComponent(y)
      case Ok(t) => assert x + t == t;
      case Err(_) =>
    }
  }

  lemma DecodePlain(x: string)
    requires '%' !in x
    ensures DecodeUriComponent(x) == Ok(x)
  {
    DecodePlainPrefix(x, []);
    assert x + [] == x;
  }

  /** A `%` that does not start a complete, valid escape makes the whole
      call throw: a `%` at the very end, or one followed by a character
      that is not a hexadecimal digit. */
  lemma MalformedEscapeThrows(pre: string, c: char, post: string)
    requires '%' !in pre && !IsHexDigit(c)
    ensures DecodeUriComponent(pre + "%") == Err(UriError)
    ensures DecodeUriComponent(pre + "%" + [c] + post) == Err(UriError)
  {
    DecodePlainPrefix(pre, "%");
    assert OctetAt("%", 0).None?;
    var y := "%" + [c] + post;
    assert pre + "%" + [c] + post == pre + y;
    DecodePlainPrefix(pre, y);
    assert y[1] == c;
    assert OctetAt(y, 0).None?;
  }

  /** An escape of a lone continuation octet (`%80` to `%BF`) throws. */
  lemma LoneContinuationThrows(pre: string, hi: char, lo: char, post: string)
    requires '%' !in pre && IsHexDigit(hi) && IsHexDigit(lo) && 8 <= HexValue(hi) < 12
    ensures DecodeUriComponent(pre + ("%" + [hi, lo] + post)) == Err(UriError)
  {
    var y := "%" + [hi, lo] + post;
    DecodePlainPrefix(pre, y);
    assert y[1] == hi && y[2] == lo;
    assert OctetAt(y, 0).Some?;
    assert Utf8Width(OctetAt(y, 0).value) == 0;
  }

  // ---------------------------------------------------------------------
  // encodeURIComponent

  /** The characters `encodeURIComponent` leaves alone. */
  predicate IsUnreserved(c: char) {
    ('A' <= c <= 'Z') || ('a' <= c <= 'z') || ('0' <= c <= '9')
    || c == '-' || c == '_' || c == '.' || c == '!' || c == '~' || c == '*' || c == '\'' || c == '(' || c == ')'
  }

  /** `%XY` for each octet, upper-case. */
  function EscapeOctets(o: seq<nat>): (r: string)
    requires forall k :: 0 <= k < |o| ==> o[k] < 256
    ensures |r| == 3 * |o|
    ensures '&' !in r && '=' !in r
  {
    if o == [] then []
    else ['%', HexDigit(o[0] / 16), HexDigit(o[0] % 16)] + EscapeOctets(o[1..])
  }

  function EncodeChar(c: char): (r: string)
    ensures '&' !in r && '=' !in r
  {
    if IsUnreserved(c) then [c] else EscapeOctets(Utf8Encode(c as nat))
  }

  /** `encodeURIComponent(s)`. */
  function EncodeUriComponent(s: string): (r: string)
    ensures '&' !in r && '=' !in r
  {
    if s == [] then [] else EncodeChar(s[0]) + EncodeUriComponent(s[1..])
  }

  /** One escape reads back as its octet. */
  lemma EscapeRead(b: nat, rest: string)
    requires b < 256
    ensures OctetAt(['%', HexDigit(b / 16), HexDigit(b % 16)] + rest, 0) == Some(b)
  {
    var s := ['%', HexDigit(b / 16), HexDigit(b % 16)] + rest;
    assert s[0] == '%' && s[1] == HexDigit(b / 16) && s[2] == HexDigit(b % 16);
  }

  /** The escapes of some octets read back as those octets. */
  lemma {:induction false} OctetsRead(o: seq<nat>, rest: string)
    requires forall k :: 0 <= k < |o| ==> o[k] < 256
    ensures OctetsAt(EscapeOctets(o) + rest, 0, |o|) == Some(o)
  {
    if o != [] {
      var head := ['%', HexDigit(o[0] / 16), HexDigit(o[0] % 16)];
      var tail := EscapeOctets(o[1..]) + rest;
      var s := EscapeOctets(o) + rest;
      AppendAssoc(head, EscapeOctets(o[1..]), rest);
      assert s == head + tail;
      EscapeRead(o[0], tail);
      OctetsRead(o[1..], rest);
      PrefixRest(head, tail);
      OctetsStep(s, o[0], |o| - 1, o[1..]);
      assert [o[0]] + o[1..] == o;
    }
  }

  /** An escape followed by `n` more reads as its octet and theirs. */
  lemma OctetsStep(s: string, b: nat, n: nat, more: seq<nat>)
    requires 3 <= |s| && OctetAt(s, 0) == Some(b) && OctetsAt(s[3..], 0, n) == Some(more)
    ensures OctetsAt(s, 0, n + 1) == Some([b] + more)
  {
    OctetsShift(s, 3, n);
  }

  /** Reading escapes further into a text is reading them in its suffix. */
  lemma {:induction false} OctetsShift(s: string, d: nat, n: nat)
    requires d <= |s|
    ensures OctetsAt(s, d, n) == OctetsAt(s[d..], 0, n)
    decreases n
  {
    if n > 0 {
      assert OctetAt(s, d) == OctetAt(s[d..], 0) by {
        if d + 3 <= |s| {
          assert s[d..][0] == s[d] && s[d..][1] == s[d + 1] && s[d..][2] == s[d + 2];
        }
      }
      if d + 3 <= |s| {
        OctetsShift(s, d + 3, n - 1);
        OctetsShift(s[d..], 3, n - 1);
        assert s[d..][3..] == s[d + 3..];
      }
    }
  }

  /** Decoding reads back each encoded character. */
  lemma DecodeEncodeChar(c: char, rest: string)
    ensures DecodeUriComponent(EncodeChar(c) + rest) == Prepend([c], DecodeUriComponent(rest))
  {
    var s := EncodeChar(c) + rest;
    if IsUnreserved(c) {
      assert s[0] == c && s[1..] == rest;
    } else {
      var o := Utf8Encode(c as nat);
      Utf8RoundTrip(c as nat);
      OctetsRead(o, rest);
      assert s[0] == '%';
      assert OctetAt(s, 0) == Some(o[0]) by {
        assert OctetsAt(s, 0, |o|) == Some(o);
      }
      assert s[3 * |o|..] == rest;
    }
  }

  /** `decodeURIComponent(encodeURIComponent(s)) == s`. */
  lemma {:induction false} DecodeEncode(s: string)
    ensures DecodeUriComponent(EncodeUriComponent(s)) == Ok(s)
  {
    if s != [] {
      DecodeEncodeChar(s[0], EncodeUriComponent(s[1..]));
      DecodeEncode(s[1..]);
      assert [s[0]] + s[1..] == s;
    }
  }
}
