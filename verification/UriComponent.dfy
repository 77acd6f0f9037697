/** ECMAScript `encodeURIComponent`: every character outside the unreserved
    set `A-Z a-z 0-9 - _ . ! ~ * ' ( )` is written as the UTF-8 octets of
    its code point, each as `%` and two upper-case hex digits (section 2.1
    of RFC 3986). Dafny's `char` is a Unicode scalar value, so the lone
    surrogates on which the ECMAScript function throws cannot occur.
    `DecodeUriComponent` is the inverse a reader of the link applies. */
module UriComponent {
  import opened Optional

  type byte = x: int | 0 <= x < 256

  predicate Unreserved(c: char) {
    || ('A' <= c <= 'Z') || ('a' <= c <= 'z') || ('0' <= c <= '9')
    || c == '-' || c == '_' || c == '.' || c == '!' || c == '~'
    || c == '*' || c == '\'' || c == '(' || c == ')'
  }

  const HexDigits: string := "0123456789ABCDEF"

  function HexDigit(n: int): (c: char)
    requires 0 <= n < 16
    ensures Unreserved(c)
  {
    HexDigits[n]
  }

  /** The value of a hex digit, either case, as `decodeURIComponent` reads it. */
  function HexValue(c: char): Option<int> {
    if '0' <= c <= '9' then Some(c as int - '0' as int)
    else if 'A' <= c <= 'F' then Some(c as int - 'A' as int + 10)
    else if 'a' <= c <= 'f' then Some(c as int - 'a' as int + 10)
    else None
  }

  lemma HexValueOfDigit(n: int)
    requires 0 <= n < 16
    ensures HexValue(HexDigit(n)) == Some(n)
  {
  }

  // ----- UTF-8 -----

  predicate Continuation(b: byte) {
    0x80 <= b < 0xC0
  }

  /** The UTF-8 octets of one code point. */
  function Utf8Char(c: char): (r: seq<byte>)
    ensures 1 <= |r| <= 4
    ensures (|r| == 1) <==> (c as int < 0x80)
    ensures |r| == 1 ==> r[0] == c as int
    ensures |r| > 1 ==> forall k :: 0 <= k < |r| ==> r[k] >= 0x80
  {
    var n := c as int;
    if n < 0x80 then [n]
    else if n < 0x800 then [0xC0 + n / 64, 0x80 + n % 64]
    else if n < 0x10000 then [0xE0 + n / 4096, 0x80 + (n / 64) % 64, 0x80 + n % 64]
    else [0xF0 + n / 262144, 0x80 + (n / 4096) % 64, 0x80 + (n / 64) % 64, 0x80 + n % 64]
  }

  predicate Ascii(s: string) {
    forall i :: 0 <= i < |s| ==> s[i] as int < 0x80
  }

  /** The UTF-8 octets of a string: between one and four per character,
      and for ASCII text exactly the character codes. */
  function Utf8Encode(s: string): (r: seq<byte>)
    ensures |s| <= |r| <= 4 * |s|
    ensures Ascii(s) ==> |r| == |s| && forall i :: 0 <= i < |s| ==> r[i] == s[i] as int
  {
    if |s| == 0 then [] else Utf8Char(s[0]) + Utf8Encode(s[1..])
  }

  predicate IsScalar(n: int) {
    (0 <= n < 0xD800) || (0xE000 <= n < 0x110000)
  }

  /** Reads one code point from the front of `bs`: the character and the
      number of octets it took, or `None` for a malformed or overlong
      sequence. */
  function DecodeOne(bs: seq<byte>): (r: Option<(char, nat)>)
    requires |bs| > 0
    ensures r.Some? ==> 1 <= r.value.1 <= |bs|
  {
    var b0: int := bs[0];
    if b0 < 0x80 then Some((b0 as char, 1))
    else if 0xC2 <= b0 < 0xE0 && |bs| >= 2 && Continuation(bs[1]) then
      var n: int := (b0 - 0xC0) * 64 + (bs[1] as int - 0x80);
      Some((n as char, 2))
    else if 0xE0 <= b0 < 0xF0 && |bs| >= 3 && Continuation(bs[1]) && Continuation(bs[2]) then
      var n: int := (b0 - 0xE0) * 4096 + (bs[1] as int - 0x80) * 64 + (bs[2] as int - 0x80);
      if n < 0x800 || !IsScalar(n) then None else Some((n as char, 3))
    else if 0xF0 <= b0 < 0xF5 && |bs| >= 4 && Continuation(bs[1]) && Continuation(bs[2]) && Continuation(bs[3]) then
      var n: int := (b0 - 0xF0) * 262144 + (bs[1] as int - 0x80) * 4096 + (bs[2] as int - 0x80) * 64 + (bs[3] as int - 0x80);
      if n < 0x10000 || !IsScalar(n) then None else Some((n as char, 4))
    else None
  }

  function Utf8Decode(bs: seq<byte>): Option<string>
    decreases |bs|
  {
    if |bs| == 0 then Some([])
    else match DecodeOne(bs)
      case None => None
      case Some((c, k)) =>
        match Utf8Decode(bs[k..])
        case None => None
        case Some(rest) => Some([c] + rest)
  }

  lemma DecodeOneOfChar(c: char, rest: seq<byte>)
    ensures DecodeOne(Utf8Char(c) + rest) == Some((c, |Utf8Char(c)|))
  {
    var n := c as int;
    var bs := Utf8Char(c) + rest;
    if n < 0x80 {
    } else if n < 0x800 {
      assert (n / 64) * 64 + n % 64 == n;
    } else if n < 0x10000 {
      var q := n / 64;
      assert q / 64 == n / 4096;
      assert (n / 4096) * 4096 + (q % 64) * 64 + n % 64 == n;
    } else {
      var q := n / 64;
      var p := q / 64;
      assert p == n / 4096;
      assert p / 64 == n / 262144;
      assert (n / 262144) * 262144 + (p % 64) * 4096 + (q % 64) * 64 + n % 64 == n;
    }
  }

  /** Decoding the UTF-8 octets of a string gives the string back. */
  lemma {:induction false} Utf8RoundTrip(s: string)
    ensures Utf8Decode(Utf8Encode(s)) == Some(s)
  {
    if |s| > 0 {
      var head := Utf8Char(s[0]);
      var rest := Utf8Encode(s[1..]);
      DecodeOneOfChar(s[0], rest);
      assert (head + rest)[|head|..] == rest;
      Utf8RoundTrip(s[1..]);
      assert s == [s[0]] + s[1..];
    }
  }

  // ----- Percent-encoding of octets -----

  /** One octet as it appears in the output: an unreserved ASCII character
      stands for itself, any other octet becomes `%XY`. */
  function EncodeByte(b: byte): (r: string)
    ensures forall k :: 0 <= k < |r| ==> Unreserved(r[k]) || r[k] == '%'
  {
    if b < 0x80 && Unreserved(b as char) then [b as char]
    else ['%', HexDigit(b / 16), HexDigit(b % 16)]
  }

  /** Every character of the output is unreserved or `%`. */
  function PercentEncode(bs: seq<byte>): (r: string)
    ensures forall k :: 0 <= k < |r| ==> Unreserved(r[k]) || r[k] == '%'
  {
    if |bs| == 0 then [] else EncodeByte(bs[0]) + PercentEncode(bs[1..])
  }

  /** Turns `%XY` escapes back into octets; any other character stands for
      its own UTF-8 octets. A `%` without two hex digits is an error. */
  function PercentDecode(t: string): Option<seq<byte>>
    decreases |t|
  {
    if |t| == 0 then Some([])
    else if t[0] == '%' then
      if |t| < 3 then None
      else match (HexValue(t[1]), HexValue(t[2]))
        case (Some(hi), Some(lo)) =>
          (match PercentDecode(t[3..])
           case None => None
           case Some(rest) => Some([hi * 16 + lo] + rest))
        case _ => None
    else
      match PercentDecode(t[1..])
      case None => None
      case Some(rest) => Some(Utf8Char(t[0]) + rest)
  }

  lemma DecodeEncodedByte(b: byte, rest: string)
    ensures PercentDecode(EncodeByte(b) + rest) ==
      match PercentDecode(rest) case None => None case Some(bs) => Some([b] + bs)
  {
    var e := EncodeByte(b);
    if b < 0x80 && Unreserved(b as char) {
      assert (e + rest)[1..] == rest;
    } else {
      HexValueOfDigit(b / 16);
      HexValueOfDigit(b % 16);
      assert (e + rest)[3..] == rest;
    }
  }

  lemma {:induction false} PercentRoundTrip(bs: seq<byte>)
    ensures PercentDecode(PercentEncode(bs)) == Some(bs)
  {
    if |bs| > 0 {
      DecodeEncodedByte(bs[0], PercentEncode(bs[1..]));
      PercentRoundTrip(bs[1..]);
      assert bs == [bs[0]] + bs[1..];
    }
  }

  // ----- The component codec -----

  /** `encodeURIComponent(s)`. The output consists of unreserved characters
      and `%` only, so it holds no `&`, `=`, `?`, `#` or `/`. */
  function EncodeUriComponent(s: string): (r: string)
    ensures forall k :: 0 <= k < |r| ==> Unreserved(r[k]) || r[k] == '%'
  {
    PercentEncode(Utf8Encode(s))
  }

  /** `decodeURIComponent(t)`, with `None` for its `URIError`. */
  function DecodeUriComponent(t: string): Option<string> {
    match PercentDecode(t)
    case None => None
    case Some(bs) => Utf8Decode(bs)
  }

  /** Decoding an encoded component gives back exactly the original string. */
  lemma UriComponentRoundTrip(s: string)
    ensures DecodeUriComponent(EncodeUriComponent(s)) == Some(s)
  {
    PercentRoundTrip(Utf8Encode(s));
    Utf8RoundTrip(s);
  }

  /** A string made of unreserved characters is left exactly as it is. */
  lemma {:induction false} EncodeKeepsUnreserved(s: string)
    requires forall k :: 0 <= k < |s| ==> Unreserved(s[k])
    ensures EncodeUriComponent(s) == s
  {
    if |s| > 0 {
      EncodeKeepsUnreserved(s[1..]);
      assert s == [s[0]] + s[1..];
    }
  }

  /** No sub-delimiter or path separator survives encoding. */
  lemma EncodedHasNoDelimiters(s: string)
    ensures forall k :: 0 <= k < |EncodeUriComponent(s)| ==>
      EncodeUriComponent(s)[k] !in {'&', '=', '?', '#', '/', ':'}
  {
  }
}
