/**
 * `encodeURIComponent` (section 19.2.6.5 of ECMA-262): every character
 * outside the unreserved set is replaced by the `%XX` escapes of its UTF-8
 * bytes, with upper-case hexadecimal digits. Strings here are sequences of
 * Unicode scalar values, so the lone-surrogate error case of the original
 * cannot arise.
 */
module UriEncoding {

  /** ECMA-262 uriUnreserved: ASCII letters, digits and `- _ . ! ~ * ' ( )`. */
  predicate IsUriUnreserved(c: char) {
    ('A' <= c <= 'Z') || ('a' <= c <= 'z') || ('0' <= c <= '9')
    || c == '-' || c == '_' || c == '.' || c == '!' || c == '~' || c == '*'
    || c == '\'' || c == '(' || c == ')'
  }

  predicate IsUpperHexDigit(c: char) {
    ('0' <= c <= '9') || ('A' <= c <= 'F')
  }

  type Byte = b: int | 0 <= b < 256

  /** The UTF-8 encoding of one Unicode scalar value. */
  function Utf8(c: char): (r: seq<Byte>)
    ensures 1 <= |r| <= 4
    ensures |r| == 1 <==> c as int < 0x80
  {
    var n := c as int;
    if n < 0x80 then [n]
    else if n < 0x800 then [0xC0 + n / 64, 0x80 + n % 64]
    else if n < 0x10000 then [0xE0 + n / 4096, 0x80 + (n / 64) % 64, 0x80 + n % 64]
    else [0xF0 + n / 262144, 0x80 + (n / 4096) % 64, 0x80 + (n / 64) % 64, 0x80 + n % 64]
  }

  function HexUpper(d: int): (c: char)
    requires 0 <= d < 16
    ensures IsUpperHexDigit(c)
  {
    "0123456789ABCDEF"[d]
  }

  /** `%XX` for each byte. */
  function PercentEscape(bytes: seq<Byte>): (r: string)
    ensures |r| == 3 * |bytes|
    ensures forall i :: 0 <= i < |r| ==> (r[i] == '%' <==> i % 3 == 0)
    ensures forall i :: 0 <= i < |r| && i % 3 != 0 ==> IsUpperHexDigit(r[i])
  {
    if bytes == [] then []
    else
      var b := bytes[0];
      var rest := PercentEscape(bytes[1..]);
      var r := ['%', HexUpper(b / 16), HexUpper(b % 16)] + rest;
      assert forall i :: 3 <= i < |r| ==> r[i] == rest[i - 3] && i % 3 == (i - 3) % 3;
      r
  }

  /** The two digits after each `%` are the byte's high and low nibble. */
  lemma {:induction false} PercentEscapeDigits(bytes: seq<Byte>)
    ensures var r := PercentEscape(bytes);
      forall k :: 0 <= k < |bytes| ==> r[3 * k + 1] == HexUpper(bytes[k] / 16) && r[3 * k + 2] == HexUpper(bytes[k] % 16)
  {
    if bytes != [] {
      PercentEscapeDigits(bytes[1..]);
      var rest := PercentEscape(bytes[1..]);
      var r := PercentEscape(bytes);
      assert r == ['%', HexUpper(bytes[0] / 16), HexUpper(bytes[0] % 16)] + rest;
      forall k | 1 <= k < |bytes|
        ensures r[3 * k + 1] == HexUpper(bytes[k] / 16) && r[3 * k + 2] == HexUpper(bytes[k] % 16)
      {
        assert bytes[k] == bytes[1..][k - 1];
        assert r[3 * k + 1] == rest[3 * (k - 1) + 1] && r[3 * k + 2] == rest[3 * (k - 1) + 2];
      }
    }
  }

  /** `encodeURIComponent(s)`. */
  function EncodeURIComponent(s: string): (r: string)
    ensures forall i :: 0 <= i < |r| ==> IsUriUnreserved(r[i]) || r[i] == '%'
    ensures '/' !in r && '?' !in r && '#' !in r
  {
    if s == [] then []
    else (if IsUriUnreserved(s[0]) then [s[0]] else PercentEscape(Utf8(s[0]))) + EncodeURIComponent(s[1..])
  }

  /** A string of unreserved characters is its own encoding. */
  lemma {:induction false} EncodeUnreservedIdentity(s: string)
    requires forall i :: 0 <= i < |s| ==> IsUriUnreserved(s[i])
    ensures EncodeURIComponent(s) == s
  {
    if s != [] {
      EncodeUnreservedIdentity(s[1..]);
    }
  }

  /** Encoding a string that has a reserved character lengthens it, so changes it. */
  lemma {:induction false} EncodeChangesReserved(s: string, k: nat)
    requires k < |s| && !IsUriUnreserved(s[k])
    ensures |EncodeURIComponent(s)| >= |s| + 2
  {
    if !IsUriUnreserved(s[0]) {
      EncodeLength(s[1..]);
    } else {
      EncodeChangesReserved(s[1..], k - 1);
    }
  }

  lemma {:induction false} EncodeLength(s: string)
    ensures |EncodeURIComponent(s)| >= |s|
  {
    if s != [] {
      EncodeLength(s[1..]);
    }
  }
}
