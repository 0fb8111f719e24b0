/** UTF-8 encoding of strings (RFC 3629), as Python's `str.encode("utf-8")` produces it; the
    service only uses the length of the result. */
module Utf8 {

  import opened Text

  type byte = x: int | 0 <= x < 256

  /** The number of bytes a sequence starting with lead byte `b` occupies. */
  function Width(b: byte): nat {
    if b < 0x80 then 1 else if b < 0xE0 then 2 else if b < 0xF0 then 3 else 4
  }

  predicate IsContinuation(b: byte) {
    0x80 <= b < 0xC0
  }

  /** The code point encoded by one well-formed sequence. */
  function DecodeOne(bs: seq<byte>): int
    requires 1 <= |bs| <= 4
  {
    var b := seq(|bs|, i requires 0 <= i < |bs| => bs[i] as int);
    if |b| == 1 then b[0]
    else if |b| == 2 then (b[0] - 0xC0) * 64 + (b[1] - 0x80)
    else if |b| == 3 then (b[0] - 0xE0) * 4096 + (b[1] - 0x80) * 64 + (b[2] - 0x80)
    else (b[0] - 0xF0) * 262144 + (b[1] - 0x80) * 4096 + (b[2] - 0x80) * 64 + (b[3] - 0x80)
  }

  /** The two-byte form, for code points from 0x80 to 0x7FF. */
  function EncodeTwo(cp: int): (bs: seq<byte>)
    requires 0x80 <= cp < 0x800
    ensures |bs| == 2 && Width(bs[0]) == 2 && IsContinuation(bs[1]) && DecodeOne(bs) == cp
  {
    var hi, lo := cp / 64, cp % 64;
    assert cp == hi * 64 + lo && 2 <= hi < 32;
    [0xC0 + hi, 0x80 + lo]
  }

  /** The three-byte form, for code points from 0x800 to 0xFFFF. */
  function EncodeThree(cp: int): (bs: seq<byte>)
    requires 0x800 <= cp < 0x10000
    ensures |bs| == 3 && Width(bs[0]) == 3 && IsContinuation(bs[1]) && IsContinuation(bs[2])
    ensures DecodeOne(bs) == cp
  {
    var q, lo := cp / 64, cp % 64;
    var hi, mid := q / 64, q % 64;
    assert cp == q * 64 + lo && q == hi * 64 + mid && hi < 16;
    [0xE0 + hi, 0x80 + mid, 0x80 + lo]
  }

  /** The four-byte form, for code points from 0x10000 to 0x10FFFF. */
  function EncodeFour(cp: int): (bs: seq<byte>)
    requires 0x10000 <= cp <= 0x10FFFF
    ensures |bs| == 4 && Width(bs[0]) == 4
    ensures IsContinuation(bs[1]) && IsContinuation(bs[2]) && IsContinuation(bs[3])
    ensures DecodeOne(bs) == cp
  {
    var q, lo := cp / 64, cp % 64;
    var r, mid := q / 64, q % 64;
    var hi, top := r / 64, r % 64;
    assert cp == q * 64 + lo && q == r * 64 + mid && r == hi * 64 + top && hi < 5;
    [0xF0 + hi, 0x80 + top, 0x80 + mid, 0x80 + lo]
  }

  /** The shortest encoding of one character: its lead byte announces its width, the other
      bytes are continuation bytes, and decoding gives the character back. No overlong form
      is used (section 3 of RFC 3629), so the width is fixed by the code point: one byte
      below U+0080, two below U+0800, three below U+10000, four above. */
  function EncodeChar(c: char): (bs: seq<byte>)
    ensures 1 <= |bs| <= 4
    ensures |bs| == 1 <==> c as int < 0x80
    ensures |bs| >= 3 ==> c as int >= 0x800
    ensures |bs| == 4 ==> c as int >= 0x10000
    ensures Width(bs[0]) == |bs|
    ensures forall i :: 1 <= i < |bs| ==> IsContinuation(bs[i])
    ensures DecodeOne(bs) == c as int
  {
    var cp := c as int;
    if cp < 0x80 then [cp]
    else if cp < 0x800 then EncodeTwo(cp)
    else if cp < 0x10000 then EncodeThree(cp)
    else EncodeFour(cp)
  }

  /** Python's `s.encode("utf-8")`. Each character takes one to four bytes, and ASCII text
      takes exactly one byte per character. */
  function Encode(s: string): (bs: seq<byte>)
    ensures |s| <= |bs| <= 4 * |s|
    ensures IsAscii(s) ==> |bs| == |s|
  {
    if s == [] then [] else EncodeChar(s[0]) + Encode(s[1..])
  }

  /** Decoding reads one lead byte, takes as many bytes as it announces, and goes on;
      a truncated sequence ends the result. */
  function Decode(bs: seq<byte>): seq<int>
    decreases |bs|
  {
    if bs == [] then []
    else
      var w := Width(bs[0]);
      if w > |bs| then [] else [DecodeOne(bs[..w])] + Decode(bs[w..])
  }

  function CodePoints(s: string): seq<int> {
    seq(|s|, i requires 0 <= i < |s| => s[i] as int)
  }

  /** Decoding undoes encoding. */
  lemma {:induction false} DecodeEncode(s: string)
    ensures Decode(Encode(s)) == CodePoints(s)
  {
    if s != [] {
      var e, rest := EncodeChar(s[0]), Encode(s[1..]);
      assert Encode(s) == e + rest;
      assert (e + rest)[0] == e[0];
      assert (e + rest)[..|e|] == e && (e + rest)[|e|..] == rest;
      DecodeEncode(s[1..]);
      assert CodePoints(s) == [s[0] as int] + CodePoints(s[1..]);
    }
  }
}
