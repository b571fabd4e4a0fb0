/** UTF-8 byte length of Rust strings.

    A Rust `String` is a sequence of Unicode scalar values stored as UTF-8,
    and `str::len` is the number of bytes of that storage. Dafny's `char`
    (with the default `--unicode-char`) is exactly a Unicode scalar value, so
    a Rust string is modelled as a Dafny `string`, and its byte length is the
    sum of the UTF-8 widths of its scalars. `Encode` spells the bytes out so
    that the length is the length of an actual shortest-form encoding, not a
    number that merely has the right bounds.
 */
module Utf8 {

  type byte = b: int | 0 <= b < 0x100

  /** True when every scalar of `s` is in the ASCII range. */
  predicate IsAscii(s: string) {
    forall i :: 0 <= i < |s| ==> s[i] as int < 0x80
  }

  /** Number of bytes UTF-8 spends on the scalar `c` (one to four). */
  function Width(c: char): (w: nat)
    ensures 1 <= w <= 4
    ensures w == 1 <==> c as int < 0x80
  {
    if c as int < 0x80 then 1
    else if c as int < 0x800 then 2
    else if c as int < 0x1_0000 then 3
    else 4
  }

  /** Byte length of `s` as Rust's `str::len` reports it. It is never less
      than the scalar count, never more than four times it, and equal to it
      exactly when `s` is pure ASCII. */
  function Len(s: string): (n: nat)
    ensures |s| <= n <= 4 * |s|
    ensures n == |s| <==> IsAscii(s)
  {
    if s == [] then 0
    else
      var n := Width(s[0]) + Len(s[1..]);
      assert IsAscii(s) <==> s[0] as int < 0x80 && IsAscii(s[1..]) by {
        if s[0] as int < 0x80 && IsAscii(s[1..]) {
          forall i | 0 <= i < |s| ensures s[i] as int < 0x80 {
            if i > 0 { assert s[i] == s[1..][i - 1]; }
          }
        }
      }
      n
  }

  /** True when `b` is a UTF-8 continuation byte (0b10xx_xxxx). */
  predicate IsContinuation(b: byte) {
    0x80 <= b < 0xC0
  }

  /** The UTF-8 encoding of one scalar value (section 3 of RFC 3629): the
      shortest form, since a sequence of two, three or four bytes is used
      only for a scalar too large for the shorter ones. */
  function EncodeChar(c: char): (bs: seq<byte>)
    ensures |bs| == Width(c)
    ensures |bs| >= 2 ==> c as int >= 0x80
    ensures |bs| >= 3 ==> c as int >= 0x800
    ensures |bs| == 4 ==> c as int >= 0x1_0000
    ensures |bs| == 1 ==> bs[0] < 0x80
    ensures |bs| == 2 ==> 0xC0 <= bs[0] < 0xE0
    ensures |bs| == 3 ==> 0xE0 <= bs[0] < 0xF0
    ensures |bs| == 4 ==> 0xF0 <= bs[0] < 0xF8
    ensures forall i :: 1 <= i < |bs| ==> IsContinuation(bs[i])
    ensures DecodeChar(bs) == c as int
  {
    var v := c as int;
    if v < 0x80 then [v]
    else if v < 0x800 then
      [0xC0 + v / 0x40, 0x80 + v % 0x40]
    else if v < 0x1_0000 then
      SplitLow12(v);
      [0xE0 + v / 0x1000, 0x80 + (v / 0x40) % 0x40, 0x80 + v % 0x40]
    else
      SplitLow12(v);
      SplitLow18(v);
      [0xF0 + v / 0x4_0000, 0x80 + (v / 0x1000) % 0x40, 0x80 + (v / 0x40) % 0x40, 0x80 + v % 0x40]
  }

  /** The scalar value a one-to-four byte UTF-8 sequence stands for, read
      from its lead byte's length marker and the six payload bits of each
      continuation byte. It is the reference the encoder is checked against. */
  function DecodeChar(bs: seq<byte>): int {
    if |bs| == 1 then bs[0]
    else if |bs| == 2 then
      (bs[0] as int - 0xC0) * 0x40 + (bs[1] as int - 0x80)
    else if |bs| == 3 then
      (bs[0] as int - 0xE0) * 0x1000 + (bs[1] as int - 0x80) * 0x40 + (bs[2] as int - 0x80)
    else if |bs| == 4 then
      (bs[0] as int - 0xF0) * 0x4_0000 + (bs[1] as int - 0x80) * 0x1000 + (bs[2] as int - 0x80) * 0x40 + (bs[3] as int - 0x80)
    else -1
  }

  lemma SplitLow12(v: nat)
    ensures v / 0x40 == (v / 0x1000) * 0x40 + (v / 0x40) % 0x40
    ensures v == (v / 0x1000) * 0x1000 + ((v / 0x40) % 0x40) * 0x40 + v % 0x40
  {
    var q := v / 0x40;
    assert q == (q / 0x40) * 0x40 + q % 0x40;
    assert q / 0x40 == v / 0x1000;
  }

  lemma SplitLow18(v: nat)
    ensures v / 0x1000 == (v / 0x4_0000) * 0x40 + (v / 0x1000) % 0x40
  {
    var q := v / 0x1000;
    assert q == (q / 0x40) * 0x40 + q % 0x40;
    assert q / 0x40 == v / 0x4_0000;
  }

  /** The UTF-8 bytes of a whole string: the encodings of its scalars, in
      order. Its length is `Len(s)`, so `Len` is the byte length of a real
      encoding. */
  function Encode(s: string): (bs: seq<byte>)
    ensures |bs| == Len(s)
  {
    if s == [] then [] else EncodeChar(s[0]) + Encode(s[1..])
  }

  /** Byte length is additive over concatenation. */
  lemma {:induction false} LenAppend(a: string, b: string)
    ensures Len(a + b) == Len(a) + Len(b)
  {
    if a == [] {
      assert a + b == b;
    } else {
      assert (a + b)[0] == a[0];
      assert (a + b)[1..] == a[1..] + b;
      LenAppend(a[1..], b);
    }
  }

  /** Encoding is a homomorphism from concatenation of strings to
      concatenation of byte sequences. */
  lemma {:induction false} EncodeAppend(a: string, b: string)
    ensures Encode(a + b) == Encode(a) + Encode(b)
  {
    if a == [] {
      assert a + b == b;
    } else {
      assert (a + b)[0] == a[0];
      assert (a + b)[1..] == a[1..] + b;
      EncodeAppend(a[1..], b);
    }
  }

  /** A pure-ASCII string is encoded as its own scalar values. */
  lemma {:induction false} EncodeAscii(s: string)
    requires IsAscii(s)
    ensures |Encode(s)| == |s|
    ensures forall i :: 0 <= i < |s| ==> Encode(s)[i] == s[i] as int
  {
    if s != [] {
      assert IsAscii(s[1..]) by {
        forall i | 0 <= i < |s[1..]| ensures s[1..][i] as int < 0x80 {
          assert s[1..][i] == s[i + 1];
        }
      }
      EncodeAscii(s[1..]);
    }
  }
}
