/**
 * Bytes as the splitter reads them: unsigned big-endian integers at fixed
 * offsets and the ASCII decoding Node applies to chunk tags and text.
 */
module Bytes {

  /** One octet of input. */
  type byte = b: int | 0 <= b < 256

  /** The unsigned 16-bit big-endian integer stored at `s[i..i+2]`. */
  function U16(s: seq<byte>, i: nat): (v: nat)
    requires i + 2 <= |s|
    ensures v < 0x1_0000
  {
    (s[i] as int) * 0x100 + s[i + 1] as int
  }

  /** The unsigned 32-bit big-endian integer stored at `s[i..i+4]`. */
  function U32(s: seq<byte>, i: nat): (v: nat)
    requires i + 4 <= |s|
    ensures v < 0x1_0000_0000
  {
    U16(s, i) * 0x1_0000 + U16(s, i + 2)
  }

  /** The two bytes that store `v` in big-endian order. */
  function BE16(v: nat): (r: seq<byte>)
    requires v < 0x1_0000
    ensures |r| == 2
  {
    [v / 0x100, v % 0x100]
  }

  /** The four bytes that store `v` in big-endian order. */
  function BE32(v: nat): (r: seq<byte>)
    requires v < 0x1_0000_0000
    ensures |r| == 4
  {
    BE16(v / 0x1_0000) + BE16(v % 0x1_0000)
  }

  /** Reading back what `BE16` wrote gives the original value. */
  lemma U16OfBE16(v: nat)
    requires v < 0x1_0000
    ensures U16(BE16(v), 0) == v
  {
  }

  /** Reading back what `BE32` wrote gives the original value. */
  lemma U32OfBE32(v: nat)
    requires v < 0x1_0000_0000
    ensures U32(BE32(v), 0) == v
  {
    var r := BE32(v);
    U16OfBE16(v / 0x1_0000);
    U16OfBE16(v % 0x1_0000);
    assert r[..2] == BE16(v / 0x1_0000) && r[2..] == BE16(v % 0x1_0000);
    assert U16(r, 0) == U16(r[..2], 0);
    assert U16(r, 2) == U16(r[2..], 0);
  }

  /** Every four bytes are the big-endian encoding of the value read from them. */
  lemma BE32OfU32(s: seq<byte>, i: nat)
    requires i + 4 <= |s|
    ensures BE32(U32(s, i)) == s[i..i + 4]
  {
    var hi := U16(s, i);
    var lo := U16(s, i + 2);
    assert U32(s, i) / 0x1_0000 == hi;
    assert U32(s, i) % 0x1_0000 == lo;
  }

  /** The character Node's 'ascii' decoding yields for one byte: the high bit is dropped. */
  function AsciiChar(b: byte): (c: char)
    ensures c as int < 128
  {
    (b % 128) as char
  }

  /** Node's 'ascii' decoding of a byte range. */
  function Ascii(s: seq<byte>): (r: string)
    ensures |r| == |s|
    ensures forall i :: 0 <= i < |s| ==> r[i] == AsciiChar(s[i])
  {
    seq(|s|, i requires 0 <= i < |s| => AsciiChar(s[i]))
  }

  /** A string made of 7-bit characters only. */
  predicate SevenBit(t: string)
  {
    forall i :: 0 <= i < |t| ==> t[i] as int < 128
  }

  /** The bytes of a 7-bit string. */
  function AsciiBytes(t: string): (r: seq<byte>)
    requires SevenBit(t)
    ensures |r| == |t|
  {
    seq(|t|, i requires 0 <= i < |t| => t[i] as int)
  }

  /** Decoding the bytes of a 7-bit string gives the string back. */
  lemma AsciiOfAsciiBytes(t: string)
    requires SevenBit(t)
    ensures Ascii(AsciiBytes(t)) == t
  {
    var r := Ascii(AsciiBytes(t));
    forall i | 0 <= i < |t|
      ensures r[i] == t[i]
    {
      assert AsciiBytes(t)[i] == t[i] as int;
    }
  }

  /** Two byte ranges that agree on their low seven bits decode to the same string. */
  lemma AsciiIgnoresHighBit(s: seq<byte>, s': seq<byte>)
    requires |s| == |s'|
    requires forall i :: 0 <= i < |s| ==> s[i] % 128 == s'[i] % 128
    ensures Ascii(s) == Ascii(s')
  {
  }
}
