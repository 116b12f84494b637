/**
 UTF-8 as section 3 of RFC 3629 defines it: how a text lies in bytes, and why a
 byte position can be told to start a character by looking at one byte.
 */
module Utf8 {
  type Byte = b: int | 0 <= b < 256

  function Encode(c: char): seq<Byte> {
    var n := c as int;
    if n < 0x80 then [n]
    else if n < 0x800 then [0xC0 + n / 64, 0x80 + n % 64]
    else if n < 0x10000 then [0xE0 + n / 4096, 0x80 + n / 64 % 64, 0x80 + n % 64]
    else [0xF0 + n / 262144, 0x80 + n / 4096 % 64, 0x80 + n / 64 % 64, 0x80 + n % 64]
  }

  /** The bytes of a text. */
  function Bytes(s: string): seq<Byte> {
    if s == [] then [] else Encode(s[0]) + Bytes(s[1..])
  }

  /** The byte where character `i` starts; the length in bytes for `i == |s|`. */
  function Offset(s: string, i: nat): nat
    requires i <= |s|
  {
    |Bytes(s[..i])|
  }

  predicate IsAscii(s: string) {
    forall i :: 0 <= i < |s| ==> s[i] as int < 0x80
  }

  predicate Continuation(b: Byte) {
    0x80 <= b < 0xC0
  }

  /** How many bytes the character starting with `b` takes. */
  function LengthOf(b: Byte): nat {
    if b < 0x80 then 1 else if b < 0xE0 then 2 else if b < 0xF0 then 3 else 4
  }

  /** Self-synchronisation: only the first byte of a character is not a continuation byte. */
  lemma EncodeShape(c: char)
    ensures 1 <= |Encode(c)| == LengthOf(Encode(c)[0])
    ensures !Continuation(Encode(c)[0])
    ensures forall k :: 0 < k < |Encode(c)| ==> Continuation(Encode(c)[k])
  {
  }

  /** The code point that a well-formed encoding spells. */
  function Decode(bs: seq<int>): int
    requires 1 <= |bs| <= 4
  {
    if |bs| == 1 then bs[0]
    else if |bs| == 2 then (bs[0] - 0xC0) * 64 + (bs[1] - 0x80)
    else if |bs| == 3 then (bs[0] - 0xE0) * 4096 + (bs[1] - 0x80) * 64 + (bs[2] - 0x80)
    else (bs[0] - 0xF0) * 262144 + (bs[1] - 0x80) * 4096 + (bs[2] - 0x80) * 64 + (bs[3] - 0x80)
  }

  lemma DecodeEncode(c: char)
    ensures Decode(Encode(c)) == c as int
  {
    var n := c as int;
    assert n / 4096 == n / 64 / 64;
    assert n / 262144 == n / 4096 / 64;
  }

  /** No character's bytes are the start of another's. */
  lemma EncodePrefixFree(c: char, d: char, x: seq<Byte>, y: seq<Byte>)
    requires Encode(c) + x == Encode(d) + y
    ensures c == d && x == y
  {
    EncodeShape(c);
    EncodeShape(d);
    var whole := Encode(c) + x;
    assert whole[0] == Encode(c)[0] == Encode(d)[0];
    var n := |Encode(c)|;
    assert Encode(c) == whole[..n] == Encode(d);
    assert x == whole[n..] == y;
    DecodeEncode(c);
    DecodeEncode(d);
  }

  lemma ConcatAssociates(x: seq<Byte>, y: seq<Byte>, z: seq<Byte>)
    ensures x + (y + z) == x + y + z
  {
  }

  lemma {:induction false} BytesConcat(a: string, b: string)
    ensures Bytes(a + b) == Bytes(a) + Bytes(b)
  {
    if a == [] {
      assert a + b == b;
    } else {
      BytesConcat(a[1..], b);
      assert (a + b)[0] == a[0] && (a + b)[1..] == a[1..] + b;
      ConcatAssociates(Encode(a[0]), Bytes(a[1..]), Bytes(b));
    }
  }

  lemma BytesSplit(s: string, i: nat)
    requires i <= |s|
    ensures Bytes(s) == Bytes(s[..i]) + Bytes(s[i..])
    ensures Bytes(s)[Offset(s, i)..] == Bytes(s[i..])
    ensures Offset(s, i) <= |Bytes(s)|
  {
    assert s == s[..i] + s[i..];
    BytesConcat(s[..i], s[i..]);
  }

  lemma OffsetSum(s: string, i: nat, j: nat)
    requires i + j <= |s|
    ensures Offset(s, i + j) == Offset(s, i) + Offset(s[i..], j)
  {
    assert s[..i + j] == s[..i] + s[i..][..j];
    BytesConcat(s[..i], s[i..][..j]);
  }

  lemma OffsetStep(s: string, i: nat)
    requires i < |s|
    ensures Offset(s, i + 1) == Offset(s, i) + |Encode(s[i])|
  {
    OffsetSum(s, i, 1);
    assert s[i..][..1] == [s[i]];
    assert Bytes([s[i]]) == Encode(s[i]) + Bytes([s[i]][1..]);
  }

  lemma {:induction false} OffsetMonotone(s: string, i: nat, j: nat)
    requires i <= j <= |s|
    ensures Offset(s, i) + (j - i) <= Offset(s, j) <= |Bytes(s)|
    decreases j - i
  {
    BytesSplit(s, j);
    if i < j {
      OffsetMonotone(s, i, j - 1);
      OffsetStep(s, j - 1);
      EncodeShape(s[j - 1]);
    }
  }

  /** Every byte strictly inside a character is a continuation byte. */
  lemma InsideIsContinuation(s: string, i: nat, b: nat)
    requires i < |s| && Offset(s, i) < b < Offset(s, i + 1)
    ensures b < |Bytes(s)| && Continuation(Bytes(s)[b])
  {
    OffsetStep(s, i);
    OffsetMonotone(s, i + 1, |s|);
    BytesSplit(s, i);
    EncodeShape(s[i]);
    var k := b - Offset(s, i);
    assert Bytes(s)[b] == Bytes(s[i..])[k] == Encode(s[i])[k];
  }

  lemma PrefixGivesBytes(s: string, p: string)
    requires p <= s
    ensures Bytes(p) <= Bytes(s)
  {
    BytesSplit(s, |p|);
    assert s[..|p|] == p;
  }

  lemma {:induction false} BytesGivePrefix(s: string, p: string, rest: seq<Byte>)
    requires Bytes(s) == Bytes(p) + rest
    ensures p <= s
    decreases |p|
  {
    if p != [] {
      EncodeShape(p[0]);
      var after := Bytes(p[1..]) + rest;
      assert Encode(s[0]) + Bytes(s[1..]) == Bytes(s) == Encode(p[0]) + after;
      EncodePrefixFree(s[0], p[0], Bytes(s[1..]), after);
      BytesGivePrefix(s[1..], p[1..], rest);
      assert p == [p[0]] + p[1..] && s == [s[0]] + s[1..];
    }
  }

  /** A text starts with a pattern exactly when its bytes start with the pattern's. */
  lemma PrefixIffBytes(s: string, p: string)
    ensures p <= s <==> Bytes(p) <= Bytes(s)
  {
    if p <= s {
      PrefixGivesBytes(s, p);
    }
    if Bytes(p) <= Bytes(s) {
      BytesGivePrefix(s, p, Bytes(s)[|Bytes(p)|..]);
    }
  }

  /** An ASCII text is one byte a character, and no other text is. */
  lemma {:induction false} AsciiIffOneByteEach(s: string)
    ensures |s| <= |Bytes(s)|
    ensures IsAscii(s) <==> |Bytes(s)| == |s|
  {
    if s != [] {
      AsciiIffOneByteEach(s[1..]);
      EncodeShape(s[0]);
      assert s == [s[0]] + s[1..];
      assert IsAscii(s) <==> s[0] as int < 0x80 && IsAscii(s[1..]);
    }
  }

  lemma AsciiOffset(s: string, i: nat)
    requires IsAscii(s) && i <= |s|
    ensures Offset(s, i) == i
  {
    AsciiIffOneByteEach(s[..i]);
  }
}
