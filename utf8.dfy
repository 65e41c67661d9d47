/** Which byte strings Python 2.7's `str.decode('utf-8')` accepts.
    This is the UTF-8 syntax of section 4 of RFC 3629, with one difference
    the Python 2.7 codec has: the three-byte forms led by 0xED may encode a
    surrogate (second byte 0xA0-0xBF), which the RFC excludes. */
module Utf8 {
  import opened Basics

  predicate IsTail(b: byte) { 0x80 <= b <= 0xBF }

  /** The length of the well-formed character that starts `d`, 0 when none
      does (a bad lead byte, a bad or missing continuation byte, an
      overlong or out-of-range form). */
  function CharLength(d: seq<byte>): (n: nat)
    requires |d| > 0
    ensures n <= 4 && n <= |d|
  {
    var b0 := d[0];
    if b0 < 0x80 then 1
    else if 0xC2 <= b0 <= 0xDF then
      if |d| >= 2 && IsTail(d[1]) then 2 else 0
    else if 0xE0 <= b0 <= 0xEF then
      if |d| >= 3 && IsTail(d[1]) && IsTail(d[2]) && (b0 != 0xE0 || d[1] >= 0xA0) then 3 else 0
    else if 0xF0 <= b0 <= 0xF4 then
      if |d| >= 4 && IsTail(d[1]) && IsTail(d[2]) && IsTail(d[3])
         && (b0 != 0xF0 || d[1] >= 0x90) && (b0 != 0xF4 || d[1] <= 0x8F)
      then 4 else 0
    else 0
  }

  /** The whole string decodes: it is a sequence of well-formed characters. */
  predicate Valid(d: seq<byte>)
    decreases |d|
  {
    d == [] || (CharLength(d) > 0 && Valid(d[CharLength(d)..]))
  }

  /** The encoding of one code point (the reference definition of UTF-8). */
  function EncodePoint(cp: nat): (e: seq<byte>)
    requires cp <= 0x10FFFF
    ensures 1 <= |e| <= 4
  {
    if cp < 0x80 then [cp as byte]
    else if cp < 0x800 then [(0xC0 + cp / 64) as byte, (0x80 + cp % 64) as byte]
    else if cp < 0x10000 then
      [(0xE0 + cp / 4096) as byte, (0x80 + (cp / 64) % 64) as byte, (0x80 + cp % 64) as byte]
    else
      [(0xF0 + cp / 262144) as byte, (0x80 + (cp / 4096) % 64) as byte,
       (0x80 + (cp / 64) % 64) as byte, (0x80 + cp % 64) as byte]
  }

  predicate InRange(cps: seq<nat>) { forall k :: 0 <= k < |cps| ==> cps[k] <= 0x10FFFF }

  function Encode(cps: seq<nat>): seq<byte>
    requires InRange(cps)
  {
    if cps == [] then [] else EncodePoint(cps[0]) + Encode(cps[1..])
  }

  /** The bounds on the pieces of a three-byte encoding. */
  lemma Pieces3(cp: nat)
    requires 0x800 <= cp < 0x10000
    ensures cp / 4096 < 16 && (cp / 4096 == 0 ==> (cp / 64) % 64 >= 32)
  {
  }

  /** The bounds on the pieces of a four-byte encoding. */
  lemma Pieces4(cp: nat)
    requires 0x10000 <= cp <= 0x10FFFF
    ensures cp / 262144 <= 4
    ensures cp / 262144 == 0 ==> (cp / 4096) % 64 >= 16
    ensures cp / 262144 == 4 ==> (cp / 4096) % 64 <= 15
  {
  }

  lemma Point3Length(cp: nat)
    requires 0x800 <= cp < 0x10000
    ensures CharLength(EncodePoint(cp)) == 3
  {
    Pieces3(cp);
    var e := EncodePoint(cp);
    assert e[0] == (0xE0 + cp / 4096) as byte && e[1] == (0x80 + (cp / 64) % 64) as byte;
  }

  lemma Point4Length(cp: nat)
    requires 0x10000 <= cp <= 0x10FFFF
    ensures CharLength(EncodePoint(cp)) == 4
  {
    Pieces4(cp);
    var e := EncodePoint(cp);
    assert e[0] == (0xF0 + cp / 262144) as byte && e[1] == (0x80 + (cp / 4096) % 64) as byte;
  }

  lemma PointLength(cp: nat)
    requires cp <= 0x10FFFF
    ensures CharLength(EncodePoint(cp)) == |EncodePoint(cp)|
  {
    if 0x800 <= cp < 0x10000 {
      Point3Length(cp);
    } else if 0x10000 <= cp {
      Point4Length(cp);
    }
  }

  lemma PointValid(cp: nat)
    requires cp <= 0x10FFFF
    ensures Valid(EncodePoint(cp))
  {
    var e := EncodePoint(cp);
    PointLength(cp);
    assert e[|e|..] == [];
  }

  /** The first character of `a` is read the same way when more bytes follow. */
  lemma CharLengthPrefix(a: seq<byte>, b: seq<byte>)
    requires |a| > 0 && CharLength(a) > 0
    ensures CharLength(a + b) == CharLength(a)
  {
    var n := CharLength(a);
    assert forall k :: 0 <= k < n ==> (a + b)[k] == a[k];
  }

  lemma {:induction false} ValidConcat(a: seq<byte>, b: seq<byte>)
    requires Valid(a) && Valid(b)
    ensures Valid(a + b)
    decreases |a|
  {
    if a == [] {
      assert a + b == b;
    } else {
      var n := CharLength(a);
      CharLengthPrefix(a, b);
      ValidConcat(a[n..], b);
      var ab := a + b;
      assert ab[n..] == a[n..] + b;
      assert CharLength(ab) == n && Valid(ab[n..]);
    }
  }

  /** Every UTF-8 encoding of code points decodes. */
  lemma {:induction false} EncodedIsValid(cps: seq<nat>)
    requires InRange(cps)
    ensures Valid(Encode(cps))
  {
    if cps != [] {
      PointValid(cps[0]);
      EncodedIsValid(cps[1..]);
      ValidConcat(EncodePoint(cps[0]), Encode(cps[1..]));
    }
  }

  /** Seven-bit ASCII always decodes. */
  lemma {:induction false} AsciiIsValid(d: seq<byte>)
    requires forall k :: 0 <= k < |d| ==> d[k] < 0x80
    ensures Valid(d)
    decreases |d|
  {
    if d != [] {
      AsciiIsValid(d[1..]);
    }
  }
}
