/** Base 64 encoding with the standard alphabet and '=' padding, section 4 of
    RFC 4648, as Python's `base64.b64encode` produces it, and the decoder
    that undoes it. */
module Base64 {
  import opened Basics

  /** The character for a 6-bit value: A-Z, a-z, 0-9, '+', '/'. */
  function IndexChar(k: nat): char
    requires k < 64
  {
    if k < 26 then ('A' as int + k) as char
    else if k < 52 then ('a' as int + k - 26) as char
    else if k < 62 then ('0' as int + k - 52) as char
    else if k == 62 then '+'
    else '/'
  }

  /** The 6-bit value of an alphabet character. */
  function CharIndex(c: char): Option<nat>
  {
    if 'A' <= c <= 'Z' then Some(c as int - 'A' as int)
    else if 'a' <= c <= 'z' then Some(c as int - 'a' as int + 26)
    else if '0' <= c <= '9' then Some(c as int - '0' as int + 52)
    else if c == '+' then Some(62)
    else if c == '/' then Some(63)
    else None
  }

  lemma CharIndexOf(k: nat)
    requires k < 64
    ensures CharIndex(IndexChar(k)) == Some(k)
  {
  }

  /** Four characters for three bytes. */
  function Chars3(a: byte, b: byte, c: byte): (g: string)
    ensures |g| == 4
  {
    [IndexChar(a as nat / 4), IndexChar((a as nat % 4) * 16 + b as nat / 16),
     IndexChar((b as nat % 16) * 4 + c as nat / 64), IndexChar(c as nat % 64)]
  }

  /** Three characters and one '=' for a final pair of bytes. */
  function Chars2(a: byte, b: byte): (g: string)
    ensures |g| == 4
  {
    [IndexChar(a as nat / 4), IndexChar((a as nat % 4) * 16 + b as nat / 16),
     IndexChar((b as nat % 16) * 4), '=']
  }

  /** Two characters and "==" for a final single byte. */
  function Chars1(a: byte): (g: string)
    ensures |g| == 4
  {
    [IndexChar(a as nat / 4), IndexChar((a as nat % 4) * 16), '=', '=']
  }

  /** The encoding: each group of three bytes becomes four characters; a
      final group of one or two bytes is padded with '='. */
  function Encode(d: seq<byte>): (s: string)
    ensures |s| % 4 == 0
    decreases |d|
  {
    if |d| == 0 then ""
    else if |d| == 1 then Chars1(d[0])
    else if |d| == 2 then Chars2(d[0], d[1])
    else Chars3(d[0], d[1], d[2]) + Encode(d[3..])
  }

  /** Decodes one group of four characters into one to three bytes; padding
      is accepted only in the last group. */
  function DecodeGroup(g: string, last: bool): Option<seq<byte>>
    requires |g| == 4
  {
    match (CharIndex(g[0]), CharIndex(g[1]), CharIndex(g[2]), CharIndex(g[3]))
    case (Some(a), Some(b), Some(c), Some(e)) =>
      Some([(a * 4 + b / 16) as byte, ((b % 16) * 16 + c / 4) as byte, ((c % 4) * 64 + e) as byte])
    case (Some(a), Some(b), Some(c), None) =>
      if last && g[3] == '=' then Some([(a * 4 + b / 16) as byte, ((b % 16) * 16 + c / 4) as byte])
      else None
    case (Some(a), Some(b), None, None) =>
      if last && g[2] == '=' && g[3] == '=' then Some([(a * 4 + b / 16) as byte]) else None
    case _ => None
  }

  /** Decodes a whole text; None when it is not a valid encoding. */
  function Decode(s: string): Option<seq<byte>>
    decreases |s|
  {
    if |s| == 0 then Some([])
    else if |s| < 4 then None
    else match (DecodeGroup(s[..4], |s| == 4), Decode(s[4..]))
      case (Some(g), Some(rest)) => Some(g + rest)
      case _ => None
  }

  /** A 6-bit value made of a high and a low part splits back into them. */
  lemma Pieces16(hi: nat, lo: nat)
    requires lo < 16
    ensures (hi * 16 + lo) / 16 == hi && (hi * 16 + lo) % 16 == lo
  {
  }

  lemma Pieces4(hi: nat, lo: nat)
    requires lo < 4
    ensures (hi * 4 + lo) / 4 == hi && (hi * 4 + lo) % 4 == lo
  {
  }

  lemma Group3(a: byte, b: byte, c: byte, last: bool)
    ensures DecodeGroup(Chars3(a, b, c), last) == Some([a, b, c])
  {
    var x, y, z := a as nat, b as nat, c as nat;
    Pieces16(x % 4, y / 16);
    Pieces4(y % 16, z / 64);
    CharIndexOf(x / 4);
    CharIndexOf((x % 4) * 16 + y / 16);
    CharIndexOf((y % 16) * 4 + z / 64);
    CharIndexOf(z % 64);
  }

  lemma Group2(a: byte, b: byte)
    ensures DecodeGroup(Chars2(a, b), true) == Some([a, b])
  {
    var x, y := a as nat, b as nat;
    Pieces16(x % 4, y / 16);
    CharIndexOf(x / 4);
    CharIndexOf((x % 4) * 16 + y / 16);
    CharIndexOf((y % 16) * 4);
  }

  lemma Group1(a: byte)
    ensures DecodeGroup(Chars1(a), true) == Some([a])
  {
    CharIndexOf(a as nat / 4);
    CharIndexOf((a as nat % 4) * 16);
  }

  /** Decoding reads a leading group and then the rest. */
  lemma DecodeFront(g: string, rest: string, bytes: seq<byte>, tail: seq<byte>)
    requires |g| == 4 && DecodeGroup(g, |rest| == 0) == Some(bytes) && Decode(rest) == Some(tail)
    ensures Decode(g + rest) == Some(bytes + tail)
  {
    assert (g + rest)[..4] == g && (g + rest)[4..] == rest;
  }

  lemma RoundTrip1(d: seq<byte>)
    requires |d| == 1
    ensures Decode(Encode(d)) == Some(d)
  {
    Group1(d[0]);
    DecodeFront(Chars1(d[0]), "", [d[0]], []);
    assert Chars1(d[0]) + "" == Encode(d);
    assert [d[0]] + [] == d;
  }

  lemma RoundTrip2(d: seq<byte>)
    requires |d| == 2
    ensures Decode(Encode(d)) == Some(d)
  {
    Group2(d[0], d[1]);
    DecodeFront(Chars2(d[0], d[1]), "", [d[0], d[1]], []);
    assert Chars2(d[0], d[1]) + "" == Encode(d);
    assert [d[0], d[1]] + [] == d;
  }

  /** A leading group of three bytes decodes in front of the rest. */
  lemma RoundTrip3(d: seq<byte>, tail: seq<byte>)
    requires |d| >= 3 && Decode(Encode(d[3..])) == Some(tail)
    ensures Decode(Encode(d)) == Some([d[0], d[1], d[2]] + tail)
  {
    var g, rest := Chars3(d[0], d[1], d[2]), Encode(d[3..]);
    assert Encode(d) == g + rest;
    Group3(d[0], d[1], d[2], |rest| == 0);
    DecodeFront(g, rest, [d[0], d[1], d[2]], tail);
  }

  lemma Split3(d: seq<byte>)
    requires |d| >= 3
    ensures [d[0], d[1], d[2]] + d[3..] == d
  {
    assert ([d[0], d[1], d[2]] + d[3..])[..3] == d[..3];
  }

  lemma RoundTripStep(d: seq<byte>)
    requires |d| >= 3 && Decode(Encode(d[3..])) == Some(d[3..])
    ensures Decode(Encode(d)) == Some(d)
  {
    Split3(d);
    RoundTrip3(d, d[3..]);
  }

  /** Base 64 loses nothing: decoding an encoding gives the bytes back. */
  lemma {:induction false} DecodeEncode(d: seq<byte>)
    ensures Decode(Encode(d)) == Some(d)
    decreases |d|
  {
    if |d| == 1 {
      RoundTrip1(d);
    } else if |d| == 2 {
      RoundTrip2(d);
    } else if |d| >= 3 {
      DecodeEncode(d[3..]);
      RoundTripStep(d);
    }
  }
}
