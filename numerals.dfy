/** The two textual forms Python 2 gives an integer in the marshaller's
    output: `str(n)` (decimal, a leading '-' when negative) and `hex(n)`
    ("0x" and lower-case hexadecimal digits, "-0x" when negative).
    Each is paired with a reader, and the round-trip lemmas show the text
    loses nothing. */
module Numerals {
  import opened Basics

  /** The digits of `n` in `base`, most significant first, with no leading
      zero (zero itself is the single digit 0). */
  function Digits(n: nat, base: nat): (ds: seq<nat>)
    requires 2 <= base
    ensures |ds| > 0
    ensures forall k :: 0 <= k < |ds| ==> ds[k] < base
    decreases n
  {
    if n < base then [n] else DivStep(n, base); Digits(n / base, base) + [n % base]
  }

  /** Euclidean division facts for one digit step. */
  lemma DivStep(n: nat, base: nat)
    requires 2 <= base <= n
    ensures n / base < n && n % base < base
    ensures n == (n / base) * base + n % base
  {
  }

  /** The number a digit sequence (most significant first) denotes. */
  function ValueOf(ds: seq<nat>, base: nat): nat
  {
    if ds == [] then 0 else ValueOf(ds[..|ds| - 1], base) * base + ds[|ds| - 1]
  }

  lemma {:induction false} DigitsValue(n: nat, base: nat)
    requires 2 <= base
    ensures ValueOf(Digits(n, base), base) == n
    decreases n
  {
    if n >= base {
      DivStep(n, base);
      var ds := Digits(n / base, base);
      DigitsValue(n / base, base);
      assert (ds + [n % base])[..|ds|] == ds;
    }
  }

  function DigitChar(d: nat): char
    requires d < 16
  {
    if d < 10 then ('0' as int + d) as char else ('a' as int + d - 10) as char
  }

  function CharDigit(c: char): Option<nat>
  {
    if '0' <= c <= '9' then Some(c as int - '0' as int)
    else if 'a' <= c <= 'f' then Some(c as int - 'a' as int + 10)
    else None
  }

  predicate AllBelow(ds: seq<nat>, base: nat)
  {
    forall k :: 0 <= k < |ds| ==> ds[k] < base
  }

  /** The characters of a digit sequence. */
  function Spell(ds: seq<nat>): (s: string)
    requires AllBelow(ds, 16)
    ensures |s| == |ds|
  {
    if ds == [] then "" else [DigitChar(ds[0])] + Spell(ds[1..])
  }

  /** The digit sequence a string spells in `base`, if every character is a
      digit below `base`. */
  function Unspell(s: string, base: nat): Option<seq<nat>>
  {
    if s == [] then Some([])
    else match (CharDigit(s[0]), Unspell(s[1..], base))
      case (Some(d), Some(rest)) => if d < base then Some([d] + rest) else None
      case _ => None
  }

  lemma {:induction false} UnspellSpell(ds: seq<nat>, base: nat)
    requires base <= 16 && AllBelow(ds, base)
    ensures Unspell(Spell(ds), base) == Some(ds)
  {
    if ds != [] {
      UnspellSpell(ds[1..], base);
      assert Spell(ds)[1..] == Spell(ds[1..]);
      assert [ds[0]] + ds[1..] == ds;
    }
  }

  /** A non-empty run of digits in `base`, read as a number. */
  function ReadNat(s: string, base: nat): Option<nat>
  {
    if s == [] then None
    else match Unspell(s, base)
      case Some(ds) => Some(ValueOf(ds, base))
      case None => None
  }

  function Negate(r: Option<nat>): Option<int>
  {
    match r
    case Some(n) => Some(-(n as int))
    case None => None
  }

  function Widen(r: Option<nat>): Option<int>
  {
    match r
    case Some(n) => Some(n)
    case None => None
  }

  /** Python's `str(i)` for an integer. */
  function Decimal(i: int): string
  {
    if i < 0 then "-" + Spell(Digits(-i, 10)) else Spell(Digits(i, 10))
  }

  /** Python's `hex(i)` for an integer. */
  function Hex(i: int): string
  {
    if i < 0 then "-0x" + Spell(Digits(-i, 16)) else "0x" + Spell(Digits(i, 16))
  }

  function ReadDecimal(s: string): Option<int>
  {
    if |s| > 0 && s[0] == '-' then Negate(ReadNat(s[1..], 10)) else Widen(ReadNat(s, 10))
  }

  function ReadHex(s: string): Option<int>
  {
    if |s| >= 3 && s[..3] == "-0x" then Negate(ReadNat(s[3..], 16))
    else if |s| >= 2 && s[..2] == "0x" then Widen(ReadNat(s[2..], 16))
    else None
  }

  lemma ReadSpelled(n: nat, base: nat)
    requires 2 <= base <= 16
    ensures ReadNat(Spell(Digits(n, base)), base) == Some(n)
  {
    var ds := Digits(n, base);
    assert AllBelow(ds, base);
    UnspellSpell(ds, base);
    DigitsValue(n, base);
  }

  /** The first character of a spelled digit sequence is that digit's. */
  lemma SpellFirst(ds: seq<nat>)
    requires AllBelow(ds, 16) && ds != []
    ensures Spell(ds)[0] == DigitChar(ds[0])
  {
  }

  /** `str(i)` can be read back: decimal text loses nothing. */
  lemma DecimalRoundTrip(i: int)
    ensures ReadDecimal(Decimal(i)) == Some(i)
  {
    var n: nat := if i < 0 then -i else i;
    var ds := Digits(n, 10);
    var s := Spell(ds);
    ReadSpelled(n, 10);
    if i < 0 {
      var t := "-" + s;
      assert Decimal(i) == t;
      assert t[0] == '-' && t[1..] == s;
    } else {
      assert Decimal(i) == s;
      SpellFirst(ds);
      assert ds[0] < 10;
      assert s[0] != '-';
    }
  }

  /** `hex(i)` can be read back: hexadecimal text loses nothing. */
  lemma HexRoundTrip(i: int)
    ensures ReadHex(Hex(i)) == Some(i)
  {
    var n: nat := if i < 0 then -i else i;
    var s := Spell(Digits(n, 16));
    ReadSpelled(n, 16);
    if i < 0 {
      var t := "-0x" + s;
      assert Hex(i) == t;
      assert t[..3] == "-0x" && t[3..] == s;
    } else {
      var t := "0x" + s;
      assert Hex(i) == t;
      assert t[..2] == "0x" && t[2..] == s;
      assert t[0] == '0';
      assert |t| >= 3 ==> t[..3][0] == '0';
    }
  }

  /** Distinct integers have distinct decimal texts, so a `ref` or `idx`
      attribute names exactly one index. */
  lemma DecimalInjective(i: int, j: int)
    requires Decimal(i) == Decimal(j)
    ensures i == j
  {
    DecimalRoundTrip(i);
    DecimalRoundTrip(j);
  }
}
