/** Numbers written in a base, most significant digit first. */
module Numerals {
  import opened Words
  import opened Wrappers

  type U32 = x: int | 0 <= x < 0x1_0000_0000
  type Base = b: int | 2 <= b <= 16 witness 2

  /** The character of a digit; ten and up are letters, capital or not. */
  function DigitChar(d: int, capital: bool): (c: Byte)
    requires 0 <= d < 16
    ensures c != 0
  {
    if d < 10 then 0x30 + d else if capital then 0x41 + d - 10 else 0x61 + d - 10
  }

  /** The value of a digit character, as the conversion from text reads it. */
  function DigitValue(c: Byte): Option<int> {
    if 0x61 <= c <= 0x66 then Some(c + 10 - 0x61)
    else if 0x41 <= c <= 0x46 then Some(c + 10 - 0x41)
    else if 0x30 <= c <= 0x39 then Some(c - 0x30)
    else None
  }

  lemma DigitBack(d: int, capital: bool)
    requires 0 <= d < 16
    ensures DigitValue(DigitChar(d, capital)) == Some(d)
  {
  }

  /** All but the last digit of a number, and its last digit. */
  function Quot(n: nat, base: Base): (q: nat)
    ensures n > 0 ==> q < n
  {
    n / base
  }

  function Rem(n: nat, base: Base): (r: nat)
    ensures r < base
  {
    n % base
  }

  /** The digits of a number; none for zero. */
  function Digits(n: nat, base: Base, capital: bool): seq<Byte>
    decreases n
  {
    if n == 0 then [] else Digits(Quot(n, base), base, capital) + [DigitChar(Rem(n, base), capital)]
  }

  /** The digits as they come out of repeated division: least significant first. */
  function LowFirst(n: nat, base: Base, capital: bool): seq<Byte>
    decreases n
  {
    if n == 0 then [] else [DigitChar(Rem(n, base), capital)] + LowFirst(Quot(n, base), base, capital)
  }

  lemma LowFirstStep(n: nat, base: Base, capital: bool)
    requires n != 0
    ensures var low := LowFirst(n, base, capital);
      low != [] && low[0] == DigitChar(Rem(n, base), capital) && low[1..] == LowFirst(Quot(n, base), base, capital)
  {
    hide Quot, Rem;
  }

  lemma NoDigits(base: Base, capital: bool)
    ensures LowFirst(0, base, capital) == []
  {
  }

  function Reversed(s: seq<Byte>): (r: seq<Byte>)
    ensures |r| == |s| && forall i :: 0 <= i < |s| ==> r[i] == s[|s| - 1 - i]
  {
    seq(|s|, i requires 0 <= i < |s| => s[|s| - 1 - i])
  }

  lemma {:induction false} LowFirstReversed(n: nat, base: Base, capital: bool)
    ensures Reversed(LowFirst(n, base, capital)) == Digits(n, base, capital)
    decreases n
  {
    hide Quot, Rem;
    if n != 0 {
      LowFirstReversed(Quot(n, base), base, capital);
      var rest, d := LowFirst(Quot(n, base), base, capital), DigitChar(Rem(n, base), capital);
      assert Reversed([d] + rest) == Reversed(rest) + [d];
    } else {
      assert Reversed([]) == [];
    }
  }

  /** Every character is a digit of the base. */
  predicate Numeral(s: seq<Byte>, base: Base) {
    forall i :: 0 <= i < |s| ==> DigitValue(s[i]).Some? && DigitValue(s[i]).value < base
  }

  /** The number a numeral denotes. */
  function Denoted(s: seq<Byte>, base: Base): nat
    requires Numeral(s, base)
    decreases |s|
  {
    if s == [] then 0
    else
      var k := |s| - 1;
      assert Numeral(s[..k], base);
      Denoted(s[..k], base) * base + DigitValue(s[k]).value
  }

  /** The digits of a number denote it. */
  lemma {:induction false} DigitsDenote(n: nat, base: Base, capital: bool)
    ensures Numeral(Digits(n, base, capital), base) && Denoted(Digits(n, base, capital), base) == n
    decreases n
  {
    hide Denoted, Numeral, DigitValue, DigitChar, Quot, Rem;
    if n == 0 {
      EmptyNumeral(base);
    }
    if n != 0 {
      DigitsDenote(Quot(n, base), base, capital);
      DigitBack(Rem(n, base), capital);
      DenotedMore(Digits(Quot(n, base), base, capital), DigitChar(Rem(n, base), capital), base);
      DivMod(n, base);
    }
  }

  lemma EmptyNumeral(base: Base)
    ensures Numeral([], base) && Denoted([], base) == 0
  {
  }

  lemma DivMod(n: nat, base: Base)
    ensures n == Quot(n, base) * base + Rem(n, base)
  {
  }

  lemma DenotedMore(front: seq<Byte>, c: Byte, base: Base)
    requires Numeral(front, base) && DigitValue(c).Some? && DigitValue(c).value < base
    ensures Numeral(front + [c], base)
    ensures Denoted(front + [c], base) == Denoted(front, base) * base + DigitValue(c).value
  {
    assert (front + [c])[..|front|] == front;
  }

  /** The first digit of a number is not zero. */
  lemma {:induction false} FirstDigit(n: nat, base: Base, capital: bool)
    requires n != 0
    ensures Digits(n, base, capital) != [] && Digits(n, base, capital)[0] != 0x30
    decreases n
  {
    hide Quot, Rem;
    if Quot(n, base) != 0 {
      FirstDigit(Quot(n, base), base, capital);
    } else {
      Small(n, base);
    }
  }

  lemma Small(n: nat, base: Base)
    requires Quot(n, base) == 0
    ensures Rem(n, base) == n
  {
  }

  lemma {:induction false} NoNul(n: nat, base: Base, capital: bool)
    ensures 0 !in Digits(n, base, capital)
    decreases n
  {
    hide Quot, Rem;
    if n != 0 {
      NoNul(Quot(n, base), base, capital);
    }
  }

  // ----- What it is to write a number -----

  /** A digit as one would write it, with small letters or capitals. */
  predicate Written(c: Byte, capital: bool) {
    0x30 <= c <= 0x39 || (if capital then 0x41 <= c <= 0x46 else 0x61 <= c <= 0x66)
  }

  /** The text writes the number: digits of the base, no needless zero in front, denoting it. */
  predicate Writes(s: seq<Byte>, n: nat, base: Base, capital: bool) {
    && s != [] && (forall i :: 0 <= i < |s| ==> Written(s[i], capital)) && Numeral(s, base)
    && (s[0] == 0x30 ==> |s| == 1) && Denoted(s, base) == n
  }

  lemma MoreTimes(base: Base, q: nat, q': nat)
    ensures q < q' ==> base * q' >= base * q + base
  {
    if q < q' {
      assert base * q' == base * q + base * (q' - q);
      assert base * (q' - q) == base + base * (q' - q - 1);
    }
  }

  lemma QuotientUnique(n: nat, q: nat, r: nat, base: Base)
    requires n == q * base + r && r < base
    ensures Quot(n, base) == q && Rem(n, base) == r
  {
    DivMod(n, base);
    MoreTimes(base, q, Quot(n, base));
    MoreTimes(base, Quot(n, base), q);
  }

  lemma DigitCharBack(c: Byte, capital: bool)
    requires Written(c, capital)
    ensures DigitValue(c).Some? && 0 <= DigitValue(c).value < 16 && DigitChar(DigitValue(c).value, capital) == c
    ensures DigitValue(c).value == 0 ==> c == 0x30
  {
  }

  /** A text that does not start with zero denotes more than zero. */
  lemma {:induction false} DenotesMore(s: seq<Byte>, base: Base, capital: bool)
    requires s != [] && Numeral(s, base) && s[0] != 0x30 && Written(s[0], capital)
    ensures Denoted(s, base) > 0
    decreases |s|
  {
    hide DigitValue, Denoted;
    DigitCharBack(s[0], capital);
    NumeralFront(s, base);
    var k := |s| - 1;
    AtLeast(Denoted(s[..k], base), base);
    ValueNatural(s[k]);
    if k > 0 {
      DenotesMore(s[..k], base, capital);
    }
  }

  lemma AtLeast(x: nat, base: Base)
    ensures x * base >= 0 && (x > 0 ==> x * base > 0)
  {
  }

  lemma ValueNatural(c: Byte)
    ensures DigitValue(c).Some? ==> DigitValue(c).value >= 0
  {
  }

  lemma LastDigit(s: seq<Byte>, n: nat, base: Base)
    requires s != [] && Numeral(s, base) && Denoted(s, base) == n
    ensures var k := |s| - 1;
      && Numeral(s[..k], base) && DigitValue(s[k]).Some?
      && Quot(n, base) == Denoted(s[..k], base) && Rem(n, base) == DigitValue(s[k]).value
      && (n == 0 ==> Quot(n, base) == 0)
  {
    hide Denoted, Numeral;
    NumeralFront(s, base);
    ValueNatural(s[|s| - 1]);
    QuotientUnique(n, Denoted(s[..|s| - 1], base), DigitValue(s[|s| - 1]).value, base);
  }

  /** There is one way to write a number. */
  lemma {:induction false} WritesUnique(s: seq<Byte>, n: nat, base: Base, capital: bool)
    requires Writes(s, n, base, capital)
    ensures s == if n == 0 then [0x30] else Digits(n, base, capital)
    decreases |s|
  {
    hide Quot, Rem, DigitValue, DigitChar, Denoted, Numeral;
    var k := |s| - 1;
    var f, c := s[..k], s[k];
    assert s == f + [c];
    DigitCharBack(c, capital);
    LastDigit(s, n, base);
    if k == 0 {
      DenotedNone(base);
      assert f == [];
      OneDigitOf(n, base, capital);
    } else {
      DenotesMore(f, base, capital);
      WritesUnique(f, Denoted(f, base), base, capital);
    }
  }

  lemma NumeralFront(s: seq<Byte>, base: Base)
    requires s != [] && Numeral(s, base)
    ensures var k := |s| - 1;
      && Numeral(s[..k], base) && DigitValue(s[k]).Some? && DigitValue(s[k]).value < base
      && Denoted(s, base) == Denoted(s[..k], base) * base + DigitValue(s[k]).value
  {
  }

  lemma DenotedNone(base: Base)
    ensures Numeral([], base) && Denoted([], base) == 0
  {
  }

  lemma OneDigitOf(n: nat, base: Base, capital: bool)
    requires Quot(n, base) == 0
    ensures n != 0 ==> Digits(n, base, capital) == [DigitChar(Rem(n, base), capital)]
    ensures Rem(n, base) == n
  {
    Small(n, base);
    assert Digits(0, base, capital) == [];
  }

  lemma {:induction false} DigitsWritten(n: nat, base: Base, capital: bool)
    ensures forall i :: 0 <= i < |Digits(n, base, capital)| ==> Written(Digits(n, base, capital)[i], capital)
    decreases n
  {
    hide Quot, Rem;
    if n != 0 {
      DigitsWritten(Quot(n, base), base, capital);
    }
  }

  /** The digits of a number write it. */
  lemma DigitsWrite(n: nat, base: Base, capital: bool)
    ensures Writes(if n == 0 then [0x30] else Digits(n, base, capital), n, base, capital)
  {
    hide Digits, Denoted, Numeral;
    if n == 0 {
      EmptyNumeral(base);
      DigitBack(0, false);
      DenotedMore([], 0x30, base);
      assert [] + [0x30] == [0x30];
    } else {
      DigitsDenote(n, base, capital);
      FirstDigit(n, base, capital);
      DigitsWritten(n, base, capital);
    }
  }

  function Power(base: Base, k: nat): nat {
    if k == 0 then 1 else base * Power(base, k - 1)
  }

  /** A number below a power of the base has no more digits than that. */
  lemma {:induction false} DigitsFew(n: nat, base: Base, capital: bool, k: nat)
    requires n < Power(base, k)
    ensures |Digits(n, base, capital)| <= k
    decreases n
  {
    if n != 0 {
      assert k > 0;
      var p := Power(base, k - 1);
      assert n < base * p;
      QuotientBelow(n, base, p);
      DigitsFew(Quot(n, base), base, capital, k - 1);
    }
  }

  lemma QuotientBelow(n: nat, base: Base, p: nat)
    requires n < base * p
    ensures Quot(n, base) < p
  {
    var q := n / base;
    assert base * q <= n;
    assert base * (p - q) > 0;
  }

  lemma {:induction false} PowerGrows(base: Base, k: nat)
    ensures Power(base, k) >= Power(2, k)
    decreases k
  {
    if k > 0 {
      PowerGrows(base, k - 1);
      TwiceAtLeast(base, Power(base, k - 1), Power(2, k - 1));
    }
  }

  lemma TwiceAtLeast(base: Base, p: nat, q: nat)
    requires p >= q
    ensures base * p >= 2 * q
  {
    assert base * p == 2 * p + (base - 2) * p;
  }

  lemma Power32()
    ensures Power(2, 32) == 0x1_0000_0000
  {
    assert Power(2, 8) == 0x100;
    assert Power(2, 16) == 0x1_0000;
    assert Power(2, 24) == 0x100_0000;
  }

  /** At most 32 digits for 32 bits. */
  lemma DigitsOf32(n: U32, base: Base, capital: bool)
    ensures |Digits(n, base, capital)| <= 32
  {
    Power32();
    PowerGrows(base, 32);
    DigitsFew(n, base, capital, 32);
  }
}
