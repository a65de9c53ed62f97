/** The BIOS conversions between numbers and text, on buffers in place. */
module Strings {
  import opened Words
  import opened Wrappers
  import opened Numerals

  // ----- C strings in arrays -----

  /** The array holds the string `s` and a terminator from index 0. */
  ghost predicate Holds(a: array<Byte>, s: seq<Byte>)
    reads a
  {
    |s| < a.Length && a[..|s|] == s && a[|s|] == 0 && 0 !in s
  }

  method StrLen(a: array<Byte>, ghost s: seq<Byte>) returns (n: nat)
    requires Holds(a, s)
    ensures n == |s|
  {
    forall k | 0 <= k < |s|
      ensures a[k] != 0
    {
      assert a[..|s|][k] == s[k] && s[k] in s;
    }
    n := 0;
    while a[n] != 0
      invariant n <= |s|
      decreases |s| - n
    {
      n := n + 1;
    }
  }

  /** The string turned round, the terminator and what follows it left alone. */
  method Reverse(a: array<Byte>, ghost s: seq<Byte>)
    requires Holds(a, s)
    modifies a
    ensures Holds(a, Reversed(s)) && a[|s|..] == old(a[|s|..])
  {
    var n := StrLen(a, s);
    var i: int, j: int := 0, n - 1;
    while i < j
      invariant 0 <= i <= n && j == n - 1 - i && i <= j + 2
      invariant forall k :: 0 <= k < i ==> a[k] == s[n - 1 - k] && a[n - 1 - k] == s[k]
      invariant forall k :: i <= k <= j ==> a[k] == s[k]
      invariant a[n..] == old(a[n..])
    {
      a[i], a[j] := a[j], a[i];
      i := i + 1;
      j := j - 1;
    }
    assert a[n] == a[n..][0] == old(a[n..])[0];
    forall k | 0 <= k < n
      ensures a[k] == Reversed(s)[k] && a[k] != 0
    {
      assert s[n - 1 - k] in s;
      if k >= i && k != j {
        assert k == n - 1 - (n - 1 - k);
      }
    }
    assert a[..n] == Reversed(s);
  }

  /** The text of a number; for zero, its one digit. */
  function Text(n: U32, base: Base): seq<Byte> {
    if n == 0 then [0x30] else Digits(n, base, true)
  }

  /** Number to text, the base being at least two unless the number is zero. Zero gets its
      digit but no terminator, so the buffer holds the text exactly if the number is not zero
      or the next byte is a terminator already; a base above 16 is refused. */
  method Itoa(n: U32, base: Byte, buffer: array?<Byte>) returns (ret: int)
    requires buffer != null && base <= 16 ==> buffer.Length > 0
    requires buffer != null && base <= 16 && n != 0 ==> base >= 2 && |Digits(n, base, true)| < buffer.Length
    modifies buffer
    ensures ret == if buffer == null || base > 16 then 1 else 0
    ensures ret == 1 && buffer != null ==> buffer[..] == old(buffer[..])
    ensures ret == 0 && n == 0 ==> buffer[..] == old(buffer[..])[0 := 0x30]
    ensures ret == 0 && n != 0 ==>
              var k := |Digits(n, base, true)|;
              Holds(buffer, Digits(n, base, true)) && buffer[k + 1..] == old(buffer[k + 1..])
    ensures ret == 0 && base >= 2 ==>
              (Holds(buffer, Text(n, base)) <==> n != 0 || (buffer.Length > 1 && old(buffer[..])[1] == 0))
  {
    if buffer == null || base > 16 {
      return 1;
    }
    if n == 0 {
      buffer[0] := 0x30;
      assert buffer[..1] == [0x30];
    } else {
      ghost var low := LowFirst(n, base, true);
      LowFirstReversed(n, base, true);
      LowFirstNoNul(n, base);
      var i := PutLowFirst(n, base, buffer);
      buffer[i] := 0;
      assert buffer[..i] == low;
      assert buffer[i + 1..] == old(buffer[i..])[1..] == old(buffer[i + 1..]);
      Reverse(buffer, low);
      assert buffer[i + 1..] == buffer[i..][1..];
    }
    return 0;
  }

  /** What is left of a number after `k` divisions. */
  function Divided(n: nat, base: nat, k: nat): nat
    requires base > 0
  {
    if k == 0 then n else Divided(n, base, k - 1) / base
  }

  /** Dividing ends, in all bases but one, for the number zero alone. */
  lemma DividingEnds(n: U32, base: nat)
    requires base > 0
    ensures (exists k :: Divided(n, base, k) == 0) <==> n == 0 || base >= 2
  {
    if n == 0 {
      assert Divided(n, base, 0) == 0;
    } else if base == 1 {
      forall k: nat
        ensures Divided(n, 1, k) == n
      {
        ByOne(n, k);
      }
    } else {
      DividedFalls(n, base, n);
    }
  }

  lemma {:induction false} ByOne(n: nat, k: nat)
    ensures Divided(n, 1, k) == n
    decreases k
  {
    if k > 0 {
      ByOne(n, k - 1);
    }
  }

  lemma {:induction false} DividedFalls(n: nat, base: nat, k: nat)
    requires base >= 2
    ensures Divided(n, base, k) == 0 || Divided(n, base, k) + k <= n
    decreases k
  {
    if k > 0 {
      hide Divided;
      DividedFalls(n, base, k - 1);
      DividedOnce(n, base, k);
      QuotientFalls(Divided(n, base, k - 1), base);
    }
  }

  lemma DividedOnce(n: nat, base: nat, k: nat)
    requires base > 0 && k > 0
    ensures Divided(n, base, k) == Divided(n, base, k - 1) / base
  {
  }

  lemma QuotientFalls(m: nat, base: nat)
    requires base >= 2
    ensures m == 0 ==> m / base == 0
    ensures m > 0 ==> m / base < m
  {
    var q, r := m / base, m % base;
    assert m == base * q + r;
    assert base * q == 2 * q + (base - 2) * q;
  }

  /** The digits, least significant first, from the start of the buffer. */
  method PutLowFirst(n: U32, base: Base, buffer: array<Byte>) returns (i: nat)
    requires |LowFirst(n, base, true)| <= buffer.Length
    modifies buffer
    ensures i == |LowFirst(n, base, true)| && buffer[..i] == LowFirst(n, base, true) && buffer[i..] == old(buffer[i..])
  {
    hide LowFirst, DigitChar, Quot, Rem;
    ghost var low := LowFirst(n, base, true);
    i := 0;
    var rest: nat := n;
    while rest != 0
      invariant i <= |low| && low[i..] == LowFirst(rest, base, true) && buffer[..i] == low[..i]
      invariant buffer[|low|..] == old(buffer[|low|..])
      decreases rest
    {
      LowFirstStep(rest, base, true);
      assert low[i] == low[i..][0] && low[i + 1..] == low[i..][1..];
      ghost var was := buffer[..i];
      buffer[i] := DigitChar(Rem(rest, base), true);
      assert buffer[..i + 1] == was + [low[i]] && low[..i + 1] == low[..i] + [low[i]];
      i := i + 1;
      rest := Quot(rest, base);
    }
    NoDigits(base, true);
  }

  lemma {:induction false} LowFirstNoNul(n: nat, base: Base)
    ensures 0 !in LowFirst(n, base, true)
    decreases n
  {
    if n != 0 {
      hide Quot, Rem;
      LowFirstNoNul(Quot(n, base), base);
    }
  }

  // ----- Text to number -----

  /** The base a string announces, and how many characters that takes. */
  function Announced(s: seq<Byte>): (r: (Base, nat))
    ensures r.1 <= |s| && r.1 <= 2
  {
    if s == [] || s[0] != 0x30 then (10, 0)
    else if |s| > 1 && s[1] == 0x78 then (16, 2)
    else if |s| > 1 && s[1] == 0x62 then (2, 2)
    else (8, 1)
  }

  /** The digits after the prefix. */
  function Body(s: seq<Byte>): seq<Byte> {
    s[Announced(s).1..]
  }

  /** The value of a digit character, in eight-bit arithmetic. */
  method Digit(c: Byte) returns (d: Option<int>)
    ensures d == DigitValue(c) && (d.Some? ==> 0 <= d.value < 16)
  {
    var n: int := c;
    if n >= 0x61 && n <= 0x66 {
      n := (n + 10 - 0x61) % 0x100;
    } else if n >= 0x41 && n <= 0x46 {
      n := (n + 10 - 0x41) % 0x100;
    } else if n >= 0x30 && n <= 0x39 {
      n := (n - 0x30) % 0x100;
    } else {
      return None;
    }
    return Some(n);
  }

  method ReadPrefix(s: seq<Byte>) returns (base: Base, i: nat)
    ensures (base, i) == Announced(s)
  {
    base, i := 10, 0;
    if i < |s| && s[i] == 0x30 {
      i := i + 1;
      if i < |s| && s[i] == 0x78 {
        base := 16;
        i := i + 1;
      } else if i < |s| && s[i] == 0x62 {
        base := 2;
        i := i + 1;
      } else {
        base := 8;
      }
    }
  }

  lemma NotNumeral(s: seq<Byte>, base: Base, k: nat)
    requires k < |s| && (DigitValue(s[k]).None? || DigitValue(s[k]).value >= base)
    ensures !Numeral(s, base)
  {
  }

  // ----- One turn of the reading loop -----

  /** Where the loop stands: the index, eight bits wide, the base and the number so far. */
  datatype Reading = Reading(i: Byte, base: Base, res: U32)

  /** A turn leaves the loop with a return value and a number, or goes on. */
  datatype Next = Leave(ret: int, res: U32) | GoOn(r: Reading)

  function Turn(s: seq<Byte>, r: Reading): Next {
    if r.i >= |s| then Leave(0, r.res)
    else
      match DigitValue(s[r.i])
      case None => Leave(1, r.res)
      case Some(n) =>
        if n >= r.base then Leave(1, r.res)
        else GoOn(Reading((r.i + 1) % 256, r.base, (r.res * r.base + n) % 0x1_0000_0000))
  }

  /** How the loop is left within `k` turns; `None` if it is still inside. */
  function Left(s: seq<Byte>, r: Reading, k: nat): Option<(int, U32)>
    decreases k
  {
    if k == 0 then None
    else
      match Turn(s, r)
      case Leave(ret, res) => Some((ret, res))
      case GoOn(r') => Left(s, r', k - 1)
  }

  /** After the prefix. */
  function Begin(s: seq<Byte>): Reading {
    Reading(Announced(s).1, Announced(s).0, 0)
  }

  /** No character of the index's range is refused, and the string does not end in it. */
  predicate Ends(s: seq<Byte>) {
    |s| < 256 || !Numeral(s[..256], Announced(s).0)
  }

  /** If all of the first 256 characters are digits, the loop is never left. */
  lemma {:induction false} NeverLeft(s: seq<Byte>, r: Reading, k: nat)
    requires |s| >= 256 && Numeral(s[..256], r.base)
    ensures Left(s, r, k).None?
    decreases k
  {
    hide DigitValue;
    if k > 0 {
      assert s[r.i] == s[..256][r.i];
      NeverLeft(s, Turn(s, r).r, k - 1);
    }
  }

  /** A character that ends the loop ends it as soon as the index reaches it, or earlier. */
  lemma {:induction false} LeftAt(s: seq<Byte>, r: Reading, p: Byte)
    requires r.i <= p && (p >= |s| || DigitValue(s[p]).None? || DigitValue(s[p]).value >= r.base)
    ensures Left(s, r, p - r.i + 1).Some?
    decreases p - r.i
  {
    hide DigitValue;
    if Turn(s, r).GoOn? {
      LeftAt(s, Turn(s, r).r, p);
    }
  }

  /** And if the index is past it, after coming round. */
  lemma {:induction false} LeftRound(s: seq<Byte>, r: Reading, p: Byte)
    requires p < r.i && (p >= |s| || DigitValue(s[p]).None? || DigitValue(s[p]).value >= r.base)
    ensures Left(s, r, (256 - r.i) + (p + 1)).Some?
    decreases 256 - r.i
  {
    hide DigitValue;
    if Turn(s, r).GoOn? {
      if r.i < 255 {
        LeftRound(s, Turn(s, r).r, p);
      } else {
        LeftAt(s, Turn(s, r).r, p);
      }
    }
  }

  /** The loop is left, after some number of turns, if and only if the string has fewer than 256
      characters or one of its first 256 is refused. */
  lemma EndsExactly(s: seq<Byte>)
    ensures Ends(s) <==> exists k :: Left(s, Begin(s), k).Some?
  {
    hide Left, Numeral, Announced;
    var r := Begin(s);
    if Ends(s) {
      var p: Byte := if |s| < 256 then |s| else FirstRefused(s[..256], r.base);
      if r.i <= p {
        LeftAt(s, r, p);
      } else {
        LeftRound(s, r, p);
      }
    } else {
      forall k: nat
        ensures Left(s, r, k).None?
      {
        NeverLeft(s, r, k);
      }
    }
  }

  /** Where a string that is no numeral is refused. */
  function FirstRefused(s: seq<Byte>, base: Base): (p: nat)
    requires !Numeral(s, base)
    ensures p < |s| && (DigitValue(s[p]).None? || DigitValue(s[p]).value >= base)
  {
    if DigitValue(s[0]).None? || DigitValue(s[0]).value >= base then 0
    else
      assert !Numeral(s[1..], base) by {
        var k :| 0 <= k < |s| && !(DigitValue(s[k]).Some? && DigitValue(s[k]).value < base);
        assert s[1..][k - 1] == s[k];
      }
      1 + FirstRefused(s[1..], base)
  }

  /** Text to number, where it returns: it succeeds if and only if the string has fewer than 256
      characters and each digit fits the announced base, and then gives the number denoted,
      modulo 2^32. Return value and number are always those with which the loop is left. */
  method Atoi(str: Option<seq<Byte>>) returns (ret: int, res: U32)
    requires str.Some? ==> 0 !in str.value && Ends(str.value)
    ensures ret == if str.Some? && |str.value| < 256 && Numeral(Body(str.value), Announced(str.value).0) then 0 else 1
    ensures ret == 0 ==> res == Denoted(Body(str.value), Announced(str.value).0) % 0x1_0000_0000
    ensures str.Some? ==> exists k :: Left(str.value, Begin(str.value), k) == Some((ret, res))
  {
    hide Denoted, Numeral, DigitValue, Announced, Left, Follows;
    res := 0;
    if str.None? {
      return 1, res;
    }
    var s := str.value;
    var base, i := ReadPrefix(s);
    ghost var from, body, again, turns, start := i, Body(s), false, 0, Begin(s);
    assert body == s[from..] && s[from..i] == s[..0] == [];
    EmptyNumeral(base);
    FollowsItself(s, start);
    while i < |s|
      invariant 0 <= i <= |s| && i < 256 && from <= 2
      invariant again ==> |s| >= 256 && i <= from && Numeral(s[from..256], base) && Numeral(s[..i], base)
      invariant !again ==> from <= i && Numeral(s[from..i], base) && res == Denoted(s[from..i], base) % 0x1_0000_0000
      invariant Follows(s, start, turns, Reading(i, base, res))
      decreases !again, |s| - i
    {
      ghost var now := Reading(i, base, res);
      TurnLeaves(s, start, now, turns);
      if again {
        ReadTwice(s, base, from, i);
      }
      var digit := Digit(s[i]);
      assert i >= from ==> body[i - from] == s[i];
      if digit.None? {
        Refused(s, base, from, i);
        return 1, res;
      }
      var n := digit.value;
      if n >= base {
        Refused(s, base, from, i);
        return 1, res;
      }
      OneMore(s, if again then 0 else from, i, base, n);
      res := (res * base + n) % 0x1_0000_0000;
      i := (i + 1) % 256;
      turns := turns + 1;
      again := again || i == 0;
    }
    TurnLeaves(s, start, Reading(i, base, res), turns);
    assert s[from..i] == body;
    return 0, res;
  }

  /** A digit read on the right of those from `from` on. */
  lemma OneMore(s: seq<Byte>, from: nat, i: nat, base: Base, n: nat)
    requires from <= i < |s| && Numeral(s[from..i], base) && DigitValue(s[i]) == Some(n) && n < base
    ensures Numeral(s[from..i + 1], base)
    ensures Denoted(s[from..i + 1], base) % 0x1_0000_0000
            == (Denoted(s[from..i], base) % 0x1_0000_0000 * base + n) % 0x1_0000_0000
  {
    hide Denoted, Numeral, DigitValue;
    DenotedMore(s[from..i], s[i], base);
    assert s[from..i] + [s[i]] == s[from..i + 1];
    Accumulate(Denoted(s[from..i], base), base, n);
  }

  /** After `turns` turns from `start` the loop stands at `now`. */
  ghost predicate Follows(s: seq<Byte>, start: Reading, turns: nat, now: Reading) {
    forall k: nat :: Left(s, start, turns + k) == Left(s, now, k)
  }

  lemma FollowsItself(s: seq<Byte>, start: Reading)
    ensures Follows(s, start, 0, start)
  {
  }

  /** Left in this turn, or one turn further. */
  lemma TurnLeaves(s: seq<Byte>, start: Reading, now: Reading, turns: nat)
    requires Follows(s, start, turns, now)
    ensures Turn(s, now).Leave? ==> Left(s, start, turns + 1) == Some((Turn(s, now).ret, Turn(s, now).res))
    ensures Turn(s, now).GoOn? ==> Follows(s, start, turns + 1, Turn(s, now).r)
  {
    assert Left(s, start, turns + 1) == Left(s, now, 1);
    if Turn(s, now).GoOn? {
      forall k: nat
        ensures Left(s, start, turns + 1 + k) == Left(s, Turn(s, now).r, k)
      {
        assert Left(s, start, turns + (1 + k)) == Left(s, now, 1 + k);
      }
    }
  }

  /** Read again, a string is refused before its first digit is. */
  lemma ReadTwice(s: seq<Byte>, base: Base, from: nat, i: nat)
    requires |s| >= 256 && i <= from < 256 && Numeral(s[from..256], base) && Numeral(s[..i], base)
    requires !Numeral(s[..256], base)
    ensures i < from
  {
    assert s[..from] + s[from..256] == s[..256];
  }

  /** A refused character fails a short string; read again, the string is long. */
  lemma Refused(s: seq<Byte>, base: Base, from: nat, i: nat)
    requires i < |s| && from <= |s| && (DigitValue(s[i]).None? || DigitValue(s[i]).value >= base)
    ensures i >= from ==> !Numeral(s[from..], base)
  {
    if i >= from {
      NotNumeral(s[from..], base, i - from);
    }
  }

  /** Reducing at each step is reducing at the end. */
  lemma Accumulate(x: nat, base: Base, d: nat)
    ensures (x % 0x1_0000_0000 * base + d) % 0x1_0000_0000 == (x * base + d) % 0x1_0000_0000
  {
    var m, q, r := 0x1_0000_0000, x / 0x1_0000_0000, x % 0x1_0000_0000;
    assert x == m * q + r;
    assert x * base + d == m * (q * base) + (r * base + d);
    ModOfSum(q * base, r * base + d);
  }

  lemma ModOfSum(k: nat, y: nat)
    ensures (0x1_0000_0000 * k + y) % 0x1_0000_0000 == y % 0x1_0000_0000
  {
  }

  // ----- Round trip -----

  /** The prefix that announces a base. */
  function Prefix(base: Base): seq<Byte>
    requires base == 2 || base == 8 || base == 10 || base == 16
  {
    if base == 2 then [0x30, 0x62] else if base == 8 then [0x30] else if base == 10 then [] else [0x30, 0x78]
  }

  /** Prefix and text of every 32-bit number in each of the four bases are read back as that
      number. */
  lemma NumberRoundTrip(n: U32, base: Base)
    requires base == 2 || base == 8 || base == 10 || base == 16
    ensures var s := Prefix(base) + Text(n, base);
      && |s| <= 34 && 0 !in s && (base != 10 || n != 0 ==> Announced(s).0 == base)
      && Numeral(Body(s), Announced(s).0) && Denoted(Body(s), Announced(s).0) == n
    ensures Writes(Text(n, base), n, base, true)
  {
    hide Denoted, Digits, Numeral, Writes, Announced, Body;
    var s, t := Prefix(base) + Text(n, base), Text(n, base);
    DigitsWrite(n, base, true);
    NoNul(n, base, true);
    DigitsOf32(n, base, true);
    DigitsDenote(n, base, true);
    EmptyNumeral(base);
    EmptyNumeral(8);
    if n == 0 {
      DigitBack(0, true);
      DenotedMore([], 0x30, base);
      assert [] + [0x30] == [0x30];
      ZeroRead(base);
    } else {
      FirstDigit(n, base, true);
      if base == 8 {
        OctalStarts(n);
      }
      TextRead(base, t);
    }
  }

  lemma ZeroRead(base: Base)
    requires base == 2 || base == 8 || base == 10 || base == 16
    ensures var s := Prefix(base) + [0x30];
      Announced(s).0 == (if base == 10 then 8 else base) && Body(s) == if base == 10 then [] else [0x30]
  {
    var s := Prefix(base) + [0x30];
    if base == 10 {
      assert s == [0x30];
      assert Body(s) == [];
    } else if base == 8 {
      assert s == [0x30, 0x30];
      assert Body(s) == [0x30];
    } else if base == 2 {
      assert s == [0x30, 0x62, 0x30];
      assert Body(s) == [0x30];
    } else {
      assert s == [0x30, 0x78, 0x30];
      assert Body(s) == [0x30];
    }
  }

  lemma TextRead(base: Base, t: seq<Byte>)
    requires base == 2 || base == 8 || base == 10 || base == 16
    requires t != [] && t[0] != 0x30 && (base == 8 ==> t[0] != 0x78 && t[0] != 0x62)
    ensures Announced(Prefix(base) + t).0 == base && Body(Prefix(base) + t) == t
  {
    assert (Prefix(base) + t)[|Prefix(base)|..] == t;
  }

  /** An octal number does not start with a letter that would announce another base. */
  lemma OctalStarts(n: U32)
    requires n != 0
    ensures Digits(n, 8, true) != [] && Digits(n, 8, true)[0] != 0x78 && Digits(n, 8, true)[0] != 0x62
  {
    FirstDigit(n, 8, true);
    DigitsDenote(n, 8, true);
  }
}
