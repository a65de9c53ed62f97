/** The BIOS printf: formatted output through a buffer that is written out when full. */
module Printf {
  import opened Words
  import opened Wrappers
  import opened Numerals

  const BUF_SIZE := 64

  /** A string as it is passed around: what comes before its terminator. */
  type CString = s: seq<Byte> | 0 !in s

  /** A variable argument: its 32 bits, and the string they point at if they are a pointer. */
  datatype Arg = Arg(value: U32, text: CString)

  // ----- The text a format denotes -----

  const PERCENT: Byte := 0x25

  function Unsigned(n: U32, base: Base): seq<Byte> {
    if n == 0 then [0x30] else Digits(n, base, false)
  }

  /** A number as `%d` shows it: its 32 bits read as two's complement. */
  function Signed(n: U32): seq<Byte> {
    if n < 0x8000_0000 then Unsigned(n, 10) else [0x2D] + Unsigned(0x1_0000_0000 - n, 10)
  }

  /** The letters that show a number: d, i, u, o, x, p. */
  predicate ShowsNumber(letter: Byte) {
    letter in {0x64, 0x69, 0x75, 0x6F, 0x78, 0x70}
  }

  /** The letters that show their argument: these, s and c. */
  predicate ShowsArgument(letter: Byte) {
    ShowsNumber(letter) || letter == 0x73 || letter == 0x63
  }

  /** One conversion. An unknown letter is shown with its percent sign. */
  function Shown(letter: Byte, arg: Arg): seq<Byte> {
    if letter == 0x64 || letter == 0x69 then Signed(arg.value)
    else if letter == 0x75 then Unsigned(arg.value, 10)
    else if letter == 0x73 then arg.text
    else if letter == 0x63 then [arg.value % 0x100]
    else if letter == 0x6F then Unsigned(arg.value, 8)
    else if letter == 0x78 then Unsigned(arg.value, 16)
    else if letter == 0x70 then [0x30, 0x78] + Unsigned(arg.value, 16)
    else if letter == PERCENT then [PERCENT]
    else [PERCENT, letter]
  }

  /** No percent sign is left without a letter at the end. */
  predicate Whole(format: seq<Byte>) {
    format == [] || (if format[0] == PERCENT then |format| >= 2 && Whole(format[2..]) else Whole(format[1..]))
  }

  /** What a letter takes of the arguments: one, except that `%%` is not meant to take any. */
  function Takes(d: Design, letter: Byte): nat {
    if d.Intended? && letter == PERCENT then 0 else 1
  }

  /** How many arguments a format takes. */
  function Taken(d: Design, format: seq<Byte>): nat
    requires Whole(format)
  {
    if format == [] then 0
    else if format[0] == PERCENT then Takes(d, format[1]) + Taken(d, format[2..])
    else Taken(d, format[1..])
  }

  /** The argument a conversion shows; a `%%` at the end may find none. */
  function First(args: seq<Arg>): Arg {
    if args == [] then Arg(0, []) else args[0]
  }

  /** The text, character by character. */
  function Render(d: Design, format: seq<Byte>, args: seq<Arg>): seq<Byte>
    requires Whole(format) && Taken(d, format) <= |args|
  {
    if format == [] then []
    else if format[0] == PERCENT then
      Shown(format[1], First(args)) + Render(d, format[2..], args[Takes(d, format[1])..])
    else [format[0]] + Render(d, format[1..], args)
  }

  // ----- The argument taken by `%%` -----

  /** Some conversion shows its argument. */
  predicate ShowsSome(format: seq<Byte>)
    requires Whole(format)
  {
    format != [] &&
    if format[0] == PERCENT then ShowsArgument(format[1]) || ShowsSome(format[2..]) else ShowsSome(format[1..])
  }

  /** Some conversion shows its argument after a `%%`. */
  predicate ShowsAfterPercent(format: seq<Byte>)
    requires Whole(format)
  {
    format != [] &&
    if format[0] != PERCENT then ShowsAfterPercent(format[1..])
    else if format[1] == PERCENT then ShowsSome(format[2..])
    else ShowsAfterPercent(format[2..])
  }

  lemma {:induction false} TakenMore(format: seq<Byte>)
    requires Whole(format)
    ensures Taken(Intended, format) <= Taken(AsWritten, format)
    decreases |format|
  {
    if format != [] {
      TakenMore(if format[0] == PERCENT then format[2..] else format[1..]);
    }
  }

  /** A format that shows no argument shows the same text for all arguments. */
  lemma {:induction false} ShowsNone(format: seq<Byte>, w: seq<Arg>, m: seq<Arg>)
    requires Whole(format) && !ShowsSome(format) && Taken(AsWritten, format) <= |w| && Taken(Intended, format) <= |m|
    ensures Render(AsWritten, format, w) == Render(Intended, format, m)
    decreases |format|
  {
    if format != [] {
      if format[0] == PERCENT {
        var l := format[1];
        ShowsNone(format[2..], w[Takes(AsWritten, l)..], m[Takes(Intended, l)..]);
        assert Shown(l, First(w)) == Shown(l, First(m));
      } else {
        ShowsNone(format[1..], w, m);
      }
    }
  }

  lemma {:induction false} SameText(format: seq<Byte>, args: seq<Arg>)
    requires Whole(format) && !ShowsAfterPercent(format) && Taken(AsWritten, format) <= |args|
    ensures Taken(Intended, format) <= |args|
    ensures Render(AsWritten, format, args) == Render(Intended, format, args)
    decreases |format|
  {
    hide Shown, ShowsArgument;
    TakenMore(format);
    if format != [] {
      if format[0] != PERCENT {
        SameText(format[1..], args);
      } else if format[1] == PERCENT {
        ShowsNone(format[2..], args[1..], args);
        PercentAlone(First(args), First(args));
      } else {
        SameText(format[2..], args[1..]);
      }
    }
  }

  lemma PercentAlone(a: Arg, b: Arg)
    ensures Shown(PERCENT, a) == Shown(PERCENT, b)
  {
  }

  /** Two arguments every letter that shows its argument tells apart, by one character. */
  const ONE := Arg(1, [0x31])
  const TWO := Arg(2, [0x32])

  lemma ToldApart(letter: Byte)
    ensures |Shown(letter, ONE)| == |Shown(letter, TWO)|
    ensures Shown(letter, ONE) == Shown(letter, TWO) <==> !ShowsArgument(letter)
  {
    OneDigit(1, 8);
    OneDigit(2, 8);
    OneDigit(1, 10);
    OneDigit(2, 10);
    OneDigit(1, 16);
    OneDigit(2, 16);
    if letter == 0x70 {
      assert Shown(letter, ONE)[2] == 0x31 && Shown(letter, TWO)[2] == 0x32;
    } else if ShowsArgument(letter) {
      assert Shown(letter, ONE)[0] != Shown(letter, TWO)[0];
    }
  }

  lemma OneDigit(n: U32, base: Base)
    requires 0 < n < base && n < 10
    ensures Unsigned(n, base) == [0x30 + n]
  {
    assert Quot(n, base) == 0 && Rem(n, base) == n;
    assert Digits(0, base, false) == [];
  }

  /** How many arguments are meant to be taken before the first one shown. */
  function Passed(format: seq<Byte>): nat
    requires Whole(format)
  {
    if format == [] then 0
    else if format[0] != PERCENT then Passed(format[1..])
    else if ShowsArgument(format[1]) then 0
    else Takes(Intended, format[1]) + Passed(format[2..])
  }

  /** Where the first argument shown is one and every argument of the other list from there on
      is two, the texts differ. */
  lemma {:induction false} FirstShownDiffers(format: seq<Byte>, w: seq<Arg>, m: seq<Arg>)
    requires Whole(format) && ShowsSome(format) && Taken(AsWritten, format) <= |w| && Taken(Intended, format) <= |m|
    requires Passed(format) < |m| && m[Passed(format)] == ONE
    requires forall k :: Passed(format) <= k < |w| ==> w[k] == TWO
    ensures Render(AsWritten, format, w) != Render(Intended, format, m)
    decreases |format|
  {
    hide Shown, ShowsArgument;
    if format[0] != PERCENT {
      FirstShownDiffers(format[1..], w, m);
      assert Render(AsWritten, format, w)[1..] == Render(AsWritten, format[1..], w);
      assert Render(Intended, format, m)[1..] == Render(Intended, format[1..], m);
      return;
    }
    var l := format[1];
    if ShowsArgument(l) {
      ToldApart(l);
      NotPercent(l);
      assert w[0] == TWO;
      ApartAfter(Shown(l, TWO), Shown(l, ONE), Render(AsWritten, format[2..], w[1..]),
                 Render(Intended, format[2..], m[1..]));
    } else {
      FirstShownDiffers(format[2..], w[1..], m[Takes(Intended, l)..]);
      SameUnknown(l, First(w), First(m));
      var s := Shown(l, First(w));
      assert Render(AsWritten, format, w)[|s|..] == Render(AsWritten, format[2..], w[1..]);
      assert Render(Intended, format, m)[|s|..] == Render(Intended, format[2..], m[Takes(Intended, l)..]);
    }
  }

  lemma ApartAfter(a: seq<Byte>, b: seq<Byte>, x: seq<Byte>, y: seq<Byte>)
    requires |a| == |b| && a != b
    ensures a + x != b + y
  {
    assert (a + x)[..|a|] == a && (b + y)[..|b|] == b;
  }

  lemma NotPercent(letter: Byte)
    requires ShowsArgument(letter)
    ensures letter != PERCENT
  {
  }

  lemma SameUnknown(letter: Byte, a: Arg, b: Arg)
    requires !ShowsArgument(letter)
    ensures Shown(letter, a) == Shown(letter, b)
  {
  }

  /** Arguments on which text and intent differ. */
  function Separating(format: seq<Byte>): seq<Arg>
    requires Whole(format)
  {
    if format == [] then []
    else if format[0] != PERCENT then Separating(format[1..])
    else if format[1] == PERCENT then
      var n := Passed(format[2..]);
      seq(n + 1 + Taken(AsWritten, format), i => if i <= n then ONE else TWO)
    else [ONE] + Separating(format[2..])
  }

  lemma {:induction false} SeparatingEnough(format: seq<Byte>)
    requires Whole(format) && ShowsAfterPercent(format)
    ensures Taken(AsWritten, format) <= |Separating(format)|
    decreases |format|
  {
    if format[0] != PERCENT {
      SeparatingEnough(format[1..]);
    } else if format[1] != PERCENT {
      SeparatingEnough(format[2..]);
    }
  }

  lemma {:induction false} Separates(format: seq<Byte>)
    requires Whole(format) && ShowsAfterPercent(format)
    ensures var args := Separating(format);
      && Taken(Intended, format) <= Taken(AsWritten, format) <= |args|
      && Render(AsWritten, format, args) != Render(Intended, format, args)
    decreases |format|
  {
    hide Shown, ShowsArgument, Passed;
    TakenMore(format);
    SeparatingEnough(format);
    var args := Separating(format);
    var w, m := Render(AsWritten, format, args), Render(Intended, format, args);
    if format[0] != PERCENT {
      Separates(format[1..]);
      assert w[1..] == Render(AsWritten, format[1..], args) && m[1..] == Render(Intended, format[1..], args);
    } else {
      var s := Shown(format[1], First(args));
      if format[1] == PERCENT {
        FirstShownDiffers(format[2..], args[1..], args);
        assert m[|s|..] == Render(Intended, format[2..], args);
      } else {
        Separates(format[2..]);
        assert args[1..] == Separating(format[2..]);
        assert m[|s|..] == Render(Intended, format[2..], args[1..]);
      }
      assert w[|s|..] == Render(AsWritten, format[2..], args[1..]);
    }
  }

  /** The text is the meant one for all arguments if and only if no conversion after a `%%`
      shows its argument. */
  lemma MeantExactly(format: seq<Byte>)
    requires Whole(format)
    ensures Taken(Intended, format) <= Taken(AsWritten, format)
    ensures (forall args :: Taken(AsWritten, format) <= |args| ==>
               Render(AsWritten, format, args) == Render(Intended, format, args))
            <==> !ShowsAfterPercent(format)
  {
    hide Render, ShowsAfterPercent;
    TakenMore(format);
    if ShowsAfterPercent(format) {
      Separates(format);
    } else {
      forall args: seq<Arg> | Taken(AsWritten, format) <= |args|
        ensures Render(AsWritten, format, args) == Render(Intended, format, args)
      {
        SameText(format, args);
      }
    }
  }

  /** `%%%d` shows its second argument. */
  lemma PercentNumber(a: Arg, b: Arg)
    ensures var format := [PERCENT, PERCENT, PERCENT, 0x64];
      && Whole(format) && Taken(AsWritten, format) == 2 && Taken(Intended, format) == 1
      && Render(AsWritten, format, [a, b]) == [PERCENT] + Signed(b.value)
      && Render(Intended, format, [a, b]) == [PERCENT] + Signed(a.value)
  {
    hide Signed;
    var format: seq<Byte> := [PERCENT, PERCENT, PERCENT, 0x64];
    var rest := format[2..];
    assert rest == [PERCENT, 0x64] && rest[2..] == [];
    assert Whole(rest) && Taken(AsWritten, rest) == Taken(Intended, rest) == 1;
    assert [a, b][1..] == [b] && [a, b][0..] == [a, b];
    assert Render(AsWritten, rest, [b]) == Signed(b.value);
    assert Render(Intended, rest, [a, b]) == Signed(a.value);
  }

  // ----- What a format renders to, told by its pieces -----

  /** `text` is what conversion `letter` is to make of the argument. */
  predicate Converts(letter: Byte, arg: Arg, text: seq<Byte>) {
    if letter == 0x73 then text == arg.text
    else if letter == 0x63 then text == [arg.value % 0x100]
    else if letter == 0x64 || letter == 0x69 then
      if arg.value < 0x8000_0000 then Writes(text, arg.value, 10, false)
      else text != [] && text[0] == 0x2D && Writes(text[1..], 0x1_0000_0000 - arg.value, 10, false)
    else if letter == 0x75 then Writes(text, arg.value, 10, false)
    else if letter == 0x6F then Writes(text, arg.value, 8, false)
    else if letter == 0x78 then Writes(text, arg.value, 16, false)
    else if letter == 0x70 then
      |text| > 2 && text[..2] == [0x30, 0x78] && Writes(text[2..], arg.value, 16, false)
    else text == [0x25, letter]
  }

  /** One text only. */
  lemma ConvertsShown(letter: Byte, arg: Arg, text: seq<Byte>)
    requires Converts(letter, arg, text) && letter != PERCENT
    ensures text == Shown(letter, arg)
  {
    hide Writes, Digits;
    var v := arg.value;
    if letter == 0x64 || letter == 0x69 {
      if v < 0x8000_0000 {
        WritesUnique(text, v, 10, false);
      } else {
        WritesUnique(text[1..], 0x1_0000_0000 - v, 10, false);
        assert text == [text[0]] + text[1..];
      }
    } else if letter == 0x75 {
      WritesUnique(text, v, 10, false);
    } else if letter == 0x6F {
      WritesUnique(text, v, 8, false);
    } else if letter == 0x78 {
      WritesUnique(text, v, 16, false);
    } else if letter == 0x70 {
      WritesUnique(text[2..], v, 16, false);
      assert text == [text[0], text[1]] + text[2..];
    }
  }

  /** Pieces with a conversion between each two. */
  function Format(pieces: seq<seq<Byte>>, letters: seq<Byte>): seq<Byte>
    requires |pieces| == |letters| + 1
    decreases |letters|
  {
    if letters == [] then pieces[0] else pieces[0] + [0x25, letters[0]] + Format(pieces[1..], letters[1..])
  }

  /** Pieces with a text between each two. */
  function Woven(pieces: seq<seq<Byte>>, texts: seq<seq<Byte>>): seq<Byte>
    requires |pieces| == |texts| + 1
    decreases |texts|
  {
    if texts == [] then pieces[0] else pieces[0] + texts[0] + Woven(pieces[1..], texts[1..])
  }

  lemma RenderCharacter(d: Design, c: Byte, rest: seq<Byte>, args: seq<Arg>)
    requires c != PERCENT && Whole(rest) && Taken(d, rest) <= |args|
    ensures Whole([c] + rest) && Taken(d, [c] + rest) == Taken(d, rest)
    ensures Render(d, [c] + rest, args) == [c] + Render(d, rest, args)
  {
    assert ([c] + rest)[1..] == rest;
  }

  lemma {:induction false} RenderPiece(d: Design, piece: seq<Byte>, rest: seq<Byte>, args: seq<Arg>)
    requires PERCENT !in piece && Whole(rest) && Taken(d, rest) <= |args|
    ensures Whole(piece + rest) && Taken(d, piece + rest) == Taken(d, rest)
    ensures Render(d, piece + rest, args) == piece + Render(d, rest, args)
    decreases |piece|
  {
    hide Render, Whole, Taken;
    if piece == [] {
      assert piece + rest == rest;
    } else {
      assert piece[0] in piece && piece + rest == [piece[0]] + (piece[1..] + rest);
      RenderPiece(d, piece[1..], rest, args);
      RenderCharacter(d, piece[0], piece[1..] + rest, args);
      assert [piece[0]] + (piece[1..] + Render(d, rest, args)) == piece + Render(d, rest, args);
    }
  }

  lemma RenderOne(d: Design, letter: Byte, rest: seq<Byte>, args: seq<Arg>)
    requires letter != PERCENT && args != [] && Whole(rest) && Taken(d, rest) <= |args| - 1
    ensures Whole([0x25, letter] + rest) && Taken(d, [0x25, letter] + rest) == 1 + Taken(d, rest)
    ensures Render(d, [0x25, letter] + rest, args) == Shown(letter, args[0]) + Render(d, rest, args[1..])
  {
    hide Shown;
    var whole := [0x25, letter] + rest;
    assert whole[0] == PERCENT && whole[1] == letter && whole[2..] == rest;
  }

  /** A format of pieces and conversions renders to the pieces and what each conversion is to make
      of its argument, in order: a string as it is, a character as its low byte, a number as one
      writes it, an unknown letter behind its percent sign. */
  lemma {:induction false} FormatRenders(d: Design, pieces: seq<seq<Byte>>, letters: seq<Byte>, args: seq<Arg>,
                                         texts: seq<seq<Byte>>)
    requires |pieces| == |letters| + 1 == |texts| + 1 && |letters| <= |args|
    requires forall i :: 0 <= i < |pieces| ==> PERCENT !in pieces[i]
    requires forall i :: 0 <= i < |letters| ==> letters[i] != PERCENT && Converts(letters[i], args[i], texts[i])
    ensures Whole(Format(pieces, letters)) && Taken(d, Format(pieces, letters)) == |letters|
    ensures Render(d, Format(pieces, letters), args) == Woven(pieces, texts)
    decreases |letters|
  {
    hide Shown, Converts, Render, Whole, Taken;
    if letters == [] {
      NothingRendered(d, args);
      RenderPiece(d, pieces[0], [], args);
      assert pieces[0] + [] == pieces[0];
    } else {
      var rest := Format(pieces[1..], letters[1..]);
      FormatRenders(d, pieces[1..], letters[1..], args[1..], texts[1..]);
      ConvertsShown(letters[0], args[0], texts[0]);
      RenderOne(d, letters[0], rest, args);
      RenderPiece(d, pieces[0], [0x25, letters[0]] + rest, args);
      assert Format(pieces, letters) == pieces[0] + ([0x25, letters[0]] + rest);
      var more := Woven(pieces[1..], texts[1..]);
      assert Woven(pieces, texts) == pieces[0] + (texts[0] + more);
    }
  }

  lemma NothingRendered(d: Design, args: seq<Arg>)
    ensures Whole([]) && Taken(d, []) == 0 && Render(d, [], args) == []
  {
  }

  // ----- The count reported -----

  /** A number other than zero is counted with one character too few. */
  function Missed(letter: Byte, arg: Arg): nat {
    if ShowsNumber(letter) && arg.value != 0 then 1 else 0
  }

  /** How many such numbers a format shows. */
  function Uncounted(format: seq<Byte>, args: seq<Arg>): nat
    requires Whole(format) && Taken(AsWritten, format) <= |args|
  {
    if format == [] then 0
    else if format[0] == PERCENT then Missed(format[1], args[0]) + Uncounted(format[2..], args[1..])
    else Uncounted(format[1..], args)
  }

  // ----- Numbers shown can be read back -----

  /** Reading a shown number: an optional sign, then digits. */
  function ReadBack(s: seq<Byte>, base: Base): Option<int> {
    if s != [] && s[0] == 0x2D then
      (if Numeral(s[1..], base) then (var d: int := Denoted(s[1..], base); Some(-d)) else None)
    else if Numeral(s, base) then (var d: int := Denoted(s, base); Some(d))
    else None
  }

  lemma UnsignedReadsBack(n: U32, base: Base)
    ensures Unsigned(n, base) != [] && Unsigned(n, base)[0] != 0x2D && 0 !in Unsigned(n, base)
    ensures Numeral(Unsigned(n, base), base) && Denoted(Unsigned(n, base), base) == n
    ensures ReadBack(Unsigned(n, base), base) == Some(n)
  {
    hide Denoted, Digits, Numeral;
    if n == 0 {
      EmptyNumeral(base);
      DigitBack(0, false);
      DenotedMore([], 0x30, base);
      assert [] + [0x30] == [0x30];
    } else {
      DigitsDenote(n, base, false);
      FirstDigit(n, base, false);
      NoNul(n, base, false);
      FirstIsDigit(Digits(n, base, false), base);
    }
  }

  lemma FirstIsDigit(s: seq<Byte>, base: Base)
    requires s != [] && Numeral(s, base)
    ensures s[0] != 0x2D
  {
  }

  /** Every number shown denotes its argument in its base: `%d` and `%i` as two's complement,
      `%u`, `%o`, `%x` and, after its prefix, `%p` as an unsigned number. */
  lemma ShownReadsBack(arg: Arg)
    ensures var s := if arg.value < 0x8000_0000 then arg.value as int else arg.value - 0x1_0000_0000;
      && ReadBack(Shown(0x64, arg), 10) == Some(s) && ReadBack(Shown(0x69, arg), 10) == Some(s)
    ensures ReadBack(Shown(0x75, arg), 10) == Some(arg.value)
    ensures ReadBack(Shown(0x6F, arg), 8) == Some(arg.value)
    ensures ReadBack(Shown(0x78, arg), 16) == Some(arg.value)
    ensures Shown(0x70, arg)[..2] == [0x30, 0x78] && ReadBack(Shown(0x70, arg)[2..], 16) == Some(arg.value)
  {
    hide Unsigned, Denoted, Numeral;
    UnsignedReadsBack(arg.value, 10);
    UnsignedReadsBack(arg.value, 8);
    UnsignedReadsBack(arg.value, 16);
    assert ([0x30, 0x78] + Unsigned(arg.value, 16))[2..] == Unsigned(arg.value, 16);
    if arg.value >= 0x8000_0000 {
      UnsignedReadsBack(0x1_0000_0000 - arg.value, 10);
      var t := Unsigned(0x1_0000_0000 - arg.value, 10);
      assert ([0x2D] + t)[1..] == t;
    }
  }

  // ----- Buffered output -----

  /** What is written of a buffer: up to its first NUL. */
  function Visible(s: seq<Byte>): (r: seq<Byte>)
    ensures |r| <= |s| && (r == s <==> 0 !in s) && (r == s <==> |r| == |s|)
  {
    if s == [] || s[0] == 0 then []
    else
      assert s == [s[0]] + s[1..];
      [s[0]] + Visible(s[1..])
  }

  lemma {:induction false} VisibleUpTo(s: seq<Byte>, rest: seq<Byte>)
    ensures Visible(s + [0] + rest) == Visible(s)
    decreases |s|
  {
    var whole := s + [0] + rest;
    if s != [] {
      assert whole[1..] == s[1..] + [0] + rest;
      VisibleUpTo(s[1..], rest);
    }
  }

  /** What reaches the line of a text put character by character: of each full buffer, and of
      the last, what comes before its first NUL. */
  function Sent(s: seq<Byte>): seq<Byte> {
    if |s| < BUF_SIZE then Visible(s) else Visible(s[..BUF_SIZE]) + Sent(s[BUF_SIZE..])
  }

  /** A text arrives whole if and only if it has no NUL. */
  lemma {:induction false} SentWhole(s: seq<Byte>)
    ensures |Sent(s)| <= |s| && (|Sent(s)| == |s| <==> 0 !in s) && (Sent(s) == s <==> 0 !in s)
    decreases |s|
  {
    if |s| >= BUF_SIZE {
      SentWhole(s[BUF_SIZE..]);
      assert s == s[..BUF_SIZE] + s[BUF_SIZE..];
    }
  }

  /** What was sent, and what the buffer holds. */
  datatype Out = Out(sent: seq<Byte>, held: seq<Byte>) {
    function Put(c: Byte): Out {
      var h := held + [c];
      if |h| == BUF_SIZE then Out(sent + Visible(h), []) else Out(sent, h)
    }

    function PutAll(s: seq<Byte>): Out
      decreases |s|
    {
      if s == [] then this else PutAll(s[..|s| - 1]).Put(s[|s| - 1])
    }
  }

  lemma {:induction false} PutAllConcat(o: Out, a: seq<Byte>, b: seq<Byte>)
    ensures o.PutAll(a + b) == o.PutAll(a).PutAll(b)
    decreases |b|
  {
    if b == [] {
      assert a + b == a;
    } else {
      var k := |b| - 1;
      assert (a + b)[..|a + b| - 1] == a + b[..k];
      PutAllConcat(o, a, b[..k]);
    }
  }

  /** However a text is put, what is sent once the buffer is written out is decided by it alone. */
  lemma {:induction false} PutAllSends(o: Out, s: seq<Byte>)
    requires |o.held| < BUF_SIZE
    ensures var p := o.PutAll(s);
      |p.held| < BUF_SIZE && forall t {:trigger Sent(p.held + t)} ::
        p.sent + Sent(p.held + t) == o.sent + Sent(o.held + s + t)
    decreases |s|
  {
    hide Sent, Visible;
    if s == [] {
      assert forall t :: o.held + s + t == o.held + t;
      return;
    }
    var front, c := s[..|s| - 1], s[|s| - 1];
    PutAllSends(o, front);
    var p, q := o.PutAll(front), o.PutAll(s);
    forall t
      ensures q.sent + Sent(q.held + t) == o.sent + Sent(o.held + s + t)
    {
      assert o.held + s + t == o.held + front + ([c] + t);
      assert p.held + ([c] + t) == (p.held + [c]) + t;
      assert p.sent + Sent(p.held + ([c] + t)) == o.sent + Sent(o.held + front + ([c] + t));
      if q.held == [] {
        FullSends(p.held + [c], t);
        assert q.held + t == t;
      }
    }
  }

  lemma FullSends(h: seq<Byte>, t: seq<Byte>)
    requires |h| == BUF_SIZE
    ensures Sent(h + t) == Visible(h) + Sent(t)
  {
    assert (h + t)[..BUF_SIZE] == h && (h + t)[BUF_SIZE..] == t;
  }

  class File {
    const buff: array<Byte>
    var pos: nat

    /** The strings passed to the serial line so far, joined. */
    var written: seq<Byte>

    constructor ()
      ensures Open() && State() == Out([], []) && fresh(buff)
    {
      buff := new Byte[BUF_SIZE + 1];
      pos, written := 0, [];
    }

    /** Between calls the buffer is never full. */
    ghost predicate Open()
      reads this
    {
      buff.Length == BUF_SIZE + 1 && pos < BUF_SIZE
    }

    ghost function State(): Out
      requires buff.Length == BUF_SIZE + 1 && pos <= BUF_SIZE
      reads this, buff
    {
      Out(written, buff[..pos])
    }

    method FFlush()
      requires buff.Length == BUF_SIZE + 1 && pos <= BUF_SIZE
      modifies this, buff
      ensures Open() && State() == Out(old(written) + Visible(old(buff[..pos])), [])
    {
      ghost var s := buff[..pos];
      buff[pos] := 0;
      assert buff[..] == s + [0] + buff[pos + 1..];
      VisibleUpTo(s, buff[pos + 1..]);
      written := written + Visible(buff[..]);
      pos := 0;
    }

    method PutC(c: Byte)
      requires Open()
      modifies this, buff
      ensures Open() && State() == old(State()).Put(c)
    {
      hide Visible;
      buff[pos] := c;
      pos := pos + 1;
      assert buff[..pos] == old(buff[..pos]) + [c];
      if pos == BUF_SIZE {
        FFlush();
      }
    }

    method PutString(s: seq<Byte>) returns (count: nat)
      requires Open()
      modifies this, buff
      ensures Open() && State() == old(State()).PutAll(s) && count == |s|
    {
      hide Visible, Out.Put;
      PutNone(State());
      assert s[..0] == [];
      for i := 0 to |s|
        invariant Open() && State() == old(State()).PutAll(s[..i])
      {
        PutNext(old(State()), s, i);
        PutC(s[i]);
      }
      assert s[..|s|] == s;
      return |s|;
    }

    static lemma UnsignedZero(base: Base)
      ensures Unsigned(0, base) == [0x30]
    {
    }

    /** The digits as shown are those collected, backwards. */
    static lemma ShownBackwards(n: U32, base: Base)
      requires n != 0
      ensures var low, shown := LowFirst(n, base, false), Unsigned(n, base);
        |low| == |shown| && forall i :: 0 <= i < |low| ==> low[i] == shown[|low| - 1 - i]
    {
      hide Digits, LowFirst, DigitChar, Quot, Rem;
      LowFirstReversed(n, base, false);
      var low, shown := LowFirst(n, base, false), Unsigned(n, base);
      forall i | 0 <= i < |low|
        ensures low[i] == shown[|low| - 1 - i]
      {
        assert Reversed(low)[|low| - 1 - i] == low[i];
      }
    }

    /** The digits of a number, collected least significant first and put in reverse. The
        count is the index of the last digit, not the number of digits, unless it is zero. */
    method PrintNbrBase(n: U32, base: Base) returns (count: int)
      requires Open()
      modifies this, buff
      ensures Open() && State() == old(State()).PutAll(Unsigned(n, base))
      ensures count == |Unsigned(n, base)| - (if n == 0 then 0 else 1)
    {
      hide Digits, LowFirst, DigitChar, Visible, Out.Put, Out.PutAll, Unsigned, Reversed, Quot, Rem;
      ghost var was := State();
      PutNone(was);
      if n == 0 {
        UnsignedZero(base);
        PutNext(was, [0x30], 0);
        PutC(0x30);
        return 1;
      }
      var digits := new Byte[96];
      count := Conv(n, base, digits);
      ghost var low, shown := LowFirst(n, base, false), Unsigned(n, base);
      ShownBackwards(n, base);
      var i := count;
      assert shown[..0] == [];
      while i >= 0
        invariant -1 <= i <= count == |low| - 1 && Open() && State() == was.PutAll(shown[..count - i])
        invariant digits[..count + 1] == low
      {
        assert digits[i] == digits[..count + 1][i] == shown[count - i];
        PutNext(was, shown, count - i);
        PutC(digits[i]);
        i := i - 1;
      }
      assert shown[..count + 1] == shown;
    }

    static method Conv(n: U32, base: Base, dig: array<Byte>) returns (last: int)
      requires dig.Length == 96 && n != 0
      modifies dig
      ensures 0 <= last < 96 && last + 1 == |LowFirst(n, base, false)| && dig[..last + 1] == LowFirst(n, base, false)
    {
      hide LowFirst, DigitChar, Quot, Rem, Digits;
      ghost var low := LowFirst(n, base, false);
      LowFirstReversed(n, base, false);
      DigitsOf32(n, base, false);
      LowFirstStep(n, base, false);
      var i: nat, rest: nat := 0, n;
      while rest != 0
        invariant i <= |low| <= 32 && low[i..] == LowFirst(rest, base, false) && dig[..i] == low[..i]
        decreases rest
      {
        LowFirstStep(rest, base, false);
        assert low[i] == low[i..][0] && low[i + 1..] == low[i..][1..];
        ghost var was := dig[..i];
        dig[i] := DigitChar(Rem(rest, base), false);
        assert dig[..i + 1] == was + [low[i]] && low[..i + 1] == low[..i] + [low[i]];
        i := i + 1;
        rest := Quot(rest, base);
      }
      NoDigits(base, false);
      assert low[i..] == [] && low[..i] == low;
      return i - 1;
    }

    method PrintInt(value: U32, signed: bool) returns (count: int)
      requires Open()
      modifies this, buff
      ensures var s := if signed then Signed(value) else Unsigned(value, 10);
        Open() && State() == old(State()).PutAll(s) && count == |s| - (if value == 0 then 0 else 1)
    {
      hide Digits, Visible, Out.Put, Out.PutAll;
      ghost var was := State();
      PutNone(was);
      if value == 0 {
        PutNext(was, [0x30], 0);
        PutC(0x30);
        return 1;
      }
      var sh: int, n: U32 := 0, value;
      if signed && value >= 0x8000_0000 {
        PutNext(was, [0x2D], 0);
        PutC(0x2D);
        n := (0x1_0000_0000 - value) % 0x1_0000_0000;
        sh := 1;
        PutAllConcat(was, [0x2D], Unsigned(n, 10));
      }
      count := PrintNbrBase(n, 10);
      count := count + sh;
    }

    method SpecialChar(fmt: Byte, value: Arg) returns (count: int)
      requires Open()
      modifies this, buff
      ensures Open() && State() == old(State()).PutAll(Shown(fmt, value))
      ensures count == |Shown(fmt, value)| - Missed(fmt, value)
    {
      hide Unsigned, Signed, Visible, Out.Put, Out.PutAll;
      if fmt == 0x64 || fmt == 0x69 {
        count := PrintInt(value.value, true);
      } else if fmt == 0x75 {
        count := PrintInt(value.value, false);
      } else if fmt == 0x73 {
        count := PutString(value.text);
      } else if fmt == 0x63 {
        count := PutString([value.value % 0x100]);
      } else if fmt == 0x6F {
        count := PrintNbrBase(value.value, 8);
      } else if fmt == 0x78 {
        count := PrintNbrBase(value.value, 16);
      } else if fmt == 0x70 {
        PutAllConcat(State(), [0x30, 0x78], Unsigned(value.value, 16));
        var s := PutString([0x30, 0x78]);
        count := PrintNbrBase(value.value, 16);
        count := s + count;
      } else if fmt == PERCENT {
        count := PutString([fmt]);
      } else {
        count := PutString([PERCENT, fmt]);
      }
    }

    /** For every format without a lone percent sign at its end and enough arguments, the text
        of the format is put, and reaches the line up to the first NUL of each buffer. */
    method VPrintf(format: CString, args: seq<Arg>) returns (count: int)
      requires Whole(format) && Taken(AsWritten, format) <= |args| && buff.Length == BUF_SIZE + 1
      modifies this, buff
      ensures pos == 0 && written == old(written) + Sent(Render(AsWritten, format, args))
      ensures count == |Render(AsWritten, format, args)| - Uncounted(format, args)
    {
      hide Shown, Render, Taken, Uncounted, Missed, Whole, Visible, Sent, Out.Put, Out.PutAll;
      pos, count := 0, 0;
      var at, arg := 0, 0;
      assert format[0..] == format && args[0..] == args;
      ghost var all, was := Render(AsWritten, format, args), State();
      ghost var done: seq<Byte> := [];
      PutNone(was);
      while at < |format|
        invariant at <= |format| && arg <= |args| && Open()
        invariant Whole(format[at..]) && Taken(AsWritten, format[at..]) <= |args| - arg
        invariant State() == was.PutAll(done) && done + Render(AsWritten, format[at..], args[arg..]) == all
        invariant count == |done| - Uncounted(format, args) + Uncounted(format[at..], args[arg..])
        decreases |format| - at
      {
        FormatStep(format, at, args, arg);
        if format[at] == PERCENT {
          ghost var s := Shown(format[at + 1], args[arg]);
          var shown := SpecialChar(format[at + 1], args[arg]);
          PutAllConcat(was, done, s);
          ghost var rest := Render(AsWritten, format[at + 2..], args[arg + 1..]);
          assert done + (s + rest) == (done + s) + rest;
          count, done := count + shown, done + s;
          arg := arg + 1;
          at := at + 2;
        } else {
          PutC(format[at]);
          PutOne(was, done, format[at]);
          ghost var rest := Render(AsWritten, format[at + 1..], args[arg..]);
          assert done + ([format[at]] + rest) == (done + [format[at]]) + rest;
          count, done := count + 1, done + [format[at]];
          at := at + 1;
        }
      }
      NothingLeft(args[arg..]);
      assert format[at..] == [] && done + [] == done;
      LastBuffer(was, all);
      FFlush();
    }
  }

  lemma PutNone(o: Out)
    ensures o.PutAll([]) == o
  {
  }

  lemma PutOne(o: Out, s: seq<Byte>, c: Byte)
    ensures o.PutAll(s + [c]) == o.PutAll(s).Put(c)
  {
    assert (s + [c])[..|s|] == s;
  }

  lemma PutNext(o: Out, s: seq<Byte>, i: nat)
    requires i < |s|
    ensures o.PutAll(s[..i + 1]) == o.PutAll(s[..i]).Put(s[i])
    ensures i + 1 == |s| ==> o.PutAll(s) == o.PutAll(s[..i]).Put(s[i])
    ensures i == 0 ==> s[..i] == []
  {
    assert s[..i + 1][..i] == s[..i];
    assert s[..|s|] == s;
  }

  /** Writing out the last buffer, started empty. */
  lemma LastBuffer(o: Out, s: seq<Byte>)
    requires o.held == []
    ensures var p := o.PutAll(s); p.sent + Visible(p.held) == o.sent + Sent(s)
  {
    hide Visible;
    PutAllSends(o, s);
    var p := o.PutAll(s);
    assert p.held + [] == p.held && o.held + s + [] == s;
    assert p.sent + Sent(p.held + []) == o.sent + Sent(o.held + s + []);
  }

  lemma NothingLeft(args: seq<Arg>)
    ensures Whole([]) && Render(AsWritten, [], args) == [] && Uncounted([], args) == 0
  {
  }

  /** One format character, or one conversion, at a time. */
  lemma FormatStep(format: seq<Byte>, at: nat, args: seq<Arg>, arg: nat)
    requires at < |format| && arg <= |args| && Whole(format[at..]) && Taken(AsWritten, format[at..]) <= |args| - arg
    ensures format[at] == PERCENT ==>
              && at + 2 <= |format| && arg < |args|
              && Whole(format[at + 2..]) && Taken(AsWritten, format[at + 2..]) <= |args| - (arg + 1)
              && Render(AsWritten, format[at..], args[arg..])
                 == Shown(format[at + 1], args[arg]) + Render(AsWritten, format[at + 2..], args[arg + 1..])
              && Uncounted(format[at..], args[arg..])
                 == Missed(format[at + 1], args[arg]) + Uncounted(format[at + 2..], args[arg + 1..])
    ensures format[at] != PERCENT ==>
              && Whole(format[at + 1..]) && Taken(AsWritten, format[at + 1..]) <= |args| - arg
              && Render(AsWritten, format[at..], args[arg..])
                 == [format[at]] + Render(AsWritten, format[at + 1..], args[arg..])
              && Uncounted(format[at..], args[arg..]) == Uncounted(format[at + 1..], args[arg..])
  {
    hide Shown, Missed;
    var left, given := format[at..], args[arg..];
    assert left[0] == format[at];
    if format[at] == PERCENT {
      assert left[1] == format[at + 1] && left[2..] == format[at + 2..];
      assert given[0] == args[arg] && given[1..] == args[arg + 1..];
    } else {
      assert left[1..] == format[at + 1..];
    }
  }

  // ----- When the whole text arrives -----

  /** Some `%c` is given a zero byte. */
  predicate ShowsNul(format: seq<Byte>, args: seq<Arg>)
    requires Whole(format) && Taken(AsWritten, format) <= |args|
  {
    format != [] &&
    if format[0] == PERCENT then
      (format[1] == 0x63 && args[0].value % 0x100 == 0) || ShowsNul(format[2..], args[1..])
    else ShowsNul(format[1..], args)
  }

  lemma {:induction false} NulFromCharacter(format: CString, args: seq<Arg>)
    requires Whole(format) && Taken(AsWritten, format) <= |args|
    ensures 0 in Render(AsWritten, format, args) <==> ShowsNul(format, args)
    decreases |format|
  {
    hide Shown;
    if format != [] {
      if format[0] == PERCENT {
        ShownNul(format[1], args[0]);
        NulFromCharacter(format[2..], args[1..]);
      } else {
        NulFromCharacter(format[1..], args);
      }
    }
  }

  lemma ShownNul(letter: Byte, arg: Arg)
    requires letter != 0
    ensures 0 in Shown(letter, arg) <==> letter == 0x63 && arg.value % 0x100 == 0
  {
    hide Digits;
    NoNul(arg.value, 8, false);
    NoNul(arg.value, 10, false);
    NoNul(arg.value, 16, false);
    if arg.value >= 0x8000_0000 {
      NoNul(0x1_0000_0000 - arg.value, 10, false);
    }
  }

  lemma {:induction false} SentBlock(q: seq<Byte>, t: seq<Byte>)
    requires |q| % 64 == 0 && 0 !in q
    ensures Sent(q + t) == q + Sent(t)
    decreases |q|
  {
    hide Visible;
    if q == [] {
      assert q + t == t;
    } else {
      var h, rest := q[..64], q[64..];
      assert q + t == h + (rest + t) && q == h + rest;
      FullSends(h, rest + t);
      SentBlock(rest, t);
      assert Visible(h) == h by { VisibleOf(h); }
      assert h + (rest + Sent(t)) == q + Sent(t);
    }
  }

  lemma VisibleOf(h: seq<Byte>)
    requires 0 !in h
    ensures Visible(h) == h
  {
  }

  lemma {:induction false} VisibleCut(a: seq<Byte>, b: seq<Byte>)
    requires 0 !in a
    ensures Visible(a + ([0] + b)) == a
    decreases |a|
  {
    var s := a + ([0] + b);
    if a != [] {
      assert a[0] in a && s[0] == a[0] && s[1..] == a[1..] + ([0] + b);
      VisibleCut(a[1..], b);
    }
  }

  /** A NUL hides itself and what follows it up to the next multiple of 64 characters, or to the
      end. */
  lemma NulHides(q: seq<Byte>, a: seq<Byte>, b: seq<Byte>, t: seq<Byte>)
    requires |q| % 64 == 0 && 0 !in q && 0 !in a
    requires |a| + 1 + |b| == 64 || (|a| + 1 + |b| < 64 && t == [])
    ensures Sent(q + (a + ([0] + b) + t)) == q + (a + Sent(t))
  {
    hide Visible;
    var h := a + ([0] + b);
    SentBlock(q, h + t);
    VisibleCut(a, b);
    if |h| == 64 {
      FullSends(h, t);
    } else {
      assert h + t == h && Sent([]) == [] by { NothingSent(); }
      assert a + [] == a;
    }
  }

  lemma NothingSent()
    ensures Sent([]) == []
  {
  }

  /** The text reaches the line whole if and only if no `%c` is given a zero byte. */
  lemma ArrivesExactly(format: CString, args: seq<Arg>)
    requires Whole(format) && Taken(AsWritten, format) <= |args|
    ensures var s := Render(AsWritten, format, args); Sent(s) == s <==> !ShowsNul(format, args)
  {
    SentWhole(Render(AsWritten, format, args));
    NulFromCharacter(format, args);
  }
}
