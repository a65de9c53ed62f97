/** The BIOS tokeniser: it cuts a string in place and remembers where to go on. */
module Tokens {
  import opened Words
  import opened Wrappers

  /** A terminator at `i` or later. */
  predicate Ends(b: seq<Byte>, i: nat)
    decreases |b| - i
  {
    i < |b| && (b[i] == 0 || Ends(b, i + 1))
  }

  /** The first position from `i` on that is no delimiter. */
  function Skip(b: seq<Byte>, i: nat, delim: Byte): (r: nat)
    requires Ends(b, i) && delim != 0
    ensures i <= r < |b| && b[r] != delim && Ends(b, r)
    ensures forall k :: i <= k < r ==> b[k] == delim
    decreases |b| - i
  {
    if b[i] == delim then Skip(b, i + 1, delim) else i
  }

  /** The first position from `i` on that is a delimiter or the terminator. */
  function Stop(b: seq<Byte>, i: nat, delim: Byte): (r: nat)
    requires Ends(b, i) && delim != 0
    ensures i <= r < |b| && (b[r] == delim || b[r] == 0) && Ends(b, r)
    ensures forall k :: i <= k < r ==> b[k] != delim && b[k] != 0
    decreases |b| - i
  {
    if b[i] != delim && b[i] != 0 then Stop(b, i + 1, delim) else i
  }

  /** A call's result, the string after it, and where the next call goes on. */
  datatype Cut = Cut(token: Option<nat>, b: seq<Byte>, last: Option<nat>)

  function StrTok(b: seq<Byte>, run: Option<nat>, delim: Byte): (r: Cut)
    requires delim != 0 && (run.Some? ==> Ends(b, run.value))
    ensures |r.b| == |b|
  {
    match run
    case None => Cut(None, b, None)
    case Some(i) =>
      var start := Skip(b, i, delim);
      var stop := Stop(b, start, delim);
      if b[stop] == 0 then Cut(Some(start), b, None)
      else
        var next := Skip(b, stop, delim);
        Cut(Some(start), b[stop := 0], if b[next] == 0 then None else Some(next))
  }

  // ----- Maximal runs -----

  /** A piece of the string without delimiters, from `start` up to `stop`. */
  datatype Piece = Piece(start: nat, stop: nat)

  /** The maximal delimiter-free runs from `i` on, in order. */
  function Pieces(b: seq<Byte>, i: nat, delim: Byte): (ps: seq<Piece>)
    requires Ends(b, i) && delim != 0
    ensures forall k :: 0 <= k < |ps| ==> i <= ps[k].start < ps[k].stop < |b|
    decreases |b| - i
  {
    var start := Skip(b, i, delim);
    if b[start] == 0 then []
    else
      var stop := Stop(b, start, delim);
      [Piece(start, stop)] + (if b[stop] == 0 then [] else Pieces(b, stop, delim))
  }

  /** Inside no piece is there a delimiter, and each is bounded by delimiters or the ends. */
  lemma {:induction false} PiecesMaximal(b: seq<Byte>, i: nat, delim: Byte, k: nat)
    requires Ends(b, i) && delim != 0 && k < |Pieces(b, i, delim)|
    ensures var p := Pieces(b, i, delim)[k];
      && (forall j :: p.start <= j < p.stop ==> b[j] != delim && b[j] != 0)
      && (b[p.stop] == delim || b[p.stop] == 0) && (p.start == i || b[p.start - 1] == delim)
    decreases |b| - i
  {
    var start := Skip(b, i, delim);
    var stop := Stop(b, start, delim);
    if k > 0 {
      PiecesMaximal(b, stop, delim, k - 1);
      if Pieces(b, stop, delim)[k - 1].start == stop {
        PieceAfterDelimiter(b, stop, delim);
        assert false;
      }
    }
  }

  lemma PieceAfterDelimiter(b: seq<Byte>, i: nat, delim: Byte)
    requires Ends(b, i) && delim != 0 && b[i] == delim
    ensures forall k :: 0 <= k < |Pieces(b, i, delim)| ==> Pieces(b, i, delim)[k].start > i
  {
    var start := Skip(b, i, delim);
    if b[start] != 0 {
      var stop := Stop(b, start, delim);
      assert Pieces(b, i, delim) == [Piece(start, stop)] + (if b[stop] == 0 then [] else Pieces(b, stop, delim));
    }
  }

  /** Every character that is neither delimiter nor terminator, up to the terminator, lies in
      some piece. */
  lemma {:induction false} PiecesCover(b: seq<Byte>, i: nat, delim: Byte, j: nat)
    requires Ends(b, i) && delim != 0 && i <= j < |b| && b[j] != delim
    requires forall k :: i <= k <= j ==> b[k] != 0
    ensures exists k ::
              0 <= k < |Pieces(b, i, delim)| && Pieces(b, i, delim)[k].start <= j < Pieces(b, i, delim)[k].stop
    decreases |b| - i
  {
    var start := Skip(b, i, delim);
    var stop := Stop(b, start, delim);
    assert start <= j;
    var ps := Pieces(b, i, delim);
    if j < stop {
      assert ps[0] == Piece(start, stop);
    } else {
      PiecesCover(b, stop, delim, j);
      var more := Pieces(b, stop, delim);
      var k :| 0 <= k < |more| && more[k].start <= j < more[k].stop;
      assert ps[k + 1] == more[k];
    }
  }

  // ----- Repeated calls -----

  /** The string with the end of every piece cut, where it is not the terminator already. */
  function CutAll(b: seq<Byte>, ps: seq<Piece>): (r: seq<Byte>)
    ensures |r| == |b|
    decreases |ps|
  {
    if ps == [] then b
    else CutAll(if ps[0].stop < |b| then b[ps[0].stop := 0] else b, ps[1..])
  }

  /** Calls until the first that finds nothing: the tokens, and the string left behind. */
  function Calls(b: seq<Byte>, run: Option<nat>, delim: Byte, fuel: nat): (seq<nat>, seq<Byte>)
    requires delim != 0 && (run.Some? ==> Ends(b, run.value))
    decreases fuel
  {
    var cut := StrTok(b, run, delim);
    if cut.token.None? || fuel == 0 || (cut.last.Some? && !Ends(cut.b, cut.last.value)) then ([], b)
    else
      var (ts, b') := Calls(cut.b, cut.last, delim, fuel - 1);
      ([cut.token.value] + ts, b')
  }

  function Starts(ps: seq<Piece>): seq<nat> {
    seq(|ps|, k requires 0 <= k < |ps| => ps[k].start)
  }

  /** What lies before `i` does not matter. */
  lemma {:induction false} SameAfter(b: seq<Byte>, b': seq<Byte>, i: nat, delim: Byte)
    requires Ends(b, i) && delim != 0 && |b'| == |b| && forall k :: i <= k < |b| ==> b'[k] == b[k]
    ensures Ends(b', i) && Skip(b', i, delim) == Skip(b, i, delim) && Stop(b', i, delim) == Stop(b, i, delim)
    decreases |b| - i
  {
    if b[i] != 0 {
      SameAfter(b, b', i + 1, delim);
    }
  }

  lemma {:induction false} PiecesAfter(b: seq<Byte>, b': seq<Byte>, i: nat, delim: Byte)
    requires Ends(b, i) && delim != 0 && |b'| == |b| && forall k :: i <= k < |b| ==> b'[k] == b[k]
    ensures Ends(b', i) && Pieces(b', i, delim) == Pieces(b, i, delim)
    decreases |b| - i
  {
    SameAfter(b, b', i, delim);
    var start := Skip(b, i, delim);
    SameAfter(b, b', start, delim);
    var stop := Stop(b, start, delim);
    if b[start] != 0 && b[stop] != 0 {
      PiecesAfter(b, b', stop, delim);
    }
  }

  /** Skipping on from a delimiter leaves the pieces as they are. */
  lemma PiecesSkip(b: seq<Byte>, i: nat, delim: Byte)
    requires Ends(b, i) && delim != 0
    ensures Pieces(b, Skip(b, i, delim), delim) == Pieces(b, i, delim)
    ensures Pieces(b, i, delim) == [] <==> b[Skip(b, i, delim)] == 0
  {
    SkipAgain(b, i, delim);
  }

  lemma SkipAgain(b: seq<Byte>, i: nat, delim: Byte)
    requires Ends(b, i) && delim != 0
    ensures Skip(b, Skip(b, i, delim), delim) == Skip(b, i, delim)
  {
  }

  /** One call takes the first piece and goes on at the second. */
  lemma OneCall(b: seq<Byte>, i: nat, delim: Byte)
    requires Ends(b, i) && delim != 0 && Pieces(b, i, delim) != []
    ensures var ps, cut := Pieces(b, i, delim), StrTok(b, Some(i), delim);
      && cut.token == Some(ps[0].start) && cut.b == b[ps[0].stop := 0]
      && (|ps| == 1 ==> cut.last == None)
      && (|ps| > 1 ==>
            && cut.last.Some? && i < cut.last.value < |b| && Ends(cut.b, cut.last.value)
            && Pieces(cut.b, cut.last.value, delim) == ps[1..])
  {
    hide Ends;
    var start := Skip(b, i, delim);
    var stop := Stop(b, start, delim);
    assert b[start] != 0;
    if b[stop] == 0 {
      assert b[stop := 0] == b;
    } else {
      assert Pieces(b, i, delim)[1..] == Pieces(b, stop, delim);
      PiecesSkip(b, stop, delim);
      var next := Skip(b, stop, delim);
      if b[next] != 0 {
        PiecesAfter(b, b[stop := 0], next, delim);
      }
    }
  }

  /** For every string with a character that is no delimiter: repeated calls return the starts
      of exactly its maximal delimiter-free runs, in order, and then nothing; and they change
      nothing but the first delimiter after each run. */
  lemma {:induction false} CallsAreMaximalRuns(b: seq<Byte>, i: nat, delim: Byte, fuel: nat)
    requires Ends(b, i) && delim != 0 && fuel >= |b| - i && Pieces(b, i, delim) != []
    ensures Calls(b, Some(i), delim, fuel) == (Starts(Pieces(b, i, delim)), CutAll(b, Pieces(b, i, delim)))
    decreases |b| - i
  {
    hide Ends, CutAll, Pieces, StrTok;
    var ps, cut := Pieces(b, i, delim), StrTok(b, Some(i), delim);
    OneCall(b, i, delim);
    CutFirst(b, ps);
    if |ps| == 1 {
      NoCall(cut.b, delim, fuel - 1);
      CutNone(cut.b);
      assert Starts(ps) == [ps[0].start] + [] && ps[1..] == [];
    } else {
      CallsAreMaximalRuns(cut.b, cut.last.value, delim, fuel - 1);
      assert Starts(ps) == [ps[0].start] + Starts(ps[1..]);
    }
  }

  lemma NoCall(b: seq<Byte>, delim: Byte, fuel: nat)
    requires delim != 0
    ensures Calls(b, None, delim, fuel) == ([], b)
  {
  }

  lemma CutNone(b: seq<Byte>)
    ensures CutAll(b, []) == b
  {
  }

  lemma CutFirst(b: seq<Byte>, ps: seq<Piece>)
    requires ps != [] && ps[0].stop < |b|
    ensures CutAll(b, ps) == CutAll(b[ps[0].stop := 0], ps[1..])
  {
  }

  /** A string of delimiters alone gives one empty token before it gives nothing, so the calls
      return the runs if and only if there is one. */
  lemma OnlyDelimiters(b: seq<Byte>, i: nat, delim: Byte, fuel: nat)
    requires Ends(b, i) && delim != 0 && fuel >= |b| - i
    ensures Pieces(b, i, delim) == [] ==> Calls(b, Some(i), delim, fuel) == ([Skip(b, i, delim)], b)
    ensures Calls(b, Some(i), delim, fuel).0 == Starts(Pieces(b, i, delim)) <==> Pieces(b, i, delim) != []
  {
    hide CutAll;
    PiecesSkip(b, i, delim);
    if Pieces(b, i, delim) == [] {
      var start := Skip(b, i, delim);
      assert Stop(b, start, delim) == start;
      assert Calls(b, None, delim, fuel - 1) == ([], b);
      assert [start] + [] == [start];
    } else {
      CallsAreMaximalRuns(b, i, delim, fuel);
    }
  }

  // ----- The tokeniser in place -----

  class Tokenizer {
    /** The string under way, and where the next call goes on. */
    const buf: array<Byte>
    var last: Option<nat>

    constructor (buf: array<Byte>)
      ensures this.buf == buf && last == None
    {
      this.buf, last := buf, None;
    }

    method Advance(i: nat, delim: Byte, within: bool) returns (r: nat)
      requires Ends(buf[..], i) && delim != 0
      ensures r == if within then Stop(buf[..], i, delim) else Skip(buf[..], i, delim)
    {
      r := i;
      if within {
        while buf[r] != delim && buf[r] != 0
          invariant Ends(buf[..], r) && Stop(buf[..], r, delim) == Stop(buf[..], i, delim)
          decreases buf.Length - r
        {
          r := r + 1;
        }
      } else {
        while buf[r] == delim
          invariant Ends(buf[..], r) && Skip(buf[..], r, delim) == Skip(buf[..], i, delim)
          decreases buf.Length - r
        {
          r := r + 1;
        }
      }
    }

    method StrTokC(str: Option<nat>, delim: Byte) returns (token: Option<nat>)
      requires delim != 0
      requires var run := if str.Some? then str else last; run.Some? ==> Ends(buf[..], run.value)
      modifies this, buf
      ensures Cut(token, buf[..], last) == StrTok(old(buf[..]), if str.Some? then str else old(last), delim)
    {
      var from := if str.Some? then str else last;
      if from.None? {
        last := None;
        return None;
      }
      var res := Advance(from.value, delim, false);
      var run := Advance(res, delim, true);
      if buf[run] != 0 {
        var end := run;
        run := Advance(run, delim, false);
        buf[end] := 0;
      }
      last := if buf[run] == 0 then None else Some(run);
      return Some(res);
    }
  }
}
