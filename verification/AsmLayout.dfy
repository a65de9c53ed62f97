/** How a function's statements lie in its image, and reading the image back. */
module AsmLayout {
  import opened Words
  import opened AsmAst
  import opened AsmSynth
  import opened AsmMeaning
  import opened AsmSemantics
  import opened EndToEnd
  import Isa = OcdIsa

  /** Word `o` is part of statement `i`. */
  predicate Owns(items: seq<Item>, i: nat, o: nat)
    requires i < |items|
  {
    Offset(items[..i]) <= o < Offset(items[..i]) + Size(items[i].op)
  }

  /** Every word of the image belongs to exactly one statement: ranges are contiguous,
      disjoint and without gaps. */
  lemma {:induction false} WordsShared(items: seq<Item>, o: nat)
    requires o < Offset(items)
    ensures exists i :: 0 <= i < |items| && Owns(items, i, o)
    ensures forall i, j :: 0 <= i < |items| && 0 <= j < |items| && Owns(items, i, o) && Owns(items, j, o) ==> i == j
    decreases |items|
  {
    var n := |items| - 1;
    if o < Offset(items[..n]) {
      WordsShared(items[..n], o);
      forall i | 0 <= i < n
        ensures Owns(items[..n], i, o) <==> Owns(items, i, o)
      {
        assert items[..n][..i] == items[..i];
      }
      var i :| 0 <= i < n && Owns(items[..n], i, o);
      assert Owns(items, i, o);
    } else {
      assert Owns(items, n, o);
      forall i | 0 <= i < n
        ensures !Owns(items, i, o)
      {
        OffsetStep(items, i);
        OffsetMonotone(items, i + 1, n);
      }
    }
  }

  // ----- Reading an image back -----

  /** The words as the unit holds them. */
  function Stored(image: seq<int>): seq<Word> {
    seq(|image|, i requires 0 <= i < |image| => image[i] % 0x1_0000)
  }

  /** A linear sweep: decode, skip the immediate of an LDI, go on. */
  function Sweep(ws: seq<Word>): seq<Isa.Op> {
    if ws == [] then []
    else
      var op := Isa.Decode(ws[0], if |ws| > 1 then ws[1] else 0);
      [op] + Sweep(if Isa.Length(op) == 2 && |ws| > 1 then ws[2..] else ws[1..])
  }

  /** The operations of the source, with branch targets resolved. */
  function Resolved(labels: map<string, int>, items: seq<Item>): seq<Isa.Op> {
    if items == [] then []
    else (if items[0].op == Ud then [] else [Lower(items[0].op, TargetByte(labels, items[0].target))])
         + Resolved(labels, items[1..])
  }

  /** An image starts with the code of its first statement. */
  lemma {:induction false} ImageFirst(v: Design, labels: map<string, int>, items: seq<Item>)
    requires items != [] && Image(v, labels, items).Success?
    ensures Code(v, labels, items[0]).Success? && Image(v, labels, items[1..]).Success?
    ensures Image(v, labels, items).value == Code(v, labels, items[0]).value + Image(v, labels, items[1..]).value
    decreases |items|
  {
    hide Code;
    var n := |items| - 1;
    var front := items[..n];
    if n == 0 {
      assert items[1..] == [] && front == [];
      var code := Code(v, labels, items[0]).value;
      assert [] + code == code && code + [] == code;
    } else {
      ImageFirst(v, labels, front);
      assert front[1..] == items[1..][..n - 1] && items[1..][n - 1] == items[n];
      var a, b, c := Code(v, labels, items[0]).value, Image(v, labels, front[1..]).value,
          Code(v, labels, items[n]).value;
      assert (a + b) + c == a + (b + c);
    }
  }

  /** One statement's code, read back. */
  lemma CodeReadsBack(v: Design, labels: map<string, int>, it: Item, rest: seq<Word>)
    requires it.op != Ud && Code(v, labels, it).Success?
    ensures var code := Stored(Code(v, labels, it).value);
      && code != []
      && var op := Isa.Decode(code[0], if |code + rest| > 1 then (code + rest)[1] else 0);
         && (op == Lower(it.op, TargetByte(labels, it.target)) <==> v.Intended? || it.op != Bne)
         && Isa.Length(op) == |code|
  {
    hide Encode, Lower, Isa.Decode;
    var code := Stored(Code(v, labels, it).value);
    var imm: Word := if |code + rest| > 1 then (code + rest)[1] else 0;
    DecodeEncode(v, labels, it.op, it.target, imm);
    LowerLength(it.op, TargetByte(labels, it.target));
    if it.op == Bne && v.AsWritten? {
      BneLength(labels, it.target, imm);
    }
  }

  lemma BneLength(labels: map<string, int>, target: Operand, imm: Word)
    requires Encode(AsWritten, labels, Bne, target).Success?
    ensures Isa.Length(Isa.Decode(Encode(AsWritten, labels, Bne, target).value % 0x1_0000, imm)) == 1
  {
    hide OpcodeAddr;
    OpcodeAddrFields(Isa.BEQ, GetAddr(labels, target).value);
  }

  lemma StoredConcat(a: seq<int>, b: seq<int>)
    ensures Stored(a + b) == Stored(a) + Stored(b)
  {
  }

  /** A linear sweep of the image gives back the operations of the source, registers modulo
      16 and immediates modulo 2^16, if and only if no statement is a BNE encoded as BEQ. */
  lemma {:induction false} SweepReadsSource(v: Design, labels: map<string, int>, items: seq<Item>)
    requires Image(v, labels, items).Success?
    ensures |Sweep(Stored(Image(v, labels, items).value))| == |Resolved(labels, items)|
    ensures Sweep(Stored(Image(v, labels, items).value)) == Resolved(labels, items) <==> Faithful(v, items)
    decreases |items|
  {
    hide Image, Code, Lower, TargetByte, Isa.Decode, Isa.Length, Sweep, Resolved, Stored, Faithful;
    if items == [] {
      NothingImaged(v, labels);
    } else {
      ImageFirst(v, labels, items);
      SweepReadsSource(v, labels, items[1..]);
      var code, rest := Stored(Code(v, labels, items[0]).value), Stored(Image(v, labels, items[1..]).value);
      StoredConcat(Code(v, labels, items[0]).value, Image(v, labels, items[1..]).value);
      ResolvedStep(labels, items);
      FaithfulSplit(v, items);
      if items[0].op == Ud {
        EmptyCode(v, labels, items[0]);
        assert [] + rest == rest;
      } else {
        CodeReadsBack(v, labels, items[0], rest);
        SweepStep(code, rest);
        HeadAndTail(Isa.Decode(code[0], if |code + rest| > 1 then (code + rest)[1] else 0), Sweep(rest),
                    Lower(items[0].op, TargetByte(labels, items[0].target)), Resolved(labels, items[1..]));
      }
    }
  }

  lemma ResolvedStep(labels: map<string, int>, items: seq<Item>)
    requires items != []
    ensures Resolved(labels, items) ==
            if items[0].op == Ud then Resolved(labels, items[1..])
            else [Lower(items[0].op, TargetByte(labels, items[0].target))] + Resolved(labels, items[1..])
  {
    hide Lower, TargetByte;
    assert [] + Resolved(labels, items[1..]) == Resolved(labels, items[1..]);
  }

  lemma SweepStep(code: seq<Word>, rest: seq<Word>)
    requires code != [] && Isa.Length(Isa.Decode(code[0], if |code + rest| > 1 then (code + rest)[1] else 0)) == |code|
    ensures Sweep(code + rest) == [Isa.Decode(code[0], if |code + rest| > 1 then (code + rest)[1] else 0)] + Sweep(rest)
  {
    hide Isa.Decode;
    var ws := code + rest;
    assert ws[|code|..] == rest;
  }

  lemma HeadAndTail(a: Isa.Op, s: seq<Isa.Op>, b: Isa.Op, t: seq<Isa.Op>)
    ensures [a] + s == [b] + t <==> a == b && s == t
  {
    if [a] + s == [b] + t {
      assert ([a] + s)[0] == a && ([b] + t)[0] == b && ([a] + s)[1..] == s && ([b] + t)[1..] == t;
    }
  }

  lemma FaithfulSplit(v: Design, items: seq<Item>)
    requires items != []
    ensures Faithful(v, items) <==> (v.Intended? || items[0].op != Bne) && Faithful(v, items[1..])
  {
    assert forall k :: 0 <= k < |items[1..]| ==> items[1..][k] == items[k + 1];
    assert forall k :: 0 < k < |items| ==> items[k] == items[1..][k - 1];
  }

  lemma NothingImaged(v: Design, labels: map<string, int>)
    ensures Stored(Image(v, labels, []).value) == [] && Sweep([]) == [] && Resolved(labels, []) == [] && Faithful(v, [])
  {
  }

  lemma EmptyCode(v: Design, labels: map<string, int>, it: Item)
    requires it.op == Ud
    ensures Stored(Code(v, labels, it).value) == []
  {
  }
}
