/** Singly linked lists threaded through an index array, ended by index 0. */
module Chains {
  import opened Words

  /** Following `next` from `i` visits exactly `xs` and then reaches 0. */
  predicate Linked(next: seq<Byte>, i: Byte, xs: seq<Byte>)
    decreases |xs|
  {
    if xs == [] then i == 0
    else i != 0 && xs[0] == i && i < |next| && Linked(next, next[i], xs[1..])
  }

  lemma LinkedStep(next: seq<Byte>, i: Byte, xs: seq<Byte>)
    requires Linked(next, i, xs)
    ensures i == 0 <==> xs == []
    ensures xs != [] ==> xs[0] == i && i < |next| && Linked(next, next[i], xs[1..])
  {
  }

  predicate Distinct(xs: seq<Byte>) {
    forall i, j :: 0 <= i < j < |xs| ==> xs[i] != xs[j]
  }

  lemma DistinctDrop(xs: seq<Byte>, k: nat)
    requires Distinct(xs) && k < |xs|
    ensures Distinct(xs[k + 1..]) && xs[k] !in xs[k + 1..]
  {
  }

  function Elements(xs: seq<Byte>): set<Byte> {
    set x | x in xs
  }

  /** The list is determined by where it starts. */
  lemma {:induction false} LinkedOnce(next: seq<Byte>, i: Byte, xs: seq<Byte>, ys: seq<Byte>)
    requires Linked(next, i, xs) && Linked(next, i, ys)
    ensures xs == ys
    decreases |xs|
  {
    if xs != [] && ys != [] {
      LinkedOnce(next, next[i], xs[1..], ys[1..]);
      assert xs == [i] + xs[1..] && ys == [i] + ys[1..];
    }
  }

  /** Writes to links outside a list leave it alone. */
  lemma {:induction false} LinkedFrame(next: seq<Byte>, next': seq<Byte>, i: Byte, xs: seq<Byte>)
    requires Linked(next, i, xs) && |next'| == |next|
    requires forall k :: 0 <= k < |xs| && xs[k] < |next| ==> next'[xs[k]] == next[xs[k]]
    ensures Linked(next', i, xs)
    decreases |xs|
  {
    if xs != [] {
      assert forall k :: 0 <= k < |xs[1..]| ==> xs[1..][k] == xs[k + 1];
      LinkedFrame(next, next', next[i], xs[1..]);
    }
  }

  /** The link of the last element of a first part leads to the rest. */
  lemma {:induction false} LinkedSplit(next: seq<Byte>, i: Byte, xs: seq<Byte>, ys: seq<Byte>)
    requires Linked(next, i, xs + ys) && xs != []
    ensures xs[0] == i && xs[|xs| - 1] < |next| && Linked(next, next[xs[|xs| - 1]], ys)
    decreases |xs|
  {
    assert (xs + ys)[1..] == xs[1..] + ys;
    if |xs| > 1 {
      LinkedSplit(next, next[i], xs[1..], ys);
    } else {
      assert xs[1..] + ys == ys;
    }
  }

  /** Ending a list after a first part, with 0 in the last link. */
  lemma {:induction false} LinkedCut(next: seq<Byte>, i: Byte, xs: seq<Byte>, ys: seq<Byte>)
    requires Linked(next, i, xs + ys) && xs != [] && Distinct(xs)
    ensures xs[|xs| - 1] < |next| && Linked(next[xs[|xs| - 1] := 0], i, xs)
    decreases |xs|
  {
    assert (xs + ys)[1..] == xs[1..] + ys;
    LinkedSplit(next, i, xs, ys);
    if |xs| > 1 {
      assert forall a, b :: 0 <= a < b < |xs[1..]| ==> xs[1..][a] == xs[a + 1] && xs[1..][b] == xs[b + 1];
      LinkedCut(next, next[i], xs[1..], ys);
      assert xs[0] != xs[|xs| - 1];
    }
  }

  /** Distinct indices below a bound are no more than the bound. */
  lemma {:induction false} ElementsCount(xs: seq<Byte>)
    requires Distinct(xs)
    ensures |Elements(xs)| == |xs|
    decreases |xs|
  {
    if xs != [] {
      var n := |xs| - 1;
      ElementsCount(xs[..n]);
      assert Elements(xs) == Elements(xs[..n]) + {xs[n]};
    }
  }

  predicate InRange(x: Byte, lo: int, hi: int) {
    lo <= x < hi
  }

  function Range(lo: nat, hi: nat): set<Byte> {
    set x: Byte | InRange(x, lo, hi)
  }

  lemma {:induction false} RangeCount(lo: nat, hi: nat)
    requires lo <= hi <= 256
    ensures |Range(lo, hi)| == hi - lo
    decreases hi
  {
    if lo < hi {
      RangeCount(lo, hi - 1);
      assert Range(lo, hi) == Range(lo, hi - 1) + {hi - 1};
    } else {
      assert Range(lo, hi) == {};
    }
  }

  lemma {:induction false} SubsetCount(a: set<Byte>, b: set<Byte>)
    requires a <= b
    ensures |a| <= |b| && (|a| == |b| ==> a == b)
    decreases |a|
  {
    if a != {} {
      var x :| x in a;
      SubsetCount(a - {x}, b - {x});
      assert a == (a - {x}) + {x} && b == (b - {x}) + {x};
    } else if |b| == 0 {
      assert b == {};
    }
  }

  /** Distinct indices in a range are no more than the range holds, and are all of them if
      they are as many. */
  lemma BoundedLength(xs: seq<Byte>, lo: nat, hi: nat)
    requires Distinct(xs) && lo <= hi <= 256 && forall k :: 0 <= k < |xs| ==> lo <= xs[k] < hi
    ensures |xs| <= hi - lo && (|xs| == hi - lo ==> Elements(xs) == Range(lo, hi))
  {
    ElementsCount(xs);
    RangeCount(lo, hi);
    SubsetCount(Elements(xs), Range(lo, hi));
  }

  lemma ElementsConcat(xs: seq<Byte>, ys: seq<Byte>)
    ensures Elements(xs + ys) == Elements(xs) + Elements(ys)
  {
  }

  lemma {:induction false} ElementsAtMost(xs: seq<Byte>)
    ensures |Elements(xs)| <= |xs|
    decreases |xs|
  {
    if xs != [] {
      var n := |xs| - 1;
      ElementsAtMost(xs[..n]);
      assert Elements(xs) == Elements(xs[..n]) + {xs[n]};
    }
  }

  /** A list with as many elements as its length repeats none. */
  lemma DistinctByCount(xs: seq<Byte>)
    requires |Elements(xs)| == |xs|
    ensures Distinct(xs)
  {
    forall i, j | 0 <= i < j < |xs|
      ensures xs[i] != xs[j]
    {
      var less := xs[..j] + xs[j + 1..];
      ElementsAtMost(less);
      if xs[i] == xs[j] {
        forall x | x in Elements(xs)
          ensures x in Elements(less)
        {
          var k :| 0 <= k < |xs| && xs[k] == x;
          var p := if k == j then i else k;
          assert x == less[if p < j then p else p - 1];
        }
        SubsetCount(Elements(xs), Elements(less));
        assert false;
      }
    }
  }

  lemma DistinctApart(xs: seq<Byte>, ys: seq<Byte>)
    requires Distinct(xs + ys)
    ensures Distinct(xs) && Distinct(ys) && Elements(xs) !! Elements(ys)
  {
    var all := xs + ys;
    forall i, j | 0 <= i < j < |ys|
      ensures ys[i] != ys[j]
    {
      assert all[|xs| + i] != all[|xs| + j];
    }
    forall i, j | 0 <= i < j < |xs|
      ensures xs[i] != xs[j]
    {
      assert all[i] != all[j];
    }
    forall x | x in Elements(xs)
      ensures x !in Elements(ys)
    {
      var i :| 0 <= i < |xs| && xs[i] == x;
      forall j | 0 <= j < |ys|
        ensures ys[j] != x
      {
        assert all[i] != all[|xs| + j];
      }
    }
  }
}
