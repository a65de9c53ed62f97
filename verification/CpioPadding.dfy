/** Archives as cpio(5) lays out the old binary format: names and bodies padded with a NUL to
    even length. The receiver knows of no padding. */
module CpioPadding {
  import opened Words
  import opened Cpio

  function Pad(n: nat): (p: seq<Byte>)
    ensures MAGIC0 !in p
  {
    if n % 2 == 1 then [0] else []
  }

  function Padded(m: Member): seq<Byte>
    requires Good(m)
  {
    [MAGIC0, MAGIC1] + (Header(m) + (m.name + (Pad(|m.name|) + (m.body + Pad(|m.body|)))))
  }

  function PaddedStream(ms: seq<Member>): seq<Byte>
    requires forall i :: 0 <= i < |ms| ==> Good(ms[i])
  {
    if ms == [] then []
    else
      assert Good(ms[0]);
      Padded(ms[0]) + PaddedStream(ms[1..])
  }

  /** The body the receiver takes: after a name of odd length it starts one byte early. */
  function Taken(m: Member): (b: seq<Byte>)
    ensures |b| == |m.body|
  {
    if |m.name| % 2 == 1 && m.body != [] then [0] + m.body[..|m.body| - 1] else m.body
  }

  /** What it leaves before the next header. */
  function LeftOver(m: Member): seq<Byte> {
    (Pad(|m.name|) + (m.body + Pad(|m.body|)))[|m.body|..]
  }

  /** The padded member, read as if it had none: `gap` is what precedes it. */
  function Unpadded(gap: seq<Byte>, m: Member): Member {
    Member(gap, m.fields, m.name, Taken(m))
  }

  lemma TakenAndLeft(m: Member)
    ensures Pad(|m.name|) + (m.body + Pad(|m.body|)) == Taken(m) + LeftOver(m)
  {
    var all := Pad(|m.name|) + (m.body + Pad(|m.body|));
    assert all[..|m.body|] == Taken(m);
  }

  lemma PaddedIsMember(gap: seq<Byte>, m: Member, rest: seq<Byte>)
    requires Good(m) && MAGIC0 !in gap
    ensures Good(Unpadded(gap, m)) && (Ends(Unpadded(gap, m)) <==> Ends(m))
    ensures gap + (Padded(m) + rest) == Encode(Unpadded(gap, m)) + (LeftOver(m) + rest)
  {
    hide Header, Pad, LeftOver, Taken;
    var u := Unpadded(gap, m);
    SameHeader(gap, m);
    TakenAndLeft(m);
    EncodeThen(u, LeftOver(m) + rest);
    var b, c, tail: seq<Byte> := [MAGIC0, MAGIC1], Header(m), Taken(m) + LeftOver(m);
    assert tail + rest == Taken(m) + (LeftOver(m) + rest);
    assert (m.name + tail) + rest == m.name + (tail + rest);
    assert (c + (m.name + tail)) + rest == c + ((m.name + tail) + rest);
    assert (b + (c + (m.name + tail))) + rest == b + ((c + (m.name + tail)) + rest);
  }

  lemma SameHeader(gap: seq<Byte>, m: Member)
    requires Good(m)
    ensures Header(Unpadded(gap, m)) == Header(m)
  {
  }

  /** The body sent is the body taken. */
  predicate Recovered(m: Member) {
    |m.name| % 2 == 0 || forall i :: 0 <= i < |m.body| ==> m.body[i] == 0
  }

  lemma TakenExactly(m: Member)
    ensures Taken(m) == m.body <==> Recovered(m)
    ensures Recovered(m) ==> MAGIC0 !in LeftOver(m)
  {
    if Taken(m) == m.body && |m.name| % 2 == 1 {
      forall i | 0 <= i < |m.body|
        ensures m.body[i] == 0
      {
        AllZero(m, i);
      }
    }
    if |m.name| % 2 == 0 {
      assert LeftOver(m) == Pad(|m.body|);
    }
  }

  lemma {:induction false} AllZero(m: Member, i: nat)
    requires Taken(m) == m.body && |m.name| % 2 == 1 && i < |m.body|
    ensures m.body[i] == 0
    decreases i
  {
    assert Taken(m)[i] == m.body[i];
    if i > 0 {
      AllZero(m, i - 1);
    }
  }

  /** The receiver recovers the members of a padded archive, and then finds its trailer, if and
      only if every member has a name of even length, its NUL counted, or a body of nothing but
      zeros. */
  lemma {:induction false} PaddedExactly(gap: seq<Byte>, ms: seq<Member>, last: Member, rest: seq<Byte>, page: Page)
    requires MAGIC0 !in gap && Good(last) && Ends(last)
    requires forall i :: 0 <= i < |ms| ==> Good(ms[i]) && !Ends(ms[i])
    ensures var r := Parse(gap + (PaddedStream(ms) + (Padded(last) + rest)), page);
      && (r.0 == Entries(ms) <==> forall i :: 0 <= i < |ms| ==> Recovered(ms[i]))
      && (r.0 == Entries(ms) ==> r.1 == Trailer(Taken(last) + (LeftOver(last) + rest)))
    decreases |ms|
  {
    hide Parse, Header, Good, Ends, Landed, Taken, LeftOver, Recovered, Padded;
    var end := Padded(last) + rest;
    if ms == [] {
      assert PaddedStream(ms) + end == end && Entries(ms) == [];
      PaddedIsMember(gap, last, rest);
      ParseMember(Unpadded(gap, last), LeftOver(last) + rest, page);
    } else {
      var m, more := ms[0], PaddedStream(ms[1..]) + end;
      assert PaddedStream(ms) + end == Padded(m) + more;
      PaddedIsMember(gap, m, more);
      ParseMember(Unpadded(gap, m), LeftOver(m) + more, page);
      TakenExactly(m);
      assert Entries(ms)[0] == Entry(m.name, m.body) && Entries(ms)[1..] == Entries(ms[1..]);
      if Recovered(m) {
        PaddedExactly(LeftOver(m), ms[1..], last, rest, NextPage(gap, m, page));
        assert [Entry(m.name, m.body)] + Entries(ms[1..]) == Entries(ms);
        assert forall i :: 0 < i < |ms| ==> ms[i] == ms[1..][i - 1];
      }
    }
  }

  function NextPage(gap: seq<Byte>, m: Member, page: Page): Page
    requires Good(m)
  {
    Landed(page, Header(Unpadded(gap, m)) + m.name)
  }
}
