/** The host party of the session is the library as its code is written: the same syncs, the same
    frame and the same answers, however the line cuts what it delivers. */
module SessionHost {
  import opened Words
  import opened Proto
  import opened Session
  import opened HostUnit
  import HostWire

  /** Bytes reach a call one by one, until it returns. */
  function Fed(s: State, bytes: seq<Byte>): State
    decreases |bytes|
  {
    if bytes == [] || s.host.Idle? then s else Fed(Hear(s, s.host.heard + [bytes[0]]), bytes[1..])
  }

  /** The call has not made up its mind. */
  predicate Waits(h: Host) {
    match h
    case Idle => false
    case Syncing(_, _, heard) => |heard| < 2
    case Receiving(req, heard) => Receive(heard, req.room).None?
  }

  // ----- Reads of any size -----

  /** A read that asks for no more than the call wants comes to the same as reads of one byte. */
  lemma {:induction false} ReadIsBytes(s: State, chunk: seq<Byte>)
    requires Waits(s.host) && 1 <= |chunk| <= Wanted(s.host)
    ensures Fed(s, chunk) == Hear(s, s.host.heard + chunk)
    decreases |chunk|
  {
    hide Frame, Receive;
    var s' := Hear(s, s.host.heard + [chunk[0]]);
    if |chunk| == 1 {
      assert [chunk[0]] == chunk && chunk[1..] == [];
      assert Fed(s', []) == s';
    } else {
      StillWaits(s, chunk[0]);
      ReadIsBytes(s', chunk[1..]);
      assert s.host.heard + chunk == s.host.heard + [chunk[0]] + chunk[1..];
      SameHearing(s, s', s.host.heard + chunk);
    }
  }

  /** A byte that is not the last one wanted is only noted. */
  lemma StillWaits(s: State, c: Byte)
    requires Waits(s.host) && Wanted(s.host) >= 2
    ensures var s' := Hear(s, s.host.heard + [c]);
      && s' == s.(host := s.host.(heard := s.host.heard + [c]))
      && Waits(s'.host) && Wanted(s'.host) == Wanted(s.host) - 1
  {
    hide Frame;
  }

  lemma SameHearing(s: State, s': State, heard: seq<Byte>)
    requires !s.host.Idle? && !s'.host.Idle? && s' == s.(host := s.host.(heard := s'.host.heard))
    ensures Hear(s', heard) == Hear(s, heard)
  {
    hide Frame, Receive;
  }

  // ----- Syncs -----

  /** Two bytes for a sync: the frame goes out, or another sync, or the call gives up. */
  lemma OneSync(s: State, a: Byte, b: Byte, rest: seq<Byte>)
    requires s.host.Syncing? && s.host.heard == []
    ensures Fed(s, [a, b] + rest) == Fed(Hear(s, [a, b]), rest)
  {
    hide Frame, Receive;
    var one := Hear(s, [a]);
    assert one == s.(host := Syncing(s.host.req, s.host.tries, [a]));
    var bytes := [a, b] + rest;
    assert bytes[1..][1..] == rest && bytes[0] == a && bytes[1..][0] == b;
    assert [] + [a] == [a] && [a] + [b] == [a, b];
    SameHearing(s, one, [a, b]);
  }

  lemma ShortInput(s: State, input: seq<Byte>)
    requires s.host.Syncing? && s.host.heard == [] && |input| < 2
    ensures Fed(s, input) == s.(host := Syncing(s.host.req, s.host.tries, input))
    ensures s.down == s.down + Syns(|input| / 2)
  {
    hide Frame, Receive;
    if input != [] {
      assert [] + [input[0]] == input && input[1..] == [];
      assert Fed(Hear(s, input), []) == Hear(s, input);
    }
  }

  lemma {:induction false} NoneShort(input: seq<Byte>, tries: nat)
    requires |input| < 2
    ensures SyncLeft(input, tries).None?
    decreases tries
  {
    if tries > 0 {
      NoneShort([], tries - 1);
    }
  }

  lemma MoreSyns(down: seq<Byte>, k: nat)
    ensures down + [HostWire.SYN] + Syns(k) == down + Syns(k + 1)
  {
    assert [HostWire.SYN] + Syns(k) == Syns(k + 1);
  }

  /** A sync that failed, and then the others. */
  lemma SyncsOnward(s: State, req: Request, left: nat, input: seq<Byte>, k: nat)
    requires 2 <= left <= 3 && s.host == Syncing(req, 4 - left, []) && 2 <= k <= |input|
    requires input[..2] != [HostWire.SYN, HostWire.ACK]
    ensures var t := Hear(s, input[..2]);
      && t == s.(host := Syncing(req, 5 - left, []), down := s.down + [HostWire.SYN])
      && Fed(s, input[..k]) == Fed(t, input[2..][..k - 2])
  {
    hide Frame, Receive, Fed, Syns;
    assert input[..k] == [input[0], input[1]] + input[2..][..k - 2] && input[..2] == [input[0], input[1]];
    OneSync(s, input[0], input[1], input[2..][..k - 2]);
  }

  lemma LastSync(s: State, input: seq<Byte>)
    requires s.host.Syncing? && s.host.heard == [] && |input| >= 2
    ensures Fed(s, input[..2]) == Fed(Hear(s, input[..2]), [])
  {
    hide Fed, Hear;
    assert input[..2] == [input[0], input[1]] && input[..2] + [] == input[..2];
    OneSync(s, input[0], input[1], []);
  }

  /** From a sync just sent, with `left` still allowed, that one counted: once one is
      acknowledged, the frame goes out. */
  lemma {:induction false} SyncedAgree(s: State, req: Request, left: nat, input: seq<Byte>)
    requires 1 <= left <= 3 && s.host == Syncing(req, 4 - left, []) && SyncLeft(input, left).Some?
    ensures var (rest, n) := SyncLeft(input, left).value;
      && 1 <= n && 2 * n <= |input| && rest == input[2 * n..]
      && Fed(s, input[..2 * n])
         == s.(host := Receiving(req, []), down := s.down + Syns(n - 1) + Frame(req.cmd, req.args))
    decreases left
  {
    hide Frame, Receive, Syns, SyncLeft;
    SyncStep(input, left);
    if |input| >= 2 && input[..2] == [HostWire.SYN, HostWire.ACK] {
      LastSync(s, input);
      assert Syns(0) == [];
      assert s.down + [] == s.down;
    } else {
      NoSyncs([]);
      if left == 1 {
        NoSyncs(if |input| >= 2 then input[2..] else []);
      }
      if |input| < 2 {
        NoneShort([], left - 1);
      }
      var (rest, n) := SyncLeft(input, left).value;
      var t := Hear(s, input[..2]);
      SyncsOnward(s, req, left, input, 2);
      SyncedAgree(t, req, left - 1, input[2..]);
      SyncsOnward(s, req, left, input, 2 * n);
      MoreSyns(s.down, n - 2);
    }
  }

  /** If none is acknowledged, the call gives up behind the last. */
  lemma {:induction false} FailedAgree(s: State, req: Request, left: nat, input: seq<Byte>)
    requires 1 <= left <= 3 && s.host == Syncing(req, 4 - left, [])
    requires SyncLeft(input, left).None? && |input| >= 2 * left
    ensures Fed(s, input[..2 * left])
            == s.(host := Idle, down := s.down + Syns(left - 1), returned := s.returned + [Returned(req, ERemoteIo)])
    decreases left
  {
    hide Frame, Receive, Syns, SyncLeft;
    SyncStep(input, left);
    if left == 1 {
      LastSync(s, input);
      assert Syns(0) == [];
      assert s.down + [] == s.down;
    } else {
      var t := Hear(s, input[..2]);
      SyncsOnward(s, req, left, input, 2 * left);
      FailedAgree(t, req, left - 1, input[2..]);
      MoreSyns(s.down, left - 2);
    }
  }

  /** And if too little arrives, it is still waiting. */
  lemma {:induction false} ShortAgree(s: State, req: Request, left: nat, input: seq<Byte>)
    requires 1 <= left <= 3 && s.host == Syncing(req, 4 - left, [])
    requires SyncLeft(input, left).None? && |input| < 2 * left
    ensures var t := Fed(s, input);
      t.host.Syncing? && t.returned == s.returned && t.down == s.down + Syns(|input| / 2)
    decreases left
  {
    hide Frame, Receive, Syns, SyncLeft;
    SyncStep(input, left);
    if |input| < 2 {
      ShortInput(s, input);
    } else {
      var t, rest := Hear(s, input[..2]), input[2..];
      SyncsOnward(s, req, left, input, |input|);
      assert input[..|input|] == input && rest[..|rest|] == rest;
      ShortAgree(t, req, left - 1, rest);
      MoreSyns(s.down, |rest| / 2);
    }
  }

  // ----- Calls -----

  /** A call longer than the frame buffer is refused, any other one starts with a sync. */
  lemma Entered(s: State, req: Request)
    ensures 5 + |req.args| > 32 ==> Enter(s, req) == s.(returned := s.returned + [Returned(req, EMsgSize)])
    ensures 5 + |req.args| <= 32 ==>
              Enter(s, req) == s.(host := Syncing(req, 1, []), down := s.down + [HostWire.SYN])
  {
  }

  /** A call that gets through sends the syncs and the frame the library sends on the same input,
      and leaves unread what the library leaves unread. */
  lemma CallGetsThrough(s: State, req: Request, input: seq<Byte>)
    requires s.host.Idle? && 5 + |req.args| <= 32 && SyncLeft(input, 3).Some?
    ensures var (rest, n) := SyncLeft(input, 3).value;
      && 2 * n <= |input| && rest == input[2 * n..]
      && Fed(Enter(s, req), input[..2 * n])
         == s.(host := Receiving(req, []), down := s.down + Syns(n) + Frame(req.cmd, req.args))
  {
    hide Frame, Receive, Fed, SyncLeft, Syns, Enter;
    Entered(s, req);
    var k := SyncLeft(input, 3).value.1;
    SyncedAgree(Enter(s, req), req, 3, input);
    MoreSyns(s.down, k - 1);
  }

  /** One that does not gives up after three syncs, as the library does. */
  lemma CallGivesUp(s: State, req: Request, input: seq<Byte>)
    requires s.host.Idle? && 5 + |req.args| <= 32 && SyncLeft(input, 3).None? && |input| >= 6
    ensures Fed(Enter(s, req), input[..6])
            == s.(down := s.down + Syns(3), returned := s.returned + [Returned(req, ERemoteIo)])
  {
    hide Frame, Receive, Fed, SyncLeft, Syns, Enter;
    Entered(s, req);
    FailedAgree(Enter(s, req), req, 3, input);
    MoreSyns(s.down, 2);
  }

  /** Where the library would time out, it waits for the rest. */
  lemma CallWaits(s: State, req: Request, input: seq<Byte>)
    requires s.host.Idle? && 5 + |req.args| <= 32 && SyncLeft(input, 3).None? && |input| < 6
    ensures var t := Fed(Enter(s, req), input);
      t.host.Syncing? && t.returned == s.returned && t.down == s.down + Syns(|input| / 2 + 1)
  {
    hide Frame, Receive, Fed, SyncLeft, Syns, Enter;
    Entered(s, req);
    ShortAgree(Enter(s, req), req, 3, input);
    MoreSyns(s.down, |input| / 2);
  }

  // ----- Answers -----

  /** And receiving: the call returns what the receiver makes of the first decided prefix. */
  lemma {:induction false} AnswerIsLibrary(s: State, req: Request, heard: seq<Byte>, input: seq<Byte>)
    requires s.host == Receiving(req, heard) && Receive(heard, req.room).None?
    requires forall j :: 0 <= j < |input| ==> Receive(heard + input[..j], req.room).None?
    ensures var r := Receive(heard + input, req.room);
      Fed(s, input) ==
      if r.None? then s.(host := Receiving(req, heard + input))
      else s.(host := Idle, returned := s.returned + [Returned(req, r.value)])
    decreases |input|
  {
    hide Frame, Receive;
    assert heard + [] == heard;
    if input != [] {
      var rest, heard' := input[1..], heard + [input[0]];
      var t := Hear(s, heard');
      if rest == [] {
        assert heard' == heard + input && Fed(t, []) == t && Fed(s, input) == Fed(t, []);
      } else {
        assert heard' == heard + input[..1] && heard' + rest == heard + input;
        assert Receive(heard', req.room).None?;
        forall j | 0 <= j < |rest|
          ensures Receive(heard' + rest[..j], req.room).None?
        {
          assert heard' + rest[..j] == heard + input[..j + 1];
        }
        AnswerIsLibrary(t, req, heard', rest);
      }
    }
  }
}
