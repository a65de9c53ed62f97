/** What a version query with too small a buffer does to the call after it. */
module SessionTooSmall {
  import opened Words
  import opened Wrappers
  import opened Supervisor
  import opened Proto
  import opened ProtoCommands
  import opened Session
  import opened SessionLockStep
  import SupervisorRuns

  /** Six bytes of which no pair acknowledges a sync. */
  predicate Junk(junk: seq<Byte>) {
    |junk| == 6 && junk[..2] != [SYN, ACK] && junk[2..4] != [SYN, ACK] && junk[4..] != [SYN, ACK]
  }

  /** A call that syncs while three pairs of junk are still to be read. */
  predicate Deaf(s: State, junk: seq<Byte>) {
    && s.sv.Sized() && Junk(junk) && s.host.Syncing? && 1 <= s.host.tries <= 3 && |s.host.heard| < 2 && s.got == []
    && (forall i :: 0 <= i < |s.down| ==> s.down[i] == SYN)
    && junk[2 * (s.host.tries - 1)..] <= s.host.heard + s.up + s.emit
  }

  lemma DeafRead(s: State, junk: seq<Byte>, k: nat)
    requires Deaf(s, junk) && 1 <= k <= |s.up| && k <= Wanted(s.host)
    ensures var t := Hear(s.(up := s.up[k..]), s.host.heard + s.up[..k]);
      if t.host.Idle? then t.returned == s.returned + [Returned(s.host.req, ERemoteIo)]
        else Deaf(t, junk) && t.returned == s.returned
  {
    var n := s.host.tries;
    var heard, coming := s.host.heard + s.up[..k], s.host.heard + s.up + s.emit;
    assert coming == heard + s.up[k..] + s.emit;
    if |heard| == 2 {
      NextPair(junk, n, heard, s.up[k..] + s.emit, coming);
      assert heard[..2] == heard;
      assert [] + s.up[k..] + s.emit == s.up[k..] + s.emit;
    }
  }

  lemma NextPair(junk: seq<Byte>, n: nat, heard: seq<Byte>, rest: seq<Byte>, coming: seq<Byte>)
    requires Junk(junk) && 1 <= n <= 3 && |heard| == 2
    requires coming == heard + rest && junk[2 * (n - 1)..] <= coming
    ensures heard != [SYN, ACK] && junk[2 * n..] <= rest
  {
    assert heard == coming[..2];
    assert junk[2 * (n - 1)..][..2] == junk[2 * (n - 1)..2 * n] == heard;
    assert rest == coming[2..] && junk[2 * (n - 1)..][2..] == junk[2 * n..];
    assert junk[4..6] == junk[4..];
  }

  lemma DeafTake(hw: Design, code: Design, s: State, junk: seq<Byte>, env: Env, env2: Env)
    requires Deaf(s, junk) && Enabled(hw, code, s, Take(env, env2))
    ensures var t := Apply(hw, code, s, Take(env, env2));
      Deaf(t, junk) && t.returned == s.returned && t.served == s.served && t.host == s.host
  {
    hide Callback, Frame, Receive, Junk, SupervisorRuns.React;
    assert [] + [s.down[0]] == [SYN];
    var t := Apply(hw, code, s, Take(env, env2));
    assert t.host.heard + t.up + t.emit == (s.host.heard + s.up + s.emit) + [SYN, ACK];
  }

  /** Such a call fails with -EREMOTEIO, and no command runs for it. */
  lemma DeafStep(hw: Design, code: Design, s: State, junk: seq<Byte>, st: Step)
    requires Deaf(s, junk) && Enabled(hw, code, s, st) && !st.Begin?
    ensures var t := Apply(hw, code, s, st);
      && t.served == s.served
      && if t.host.Idle? then t.returned == s.returned + [Returned(s.host.req, ERemoteIo)]
         else Deaf(t, junk) && t.returned == s.returned && t.host.req == s.host.req
  {
    hide Judge, Callback, SupervisorRuns.React, Junk;
    match st
    case Read(k) => DeafRead(s, junk, k);
    case Take(env, env2) => DeafTake(hw, code, s, junk, env, env2);
    case Emit =>
      var t := Apply(hw, code, s, st);
      assert t.host.heard + t.up + t.emit == s.host.heard + s.up + s.emit;
    case Turn(ev) =>
  }

  lemma {:induction false} DeafCall(hw: Design, code: Design, s: State, junk: seq<Byte>, sts: seq<Step>)
    requires Deaf(s, junk) && Play(hw, code, s, sts).Some?
    requires forall i :: 0 <= i < |sts| ==> !sts[i].Begin?
    requires Play(hw, code, s, sts).value.host.Idle?
    requires forall i :: 0 <= i < |sts| && Play(hw, code, s, sts[..i]).Some? ==>
               !Play(hw, code, s, sts[..i]).value.host.Idle?
    ensures var t := Play(hw, code, s, sts).value;
      t.returned == s.returned + [Returned(s.host.req, ERemoteIo)] && t.served == s.served
    decreases |sts|
  {
    hide Deaf, Enabled, Apply;
    assert s.host.Syncing? by { DeafSyncs(s, junk); }
    if sts != [] {
      var t := Apply(hw, code, s, sts[0]);
      DeafStep(hw, code, s, junk, sts[0]);
      if |sts| == 1 {
        assert Play(hw, code, t, []) == Some(t);
        assert sts[1..] == [];
      } else {
        assert sts[..1] == [sts[0]] && sts[..1][1..] == [];
        assert Play(hw, code, s, sts[..1]) == Some(t);
        forall i | 0 <= i < |sts[1..]| && Play(hw, code, t, sts[1..][..i]).Some?
          ensures !Play(hw, code, t, sts[1..][..i]).value.host.Idle?
        {
          assert sts[..i + 1][1..] == sts[1..][..i] && sts[..i + 1][0] == sts[0];
          assert Play(hw, code, s, sts[..i + 1]) == Play(hw, code, t, sts[1..][..i]);
        }
        DeafCall(hw, code, t, junk, sts[1..]);
      }
    }
  }

  lemma DeafSyncs(s: State, junk: seq<Byte>)
    requires Deaf(s, junk)
    ensures s.host.Syncing?
  {
  }

  lemma VersionIsJunk()
    ensures |VERSION| == 23 && Junk(VERSION[..6]) && VERSION[..6] <= VERSION + [EOT]
  {
    var junk := VERSION[..6];
    assert junk[..2][0] == junk[0] == VERSION[0] == 0x4C;
    assert junk[2..4][0] == junk[2] == VERSION[2] == 0x45;
    assert junk[4..][0] == junk[4] == VERSION[4] == 0x50;
  }

  /** The answer left on the line by a version query with a buffer of fewer than 23 bytes. */
  lemma QuerySpoils(hw: Design, code: Design, s: State, k: nat, next: Request)
    requires Locked(s) && s.host.Receiving? && s.host.req.cmd == GETVERSION && s.host.req.room < 23
    requires Enabled(hw, code, s, Read(k)) && Apply(hw, code, s, Read(k)).host.Idle?
    requires 5 + |next.args| <= CMD_SIZE
    ensures var back := Apply(hw, code, s, Read(k));
      && back.returned == s.returned + [Returned(s.host.req, EMsgSize)] && back.served == s.served
      && Deaf(Enter(back, next), VERSION[..6])
  {
    hide Judge, Receive, Missing, Matches, VERSION, Frame, Junk;
    RoomDecides(hw, code, s, k);
    assert !Clean(Apply(hw, code, s, Read(k)));
    var back := Apply(hw, code, s, Read(k));
    BackIsQuiet(s, k);
    VersionIsJunk();
    assert [] + back.up + back.emit == back.up + back.emit;
  }

  lemma BackIsQuiet(s: State, k: nat)
    requires Locked(s) && s.host.Receiving? && 1 <= k <= |s.up|
    ensures s.down == [] && s.got == [] && (s.host.req.cmd == GETVERSION ==> s.served[|s.returned|].payload == VERSION)
  {
    hide Judge, Receive, Missing, Matches, VERSION, Frame, Response;
  }

  /** After such a query has returned -EMSGSIZE, the next call, whatever it is, fails with
      -EREMOTEIO and reaches no callback. */
  lemma NextCallFails(hw: Design, code: Design, s: State, k: nat, next: Request, sts: seq<Step>)
    requires Locked(s) && s.host.Receiving? && s.host.req.cmd == GETVERSION && s.host.req.room < 23
    requires Enabled(hw, code, s, Read(k)) && Apply(hw, code, s, Read(k)).host.Idle?
    requires 5 + |next.args| <= CMD_SIZE
    requires var s1 := Enter(Apply(hw, code, s, Read(k)), next);
      && Play(hw, code, s1, sts).Some? && (forall i :: 0 <= i < |sts| ==> !sts[i].Begin?)
      && Play(hw, code, s1, sts).value.host.Idle?
      && forall i :: 0 <= i < |sts| && Play(hw, code, s1, sts[..i]).Some? ==>
           !Play(hw, code, s1, sts[..i]).value.host.Idle?
    ensures var t := Play(hw, code, Enter(Apply(hw, code, s, Read(k)), next), sts).value;
      t.returned == s.returned + [Returned(s.host.req, EMsgSize), Returned(next, ERemoteIo)] && t.served == s.served
  {
    hide Play, Apply, Locked, Enabled, Deaf, VERSION;
    VersionIsJunk();
    QuerySpoils(hw, code, s, k, next);
    var back := Apply(hw, code, s, Read(k));
    DeafCall(hw, code, Enter(back, next), VERSION[..6], sts);
    assert s.returned + [Returned(s.host.req, EMsgSize)] + [Returned(next, ERemoteIo)]
      == s.returned + [Returned(s.host.req, EMsgSize), Returned(next, ERemoteIo)];
  }
}
