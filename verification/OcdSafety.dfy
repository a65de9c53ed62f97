/** What no run of the clocked unit can do, whatever program it is given. */
module OcdSafety {
  import opened Words
  import opened OcdIsa
  import opened OcdFsm

  datatype Event = Clock(e: Edge) | Reset(stale: Word)

  function React(v: Design, s: System, ev: Event): (r: System)
    requires s.Sized()
    ensures r.Sized()
  {
    match ev
    case Clock(e) => Tick(v, s, e)
    case Reset(stale) => Rst(s, stale)
  }

  function History(v: Design, s: System, evs: seq<Event>): (r: System)
    requires s.Sized()
    ensures r.Sized()
    decreases |evs|
  {
    if evs == [] then s else History(v, React(v, s, evs[0]), evs[1..])
  }

  function Clocks(es: seq<Edge>): (evs: seq<Event>)
    ensures |evs| == |es|
  {
    seq(|es|, i requires 0 <= i < |es| => Clock(es[i]))
  }

  /** Without a reset, a history is a run of the clocked machine. */
  lemma {:induction false} ClocksRun(v: Design, s: System, es: seq<Edge>)
    requires s.Sized()
    ensures History(v, s, Clocks(es)) == Run(v, s, es)
    decreases |es|
  {
    hide Tick;
    if es != [] {
      assert Clocks(es)[1..] == Clocks(es[1..]);
      ClocksRun(v, Tick(v, s, es[0]), es[1..]);
    }
  }

  /** From its last reset on, it is one from the reset state. */
  lemma {:induction false} SinceReset(v: Design, s: System, before: seq<Event>, stale: Word, es: seq<Edge>)
    requires s.Sized()
    ensures History(v, s, before + ([Event.Reset(stale)] + Clocks(es))) == Run(v, Rst(History(v, s, before), stale), es)
    decreases |before|
  {
    hide Tick;
    var last := [Event.Reset(stale)] + Clocks(es);
    var all := before + last;
    if before == [] {
      assert all == last && last[1..] == Clocks(es);
      ClocksRun(v, Rst(s, stale), es);
    } else {
      assert all[1..] == before[1..] + last;
      SinceReset(v, React(v, s, before[0]), before[1..], stale, es);
    }
  }

  /** The initial block: the unit is in its reset state; pins, memory and compare register
      hold anything. */
  predicate PowerUp(s: System) {
    s.Sized() && s.core == ResetCore(s.core)
  }

  /** A pending write happens in STORE only, and goes to the instruction's own register. */
  predicate WriteDiscipline(s: System) {
    && s.Sized()
    && (s.core.memWrite ==> s.core.phase == Store && s.core.memAddress == REG_OFFSET + DestOf(s.core.instr))
  }

  lemma DisciplineKept(v: Design, s: System, ev: Event)
    requires WriteDiscipline(s)
    ensures WriteDiscipline(React(v, s, ev))
  {
  }

  /** In every reachable state an asserted write addresses 0x100..0x10F, so no program,
      however ill-formed, changes program memory or the words above the registers. */
  lemma {:induction false} DataSpaceConfinement(v: Design, s: System, evs: seq<Event>)
    requires WriteDiscipline(s)
    ensures var t := History(v, s, evs);
      && (t.core.memWrite ==> 0x100 <= t.core.memAddress <= 0x10F)
      && t.mem[..0x100] == s.mem[..0x100] && t.mem[0x110..] == s.mem[0x110..]
    decreases |evs|
  {
    if evs != [] {
      var s' := React(v, s, evs[0]);
      DisciplineKept(v, s, evs[0]);
      DataSpaceConfinement(v, s', evs[1..]);
      assert s'.mem[..0x100] == s.mem[..0x100] && s'.mem[0x110..] == s.mem[0x110..];
    }
  }

  lemma ConfinementFromPowerUp(v: Design, s: System, evs: seq<Event>)
    requires PowerUp(s)
    ensures var t := History(v, s, evs);
      && (t.core.memWrite ==> 0x100 <= t.core.memAddress <= 0x10F)
      && t.mem[..0x100] == s.mem[..0x100] && t.mem[0x110..] == s.mem[0x110..]
  {
    hide History;
    DataSpaceConfinement(v, s, evs);
  }

  /** Between two fetches, memory changes at most at the fetched instruction's register. */
  lemma {:induction false} OneRegisterPerInstruction(v: Design, s: System, es: seq<Edge>)
    requires WriteDiscipline(s)
    requires forall j :: 0 <= j < |es| ==> Run(v, s, es[..j]).core.phase != Fetch
    ensures forall i :: 0 <= i < 512 && i != REG_OFFSET + DestOf(s.core.instr) ==> Run(v, s, es).mem[i] == s.mem[i]
    decreases |es|
  {
    if es != [] {
      assert es[..0] == [];
      var t := Tick(v, s, es[0]);
      DisciplineKept(v, s, Clock(es[0]));
      forall j | 0 <= j < |es[1..]|
        ensures Run(v, t, es[1..][..j]).core.phase != Fetch
      {
        assert es[..j + 1][1..] == es[1..][..j];
        assert Run(v, s, es[..j + 1]) == Run(v, t, es[1..][..j]);
      }
      OneRegisterPerInstruction(v, t, es[1..]);
    }
  }
}
