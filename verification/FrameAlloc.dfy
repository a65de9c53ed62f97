/** The frame allocator: a table of reference counts and a free list threaded through it. */
module FrameAlloc {
  import opened Words
  import opened Wrappers
  import opened Chains

  const NB_FRAMES := 256

  datatype Frames = Frames(refs: seq<Byte>, next: seq<Byte>, first: Byte) {
    predicate Sized() {
      |refs| == NB_FRAMES && |next| == NB_FRAMES
    }
  }

  /** All frames but the two the page tables lie in, in order; the last link wraps to 0. */
  function InitFrames(): (fr: Frames)
    ensures fr.Sized()
  {
    Frames(seq(NB_FRAMES, i => if i < 2 then 1 else 0),
           seq(NB_FRAMES, i requires 0 <= i < NB_FRAMES => (i + 1) % 0x100), 2)
  }

  /** The first frame without references from `i` on, at most `fuel` links away. */
  function Search(fr: Frames, i: Byte, fuel: nat): (r: Option<Byte>)
    requires fr.Sized()
    ensures r.Some? ==> r.value != 0 && fr.refs[r.value] == 0
    decreases fuel
  {
    if i == 0 then None
    else if fr.refs[i] == 0 then Some(i)
    else if fuel == 0 then None
    else Search(fr, fr.next[i], fuel - 1)
  }

  /** `None` is a panic. Frames skipped on the way drop out of the list. */
  function Alloc(fr: Frames): (r: Option<(Byte, Frames)>)
    requires fr.Sized()
    ensures r.Some? ==> r.value.1.Sized() && r.value.0 != 0 && fr.refs[r.value.0] == 0
  {
    match Search(fr, fr.first, NB_FRAMES)
    case None => None
    case Some(i) => Some((i, Frames(fr.refs[i := 1], fr.next, fr.next[i])))
  }

  /** The reference count after a free: as written it goes up. */
  function Released(v: Design, count: Byte): Byte {
    if v.Intended? then (count - 1) % 0x100 else (count + 1) % 0x100
  }

  function Free(v: Design, fr: Frames, f: Byte): (r: Frames)
    requires fr.Sized()
    ensures r.Sized()
  {
    Frames(fr.refs[f := Released(v, fr.refs[f])], fr.next[f := fr.first], f)
  }

  // ----- Runs -----

  datatype Op = AllocOp | FreeOp(f: Byte)

  /** The table, the frames held by callers, and every frame handed out so far. */
  datatype Ledger = Ledger(fr: Frames, held: set<Byte>, given: seq<Byte>)

  function Start(): Ledger {
    Ledger(InitFrames(), {}, [])
  }

  function Step(v: Design, s: Ledger, op: Op): Option<Ledger>
    requires s.fr.Sized()
  {
    match op
    case AllocOp =>
      (match Alloc(s.fr)
       case None => None
       case Some((f, fr)) => Some(Ledger(fr, s.held + {f}, s.given + [f])))
    case FreeOp(f) => Some(s.(fr := Free(v, s.fr, f), held := s.held - {f}))
  }

  /** The list is a proper list of frames nobody holds. Under the meant decrement it holds
      every frame not held; as written it holds every frame never handed out, besides freed
      ones that no allocation will take again. */
  ghost predicate Inv(v: Design, s: Ledger, free: seq<Byte>) {
    && s.fr.Sized() && Linked(s.fr.next, s.fr.first, free) && Distinct(free)
    && (forall k :: 0 <= k < |free| ==> 2 <= free[k] && free[k] !in s.held)
    && (forall h :: h in s.held ==> 2 <= h && s.fr.refs[h] == 1 && h in s.given)
    && Counted(v, s, free)
  }

  predicate InList(x: Byte, xs: seq<Byte>) {
    x in xs
  }

  ghost predicate Counted(v: Design, s: Ledger, free: seq<Byte>)
    requires s.fr.Sized()
  {
    if v.Intended? then
      && (forall k :: 0 <= k < |free| ==> s.fr.refs[free[k]] == 0)
      && |free| + |s.held| == 254
    else
      && Distinct(s.given) && (forall k :: 0 <= k < |s.given| ==> 2 <= s.given[k])
      && (forall x: Byte {:trigger InList(x, free)} :: 2 <= x ==>
            (InList(x, s.given) <==> s.fr.refs[x] != 0) && (s.fr.refs[x] == 0 ==> InList(x, free)))
  }

  // ----- The search -----

  /** The first position of `xs` without references, or its length. */
  function FirstFree(refs: seq<Byte>, xs: seq<Byte>): (k: nat)
    requires |refs| == NB_FRAMES
    ensures k <= |xs| && (k < |xs| ==> refs[xs[k]] == 0) && forall j :: 0 <= j < k ==> refs[xs[j]] != 0
  {
    if xs == [] || refs[xs[0]] == 0 then 0 else 1 + FirstFree(refs, xs[1..])
  }

  /** On a list, the search stops within its length, at the first free element. */
  lemma {:induction false} SearchFinds(fr: Frames, i: Byte, xs: seq<Byte>, fuel: nat)
    requires fr.Sized() && Linked(fr.next, i, xs) && |xs| <= fuel
    ensures var k := FirstFree(fr.refs, xs);
      if k == |xs| then Search(fr, i, fuel).None?
      else Search(fr, i, fuel) == Some(xs[k]) && Linked(fr.next, fr.next[xs[k]], xs[k + 1..])
    decreases fuel
  {
    if xs != [] && fr.refs[i] != 0 {
      SearchFinds(fr, fr.next[i], xs[1..], fuel - 1);
      var k := FirstFree(fr.refs, xs[1..]);
      if k < |xs| - 1 {
        assert xs[1..][k + 1..] == xs[k + 2..];
      }
    } else if xs != [] {
      assert xs[1..] == xs[0 + 1..];
    }
  }

  // ----- Each operation keeps the invariant -----

  /** The frames from `i` up, in order. */
  function Upwards(i: nat): (xs: seq<Byte>)
    requires i <= 256
    ensures |xs| == 256 - i && forall k :: 0 <= k < |xs| ==> xs[k] == i + k
  {
    seq(256 - i, k requires 0 <= k < 256 - i => i + k)
  }

  lemma {:induction false} InitLinked(i: Byte)
    requires 0 < i
    ensures Linked(InitFrames().next, i, Upwards(i))
    decreases 256 - i
  {
    if i < 255 {
      InitLinked(i + 1);
      assert Upwards(i)[1..] == Upwards(i + 1);
    } else {
      assert Upwards(255)[1..] == [];
    }
  }

  lemma StartInv(v: Design)
    ensures Inv(v, Start(), Upwards(2))
  {
    InitLinked(2);
    StartCounted(v);
  }

  lemma StartCounted(v: Design)
    ensures Counted(v, Start(), Upwards(2))
  {
    var fr := InitFrames();
    if v.AsWritten? {
      forall x: Byte | 2 <= x
        ensures (InList(x, []) <==> fr.refs[x] != 0) && (fr.refs[x] == 0 ==> InList(x, Upwards(2)))
      {
        assert Upwards(2)[x - 2] == x;
      }
    }
  }

  /** The table after frame `k` of the list was handed out. */
  function AfterAlloc(s: Ledger, free: seq<Byte>, k: nat): Ledger
    requires s.fr.Sized() && k < |free|
  {
    var f := free[k];
    Ledger(Frames(s.fr.refs[f := 1], s.fr.next, s.fr.next[f]), s.held + {f}, s.given + [f])
  }

  lemma AllocIs(v: Design, s: Ledger, free: seq<Byte>)
    requires Inv(v, s, free)
    ensures var k := FirstFree(s.fr.refs, free);
      && (Alloc(s.fr).Some? <==> k < |free|)
      && (k < |free| ==>
            && Alloc(s.fr).value.0 == free[k] && Step(v, s, AllocOp) == Some(AfterAlloc(s, free, k))
            && Linked(s.fr.next, s.fr.next[free[k]], free[k + 1..]))
  {
    hide Counted;
    BoundedLength(free, 2, 256);
    SearchFinds(s.fr, s.fr.first, free, NB_FRAMES);
  }

  lemma AllocCountedIntended(s: Ledger, free: seq<Byte>)
    requires Inv(Intended, s, free) && free != []
    ensures Counted(Intended, AfterAlloc(s, free, 0), free[1..])
  {
    assert forall j :: 0 <= j < |free[1..]| ==> free[1..][j] == free[1 + j];
  }

  lemma AllocCountedAsWritten(s: Ledger, free: seq<Byte>, k: nat)
    requires Inv(AsWritten, s, free) && k < |free| && k == FirstFree(s.fr.refs, free)
    ensures free[k] !in s.given && Counted(AsWritten, AfterAlloc(s, free, k), free[k + 1..])
  {
    hide Linked, Inv;
    assert Inv(AsWritten, s, free);
    InvParts(s, free);
    var f, t, rest := free[k], AfterAlloc(s, free, k), free[k + 1..];
    assert InList(f, free) && !InList(f, s.given);
    forall x: Byte | 2 <= x
      ensures (InList(x, t.given) <==> t.fr.refs[x] != 0) && (t.fr.refs[x] == 0 ==> InList(x, rest))
    {
      assert InList(x, s.given) <==> s.fr.refs[x] != 0 by { assert InList(x, free) || !InList(x, free); }
      if t.fr.refs[x] == 0 {
        assert InList(x, free);
        var p :| 0 <= p < |free| && free[p] == x;
        assert p > k;
        assert rest[p - (k + 1)] == x;
      }
    }
  }

  lemma InvParts(s: Ledger, free: seq<Byte>)
    requires Inv(AsWritten, s, free)
    ensures s.fr.Sized() && Counted(AsWritten, s, free) && forall k :: 0 <= k < |free| ==> 2 <= free[k]
  {
  }

  /** An allocation hands out a frame nobody holds; as written, one never handed out before. */
  lemma AllocKeeps(v: Design, s: Ledger, free: seq<Byte>)
    requires Inv(v, s, free) && Alloc(s.fr).Some?
    ensures var f, k := Alloc(s.fr).value.0, FirstFree(s.fr.refs, free);
      && f !in s.held && 2 <= f && (v.AsWritten? ==> f !in s.given)
      && k < |free| && Inv(v, Step(v, s, AllocOp).value, free[k + 1..])
  {
    hide Alloc, Counted, Linked, Distinct, Step, Inv, AfterAlloc;
    InvSized(v, s, free);
    AllocIs(v, s, free);
    var k := FirstFree(s.fr.refs, free);
    DistinctDrop(free, k);
    AllocHeld(v, s, free, k);
    if v.Intended? {
      IntendedListFree(s, free);
      AllocCountedIntended(s, free);
    } else {
      AllocCountedAsWritten(s, free, k);
    }
    AllocInv(v, s, free, k);
  }

  lemma InvSized(v: Design, s: Ledger, free: seq<Byte>)
    requires Inv(v, s, free)
    ensures s.fr.Sized() && Distinct(free)
    ensures forall k :: 0 <= k < |free| ==> 2 <= free[k] && free[k] !in s.held
  {
    hide Counted, Linked, Distinct;
  }

  /** The parts put together. */
  lemma AllocInv(v: Design, s: Ledger, free: seq<Byte>, k: nat)
    requires s.fr.Sized() && k < |free| && Distinct(free[k + 1..])
    requires Linked(s.fr.next, s.fr.next[free[k]], free[k + 1..])
    requires var t, rest := AfterAlloc(s, free, k), free[k + 1..];
      && (forall j :: 0 <= j < |rest| ==> 2 <= rest[j] && rest[j] !in t.held)
      && (forall h :: h in t.held ==> 2 <= h && t.fr.refs[h] == 1 && h in t.given)
      && Counted(v, t, rest)
    ensures Inv(v, AfterAlloc(s, free, k), free[k + 1..])
  {
    hide Counted, Linked, Distinct;
  }

  lemma AllocHeld(v: Design, s: Ledger, free: seq<Byte>, k: nat)
    requires Inv(v, s, free) && k < |free|
    ensures var t, rest := AfterAlloc(s, free, k), free[k + 1..];
      && (forall j :: 0 <= j < |rest| ==> 2 <= rest[j] && rest[j] !in t.held)
      && (forall h :: h in t.held ==> 2 <= h && t.fr.refs[h] == 1 && h in t.given)
  {
    hide Counted, Linked;
    var t, rest := AfterAlloc(s, free, k), free[k + 1..];
    forall j | 0 <= j < |rest|
      ensures 2 <= rest[j] && rest[j] !in t.held
    {
      assert rest[j] == free[k + 1 + j];
    }
  }

  lemma IntendedListFree(s: Ledger, free: seq<Byte>)
    requires Inv(Intended, s, free)
    ensures free != [] ==> FirstFree(s.fr.refs, free) == 0
  {
    hide Linked;
  }

  lemma ListIsShort(v: Design, s: Ledger, free: seq<Byte>)
    requires Inv(v, s, free)
    ensures |free| <= 254
  {
    BoundedLength(free, 2, 256);
  }

  lemma FreeKeeps(v: Design, s: Ledger, free: seq<Byte>, f: Byte)
    requires Inv(v, s, free) && f in s.held
    ensures Inv(v, Step(v, s, FreeOp(f)).value, [f] + free)
  {
    var t := Step(v, s, FreeOp(f)).value;
    LinkedFrame(s.fr.next, t.fr.next, s.fr.first, free);
    assert ([f] + free)[1..] == free;
    assert forall k :: 0 < k < |[f] + free| ==> ([f] + free)[k] == free[k - 1];
    if v.AsWritten? {
      forall x: Byte | 2 <= x
        ensures (InList(x, t.given) <==> t.fr.refs[x] != 0) && (t.fr.refs[x] == 0 ==> InList(x, [f] + free))
      {
        assert InList(x, free) || s.fr.refs[x] != 0;
        if InList(x, free) {
          var p :| 0 <= p < |free| && free[p] == x;
          assert ([f] + free)[p + 1] == x;
        }
      }
    }
  }

  /** The allocator panics exactly when nothing is left: under the meant decrement when all
      254 frames are held, as written when 254 allocations have been made, however many
      frames were freed since. */
  lemma PanicExactly(v: Design, s: Ledger, free: seq<Byte>)
    requires Inv(v, s, free)
    ensures Alloc(s.fr).None? <==> (if v.Intended? then |s.held| else |s.given|) == 254
  {
    ListIsShort(v, s, free);
    SearchFinds(s.fr, s.fr.first, free, NB_FRAMES);
    var k := FirstFree(s.fr.refs, free);
    if v.AsWritten? {
      BoundedLength(s.given, 2, 256);
      if k == |free| {
        forall x: Byte | 2 <= x
          ensures x in s.given
        {
          assert InList(x, free) ==> s.fr.refs[x] != 0;
        }
        RangeCount(2, 256);
        ElementsCount(s.given);
        assert Elements(s.given) == Range(2, 256);
      } else {
        assert InList(free[k], free) && !InList(free[k], s.given);
        assert InRange(free[k], 2, 256) && free[k] in Range(2, 256) && free[k] !in Elements(s.given);
      }
    }
  }

  /** The run of a list of operations; `None` if it panics or frees a frame nobody holds. */
  function Run(v: Design, s: Ledger, ops: seq<Op>): Option<Ledger>
    requires s.fr.Sized()
    decreases |ops|
  {
    if ops == [] then Some(s)
    else if ops[0].FreeOp? && ops[0].f !in s.held then None
    else
      match Step(v, s, ops[0])
      case None => None
      case Some(t) => if t.fr.Sized() then Run(v, t, ops[1..]) else None
  }

  /** The free list after one operation. */
  ghost function NextList(s: Ledger, free: seq<Byte>, op: Op): seq<Byte>
    requires s.fr.Sized()
  {
    if op.FreeOp? then [op.f] + free
    else (var k := FirstFree(s.fr.refs, free); if k < |free| then free[k + 1..] else [])
  }

  /** The free list after a run. */
  ghost function ListAfter(v: Design, s: Ledger, free: seq<Byte>, ops: seq<Op>): seq<Byte>
    requires s.fr.Sized() && Run(v, s, ops).Some?
    decreases |ops|
  {
    if ops == [] then free
    else
      ListAfter(v, Step(v, s, ops[0]).value, NextList(s, free, ops[0]), ops[1..])
  }

  lemma {:induction false} RunKeeps(v: Design, s: Ledger, free: seq<Byte>, ops: seq<Op>)
    requires Inv(v, s, free) && Run(v, s, ops).Some?
    ensures Inv(v, Run(v, s, ops).value, ListAfter(v, s, free, ops))
    decreases |ops|
  {
    hide Counted, Alloc, Free;
    if ops != [] {
      var t := Step(v, s, ops[0]).value;
      match ops[0]
      case AllocOp =>
        AllocKeeps(v, s, free);
        RunKeeps(v, t, free[FirstFree(s.fr.refs, free) + 1..], ops[1..]);
      case FreeOp(f) =>
        FreeKeeps(v, s, free, f);
        RunKeeps(v, t, [f] + free, ops[1..]);
    }
  }

  /** Over every run from the initial table: the free list is acyclic, ends at 0, and holds
      no reserved and no held frame; held frames are distinct from the two reserved ones; the
      meant decrement keeps held and listed frames at 254 together, while as written no
      frame is ever handed out twice; and the next allocation panics exactly as stated. */
  lemma Conservation(v: Design, ops: seq<Op>)
    requires Run(v, Start(), ops).Some?
    ensures var s := Run(v, Start(), ops).value;
      var free := ListAfter(v, Start(), Upwards(2), ops);
      && s.fr.Sized() && Linked(s.fr.next, s.fr.first, free) && Distinct(free)
      && (forall k :: 0 <= k < |free| ==> 2 <= free[k] && free[k] !in s.held)
      && (v.Intended? ==> |free| + |s.held| == 254)
      && (v.AsWritten? ==> Distinct(s.given))
      && (Alloc(s.fr).None? <==> (if v.Intended? then |s.held| else |s.given|) == 254)
  {
    hide Run, ListAfter, Start;
    StartInv(v);
    RunKeeps(v, Start(), Upwards(2), ops);
    PanicExactly(v, Run(v, Start(), ops).value, ListAfter(v, Start(), Upwards(2), ops));
  }

  // ----- What the increment loses -----

  /** How many frames a run frees. */
  function Frees(ops: seq<Op>): nat {
    if ops == [] then 0 else (if ops[0].FreeOp? then 1 else 0) + Frees(ops[1..])
  }

  /** How many it frees after its last allocation, `p` having been freed before it. */
  function FreesSince(ops: seq<Op>, p: nat): nat {
    if ops == [] then p else FreesSince(ops[1..], if ops[0].FreeOp? then p + 1 else 0)
  }

  /** As written, the list is `p` freed frames, which no allocation will take, and then every
      frame never handed out. */
  ghost predicate Wasting(s: Ledger, free: seq<Byte>, p: nat, frees: nat) {
    && s.fr.Sized() && p <= |free|
    && (forall k :: 0 <= k < |free| ==> (s.fr.refs[free[k]] == 0 <==> p <= k))
    && |free| - p + |s.given| == 254 && |s.held| + frees == |s.given|
  }

  lemma StartWastes()
    ensures Wasting(Start(), Upwards(2), 0, 0)
  {
  }

  lemma AllocWastes(s: Ledger, free: seq<Byte>, p: nat, frees: nat)
    requires Wasting(s, free, p, frees) && Distinct(free) && p < |free| && free[p] !in s.held
    ensures FirstFree(s.fr.refs, free) == p
    ensures Wasting(AfterAlloc(s, free, p), free[p + 1..], 0, frees)
  {
    var t, rest := AfterAlloc(s, free, p), free[p + 1..];
    forall k | 0 <= k < |rest|
      ensures t.fr.refs[rest[k]] == 0
    {
      assert rest[k] == free[p + 1 + k];
    }
  }

  lemma FreeWastes(s: Ledger, free: seq<Byte>, p: nat, frees: nat, f: Byte)
    requires Wasting(s, free, p, frees) && f in s.held && s.fr.refs[f] == 1
    requires forall k :: 0 <= k < |free| ==> free[k] != f
    ensures Wasting(Step(AsWritten, s, FreeOp(f)).value, [f] + free, p + 1, frees + 1)
  {
    var t, list := Step(AsWritten, s, FreeOp(f)).value, [f] + free;
    forall k | 0 <= k < |list|
      ensures t.fr.refs[list[k]] == 0 <==> p + 1 <= k
    {
      if k > 0 {
        assert list[k] == free[k - 1];
      }
    }
    assert s.held == t.held + {f};
  }

  lemma StepWastes(s: Ledger, free: seq<Byte>, op: Op, p: nat, frees: nat)
    requires Inv(AsWritten, s, free) && Wasting(s, free, p, frees)
    requires Step(AsWritten, s, op).Some? && (op.FreeOp? ==> op.f in s.held)
    ensures var t, list := Step(AsWritten, s, op).value, NextList(s, free, op);
      && Inv(AsWritten, t, list)
      && if op.FreeOp? then Wasting(t, list, p + 1, frees + 1) else Wasting(t, list, 0, frees)
  {
    hide Counted, Alloc, Free, Wasting, Linked, Distinct, Inv, AfterAlloc;
    InvSized(AsWritten, s, free);
    match op
    case AllocOp =>
      AllocKeeps(AsWritten, s, free);
      AllocIs(AsWritten, s, free);
      FirstWaste(s, free, p, frees);
      AllocWastes(s, free, p, frees);
    case FreeOp(f) =>
      FreeKeeps(AsWritten, s, free, f);
      HeldOnce(AsWritten, s, free, f);
      FreeWastes(s, free, p, frees, f);
  }

  lemma HeldOnce(v: Design, s: Ledger, free: seq<Byte>, f: Byte)
    requires Inv(v, s, free) && f in s.held
    ensures s.fr.Sized() && s.fr.refs[f] == 1
  {
    hide Counted, Linked, Distinct;
  }

  lemma {:induction false} RunWastes(s: Ledger, free: seq<Byte>, ops: seq<Op>, p: nat, frees: nat)
    requires Inv(AsWritten, s, free) && s.fr.Sized() && Run(AsWritten, s, ops).Some? && Wasting(s, free, p, frees)
    ensures Wasting(Run(AsWritten, s, ops).value, ListAfter(AsWritten, s, free, ops), FreesSince(ops, p),
                    frees + Frees(ops))
    decreases |ops|
  {
    hide Step, Wasting, Inv, FirstFree;
    if ops != [] {
      StepWastes(s, free, ops[0], p, frees);
      var t, list := Step(AsWritten, s, ops[0]).value, NextList(s, free, ops[0]);
      if ops[0].FreeOp? {
        RunWastes(t, list, ops[1..], p + 1, frees + 1);
      } else {
        RunWastes(t, list, ops[1..], 0, frees);
      }
    }
  }

  lemma FirstWaste(s: Ledger, free: seq<Byte>, p: nat, frees: nat)
    requires Wasting(s, free, p, frees)
    ensures FirstFree(s.fr.refs, free) == p
  {
    assert p < |free| ==> s.fr.refs[free[p]] == 0;
  }

  /** Some allocation follows a free. */
  predicate AllocAfterFree(ops: seq<Op>) {
    exists i, j :: 0 <= i < j < |ops| && ops[i].FreeOp? && ops[j].AllocOp?
  }

  lemma {:induction false} SinceAll(ops: seq<Op>, p: nat)
    ensures FreesSince(ops, p) <= p + Frees(ops)
    ensures FreesSince(ops, p) == p + Frees(ops) <==> (p == 0 || AllocOp !in ops) && !AllocAfterFree(ops)
    decreases |ops|
  {
    if ops != [] {
      var rest := ops[1..];
      SinceAll(rest, if ops[0].FreeOp? then p + 1 else 0);
      assert ops == [ops[0]] + rest;
      assert forall i :: 0 <= i < |rest| ==> rest[i] == ops[i + 1];
      if AllocAfterFree(rest) {
        var i, j :| 0 <= i < j < |rest| && rest[i].FreeOp? && rest[j].AllocOp?;
        assert ops[i + 1].FreeOp? && ops[j + 1].AllocOp?;
      }
      if ops[0].FreeOp? && AllocOp in rest {
        var j :| 0 <= j < |rest| && rest[j] == AllocOp;
        assert ops[0].FreeOp? && ops[j + 1].AllocOp?;
      }
    }
  }

  /** As written, held and listed frames are 254 together, less one for every free before the
      last allocation; they stay 254 if and only if no allocation follows a free. */
  lemma IncrementLoses(ops: seq<Op>)
    requires Run(AsWritten, Start(), ops).Some?
    ensures var s := Run(AsWritten, Start(), ops).value;
      var free := ListAfter(AsWritten, Start(), Upwards(2), ops);
      && |s.held| + |free| == 254 - Frees(ops) + FreesSince(ops, 0)
      && (|s.held| + |free| == 254 <==> !AllocAfterFree(ops))
  {
    hide Run, ListAfter, Start, Inv, AllocAfterFree, Frees, FreesSince;
    StartInv(AsWritten);
    StartWastes();
    RunWastes(Start(), Upwards(2), ops, 0, 0);
    SinceAll(ops, 0);
  }

  /** Freeing a frame and allocating again: the meant decrement gives the same frame back and
      restores the free list; as written the frame is passed over and leaves the list. */
  lemma FreeThenAlloc(v: Design, s: Ledger, free: seq<Byte>, f: Byte)
    requires Inv(v, s, free) && f in s.held
    ensures var t := Step(v, s, FreeOp(f)).value;
      && (v.Intended? ==> Alloc(t.fr).Some? && Alloc(t.fr).value.0 == f && Alloc(t.fr).value.1.first == s.fr.first)
      && (v.AsWritten? && Alloc(t.fr).Some? ==>
            && Alloc(t.fr).value.0 != f
            && exists rest: seq<Byte> :: Inv(v, Step(v, t, AllocOp).value, rest) && f !in rest)
  {
    hide Counted, Linked, Distinct;
    FreeKeeps(v, s, free, f);
    var t, list := Step(v, s, FreeOp(f)).value, [f] + free;
    AllocIs(v, t, list);
    FreedCount(v, s, f);
    if v.AsWritten? && Alloc(t.fr).Some? {
      var k := FirstFree(t.fr.refs, list);
      AllocKeeps(v, t, list);
      DistinctFirst(list, k);
    }
  }

  lemma FreedCount(v: Design, s: Ledger, f: Byte)
    requires s.fr.Sized() && s.fr.refs[f] == 1
    ensures Free(v, s.fr, f).refs[f] == if v.Intended? then 0 else 2
    ensures Free(v, s.fr, f).next[f] == s.fr.first
  {
  }

  lemma DistinctFirst(xs: seq<Byte>, k: nat)
    requires Distinct(xs) && 0 < k < |xs|
    ensures xs[k] != xs[0] && xs[0] !in xs[k + 1..]
  {
  }

  /** How many frames of a list are without references. */
  function Zeros(refs: seq<Byte>, xs: seq<Byte>): nat
    requires |refs| == NB_FRAMES
  {
    if xs == [] then 0 else (if refs[xs[0]] == 0 then 1 else 0) + Zeros(refs, xs[1..])
  }

  lemma {:induction false} ZerosFirst(refs: seq<Byte>, xs: seq<Byte>)
    requires |refs| == NB_FRAMES
    ensures var k := FirstFree(refs, xs);
      Zeros(refs, xs) == if k == |xs| then 0 else 1 + Zeros(refs, xs[k + 1..])
    decreases |xs|
  {
    if xs != [] && refs[xs[0]] != 0 {
      ZerosFirst(refs, xs[1..]);
      var k := FirstFree(refs, xs[1..]);
      if k < |xs| - 1 {
        assert xs[1..][k + 1..] == xs[k + 2..];
      }
    } else if xs != [] {
      assert xs[0 + 1..] == xs[1..];
    }
  }

  lemma {:induction false} ZerosFrame(refs: seq<Byte>, f: Byte, count: Byte, xs: seq<Byte>)
    requires |refs| == NB_FRAMES && f !in xs
    ensures Zeros(refs[f := count], xs) == Zeros(refs, xs)
    decreases |xs|
  {
    if xs != [] {
      assert xs[0] in xs && forall x :: x in xs[1..] ==> x in xs;
      ZerosFrame(refs, f, count, xs[1..]);
    }
  }

  // ----- The table in place -----

  class FrameTable {
    const design: Design
    const refs: array<Byte>
    const next: array<Byte>
    var first: Byte

    /** The free list, in order. */
    ghost var free: seq<Byte>

    ghost function View(): Frames
      reads this, refs, next
    {
      Frames(refs[..], next[..], first)
    }

    ghost predicate Valid()
      reads this, refs, next
    {
      && refs.Length == NB_FRAMES && next.Length == NB_FRAMES && refs != next
      && Linked(next[..], first, free) && Distinct(free)
    }

    /** How many allocations will succeed. */
    ghost function Available(): nat
      requires refs.Length == NB_FRAMES
      reads this, refs
    {
      Zeros(refs[..], free)
    }

    /** The tables before `InitFrames` hold anything. */
    constructor (design: Design)
      ensures fresh(refs) && fresh(next) && this.design == design
      ensures Valid() && View() == InitFrames() && free == Upwards(2)
    {
      this.design := design;
      refs, next := new Byte[NB_FRAMES], new Byte[NB_FRAMES];
      new;
      for i := 0 to NB_FRAMES
        modifies refs, next
        invariant forall k :: 0 <= k < i ==> refs[k] == 0 && next[k] == (k + 1) % 0x100
      {
        refs[i] := 0;
        next[i] := (i + 1) % 0x100;
      }
      refs[0] := refs[0] + 1;
      refs[1] := refs[1] + 1;
      first := 2;
      free := Upwards(2);
      InitLinked(2);
      assert refs[..] == InitFrames().refs && next[..] == InitFrames().next;
    }

    /** The first frame of the list without references, or `None`, a panic. The loop ends
        because the list does. */
    method AllocFrame() returns (f: Option<Byte>)
      requires Valid()
      modifies this, refs
      ensures Valid()
      ensures var spec, k := Alloc(old(View())), FirstFree(old(refs[..]), old(free));
        if spec.None? then f == None && View() == old(View()) && free == old(free)
        else k < |old(free)| && f == Some(spec.value.0) && View() == spec.value.1 && free == old(free)[k + 1..]
      ensures f.Some? ==> f.value != 0 && f.value in old(free) && f.value !in free
      ensures f.Some? ==> old(refs[f.value]) == 0 && refs[..] == old(refs[..])[f.value := 1]
      ensures forall x :: x in free ==> x in old(free)
      ensures if f.None? then old(Available()) == 0 else Available() == old(Available()) - 1
    {
      hide Distinct, Linked, Zeros, Alloc, FirstFree;
      ghost var fr, k := View(), 0;
      ghost var found := FirstFree(fr.refs, free);
      AllocOnList(fr, free);
      assert free[0..] == free;
      var i := first;
      while i != 0
        modifies {}
        invariant k <= found && Linked(fr.next, i, free[k..])
        decreases |free| - k
      {
        LinkedStep(fr.next, i, free[k..]);
        assert free[k..][1..] == free[k + 1..] && free[k..][0] == free[k];
        if refs[i] == 0 {
          break;
        }
        i := next[i];
        k := k + 1;
      }
      LinkedStep(fr.next, i, free[k..]);
      if i == 0 {
        return None;
      }
      assert free[k..][0] == free[k];
      refs[i] := refs[i] + 1;
      first := next[i];
      free := free[k + 1..];
      return Some(i);
    }

    /** The frame goes to the head of the list. Frame 0 ends the list there, and a frame
        already listed closes it into a ring. */
    method FreeFrame(f: Byte)
      requires Valid()
      modifies this, refs, next
      ensures View() == Free(design, old(View()), f) && refs.Length == next.Length == NB_FRAMES
      ensures if f in old(free) then forall xs :: !Linked(next[..], first, xs)
              else Valid() && free == if f == 0 then [] else [f] + old(free)
      ensures f !in old(free) && f != 0 ==>
                Available() == old(Available()) + if Released(design, old(refs[f])) == 0 then 1 else 0
    {
      hide Zeros, Distinct;
      ZerosAfterFree(refs[..], free, f, Released(design, refs[f]));
      refs[f] := Released(design, refs[f]);
      next[f] := first;
      if f in free {
        ghost var p :| 0 <= p < |free| && free[p] == f;
        forall xs
          ensures !Linked(next[..], f, xs)
        {
          Ring(old(next[..]), first, free, p, xs);
        }
      } else {
        LinkedFrame(old(next[..]), next[..], first, free);
        DistinctMore(f, free);
      }
      first := f;
      free := if f == 0 then [] else [f] + free;
      assert f != 0 ==> free[1..] == old(free);
    }

    /** How many frames are used and free. */
    method FrameStats() returns (used: int, unused: nat)
      requires Valid()
      ensures unused == |free| && used == NB_FRAMES - |free|
    {
      unused := 0;
      assert free[0..] == free;
      var i := first;
      while i != 0
        invariant unused <= |free| && Linked(next[..], i, free[unused..])
        decreases |free| - unused
      {
        assert free[unused..][1..] == free[unused + 1..];
        unused := unused + 1;
        i := next[i];
      }
      used := NB_FRAMES - unused;
    }
  }

  /** An allocation takes the first frame without references off the list, with all before it. */
  lemma AllocOnList(fr: Frames, free: seq<Byte>)
    requires fr.Sized() && Linked(fr.next, fr.first, free) && Distinct(free)
    ensures var k := FirstFree(fr.refs, free);
      if k == |free| then Alloc(fr) == None && Zeros(fr.refs, free) == 0
      else
        var f, rest := free[k], free[k + 1..];
        && Alloc(fr) == Some((f, Frames(fr.refs[f := 1], fr.next, fr.next[f]))) && f != 0
        && Linked(fr.next, fr.next[f], rest) && Distinct(rest) && f !in rest
        && Zeros(fr.refs[f := 1], rest) == Zeros(fr.refs, free) - 1
  {
    hide Distinct, Linked, Zeros, Search;
    ListBounded(fr.next, fr.first, free);
    SearchFinds(fr, fr.first, free, NB_FRAMES);
    ZerosFirst(fr.refs, free);
    var k := FirstFree(fr.refs, free);
    if k < |free| {
      DistinctDrop(free, k);
      ZerosFrame(fr.refs, free[k], 1, free[k + 1..]);
    }
  }

  lemma ZerosAfterFree(refs: seq<Byte>, free: seq<Byte>, f: Byte, count: Byte)
    requires |refs| == NB_FRAMES
    ensures f !in free ==> Zeros(refs[f := count], [f] + free) == Zeros(refs, free) + if count == 0 then 1 else 0
  {
    if f !in free {
      ZerosFrame(refs, f, count, free);
      assert ([f] + free)[1..] == free;
    }
  }

  lemma DistinctMore(f: Byte, xs: seq<Byte>)
    requires Distinct(xs) && f !in xs
    ensures Distinct([f] + xs) && Distinct([])
  {
    assert forall k :: 0 < k < |[f] + xs| ==> ([f] + xs)[k] == xs[k - 1];
  }

  /** Linking an element of a list to the list's head leaves a ring: no list starts there. */
  lemma {:induction false} Ring(next: seq<Byte>, i: Byte, free: seq<Byte>, p: nat, xs: seq<Byte>)
    requires Linked(next, i, free) && Distinct(free) && p < |free| && |next| == NB_FRAMES
    ensures !Linked(next[free[p] := i], free[p], xs)
    decreases |xs|
  {
    var f, next' := free[p], next[free[p] := i];
    if Linked(next', f, xs) {
      LinkedNonzero(next, i, free, p);
      RingWalk(next, next', i, free, p, xs[1..]);
      Ring(next, i, free, p, xs[1..][p..]);
    }
  }

  lemma {:induction false} LinkedNonzero(next: seq<Byte>, i: Byte, xs: seq<Byte>, p: nat)
    requires Linked(next, i, xs) && p < |xs|
    ensures xs[p] != 0
    decreases |xs|
  {
    if p > 0 {
      LinkedNonzero(next, next[i], xs[1..], p - 1);
    }
  }

  /** Along the part before the element the links are as they were. */
  lemma {:induction false} RingWalk(next: seq<Byte>, next': seq<Byte>, i: Byte, free: seq<Byte>, p: nat, xs: seq<Byte>)
    requires Linked(next, i, free) && p < |free| && Linked(next', i, xs) && |next'| == |next|
    requires forall k :: 0 <= k < p && free[k] < |next| ==> next'[free[k]] == next[free[k]]
    ensures p < |xs| && Linked(next', free[p], xs[p..])
    decreases p
  {
    if p > 0 {
      assert forall k :: 0 <= k < p - 1 ==> free[1..][k] == free[k + 1];
      RingWalk(next, next', next[i], free[1..], p - 1, xs[1..]);
      assert xs[1..][p - 1..] == xs[p..];
    }
  }

  /** A proper list has fewer links than the table has entries. */
  lemma ListBounded(next: seq<Byte>, i: Byte, xs: seq<Byte>)
    requires Linked(next, i, xs) && Distinct(xs)
    ensures |xs| <= 256
  {
    BoundedLength(xs, 0, 256);
  }
}
