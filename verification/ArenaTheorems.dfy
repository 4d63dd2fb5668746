/** The main results about the arena, over the whole lifetime of a sandbox. */
module ArenaTheorems {
  import opened Basics
  import opened VariantArena
  import opened ArenaInvariant
  import opened ArenaOperations
  import opened ArenaRuns

  /** `constructor_initialize` with a limit on references (src/sandbox.cpp:353-360, 1789-1796): reserve, then clear. */
  function Reinitialized(a: Arena): Arena {
    var r := ReserveAll(a, a.maxRefs);
    r.(current := 0, states := [Cleared(r.states[0]), Cleared(r.states[1]), Cleared(r.states[2]), Cleared(r.states[3])])
  }

  function Cleared(st: CurrentState): CurrentState { st.(variants := [], scoped := []) }

  /** A sandbox whose levels have storage of their own; nothing else is assumed of it. */
  lemma ReinitializedInv(a: Arena)
    requires Storage(a)
    ensures Inv(Reinitialized(a)) <==> a.maxRefs < INT32_LIMIT
  {
    var r := ReserveAll(a, a.maxRefs);
    ReserveAllShape(a, a.maxRefs);
    forall l | 0 <= l < MAX_LEVEL
      ensures Reinitialized(a).states[l] == Cleared(r.states[l])
      ensures r.states[l].capacity == Larger(a.states[l].capacity, a.maxRefs)
    {
      assert Reserved(a.states[l], r.states[l], a.maxRefs, a.nextBuffer);
    }
    assert Reinitialized(a).states[0] == Cleared(r.states[0]);
  }

  lemma ActiveBijective(a: Arena, level: nat)
    requires Inv(a) && level <= a.current
    ensures Bijective(a.states[level]) && |a.states[level].scoped| <= a.states[level].capacity
  {
    if level == 0 { AlignedIsBijective(a.states[0]); } else { assert LevelInv(a, level); }
  }

  /** An active level has an element for each slot it owns and no other, and room for them all. */
  lemma ElementsCounted(a: Arena, level: nat)
    requires Inv(a) && level <= a.current
    ensures var st := a.states[level];
      |st.variants| == OwnedSlots(st.scoped, st.buffer) <= |st.scoped| <= st.capacity
  {
    ActiveBijective(a, level);
    OwnedSlotsBound(a.states[level].scoped, a.states[level].buffer);
  }

  /** Each element of an active level has exactly one slot. */
  lemma OneSlotPerElement(a: Arena, level: nat, at: nat) returns (s: nat)
    requires Inv(a) && level <= a.current && at < |a.states[level].variants|
    ensures var st := a.states[level];
      && s < |st.scoped| && st.scoped[s] == Cell(st.buffer, at)
      && forall t :: 0 <= t < |st.scoped| && st.scoped[t] == Cell(st.buffer, at) ==> t == s
  {
    var st := a.states[level];
    ActiveBijective(a, level);
    assert Cell(st.buffer, at) in st.scoped;
    s :| 0 <= s < |st.scoped| && st.scoped[s] == Cell(st.buffer, at);
  }

  /** No active slot dangles: whatever an index resolves to, at whatever level, is a Variant that exists. */
  lemma SlotsLive(a: Arena, level: nat, s: nat)
    requires Inv(a) && level <= a.current && s < |a.states[level].scoped|
    ensures Live(a, a.states[level].scoped[s])
  {
    if level == 0 {
      LevelOfStorage(a, 0);
    } else {
      assert LevelInv(a, level);
      assert Reaches(a, level, a.states[level].scoped[s]);
    }
  }

  lemma CallFramed(a: Arena, args: seq<Argument>, body: seq<Step>)
    requires Inv(a)
    ensures Inv(Do(a, Call(args, body)).arena) && Framed(a, Do(a, Call(args, body)).arena)
  {
    PointersReach(a, args);
    var named := Pointers(a, args);
    if named.result.Returned? {
      VmCallFramed(named.arena, named.result.value, body);
    }
  }

  lemma FramedIndex(a: Arena, now: Arena, index: Int32)
    requires Inv(a) && Inv(now) && Framed(a, now) && GetScoped(a, index).Some?
    ensures var p := GetScoped(a, index).value;
      && GetScoped(now, index) == Some(p) && Live(now, p)
      && (!Owns(a.states[0], p) ==> Deref(now, p) == Deref(a, p))
  {
    var p := GetScoped(a, index).value;
    GetScopedReaches(a, index);
    assert GetScoped(now, index) == Some(p);
    GetScopedReaches(now, index);
    if p.Cell? && !Owns(a.states[0], p) {
      var level := LevelOf(a, p.buffer);
      assert now.states[level] == a.states[level];
      LevelOfStorage(now, level);
    }
  }

  /**
    A nested call, seen by the guest that makes it. Every index the guest holds resolves as before to
    a Variant that exists, its own slots and elements are untouched, and only a permanent Variant can
    hold a new value; this is so for every tree of steps, thrown or not, at every depth.
   */
  lemma NestedCallKeepsIndices(a: Arena, args: seq<Argument>, body: seq<Step>, index: Int32)
    requires Inv(a) && GetScoped(a, index).Some?
    ensures var now := Do(a, Call(args, body)).arena; var p := GetScoped(a, index).value;
      && now.current == a.current
      && (forall l :: 1 <= l <= a.current ==> now.states[l] == a.states[l])
      && GetScoped(now, index) == Some(p)
      && Live(now, p)
      && (!Owns(a.states[0], p) ==> Deref(now, p) == Deref(a, p))
  {
    CallFramed(a, args, body);
    FramedIndex(a, Do(a, Call(args, body)).arena, index);
  }

  /** A permanent index, once issued, names the same Variant after any run of the sandbox. */
  lemma PermanentIndexKept(a: Arena, body: seq<Step>, index: Int32)
    requires Inv(a) && Calm(a, body) && IsPermanent(index) && GetScoped(a, index).Some?
    ensures var now := Run(a, body).arena;
      && GetScoped(now, index) == GetScoped(a, index) == Some(Cell(a.states[0].buffer, -index - 1))
      && Live(now, GetScoped(now, index).value)
  {
    RunSafe(a, body);
    GetScopedReaches(a, index);
    GetScopedReaches(Run(a, body).arena, index);
  }

  /**
    Within one call an index stays valid, and stays on its element once it is on one the level owns:
    the level's vectors are never reallocated, and a slot moves at most once, onto a fresh element.
   */
  lemma ScopedIndexKept(a: Arena, body: seq<Step>, index: Int32)
    requires Inv(a) && a.current != 0 && 0 <= index < |State(a).scoped|
    ensures var now := Run(a, body).arena;
      && GetScoped(now, index).Some? && Live(now, GetScoped(now, index).value)
      && State(now).buffer == State(a).buffer && State(now).capacity == State(a).capacity
      && now.states[0].buffer == a.states[0].buffer && now.states[0].capacity == a.states[0].capacity
      && (Owns(State(a), State(a).scoped[index]) ==> GetScoped(now, index) == GetScoped(a, index))
      && (GetScoped(now, index) != GetScoped(a, index) ==>
            GetScoped(now, index).value.Cell? && |State(a).variants| <= GetScoped(now, index).value.at)
  {
    CalmInsideCall(a, body);
    RunSafe(a, body);
    GetScopedReaches(Run(a, body).arena, index);
  }

  /**
    A Variant of the host, such as an argument of the outermost call, is never assigned by any step of a
    run. What a method called on such a Variant does to its contents is not among the steps
    (src/sandbox_syscalls.cpp:740, 2335, 2399).
   */
  lemma HostNeverWritten(a: Arena, body: seq<Step>, id: nat)
    requires Inv(a) && Calm(a, body) && id < |a.host|
    ensures Deref(Run(a, body).arena, Host(id)) == Deref(a, Host(id))
  {
    RunSafe(a, body);
  }

  /**
    The one way a lifetime can go wrong: the guest creates a Variant in `main`, the host then raises
    the limit, and the index the guest was given resolves to storage that is gone.
   */
  lemma RaisingTheLimitDangles(a: Arena, v: Variant, max: nat)
    requires Inv(a) && a.current == 0 && |a.states[0].scoped| < a.states[0].capacity < max
    ensures var now := Run(a, [Create(v), Limit(max)]).arena; var index := -|a.states[0].scoped| - 1;
      GetScoped(now, index).Some? && !Live(now, GetScoped(now, index).value)
  {
    var b := CreateScoped(a, v).arena;
    CreatedInMain(a, v);
    SetMaxRefsDangles(b, max, -|a.states[0].scoped| - 1);
    CreateThenLimit(a, v, max);
  }

  lemma CreateThenLimit(a: Arena, v: Variant, max: nat)
    requires !Do(a, Create(v)).threw
    ensures Run(a, [Create(v), Limit(max)]).arena == SetMaxRefs(CreateScoped(a, v).arena, max)
  {
    TwoSteps(a, Create(v), Limit(max));
  }

  lemma CreatedInMain(a: Arena, v: Variant)
    requires Inv(a) && a.current == 0 && |a.states[0].scoped| < a.states[0].capacity
    ensures var b := CreateScoped(a, v).arena;
      && !Do(a, Create(v)).threw && Inv(b) && b.current == 0
      && b.states[0].capacity == a.states[0].capacity && b.states[0].variants != []
      && GetScoped(b, -|a.states[0].scoped| - 1).Some?
  {
    AppendKeeps(a, 0, v);
  }

  lemma RunCons(a: Arena, s: Step, rest: seq<Step>)
    ensures Run(a, [s] + rest) == if Do(a, s).threw then Do(a, s) else Run(Do(a, s).arena, rest)
  {
    assert ([s] + rest)[0] == s && ([s] + rest)[1..] == rest;
  }

  lemma TwoSteps(a: Arena, s: Step, t: Step)
    requires !Do(a, s).threw
    ensures Run(a, [s, t]).arena == Do(Do(a, s).arena, t).arena
  {
    assert [s, t] == [s] + [t] && [t] == [t] + [];
    RunCons(a, s, [t]);
    RunCons(Do(a, s).arena, t, []);
  }
}
