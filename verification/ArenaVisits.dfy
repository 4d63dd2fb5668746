/**
  Every state a run passes through, inside nested calls as well as between them: the invariant is not
  only there again when a run is over, it is there whenever the guest or the host can look.
 */
module ArenaVisits {
  import opened Basics
  import opened VariantArena
  import opened ArenaInvariant
  import opened ArenaOperations
  import opened ArenaRuns
  import opened ArenaTheorems

  /** `b` is the arena before or after some step of the run, at whatever depth of nested calls. */
  ghost predicate Visits(a: Arena, body: seq<Step>, b: Arena)
    decreases body, 0
  {
    || b == a
    || (body != [] && VisitsWithin(a, body[0], b))
    || (body != [] && !Do(a, body[0]).threw && Visits(Do(a, body[0]).arena, body[1..], b))
  }

  ghost predicate VisitsWithin(a: Arena, s: Step, b: Arena)
    decreases s, 2
  {
    || b == Do(a, s).arena
    || (s.Call? && Pointers(a, s.args).result.Returned?
        && VisitsCalled(Pointers(a, s.args).arena, Pointers(a, s.args).result.value, s.body, b))
  }

  /** While the arguments are scoped, one by one, and then while the called function runs. */
  ghost predicate VisitsCalled(a: Arena, ps: seq<Pointer>, body: seq<Step>, b: Arena)
    decreases body, 1
  {
    a.current + 1 < MAX_LEVEL
    && (|| (exists n :: 0 <= n <= |ps| && b == AddAll(Enter(a), ps[..n]).arena)
        || (!AddAll(Enter(a), ps).threw && Visits(AddAll(Enter(a), ps).arena, body, b)))
  }

  /**
    How a state stands over an earlier one that is still on the stack of calls: the levels of the calls
    outside are untouched, the level itself and the permanent one have only grown.
   */
  ghost predicate Over(a: Arena, b: Arena) {
    && a.current <= b.current
    && a.host <= b.host
    && a.states[0].scoped <= b.states[0].scoped
    && (a.current != 0 ==> Grows(a.states[0], b.states[0]) && Grows(State(a), b.states[a.current]))
    && forall l :: 1 <= l < a.current ==> b.states[l] == a.states[l]
  }

  lemma OverAfter(a: Arena, b: Arena, c: Arena)
    requires Keeps(a, b) && Over(b, c)
    ensures Over(a, c)
  {
    if a.current != 0 {
      GrowsTransitive(a.states[0], b.states[0], c.states[0]);
      GrowsTransitive(State(a), State(b), c.states[a.current]);
    }
  }

  /** Seen from the caller: its own level is exactly as it was when it made the call. */
  ghost predicate InCallFrom(a: Arena, b: Arena) {
    && a.current < b.current
    && a.host <= b.host
    && a.states[0].scoped <= b.states[0].scoped
    && Grows(a.states[0], b.states[0])
    && forall l :: 1 <= l <= a.current ==> b.states[l] == a.states[l]
  }

  lemma CalledIsOver(a: Arena, b: Arena)
    requires a.current + 1 < MAX_LEVEL && Over(Enter(a), b)
    ensures InCallFrom(a, b)
  {
  }

  lemma NamedIsOver(a: Arena, named: Arena, b: Arena)
    requires Keeps(a, named) && InCallFrom(named, b)
    ensures Over(a, b)
  {
    if a.current != 0 {
      GrowsTransitive(a.states[0], named.states[0], b.states[0]);
    }
  }

  /** Any state inside a nested call leaves the caller's level, and those below it, exactly as they were. */
  lemma {:induction false} CalledSafe(a: Arena, ps: seq<Pointer>, body: seq<Step>, b: Arena)
    requires Inv(a) && (forall p :: p in ps ==> Reaches(a, a.current, p)) && VisitsCalled(a, ps, body, b)
    ensures Inv(b) && InCallFrom(a, b)
    decreases body, 1
  {
    var inner := Enter(a);
    EnterInv(a);
    if n :| 0 <= n <= |ps| && b == AddAll(inner, ps[..n]).arena {
      AddAllKeeps(inner, ps[..n]);
    } else {
      AddAllKeeps(inner, ps);
      var entered := AddAll(inner, ps).arena;
      CalmInsideCall(entered, body);
      VisitedSafe(entered, body, b);
      OverAfter(inner, entered, b);
    }
    CalledIsOver(a, b);
  }

  lemma {:induction false} WithinSafe(a: Arena, s: Step, b: Arena)
    requires Inv(a) && CalmStep(a, s) && VisitsWithin(a, s, b)
    ensures Inv(b) && Over(a, b)
    decreases s, 2
  {
    if b == Do(a, s).arena {
      DoSafe(a, s);
    } else {
      PointersReach(a, s.args);
      var named := Pointers(a, s.args);
      CalledSafe(named.arena, named.result.value, s.body, b);
      NamedIsOver(a, named.arena, b);
    }
  }

  lemma {:induction false} VisitedSafe(a: Arena, body: seq<Step>, b: Arena)
    requires Inv(a) && Calm(a, body) && Visits(a, body, b)
    ensures Inv(b) && Over(a, b)
    decreases body, 0
  {
    if b != a {
      if VisitsWithin(a, body[0], b) {
        WithinSafe(a, body[0], b);
      } else {
        DoSafe(a, body[0]);
        VisitedSafe(Do(a, body[0]).arena, body[1..], b);
        OverAfter(a, Do(a, body[0]).arena, b);
      }
    }
  }

  /** A run passes through its own states, and through those of the rest of it. */
  lemma VisitsRest(a: Arena, body: seq<Step>, b: Arena)
    requires body != [] && !Do(a, body[0]).threw && Visits(Do(a, body[0]).arena, body[1..], b)
    ensures Visits(a, body, b)
  {
  }

  /**
    Exactly which runs keep the invariant in every state they pass through: those that set no limit which
    is not harmless where it is set. Inside calls every limit is, so it is only outside them that it matters.
   */
  lemma {:induction false} SafeExactly(a: Arena, body: seq<Step>)
    requires Inv(a)
    ensures (forall b :: Visits(a, body, b) ==> Inv(b)) <==> Calm(a, body)
    decreases body
  {
    if Calm(a, body) {
      forall b | Visits(a, body, b) ensures Inv(b) {
        VisitedSafe(a, body, b);
      }
    } else {
      var s, now := body[0], Do(a, body[0]).arena;
      if !CalmStep(a, s) {
        SetMaxRefsIntact(a, s.max);
        assert VisitsWithin(a, s, now);
        assert Visits(a, body, now) && !Inv(now);
      } else {
        DoSafe(a, s);
        SafeExactly(now, body[1..]);
        var b :| Visits(now, body[1..], b) && !Inv(b);
        VisitsRest(a, body, b);
      }
    }
  }

  /**
    Safety over a lifetime, from construction or a full reset on, through any tree of guest steps and host
    calls: the sandbox ends at the level it started from, and every state it passes through is sound
    exactly when the limit it starts with fits 31 bits and the run sets none that is not harmless.
   */
  lemma LifetimeSafe(a: Arena, life: seq<Step>)
    requires Storage(a)
    ensures Run(Reinitialized(a), life).arena.current == 0
    ensures (forall b :: Visits(Reinitialized(a), life, b) ==> Inv(b))
       <==> a.maxRefs < INT32_LIMIT && Calm(Reinitialized(a), life)
  {
    ReinitializedInv(a);
    assert Visits(Reinitialized(a), life, Reinitialized(a));
    if a.maxRefs < INT32_LIMIT {
      SafeExactly(Reinitialized(a), life);
    }
  }

  /**
    In every state a lifetime passes through, on every active level: as many elements as slots that own
    one, no more than there are slots, and no more slots than the vector of elements has room for;
    so no `push_back` reallocates, and every slot's pointer is good.
   */
  lemma EveryStateSafe(a: Arena, life: seq<Step>, b: Arena, level: nat)
    requires Storage(a) && a.maxRefs < INT32_LIMIT && Calm(Reinitialized(a), life)
    requires Visits(Reinitialized(a), life, b) && level <= b.current
    ensures Inv(b)
    ensures var st := b.states[level];
      && |st.variants| == OwnedSlots(st.scoped, st.buffer) <= |st.scoped| <= st.capacity
      && forall s :: 0 <= s < |st.scoped| ==> Live(b, st.scoped[s])
  {
    ReinitializedInv(a);
    VisitedSafe(Reinitialized(a), life, b);
    ElementsCounted(b, level);
    forall s | 0 <= s < |b.states[level].scoped| ensures Live(b, b.states[level].scoped[s]) {
      SlotsLive(b, level, s);
    }
  }

  /**
    Seen from any point of a run: in every state passed through later, at any depth below, each index
    the call holds still resolves in its level's slots, and an index already on an element the level
    owns is on that element still.
   */
  lemma OuterIndexKept(a: Arena, body: seq<Step>, b: Arena, index: Int32)
    requires Inv(a) && a.current != 0 && Visits(a, body, b) && 0 <= index < |State(a).scoped|
    ensures a.current <= b.current && index < |b.states[a.current].scoped|
    ensures Live(b, b.states[a.current].scoped[index])
    ensures b.states[a.current].buffer == State(a).buffer
    ensures Owns(State(a), State(a).scoped[index]) ==> b.states[a.current].scoped[index] == State(a).scoped[index]
  {
    CalmInsideCall(a, body);
    VisitedSafe(a, body, b);
    SlotsLive(b, a.current, index);
  }
}
