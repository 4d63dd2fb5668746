/**
  Whole runs of the sandbox: a guest call is an arbitrary tree of operations on the arena, any of
  which may throw, and any of which may be a nested call (src/sandbox.cpp:976-1097).
 */
module ArenaRuns {
  import opened Basics
  import opened VariantArena
  import opened ArenaInvariant
  import opened ArenaOperations

  /** A complex argument of a call: a Variant the calling guest names by index, or one the host made. */
  datatype Argument = Named(index: Int32) | Temporary(value: Variant)

  datatype Step =
    | Create(value: Variant)
    | Write(index: Int32, value: Variant)
    | Reuse(index: Int32, value: Variant)
    | ReuseFrom(source: Int32, index: Int32, value: Variant)
    | Copy(index: Int32)
    | Set(to: Int32, from: Int32)
    | MakePermanent(index: Int32, husk: Variant)
    | Limit(max: nat)
    | Call(args: seq<Argument>, body: seq<Step>)
    | Fail

  datatype Ran = Ran(arena: Arena, threw: bool)

  /** The host's pointers for the arguments; naming an index that does not resolve throws in the caller. */
  function Pointers(a: Arena, args: seq<Argument>): (named: Reply<seq<Pointer>>)
    ensures named.arena == a.(host := named.arena.host)
    decreases args
  {
    if args == [] then Reply(a, Returned([]))
    else
      match args[0]
      case Named(index) =>
        (match GetScoped(a, index)
         case None => Reply(a, Thrown)
         case Some(p) => Prepend(p, Pointers(a, args[1..])))
      case Temporary(v) => Prepend(Host(|a.host|), Pointers(a.(host := a.host + [v]), args[1..]))
  }

  function Prepend(p: Pointer, rest: Reply<seq<Pointer>>): Reply<seq<Pointer>> {
    match rest.result
    case Thrown => rest
    case Returned(ps) => Reply(rest.arena, Returned([p] + ps))
  }

  /** Entry into the next level: `m_current_state += 1` and `state.reset()`. */
  function Enter(a: Arena): Arena
    requires a.current + 1 < MAX_LEVEL
  {
    var level := a.current + 1;
    a.(current := level, callsMade := a.callsMade + 1,
       states := a.states[level := a.states[level].(variants := [], scoped := [])])
  }

  /** `add_scoped_variant` for each argument in turn. */
  function AddAll(a: Arena, ps: seq<Pointer>): Ran
    decreases ps
  {
    if ps == [] then Ran(a, false)
    else
      var added := AddScoped(a, ps[0]);
      if added.result.Thrown? then Ran(added.arena, true) else AddAll(added.arena, ps[1..])
  }

  lemma AddAllCurrent(a: Arena, ps: seq<Pointer>)
    ensures AddAll(a, ps).arena.current == a.current
    decreases ps
  {
    if ps != [] && AddScoped(a, ps[0]).result.Returned? {
      AddAllCurrent(AddScoped(a, ps[0]).arena, ps[1..]);
    }
  }

  /** `vmcall_internal`: too deep a call only counts an exception, a throwing guest is caught here. */
  function VmCall(a: Arena, ps: seq<Pointer>, body: seq<Step>): (now: Arena)
    ensures now.current == a.current
    decreases body, 1
  {
    if a.current + 1 >= MAX_LEVEL then a.(exceptions := a.exceptions + 1)
    else
      AddAllCurrent(Enter(a), ps);
      var entered := AddAll(Enter(a), ps);
      var ran := if entered.threw then entered else Run(entered.arena, body);
      ran.arena.(current := ran.arena.current - 1,
                 exceptions := ran.arena.exceptions + if ran.threw then 1 else 0)
  }

  function Did<T>(r: Reply<T>): Ran { Ran(r.arena, r.result.Thrown?) }

  function Do(a: Arena, s: Step): (r: Ran)
    ensures r.arena.current == a.current
    decreases s, 2
  {
    match s
    case Create(v) => Did(CreateScoped(a, v))
    case Write(i, v) => Did(Mutate(a, i, v))
    case Reuse(i, v) => Did(TryReuse(a, i, v))
    case ReuseFrom(source, i, v) =>
      (match GetScoped(a, source)
       case None => Ran(a, true)
       case Some(p) => Did(TryReuseFrom(a, source, p, i, v)))
    case Copy(i) => Did(Clone(a, i))
    case Set(to, from) => Did(Assign(a, to, from))
    case MakePermanent(i, husk) => Did(CreatePermanent(a, i, husk))
    case Limit(max) => Ran(SetMaxRefs(a, max), false)
    case Call(args, body) =>
      var named := Pointers(a, args);
      if named.result.Thrown? then Ran(named.arena, true)
      else Ran(VmCall(named.arena, named.result.value, body), false)
    case Fail => Ran(a, true)
  }

  /** A guest body: operations in order, up to the first that throws. */
  function Run(a: Arena, body: seq<Step>): (r: Ran)
    ensures r.arena.current == a.current
    decreases body, 0
  {
    if body == [] then Ran(a, false)
    else
      var first := Do(a, body[0]);
      if first.threw then first else Run(first.arena, body[1..])
  }

  // ----- The one thing a run must not do

  /** No step of the run sets a limit that is not harmless where it is set. */
  ghost predicate Calm(a: Arena, body: seq<Step>)
    decreases body, 0
  {
    body == [] || (CalmStep(a, body[0]) && (Do(a, body[0]).threw || Calm(Do(a, body[0]).arena, body[1..])))
  }

  ghost predicate CalmStep(a: Arena, s: Step) {
    s.Limit? ==> Harmless(a, s.max)
  }

  lemma {:induction false} CalmInsideCall(a: Arena, body: seq<Step>)
    requires a.current != 0
    ensures Calm(a, body)
    decreases body
  {
    if body != [] && !Do(a, body[0]).threw {
      CalmInsideCall(Do(a, body[0]).arena, body[1..]);
    }
  }

  // ----- Calls

  lemma EnterInv(a: Arena)
    requires Inv(a) && a.current + 1 < MAX_LEVEL
    ensures Inv(Enter(a))
    ensures forall p :: Reaches(a, a.current, p) ==> Reaches(Enter(a), a.current, p)
  {
    var b := Enter(a);
    forall p, l | 0 <= l <= a.current && Reaches(a, l, p) ensures Reaches(b, l, p) {}
    forall l | 1 <= l <= b.current ensures LevelInv(b, l) {
      if l < b.current {
        assert LevelInv(a, l);
      }
    }
  }

  /** Arguments point at levels below the one being entered, so none of them is owned there. */
  lemma {:induction false} AddAllKeeps(a: Arena, ps: seq<Pointer>)
    requires Inv(a) && a.current != 0
    requires forall p :: p in ps ==> Reaches(a, a.current - 1, p)
    ensures Inv(AddAll(a, ps).arena) && Keeps(a, AddAll(a, ps).arena)
    ensures AddAll(a, ps).arena == a.(states := AddAll(a, ps).arena.states)
    decreases ps
  {
    if ps != [] {
      AddFirst(a, ps);
      var b := AddScoped(a, ps[0]).arena;
      if AddScoped(a, ps[0]).result.Returned? {
        AddAllKeeps(b, ps[1..]);
        KeepsTransitive(a, b, AddAll(a, ps).arena);
      }
    }
  }

  lemma AddFirst(a: Arena, ps: seq<Pointer>)
    requires Inv(a) && a.current != 0 && ps != []
    requires forall p :: p in ps ==> Reaches(a, a.current - 1, p)
    ensures Reaches(a, a.current, ps[0]) && !Owns(State(a), ps[0])
    ensures var b := AddScoped(a, ps[0]).arena;
      && Inv(b) && Keeps(a, b) && forall p :: p in ps[1..] ==> Reaches(b, b.current - 1, p)
  {
    LevelOfStorage(a, a.current);
    assert ps[0] in ps;
    AddScopedResolves(a, ps[0]);
    var b := AddScoped(a, ps[0]).arena;
    forall p | p in ps[1..] ensures Reaches(b, b.current - 1, p) {
      assert p in ps && Reaches(a, a.current - 1, p);
    }
  }

  lemma {:induction false} PointersReach(a: Arena, args: seq<Argument>)
    requires Inv(a)
    ensures var r := Pointers(a, args);
      && r.arena == a.(host := r.arena.host) && a.host <= r.arena.host
      && Inv(r.arena) && Keeps(a, r.arena)
      && (r.result.Returned? ==> forall p :: p in r.result.value ==> Reaches(r.arena, a.current, p))
    decreases args
  {
    if args != [] {
      match args[0]
      case Named(index) =>
        PointersReach(a, args[1..]);
        if GetScoped(a, index).Some? {
          GetScopedReaches(a, index);
          HostGrows(a, Pointers(a, args[1..]).arena.host);
        }
      case Temporary(v) =>
        var b := a.(host := a.host + [v]);
        HostGrows(a, b.host);
        PointersReach(b, args[1..]);
        HostGrows(b, Pointers(b, args[1..]).arena.host);
    }
  }

  lemma HostGrows(a: Arena, host: seq<Variant>)
    requires Inv(a) && a.host <= host
    ensures Inv(a.(host := host)) && Keeps(a, a.(host := host))
    ensures forall l, p :: 0 <= l < MAX_LEVEL && Reaches(a, l, p) ==> Reaches(a.(host := host), l, p)
  {
    var b := a.(host := host);
    forall l, p | 0 <= l < MAX_LEVEL && Reaches(a, l, p) ensures Reaches(b, l, p) {}
    forall l | 1 <= l <= b.current ensures LevelInv(b, l) {
      assert LevelInv(a, l);
    }
  }

  /**
    A nested call, whatever its guest does, however it ends and however deep it is: the level is back
    where it was, every level of an outer call is exactly as it was, and so is every Variant of the
    host; the permanent level has only grown.
   */
  ghost predicate Framed(a: Arena, now: Arena) {
    && now.current == a.current
    && a.host <= now.host
    && a.states[0].scoped <= now.states[0].scoped
    && Grows(a.states[0], now.states[0])
    && forall l :: 1 <= l <= a.current ==> now.states[l] == a.states[l]
  }

  lemma {:induction false} VmCallFramed(a: Arena, ps: seq<Pointer>, body: seq<Step>)
    requires Inv(a) && forall p :: p in ps ==> Reaches(a, a.current, p)
    ensures Inv(VmCall(a, ps, body)) && Framed(a, VmCall(a, ps, body))
    decreases body, 1
  {
    var now := VmCall(a, ps, body);
    if a.current + 1 < MAX_LEVEL {
      var inner := Enter(a);
      EnterInv(a);
      AddAllKeeps(inner, ps);
      var entered := AddAll(inner, ps);
      var ran := if entered.threw then entered else Run(entered.arena, body);
      if !entered.threw {
        CalmInsideCall(entered.arena, body);
        RunSafe(entered.arena, body);
        KeepsTransitive(inner, entered.arena, ran.arena);
      }
      LeaveFramed(a, ran.arena, now);
    } else {
      SameStates(a, now);
    }
  }

  lemma SameStates(a: Arena, now: Arena)
    requires Inv(a) && now == a.(exceptions := now.exceptions)
    ensures Inv(now) && Framed(a, now)
  {
    forall l | 1 <= l <= now.current ensures LevelInv(now, l) {
      assert LevelInv(a, l);
      forall s | 0 <= s < |now.states[l].scoped| ensures Reaches(now, l, now.states[l].scoped[s]) {
        assert Reaches(a, l, a.states[l].scoped[s]);
      }
    }
  }

  /** Leaving the level again, after anything that kept what the entered level has to keep. */
  lemma LeaveFramed(a: Arena, ran: Arena, now: Arena)
    requires Inv(a) && a.current + 1 < MAX_LEVEL
    requires Inv(ran) && Keeps(Enter(a), ran)
    requires now == ran.(current := a.current, exceptions := now.exceptions)
    ensures Inv(now) && Framed(a, now)
  {
    forall l | 1 <= l <= now.current ensures LevelInv(now, l) {
      assert LevelInv(ran, l);
      forall s | 0 <= s < |now.states[l].scoped| ensures Reaches(now, l, now.states[l].scoped[s]) {
        assert Reaches(ran, l, ran.states[l].scoped[s]);
      }
    }
  }

  // ----- Runs

  lemma {:induction false} DoSafe(a: Arena, s: Step)
    requires Inv(a) && CalmStep(a, s)
    ensures Inv(Do(a, s).arena) && Keeps(a, Do(a, s).arena)
    decreases s, 2
  {
    match s
    case Limit(max) => LimitSafe(a, max);
    case Call(args, body) => CallSafe(a, args, body);
    case Fail =>
    case MakePermanent(i, husk) => MakePermanentSafe(a, i, husk);
    case _ => WriteSafe(a, s);
  }

  /** The steps that create or write one Variant of the current or the permanent level. */
  lemma WriteSafe(a: Arena, s: Step)
    requires Inv(a) && (s.Create? || s.Write? || s.Reuse? || s.ReuseFrom? || s.Copy? || s.Set?)
    ensures Inv(Do(a, s).arena) && Keeps(a, Do(a, s).arena)
  {
    match s
    case Create(v) => CreateScopedResolves(a, v);
    case Write(i, v) => MutateHolds(a, i, v);
    case Reuse(i, v) => TryReuseHolds(a, i, v);
    case ReuseFrom(source, i, v) =>
      if GetScoped(a, source).Some? {
        TryReuseFromHolds(a, source, GetScoped(a, source).value, i, v);
      }
    case Copy(i) => CloneHolds(a, i);
    case Set(to, from) => AssignHolds(a, to, from);
  }

  lemma {:induction false} CallSafe(a: Arena, args: seq<Argument>, body: seq<Step>)
    requires Inv(a)
    ensures Inv(Do(a, Call(args, body)).arena) && Keeps(a, Do(a, Call(args, body)).arena)
    decreases body, 2
  {
    PointersReach(a, args);
    var named := Pointers(a, args);
    if named.result.Returned? {
      VmCallFramed(named.arena, named.result.value, body);
      FramedAfter(a, named.arena, VmCall(named.arena, named.result.value, body));
    }
  }

  lemma FramedAfter(a: Arena, named: Arena, now: Arena)
    requires Keeps(a, named) && Framed(named, now)
    ensures Keeps(a, now)
  {
    KeepsTransitive(a, named, now);
  }

  lemma MakePermanentSafe(a: Arena, index: Int32, husk: Variant)
    requires Inv(a)
    ensures var now := CreatePermanent(a, index, husk).arena; Inv(now) && Keeps(a, now)
  {
    if index < 0 || GetScoped(a, index).None? || |a.states[0].variants| == a.states[0].capacity {
      CreatePermanentDeclines(a, index, husk);
    } else {
      CreatePermanentResolves(a, index, husk);
    }
  }

  lemma LimitSafe(a: Arena, max: nat)
    requires Inv(a) && CalmStep(a, Limit(max))
    ensures Inv(SetMaxRefs(a, max)) && Keeps(a, SetMaxRefs(a, max))
  {
    if a.current != 0 {
      SetMaxRefsInCall(a, max);
    } else {
      SetMaxRefsIntact(a, max);
      ReserveAllShape(a.(maxRefs := max), max);
      assert Reserved(a.states[0], SetMaxRefs(a, max).states[0], max, a.nextBuffer);
    }
  }

  /** The invariant holds after any run, and the run keeps what each of its steps keeps. */
  lemma {:induction false} RunSafe(a: Arena, body: seq<Step>)
    requires Inv(a) && Calm(a, body)
    ensures Inv(Run(a, body).arena) && Keeps(a, Run(a, body).arena)
    decreases body, 0
  {
    if body != [] {
      var first := Do(a, body[0]);
      DoSafe(a, body[0]);
      if !first.threw {
        RunSafe(first.arena, body[1..]);
        KeepsTransitive(a, first.arena, Run(a, body).arena);
      }
    }
  }
}
