/**
  What a call does, told from its steps: the callee begins with the Variants its arguments named, its
  steps happen in order up to the first that throws, and what they leave behind is what the caller finds.
 */
module ArenaCalls {
  import opened Basics
  import opened VariantArena
  import opened ArenaInvariant
  import opened ArenaOperations
  import opened ArenaRuns
  import opened ArenaVisits

  // ----- Single steps

  ghost predicate SomeIndexHolds(a: Arena, now: Arena, v: Variant) { exists i: Int32 :: Holds(a, now, i, v) }

  /** What a step that is not a call leaves behind, and when it throws. */
  ghost predicate StepDoes(a: Arena, s: Step, now: Arena, threw: bool)
    requires !s.Call?
  {
    && (threw && !s.Limit? ==> now == a)
    && match s
       case Create(v) =>
         && (threw <==> |State(a).scoped| == State(a).capacity)
         && (!threw ==> SomeIndexHolds(a, now, v) && NothingChanged(a, now) && Costs(a, now, 1, 1))
       case Write(i, v) => (threw <==> GetScoped(a, i).None?) && (!threw ==> Holds(a, now, i, v))
       case Reuse(i, v) =>
         && (threw <==> NoRoomFor(a, i))
         && (!threw ==> SomeIndexHolds(a, now, v))
         && (!threw && (IsPermanent(i) || Reusable(a, i)) ==> Holds(a, now, i, v) && Costs(a, now, 0, 0))
       case ReuseFrom(source, i, v) =>
         && (GetScoped(a, source).None? ==> threw)
         && (!threw ==> SomeIndexHolds(a, now, v))
         && (!threw && (IsPermanent(i) || Reusable(a, i)) ==> Holds(a, now, i, v) && Costs(a, now, 0, 0))
       case Copy(i) =>
         && (threw <==> GetScoped(a, i).None? || |State(a).scoped| == State(a).capacity)
         && (!threw ==> SomeIndexHolds(a, now, Deref(a, GetScoped(a, i).value)) && NothingChanged(a, now))
       case Set(to, from) =>
         if to == INT32_MIN then !threw && now == a
         else (threw <==> Refused(a, to, from) || NoRoomFor(a, to))
              && (!threw ==> SomeIndexHolds(a, now, Deref(a, GetScoped(a, from).value)))
       case MakePermanent(i, _) =>
         && (threw <==> i >= 0 && GetScoped(a, i).None?)
         && (!threw && i >= 0 && |a.states[0].variants| < a.states[0].capacity ==>
               MadePermanent(a, now, Deref(a, GetScoped(a, i).value)))
         && (i < 0 || |a.states[0].variants| == a.states[0].capacity ==> now == a)
       case Limit(max) => !threw && now.maxRefs == max && LimitDoes(a, now, max)
       case Fail => threw
  }

  /** Level 0 has one more Variant, it is `v`, and the next negative index names it. */
  ghost predicate MadePermanent(a: Arena, now: Arena, v: Variant) {
    var index := -|a.states[0].variants| - 1;
    && |now.states[0].variants| == |a.states[0].variants| + 1
    && -INT32_LIMIT < index
    && GetScoped(now, index).Some?
    && Deref(now, GetScoped(now, index).value) == v
  }

  /** Inside a call the vectors stay; outside one each of them has room for `max`, and what was in it. */
  ghost predicate LimitDoes(a: Arena, now: Arena, max: nat) {
    forall l :: 0 <= l < MAX_LEVEL ==>
      && now.states[l].variants == a.states[l].variants && now.states[l].scoped == a.states[l].scoped
      && now.states[l].capacity == if a.current != 0 || max <= a.states[l].capacity then a.states[l].capacity else max
  }

  lemma StepDone(a: Arena, s: Step)
    requires Inv(a) && !s.Call?
    ensures StepDoes(a, s, Do(a, s).arena, Do(a, s).threw)
  {
    match s
    case Create(v) => CreateDone(a, v);
    case Write(i, v) => MutateHolds(a, i, v);
    case Reuse(i, v) => ReuseDone(a, i, v);
    case ReuseFrom(source, i, v) => ReuseFromDone(a, source, i, v);
    case Copy(i) => CopyDone(a, i);
    case Set(to, from) => SetDone(a, to, from);
    case MakePermanent(i, husk) => MakePermanentDone(a, i, husk);
    case Limit(max) => LimitDone(a, max);
    case Fail =>
  }

  lemma CreateDone(a: Arena, v: Variant)
    requires Inv(a)
    ensures StepDoes(a, Create(v), Do(a, Create(v)).arena, Do(a, Create(v)).threw)
  {
    CreateScopedResolves(a, v);
    var r := CreateScoped(a, v);
    if r.result.Returned? {
      assert Holds(a, r.arena, r.result.value, v);
    }
  }

  lemma ReuseDone(a: Arena, i: Int32, v: Variant)
    requires Inv(a)
    ensures StepDoes(a, Reuse(i, v), Do(a, Reuse(i, v)).arena, Do(a, Reuse(i, v)).threw)
  {
    TryReuseHolds(a, i, v);
    var r := TryReuse(a, i, v);
    if r.result.Returned? {
      assert Holds(a, r.arena, r.result.value, v);
    }
  }

  lemma ReuseFromDone(a: Arena, source: Int32, i: Int32, v: Variant)
    requires Inv(a)
    ensures StepDoes(a, ReuseFrom(source, i, v), Do(a, ReuseFrom(source, i, v)).arena, Do(a, ReuseFrom(source, i, v)).threw)
  {
    if GetScoped(a, source).Some? {
      var p := GetScoped(a, source).value;
      ReuseFromIsReuse(a, source, p, i, v);
      ReuseDone(a, i, v);
    }
  }

  /** Where the source index names the Variant, the shortcut of the four-argument overload changes nothing. */
  lemma ReuseFromIsReuse(a: Arena, source: Int32, p: Pointer, i: Int32, v: Variant)
    requires Inv(a) && GetScoped(a, source) == Some(p)
    ensures TryReuseFrom(a, source, p, i, v) == TryReuse(a, i, v)
  {
  }

  lemma CopyDone(a: Arena, i: Int32)
    requires Inv(a)
    ensures StepDoes(a, Copy(i), Do(a, Copy(i)).arena, Do(a, Copy(i)).threw)
  {
    CloneHolds(a, i);
    var r := Clone(a, i);
    if r.result.Returned? {
      assert Holds(a, r.arena, r.result.value, Deref(a, GetScoped(a, i).value));
    }
  }

  lemma SetDone(a: Arena, to: Int32, from: Int32)
    requires Inv(a)
    ensures StepDoes(a, Set(to, from), Do(a, Set(to, from)).arena, Do(a, Set(to, from)).threw)
  {
    AssignHolds(a, to, from);
    var r := Assign(a, to, from);
    if to != INT32_MIN && r.result.Returned? {
      assert Holds(a, r.arena, r.result.value, Deref(a, GetScoped(a, from).value));
    }
  }

  lemma MakePermanentDone(a: Arena, i: Int32, husk: Variant)
    requires Inv(a)
    ensures StepDoes(a, MakePermanent(i, husk), Do(a, MakePermanent(i, husk)).arena, Do(a, MakePermanent(i, husk)).threw)
  {
    if i < 0 || GetScoped(a, i).None? || |a.states[0].variants| == a.states[0].capacity {
      CreatePermanentDeclines(a, i, husk);
    } else {
      CreatePermanentResolves(a, i, husk);
      CreatePermanentShape(a, i, husk);
    }
  }

  lemma LimitDone(a: Arena, max: nat)
    requires Inv(a)
    ensures StepDoes(a, Limit(max), Do(a, Limit(max)).arena, Do(a, Limit(max)).threw)
  {
    if a.current == 0 {
      ReserveAllShape(a.(maxRefs := max), max);
      var b := SetMaxRefs(a, max);
      assert forall l :: 0 <= l < MAX_LEVEL ==> Reserved(a.states[l], b.states[l], max, a.nextBuffer);
    }
  }

  // ----- Arguments

  /** What an argument names, before the call and in it. */
  ghost predicate Names(a: Arena, arg: Argument, now: Arena, p: Pointer) {
    if arg.Named? then GetScoped(a, arg.index) == Some(p) && Deref(now, p) == Deref(a, p)
    else p.Host? && |a.host| <= p.id < |now.host| && Deref(now, p) == arg.value
  }

  /** There is a pointer for each argument, or an argument that does not resolve. */
  lemma {:induction false} PointersExactly(a: Arena, args: seq<Argument>)
    ensures var r := Pointers(a, args);
      && (r.result.Thrown? <==> exists n :: 0 <= n < |args| && Unnamed(a, args[n]))
      && (r.result.Returned? ==> |r.result.value| == |args|)
    decreases args
  {
    if args != [] {
      var b := Hosted(a, args[0]);
      PointersExactly(b, args[1..]);
      forall n | 0 <= n < |args| ensures args[n] == if n == 0 then args[0] else args[1..][n - 1] {}
      forall n | 0 <= n < |args| ensures Unnamed(a, args[n]) <==> Unnamed(b, args[n]) {}
      if exists n :: 0 <= n < |args| && Unnamed(a, args[n]) {
        var n :| 0 <= n < |args| && Unnamed(a, args[n]);
        assert n > 0 ==> Unnamed(b, args[1..][n - 1]);
      }
    }
  }

  ghost predicate Unnamed(a: Arena, arg: Argument) { arg.Named? && GetScoped(a, arg.index).None? }

  /** The arena with a temporary argument among the host's Variants. */
  ghost function Hosted(a: Arena, arg: Argument): Arena {
    if arg.Named? then a else a.(host := a.host + [arg.value])
  }

  /** More Variants of the host's change nothing that can be read already. */
  lemma HostReads(a: Arena, host: seq<Variant>, p: Pointer)
    requires a.host <= host && Live(a, p)
    ensures Deref(a.(host := host), p) == Deref(a, p)
  {
  }

  lemma {:induction false} PointersHost(a: Arena, args: seq<Argument>)
    ensures a.host <= Pointers(a, args).arena.host
    decreases args
  {
    if args != [] {
      PointersHost(Hosted(a, args[0]), args[1..]);
    }
  }

  /** Each pointer is for the argument in its place. */
  lemma {:induction false} PointerNames(a: Arena, args: seq<Argument>, n: nat)
    requires Inv(a) && n < |args| && Pointers(a, args).result.Returned? && n < |Pointers(a, args).result.value|
    ensures Names(a, args[n], Pointers(a, args).arena, Pointers(a, args).result.value[n])
    decreases args
  {
    if n == 0 {
      FirstNamed(a, args);
    } else {
      var b := Hosted(a, args[0]);
      HostGrows(a, b.host);
      LaterPointers(a, args, n);
      PointerNames(b, args[1..], n - 1);
      NamesBefore(a, args[0], args[n], Pointers(a, args).arena, Pointers(a, args).result.value[n]);
    }
  }

  lemma LaterPointers(a: Arena, args: seq<Argument>, n: nat)
    requires 0 < n < |args| && Pointers(a, args).result.Returned? && n < |Pointers(a, args).result.value|
    ensures var rest := Pointers(Hosted(a, args[0]), args[1..]);
      && rest.arena == Pointers(a, args).arena && rest.result.Returned? && n - 1 < |rest.result.value|
      && rest.result.value[n - 1] == Pointers(a, args).result.value[n] && args[1..][n - 1] == args[n]
  {
  }

  lemma FirstNamed(a: Arena, args: seq<Argument>)
    requires Inv(a) && args != [] && Pointers(a, args).result.Returned? && Pointers(a, args).result.value != []
    ensures Names(a, args[0], Pointers(a, args).arena, Pointers(a, args).result.value[0])
  {
    var b := Hosted(a, args[0]);
    var rest := Pointers(b, args[1..]);
    PointersHost(b, args[1..]);
    assert rest.arena == Pointers(a, args).arena;
    if args[0].Named? {
      GetScopedReaches(a, args[0].index);
      HostReads(a, rest.arena.host, GetScoped(a, args[0].index).value);
    }
  }

  lemma NamesBefore(a: Arena, first: Argument, arg: Argument, now: Arena, p: Pointer)
    requires Inv(a) && Names(Hosted(a, first), arg, now, p)
    ensures Names(a, arg, now, p)
  {
    if arg.Named? {
      GetScopedReaches(a, arg.index);
      HostReads(a, Hosted(a, first).host, p);
    }
  }

  /** Scoping pointers adds a slot for each, in order, and throws exactly when there are more than fit. */
  lemma {:induction false} AddAllExactly(a: Arena, ps: seq<Pointer>)
    requires |State(a).scoped| <= State(a).capacity
    ensures AddAll(a, ps).threw <==> |State(a).scoped| + |ps| > State(a).capacity
    ensures !AddAll(a, ps).threw ==>
      AddAll(a, ps).arena == Replaced(a, a.current, State(a).(scoped := State(a).scoped + ps))
    decreases ps
  {
    if ps == [] {
      assert State(a).scoped + ps == State(a).scoped;
    } else if |State(a).scoped| < State(a).capacity {
      AddAllExactly(AddScoped(a, ps[0]).arena, ps[1..]);
      assert (State(a).scoped + [ps[0]]) + ps[1..] == State(a).scoped + ps;
    }
  }

  /** The arena in which the called function begins, or the throw of an argument too many. */
  function Begun(a: Arena, ps: seq<Pointer>): Ran
    requires a.current + 1 < MAX_LEVEL
  {
    AddAll(Enter(a), ps)
  }

  /** The call is made: it is not too deep, each argument resolves, and the level above has a slot for each. */
  ghost predicate Made(a: Arena, args: seq<Argument>) {
    && a.current + 1 < MAX_LEVEL && |args| <= a.states[a.current + 1].capacity
    && Pointers(a, args).result.Returned?
  }

  /** A call whose arguments all resolve is made exactly if none of the other two conditions fails. */
  lemma MadeExactly(a: Arena, args: seq<Argument>)
    requires Inv(a) && a.current + 1 < MAX_LEVEL && Pointers(a, args).result.Returned?
    ensures Made(a, args) <==> !Begun(Pointers(a, args).arena, Pointers(a, args).result.value).threw
  {
    PointersExactly(a, args);
    PointersReach(a, args);
    AddAllExactly(Enter(Pointers(a, args).arena), Pointers(a, args).result.value);
  }

  /** A pointer the caller can reach reads the same in the callee. */
  lemma ReadsBegun(a: Arena, ps: seq<Pointer>, p: Pointer)
    requires Inv(a) && a.current + 1 < MAX_LEVEL && !Begun(a, ps).threw && Reaches(a, a.current, p)
    ensures Deref(Begun(a, ps).arena, p) == Deref(a, p)
  {
    AddAllExactly(Enter(a), ps);
  }

  /**
    The callee begins one level up, with no Variant of its own and one slot for each argument, and its
    index n resolves to the Variant that argument n named, which has the value it had.
   */
  lemma ArgumentsResolve(a: Arena, args: seq<Argument>, n: nat)
    requires Inv(a) && Made(a, args) && n < |args|
    ensures var named := Pointers(a, args); var now := Begun(named.arena, named.result.value).arena;
      && now.current == a.current + 1 && now.callsMade == a.callsMade + 1
      && State(now).variants == [] && |State(now).scoped| == |args|
      && n < INT32_LIMIT && GetScoped(now, n).Some?
      && Names(a, args[n], now, GetScoped(now, n).value)
  {
    var named := Pointers(a, args);
    var ps := named.result.value;
    PointersExactly(a, args);
    PointerNames(a, args, n);
    PointersReach(a, args);
    MadeExactly(a, args);
    AddAllExactly(Enter(named.arena), ps);
    assert Names(a, args[n], named.arena, ps[n]) && ps[n] in ps;
    ReadsBegun(named.arena, ps, ps[n]);
  }

  // ----- The callee

  /** The first `n` steps, none of which throws, lead from `a` to `b`. */
  ghost predicate Path(a: Arena, body: seq<Step>, n: nat, b: Arena)
    decreases n
  {
    if n == 0 then b == a
    else body != [] && !Do(a, body[0]).threw && Path(Do(a, body[0]).arena, body[1..], n - 1, b)
  }

  /** The steps lead from `a` to `b`: through all of them, or through the first `n` and into one that throws. */
  ghost predicate Ends(a: Arena, body: seq<Step>, n: nat, m: Arena, b: Arena, threw: bool) {
    && Path(a, body, n, m)
    && if threw then n < |body| && Do(m, body[n]).threw && b == Do(m, body[n]).arena
       else n == |body| && b == m
  }

  /** Every function ends in one way. */
  lemma {:induction false} SomeEnd(a: Arena, body: seq<Step>) returns (n: nat, m: Arena, b: Arena, threw: bool)
    ensures Ends(a, body, n, m, b, threw)
    decreases body
  {
    if body == [] {
      n, m, b, threw := 0, a, a, false;
    } else if Do(a, body[0]).threw {
      n, m, b, threw := 0, a, Do(a, body[0]).arena, true;
    } else {
      n, m, b, threw := SomeEnd(Do(a, body[0]).arena, body[1..]);
      n := n + 1;
    }
  }

  lemma {:induction false} EndIsRun(a: Arena, body: seq<Step>, n: nat, m: Arena, b: Arena, threw: bool)
    requires Ends(a, body, n, m, b, threw)
    ensures Run(a, body) == Ran(b, threw) && Visits(a, body, b)
    decreases n
  {
    if n > 0 {
      var s := body[0];
      assert threw ==> body[n] == body[1..][n - 1];
      EndIsRun(Do(a, s).arena, body[1..], n - 1, m, b, threw);
    } else if threw {
      assert VisitsWithin(a, body[0], b);
    }
  }

  /** What a caller finds after a call, given the arena in which the callee ended. */
  ghost predicate Returns(a: Arena, b: Arena, threw: bool, now: Arena) {
    now == b.(current := a.current, exceptions := b.exceptions + if threw then 1 else 0)
  }

  /**
    A call leaves behind the last arena it passed through, apart from the level, which is the caller's
    again, and the count of exceptions, which is one more exactly if the call was refused for its depth,
    had too many arguments, or ended in a step that threw.
   */
  lemma CallReturnsLast(a: Arena, ps: seq<Pointer>, body: seq<Step>) returns (n: nat, m: Arena, b: Arena, threw: bool)
    ensures var now := VmCall(a, ps, body);
      if a.current + 1 >= MAX_LEVEL then b == a && threw && Returns(a, b, true, now)
      else if Begun(a, ps).threw then b == Begun(a, ps).arena && threw && Returns(a, b, true, now)
      else Ends(Begun(a, ps).arena, body, n, m, b, threw) && VisitsCalled(a, ps, body, b) && Returns(a, b, threw, now)
  {
    n, m, b, threw := 0, a, a, true;
    if a.current + 1 < MAX_LEVEL {
      AddAllCurrent(Enter(a), ps);
      b := Begun(a, ps).arena;
      if !Begun(a, ps).threw {
        n, m, b, threw := SomeEnd(Begun(a, ps).arena, body);
        EndIsRun(Begun(a, ps).arena, body, n, m, b, threw);
      }
    }
  }

  /** `now` is what such a call leaves. */
  ghost predicate LeftByCall(a: Arena, ps: seq<Pointer>, body: seq<Step>, now: Arena) {
    if a.current + 1 >= MAX_LEVEL then Returns(a, a, true, now)
    else
      var begun := Begun(a, ps);
      if begun.threw then Returns(a, begun.arena, true, now)
      else exists n: nat, m, b, threw :: Ends(begun.arena, body, n, m, b, threw) && Returns(a, b, threw, now)
  }

  lemma CallLeaves(a: Arena, ps: seq<Pointer>, body: seq<Step>)
    ensures LeftByCall(a, ps, body, VmCall(a, ps, body))
  {
    var n, m, b, threw := CallReturnsLast(a, ps, body);
  }

  /** The same from any end that one has found. */
  lemma CallEndsAt(a: Arena, ps: seq<Pointer>, body: seq<Step>, n: nat, m: Arena, b: Arena, threw: bool)
    requires a.current + 1 < MAX_LEVEL && !Begun(a, ps).threw && Ends(Begun(a, ps).arena, body, n, m, b, threw)
    ensures Returns(a, b, threw, VmCall(a, ps, body))
  {
    AddAllCurrent(Enter(a), ps);
    EndIsRun(Begun(a, ps).arena, body, n, m, b, threw);
  }

  // ----- What the caller sees of it

  lemma {:induction false} PathThen(a: Arena, pre: seq<Step>, m: Arena, s: Step)
    requires Path(a, pre, |pre|, m) && !Do(m, s).threw
    ensures Path(a, pre + [s], |pre| + 1, Do(m, s).arena)
    decreases pre
  {
    if pre == [] {
      assert ([] + [s])[1..] == [];
    } else {
      assert (pre + [s])[0] == pre[0] && (pre + [s])[1..] == pre[1..] + [s];
      PathThen(Do(a, pre[0]).arena, pre[1..], m, s);
    }
  }

  /** The arena in which a call that is made begins. */
  ghost function Start(a: Arena, args: seq<Argument>): Arena
    requires Made(a, args)
  {
    Begun(Pointers(a, args).arena, Pointers(a, args).result.value).arena
  }

  lemma PathSafe(a: Arena, args: seq<Argument>, pre: seq<Step>, m: Arena)
    requires Inv(a) && Made(a, args) && Path(Start(a, args), pre, |pre|, m)
    ensures Inv(m) && m.current == a.current + 1
  {
    var named := Pointers(a, args);
    PointersReach(a, args);
    EnterInv(named.arena);
    AddAllKeeps(Enter(named.arena), named.result.value);
    AddAllCurrent(Enter(named.arena), named.result.value);
    CalmInsideCall(Start(a, args), pre);
    RunSafe(Start(a, args), pre);
    EndIsRun(Start(a, args), pre, |pre|, m, m, false);
  }

  /** A call whose last step does not throw leaves behind what that step did. */
  lemma LastStepStays(a: Arena, args: seq<Argument>, pre: seq<Step>, m: Arena, s: Step)
    requires Inv(a) && Made(a, args) && Path(Start(a, args), pre, |pre|, m) && !Do(m, s).threw
    ensures var now := Do(a, Call(args, pre + [s]));
      && !now.threw
      && now.arena == Do(m, s).arena.(current := a.current)
  {
    var named := Pointers(a, args);
    var b := Do(m, s).arena;
    MadeExactly(a, args);
    PathThen(Start(a, args), pre, m, s);
    CallEndsAt(named.arena, named.result.value, pre + [s], |pre| + 1, b, b, false);
    DoCall(a, args, pre + [s]);
  }

  /** The caller gets on with its own steps after a call, unless an argument it named does not resolve. */
  lemma CallThrowsExactly(a: Arena, args: seq<Argument>, body: seq<Step>)
    ensures Do(a, Call(args, body)).threw <==> exists n :: 0 <= n < |args| && Unnamed(a, args[n])
  {
    PointersExactly(a, args);
  }

  lemma DoCall(a: Arena, args: seq<Argument>, body: seq<Step>)
    requires Pointers(a, args).result.Returned?
    ensures Do(a, Call(args, body)) == Ran(VmCall(Pointers(a, args).arena, Pointers(a, args).result.value, body), false)
  {
  }

  /** Reading a pointer does not depend on the level. */
  lemma ReadsAnyLevel(b: Arena, now: Arena, p: Pointer, index: Int32)
    requires now == b.(current := now.current)
    ensures Deref(now, p) == Deref(b, p)
    ensures IsPermanent(index) ==> GetScoped(now, index) == GetScoped(b, index)
  {
  }

  /**
    Whatever a callee did before: a value it writes to a permanent index, or assigns through one, is what
    the caller finds under that index.
   */
  lemma WriteIsSeen(a: Arena, args: seq<Argument>, pre: seq<Step>, m: Arena, index: Int32, v: Variant)
    requires Inv(a) && Made(a, args) && Path(Start(a, args), pre, |pre|, m)
    requires IsPermanent(index) && GetScoped(m, index).Some?
    ensures forall s :: s == Write(index, v) || s == Reuse(index, v) ==>
      var now := Do(a, Call(args, pre + [s])).arena;
      GetScoped(now, index).Some? && Deref(now, GetScoped(now, index).value) == v
  {
    PathSafe(a, args, pre, m);
    forall s | s == Write(index, v) || s == Reuse(index, v)
      ensures var now := Do(a, Call(args, pre + [s])).arena;
        GetScoped(now, index).Some? && Deref(now, GetScoped(now, index).value) == v
    {
      StepDone(m, s);
      LastStepStays(a, args, pre, m, s);
      var b, now := Do(m, s).arena, Do(a, Call(args, pre + [s])).arena;
      assert Holds(m, b, index, v);
      ReadsAnyLevel(b, now, GetScoped(b, index).value, index);
    }
  }

  /** And a Variant it makes permanent, while level 0 has room, is what the caller finds under the new index. */
  lemma PermanentIsSeen(a: Arena, args: seq<Argument>, pre: seq<Step>, m: Arena, index: Int32, husk: Variant)
    requires Inv(a) && Made(a, args) && Path(Start(a, args), pre, |pre|, m)
    requires index >= 0 && GetScoped(m, index).Some? && |m.states[0].variants| < m.states[0].capacity
    ensures MadePermanent(m, Do(a, Call(args, pre + [MakePermanent(index, husk)])).arena, Deref(m, GetScoped(m, index).value))
  {
    var s := MakePermanent(index, husk);
    PathSafe(a, args, pre, m);
    StepDone(m, s);
    LastStepStays(a, args, pre, m, s);
    var b, now := Do(m, s).arena, Do(a, Call(args, pre + [s])).arena;
    var newest := -|m.states[0].variants| - 1;
    ReadsAnyLevel(b, now, GetScoped(b, newest).value, newest);
  }

  /** So a callee that makes its argument n permanent gives its caller, for good, the value the argument had. */
  lemma ArgumentMadePermanent(a: Arena, args: seq<Argument>, n: nat, husk: Variant)
    requires Inv(a) && Made(a, args) && n < |args| && |a.states[0].variants| < a.states[0].capacity
    ensures n < INT32_LIMIT && (args[n].Named? ==> GetScoped(a, args[n].index).Some?)
    ensures MadePermanent(a, Do(a, Call(args, [MakePermanent(n, husk)])).arena,
                          if args[n].Temporary? then args[n].value else Deref(a, GetScoped(a, args[n].index).value))
  {
    ArgumentsResolve(a, args, n);
    var m := Start(a, args);
    StartKeepsLevelZero(a, args);
    assert Path(m, [], 0, m) && [] + [MakePermanent(n, husk)] == [MakePermanent(n, husk)];
    PermanentIsSeen(a, args, [], m, n, husk);
  }

  lemma StartKeepsLevelZero(a: Arena, args: seq<Argument>)
    requires Inv(a) && Made(a, args)
    ensures Start(a, args).states[0] == a.states[0]
  {
    PointersReach(a, args);
    MadeExactly(a, args);
    AddAllExactly(Enter(Pointers(a, args).arena), Pointers(a, args).result.value);
  }
}
