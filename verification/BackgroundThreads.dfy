/**
  Background translation threads as interleaved steps: any number of starters, threads that finish
  when they like, and the deinitialization that joins what is tracked (src/sandbox.cpp:58-112).
 */
module BackgroundThreads {

  type Thread = nat

  /** Who holds the mutex: nobody, or the starter of a thread, its reaping loop at an index. */
  datatype Lock = Unlocked | Reaping(starter: Thread, at: nat)

  /** `Deinitialize`: not running, or past the swap and joining what it took, at an index. */
  datatype Deinit = Idle | Joining(taken: seq<Thread>, at: nat)

  /**
    `starting`: threads that run, but are not in the vector yet. `tracked`: the vector. `joins`: every join
    that has returned, in order. `done`: threads whose flag is set, which is the last thing they do.
   */
  datatype State = State(
    starting: set<Thread>, tracked: seq<Thread>, joins: seq<Thread>, done: set<Thread>, lock: Lock, deinit: Deinit)

  const START := State({}, [], [], {}, Unlocked, Idle)

  datatype Action =
    | Spawn(thread: Thread)
    | Finish(thread: Thread)
    | Acquire(thread: Thread)
    | Reap
    | Track
    | Swap
    | Join
    | Return

  /** Threads that were ever started. */
  function Known(s: State): set<Thread> {
    s.starting + Elements(s.tracked) + Pending(s) + Elements(s.joins)
  }

  function Elements(ts: seq<Thread>): set<Thread> { set i | 0 <= i < |ts| :: ts[i] }

  /** What `Deinitialize` has taken out of the vector and not joined yet. */
  function Pending(s: State): set<Thread> {
    match s.deinit
    case Idle => {}
    case Joining(taken, at) => if at <= |taken| then Elements(taken[at..]) else {}
  }

  /** A join returns only once its thread is done; the mutex is taken only when free. */
  predicate Enabled(s: State, a: Action) {
    match a
    case Spawn(t) => t !in Known(s)
    case Finish(t) => t in Known(s) && t !in s.done
    case Acquire(t) => t in s.starting && s.lock.Unlocked?
    case Reap => s.lock.Reaping? && s.lock.at < |s.tracked|
    case Track => s.lock.Reaping? && s.lock.at >= |s.tracked|
    case Swap => s.lock.Unlocked? && s.deinit.Idle?
    case Join => s.deinit.Joining? && s.deinit.at < |s.deinit.taken| && s.deinit.taken[s.deinit.at] in s.done
    case Return => s.deinit.Joining? && s.deinit.at >= |s.deinit.taken|
  }

  function Next(s: State, a: Action): State
    requires Enabled(s, a)
  {
    match a
    case Spawn(t) => s.(starting := s.starting + {t})
    case Finish(t) => s.(done := s.done + {t})
    case Acquire(t) => s.(lock := Reaping(t, 0))
    case Reap =>
      var k := s.lock.at;
      if s.tracked[k] in s.done then
        s.(tracked := s.tracked[..k] + s.tracked[k + 1..], joins := s.joins + [s.tracked[k]])
      else s.(lock := s.lock.(at := k + 1))
    case Track =>
      s.(tracked := s.tracked + [s.lock.starter], starting := s.starting - {s.lock.starter}, lock := Unlocked)
    case Swap => s.(deinit := Joining(s.tracked, 0), tracked := [])
    case Join =>
      s.(joins := s.joins + [s.deinit.taken[s.deinit.at]], deinit := s.deinit.(at := s.deinit.at + 1))
    case Return => s.(deinit := Idle)
  }

  ghost predicate Runs(s: State, actions: seq<Action>, now: State)
    decreases actions
  {
    if actions == [] then now == s
    else Enabled(s, actions[0]) && Runs(Next(s, actions[0]), actions[1..], now)
  }

  // ----- The invariant

  predicate Distinct(ts: seq<Thread>) { forall i, j :: 0 <= i < j < |ts| ==> ts[i] != ts[j] }

  /** Each known thread is in exactly one place; none is joined twice, and none that is not done. */
  ghost predicate Inv(s: State) {
    && Distinct(s.tracked) && Distinct(s.joins)
    && s.starting !! Elements(s.tracked) && s.starting !! Pending(s) && s.starting !! Elements(s.joins)
    && Elements(s.tracked) !! Pending(s) && Elements(s.tracked) !! Elements(s.joins) && Pending(s) !! Elements(s.joins)
    && Elements(s.joins) <= s.done <= Known(s)
    && (s.lock.Reaping? ==> s.lock.starter in s.starting && s.lock.at <= |s.tracked|)
    && (s.deinit.Joining? ==>
          Distinct(s.deinit.taken) && s.deinit.at <= |s.deinit.taken|
          && Elements(s.deinit.taken[..s.deinit.at]) <= Elements(s.joins))
  }

  lemma ElementsPush(ts: seq<Thread>, t: Thread)
    ensures Elements(ts + [t]) == Elements(ts) + {t}
    ensures Distinct(ts) && t !in Elements(ts) ==> Distinct(ts + [t])
  {
    var all := ts + [t];
    assert all[|ts|] == t;
    assert forall i :: 0 <= i < |ts| ==> all[i] == ts[i];
  }

  lemma ElementsRemove(ts: seq<Thread>, k: nat)
    requires k < |ts| && Distinct(ts)
    ensures var rest := ts[..k] + ts[k + 1..];
      Elements(rest) == Elements(ts) - {ts[k]} && Distinct(rest)
  {
    var rest := ts[..k] + ts[k + 1..];
    forall t | t in Elements(ts) - {ts[k]} ensures t in Elements(rest) {
      var i :| 0 <= i < |ts| && ts[i] == t;
      assert rest[if i < k then i else i - 1] == t;
    }
    forall t | t in Elements(rest) ensures t in Elements(ts) - {ts[k]} {
      var i :| 0 <= i < |rest| && rest[i] == t;
      assert ts[if i < k then i else i + 1] == t;
    }
  }

  lemma ElementsFirst(ts: seq<Thread>, k: nat)
    requires k < |ts| && Distinct(ts)
    ensures Elements(ts[k..]) == Elements(ts[k + 1..]) + {ts[k]} && ts[k] !in Elements(ts[k + 1..])
    ensures Elements(ts[..k + 1]) == Elements(ts[..k]) + {ts[k]}
  {
    ElementsPush(ts[..k], ts[k]);
    assert ts[..k + 1] == ts[..k] + [ts[k]];
    forall t | t in Elements(ts[k..]) ensures t in Elements(ts[k + 1..]) + {ts[k]} {
      var i :| 0 <= i < |ts[k..]| && ts[k..][i] == t;
      if i > 0 {
        assert ts[k + 1..][i - 1] == t;
      }
    }
    forall t | t in Elements(ts[k + 1..]) ensures t in Elements(ts[k..]) {
      var i :| 0 <= i < |ts[k + 1..]| && ts[k + 1..][i] == t;
      assert ts[k..][i + 1] == t;
    }
    assert ts[k..][0] == ts[k];
  }

  lemma NextKeepsInv(s: State, a: Action)
    requires Inv(s) && Enabled(s, a)
    ensures Inv(Next(s, a))
  {
    match a
    case Reap => ReapKeepsInv(s);
    case Track => ElementsPush(s.tracked, s.lock.starter);
    case Swap => SwapKeepsInv(s);
    case Join => JoinKeepsInv(s);
    case Return => ReturnKeepsInv(s);
    case _ =>
  }

  lemma ReapKeepsInv(s: State)
    requires Inv(s) && Enabled(s, Reap)
    ensures Inv(Next(s, Reap))
  {
    var t := s.tracked[s.lock.at];
    assert t in Elements(s.tracked);
    ElementsRemove(s.tracked, s.lock.at);
    ElementsPush(s.joins, t);
  }

  lemma SwapKeepsInv(s: State)
    requires Inv(s) && Enabled(s, Swap)
    ensures Inv(Next(s, Swap))
  {
    assert s.tracked[0..] == s.tracked;
  }

  lemma JoinKeepsInv(s: State)
    requires Inv(s) && Enabled(s, Join)
    ensures Inv(Next(s, Join))
  {
    var taken, k := s.deinit.taken, s.deinit.at;
    ElementsFirst(taken, k);
    assert taken[k] in Pending(s);
    ElementsPush(s.joins, taken[k]);
  }

  lemma ReturnKeepsInv(s: State)
    requires Inv(s) && Enabled(s, Return)
    ensures Inv(Next(s, Return))
  {
    assert s.deinit.taken[s.deinit.at..] == [];
  }

  lemma {:induction false} RunKeepsInv(s: State, actions: seq<Action>, now: State)
    requires Inv(s) && Runs(s, actions, now)
    ensures Inv(now)
    decreases actions
  {
    if actions != [] {
      NextKeepsInv(s, actions[0]);
      RunKeepsInv(Next(s, actions[0]), actions[1..], now);
    }
  }

  // ----- Main results

  /**
    In every interleaving: a thread that was started is starting, tracked, taken or joined, and only one
    of these; it is joined at most once, and only with its flag set.
   */
  lemma OnePlaceEach(actions: seq<Action>, now: State, t: Thread)
    requires Runs(START, actions, now) && t in Known(now)
    ensures (if t in now.starting then 1 else 0) + (if t in Elements(now.tracked) then 1 else 0)
          + (if t in Pending(now) then 1 else 0) + (if t in Elements(now.joins) then 1 else 0) == 1
    ensures forall i, j :: 0 <= i < j < |now.joins| ==> now.joins[i] != now.joins[j]
    ensures t in now.joins ==> t in now.done
  {
    RunKeepsInv(START, actions, now);
    if t in now.joins {
      var i :| 0 <= i < |now.joins| && now.joins[i] == t;
      assert t in Elements(now.joins);
    }
  }

  /** What a running `Deinitialize` took stays what it took, until it returns. */
  lemma {:induction false} TakenKept(s: State, actions: seq<Action>, now: State)
    requires Runs(s, actions, now) && s.deinit.Joining? && Return !in actions
    ensures now.deinit.Joining? && now.deinit.taken == s.deinit.taken
    decreases actions
  {
    if actions != [] {
      assert actions[0] in actions;
      TakenKept(Next(s, actions[0]), actions[1..], now);
    }
  }

  /**
    From the swap to the return of `Deinitialize`, whatever else happens in between: every thread that was
    tracked when it swapped is joined, and done.
   */
  lemma TrackedAtSwapIsJoined(before: seq<Action>, s: State, between: seq<Action>, now: State, t: Thread)
    requires Runs(START, before, s) && Enabled(s, Swap)
    requires Runs(Next(s, Swap), between, now) && Return !in between && Enabled(now, Return)
    requires t in s.tracked
    ensures t in Next(now, Return).joins && t in Next(now, Return).done
  {
    RunKeepsInv(START, before, s);
    NextKeepsInv(s, Swap);
    RunKeepsInv(Next(s, Swap), between, now);
    TakenKept(Next(s, Swap), between, now);
    var taken := now.deinit.taken;
    assert taken[..now.deinit.at] == taken == s.tracked;
    var i :| 0 <= i < |taken| && taken[i] == t;
    assert t in Elements(taken) && t in Elements(now.joins);
  }

  /** Nothing is left to join at the return exactly when no start is under way and nothing is tracked. */
  lemma LeftAtReturn(now: State)
    requires Inv(now) && Enabled(now, Return)
    ensures AllJoined(Next(now, Return)) <==> now.starting == {} && now.tracked == []
  {
    ReturnKeepsInv(now);
    var later := Next(now, Return);
    if now.tracked != [] {
      assert now.tracked[0] in Elements(now.tracked) && now.tracked[0] in Known(later);
    }
    if now.starting != {} {
      var t :| t in now.starting;
      assert t in Known(later);
    }
  }

  predicate AllJoined(s: State) { Known(s) == Elements(s.joins) }

  /** Some thread is on its way into the vector, or in it. */
  predicate SomeLeft(s: State) { s.starting != {} || s.tracked != [] }

  ghost predicate Starts(actions: seq<Action>) { exists k :: 0 <= k < |actions| && actions[k].Spawn? }

  /**
    While `Deinitialize` joins, what is on its way stays: the reaping loop may empty the vector, but the
    starter that runs it is about to add its own thread. And nothing comes from nowhere.
   */
  lemma {:induction false} LeftWhileJoining(s: State, actions: seq<Action>, now: State)
    requires Inv(s) && Runs(s, actions, now) && s.deinit.Joining? && Return !in actions
    ensures SomeLeft(now) <==> SomeLeft(s) || Starts(actions)
    decreases actions
  {
    if actions != [] {
      var a, rest := actions[0], actions[1..];
      assert a in actions;
      NextKeepsInv(s, a);
      LeftWhileJoining(Next(s, a), rest, now);
      LeftByStep(s, a);
      StartsFirst(actions);
    }
  }

  lemma LeftByStep(s: State, a: Action)
    requires Inv(s) && Enabled(s, a) && s.deinit.Joining? && a != Return
    ensures SomeLeft(Next(s, a)) <==> SomeLeft(s) || a.Spawn?
  {
    if a.Track? {
      assert Next(s, a).tracked[|s.tracked|] == s.lock.starter;
    }
  }

  lemma StartsFirst(actions: seq<Action>)
    requires actions != []
    ensures Starts(actions) <==> actions[0].Spawn? || Starts(actions[1..])
  {
    if Starts(actions[1..]) {
      var k :| 0 <= k < |actions[1..]| && actions[1..][k].Spawn?;
      assert actions[k + 1].Spawn?;
    }
    if Starts(actions) && !actions[0].Spawn? {
      var k :| 0 <= k < |actions| && actions[k].Spawn?;
      assert actions[1..][k - 1].Spawn?;
    }
  }

  /**
    `Deinitialize` does not promise more than that: when it returns, every thread there ever was has been
    joined exactly when no start was under way as it swapped, and none has begun since.
   */
  lemma NothingLeftExactly(before: seq<Action>, s: State, between: seq<Action>, now: State)
    requires Runs(START, before, s) && Enabled(s, Swap)
    requires Runs(Next(s, Swap), between, now) && Return !in between && Enabled(now, Return)
    ensures AllJoined(Next(now, Return)) <==> s.starting == {} && !Starts(between)
  {
    RunKeepsInv(START, before, s);
    NextKeepsInv(s, Swap);
    RunKeepsInv(Next(s, Swap), between, now);
    LeftWhileJoining(Next(s, Swap), between, now);
    LeftAtReturn(now);
  }

  /** How many more steps the holder of the mutex takes before it lets go. */
  function StepsToRelease(s: State): nat
    requires s.lock.Reaping? && s.lock.at <= |s.tracked|
  {
    |s.tracked| - s.lock.at + 1
  }

  /** The mutex is never held for long: its holder can always take a step, and each one brings the release closer. */
  lemma HolderAlwaysProceeds(actions: seq<Action>, s: State)
    requires Runs(START, actions, s) && s.lock.Reaping?
    ensures s.lock.at <= |s.tracked|
    ensures var a := if s.lock.at < |s.tracked| then Reap else Track;
      Enabled(s, a) && (Next(s, a).lock.Reaping? ==>
        Next(s, a).lock.at <= |Next(s, a).tracked| && StepsToRelease(Next(s, a)) < StepsToRelease(s))
  {
    RunKeepsInv(START, actions, s);
  }

  /** The thread is joined, or the reaping loop has yet to come to it. */
  ghost predicate JoinedOrAhead(s: State, t: Thread) {
    || t in s.joins
    || (s.lock.Reaping? && exists k :: s.lock.at <= k < |s.tracked| && s.tracked[k] == t)
  }

  lemma AheadByStep(s: State, a: Action, t: Thread)
    requires Enabled(s, a) && s.lock.Reaping? && a != Track && t in s.done && JoinedOrAhead(s, t)
    ensures Next(s, a).lock.Reaping? && t in Next(s, a).done && JoinedOrAhead(Next(s, a), t)
  {
    if a.Reap? && t !in s.joins {
      var k :| s.lock.at <= k < |s.tracked| && s.tracked[k] == t;
      if s.tracked[s.lock.at] in s.done && k > s.lock.at {
        assert Next(s, a).tracked[k - 1] == t;
      }
    }
  }

  lemma {:induction false} AheadWhileReaping(s: State, actions: seq<Action>, now: State, t: Thread)
    requires Runs(s, actions, now) && Track !in actions && s.lock.Reaping? && t in s.done && JoinedOrAhead(s, t)
    ensures now.lock.Reaping? && JoinedOrAhead(now, t)
    decreases actions
  {
    if actions != [] {
      assert actions[0] in actions;
      AheadByStep(s, actions[0], t);
      AheadWhileReaping(Next(s, actions[0]), actions[1..], now, t);
    }
  }

  /**
    Threads do not pile up: whatever happens in between, every tracked thread that is done when a starter
    takes the mutex is joined by the time that starter adds its own.
   */
  lemma FinishedAreReaped(s: State, starter: Thread, between: seq<Action>, now: State, t: Thread)
    requires Enabled(s, Acquire(starter)) && t in s.tracked && t in s.done
    requires Runs(Next(s, Acquire(starter)), between, now) && Track !in between && Enabled(now, Track)
    ensures t in now.joins
  {
    var begun := Next(s, Acquire(starter));
    var k :| 0 <= k < |s.tracked| && s.tracked[k] == t;
    assert begun.tracked[k] == t;
    AheadWhileReaping(begun, between, now, t);
  }

  // ----- Nothing is ever stuck

  lemma {:induction false} RunsOn(s: State, first: seq<Action>, between: State, rest: seq<Action>, now: State)
    requires Runs(s, first, between) && Runs(between, rest, now) && !Starts(first) && !Starts(rest)
    ensures Runs(s, first + rest, now) && !Starts(first + rest)
    decreases first
  {
    if first == [] {
      assert first + rest == rest;
    } else {
      assert (first + rest)[0] == first[0] && (first + rest)[1..] == first[1..] + rest;
      StartsFirst(first);
      RunsOn(Next(s, first[0]), first[1..], between, rest, now);
      StartsFirst(first + rest);
    }
  }

  lemma RunsStep(s: State, a: Action, rest: seq<Action>, now: State)
    requires Enabled(s, a) && !a.Spawn? && Runs(Next(s, a), rest, now) && !Starts(rest)
    ensures Runs(s, [a] + rest, now) && !Starts([a] + rest)
  {
    assert ([a] + rest)[1..] == rest;
    StartsFirst([a] + rest);
  }

  /** A running `Deinitialize` can return: the threads it waits for can finish, and each is then joined. */
  lemma {:induction false} CanReturn(s: State) returns (actions: seq<Action>, now: State)
    requires Inv(s) && s.deinit.Joining?
    ensures Runs(s, actions, now) && !Starts(actions) && Inv(now)
    ensures now.deinit.Idle? && now.starting == s.starting && now.tracked == s.tracked && now.lock == s.lock
    decreases |s.deinit.taken| - s.deinit.at, if Enabled(s, Join) then 0 else 1
  {
    var a := Return;
    if s.deinit.at < |s.deinit.taken| {
      var t := s.deinit.taken[s.deinit.at];
      ElementsFirst(s.deinit.taken, s.deinit.at);
      assert t in Known(s);
      a := if t in s.done then Join else Finish(t);
    }
    NextKeepsInv(s, a);
    if a == Return {
      actions, now := [], Next(s, a);
    } else {
      actions, now := CanReturn(Next(s, a));
    }
    RunsStep(s, a, actions, now);
    actions := [a] + actions;
  }

  /** The holder of the mutex can let go of it, with its thread in the vector. */
  lemma {:induction false} CanRelease(s: State) returns (actions: seq<Action>, now: State)
    requires Inv(s) && s.lock.Reaping?
    ensures Runs(s, actions, now) && !Starts(actions) && Inv(now)
    ensures now.lock.Unlocked? && now.starting == s.starting - {s.lock.starter} && now.deinit == s.deinit
    decreases |s.tracked| - s.lock.at
  {
    var a := if s.lock.at < |s.tracked| then Reap else Track;
    NextKeepsInv(s, a);
    if a == Track {
      actions, now := [], Next(s, a);
    } else {
      actions, now := CanRelease(Next(s, a));
    }
    RunsStep(s, a, actions, now);
    actions := [a] + actions;
  }

  /** And one after the other, so can all that are starting. */
  lemma {:induction false} CanTrackAll(s: State) returns (actions: seq<Action>, now: State)
    requires Inv(s) && s.lock.Unlocked?
    ensures Runs(s, actions, now) && !Starts(actions) && Inv(now)
    ensures now.lock.Unlocked? && now.starting == {} && now.deinit == s.deinit
    decreases s.starting
  {
    if s.starting == {} {
      actions, now := [], s;
    } else {
      var t :| t in s.starting;
      NextKeepsInv(s, Acquire(t));
      var tracking, between := CanRelease(Next(s, Acquire(t)));
      actions, now := CanTrackAll(between);
      RunsOn(Next(s, Acquire(t)), tracking, between, actions, now);
      RunsStep(s, Acquire(t), tracking + actions, now);
      actions := [Acquire(t)] + (tracking + actions);
    }
  }

  /**
    From every state that any interleaving leads to, whoever holds the mutex and wherever `Deinitialize`
    is, there is a way on in which no thread is started and every thread there ever was gets joined.
   */
  lemma CanJoinAll(before: seq<Action>, s: State) returns (actions: seq<Action>, now: State)
    requires Runs(START, before, s)
    ensures Runs(s, actions, now) && !Starts(actions) && AllJoined(now) && now.deinit.Idle? && now.lock.Unlocked?
  {
    RunKeepsInv(START, before, s);
    actions, now := [], s;
    if s.deinit.Joining? {
      actions, now := CanReturn(s);
    }
    if now.lock.Reaping? {
      var more, later := CanRelease(now);
      RunsOn(s, actions, now, more, later);
      actions, now := actions + more, later;
    }
    var tracking, tracked := CanTrackAll(now);
    RunsOn(s, actions, now, tracking, tracked);
    NextKeepsInv(tracked, Swap);
    var joining, joined := CanReturn(Next(tracked, Swap));
    RunsStep(tracked, Swap, joining, joined);
    RunsOn(s, actions + tracking, tracked, [Swap] + joining, joined);
    actions, now := (actions + tracking) + ([Swap] + joining), joined;
  }
}
