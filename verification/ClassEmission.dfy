/**
  The order in which the generated C++ API declares the engine's classes: every parent before its
  children (src/sandbox_generated_api.cpp:448-554). Emitting a class is appending its name.
 */
module ClassEmission {

  /**
    What the class database and the project settings say, fixed while the API is generated; and the classes
    that count as declared from the start, whichever they are.
   */
  datatype Registry = Registry(given: set<string>, classes: seq<string>, parentOf: string -> string, skipped: string -> bool)

  /** Classes the hand-written part of the API already declares, and one that is not wanted. */
  const PRE_EMITTED := {"Object", "Node", "CanvasItem", "Node2D", "Node3D", "ClassDB"}

  // ----- What has to come out

  /** A class that is declared once its parent is. */
  predicate Eligible(r: Registry, name: string) { name in r.classes && !r.skipped(name) }

  /** The chain of ancestors from `name` reaches a declared class within `n` steps, through eligible classes only. */
  ghost predicate Grounded(r: Registry, name: string, n: nat)
    decreases n
  {
    name in r.given || (n > 0 && Eligible(r, name) && Grounded(r, r.parentOf(name), n - 1))
  }

  ghost predicate Reachable(r: Registry, name: string) { exists n: nat :: Grounded(r, name, n) }

  /** Each class is eligible and follows its parent. */
  ghost predicate Sound(r: Registry, order: seq<string>) {
    forall i :: 0 <= i < |order| ==>
      && Eligible(r, order[i]) && order[i] !in r.given
      && (r.parentOf(order[i]) in r.given || r.parentOf(order[i]) in order[..i])
  }

  function Declared(r: Registry, order: seq<string>): set<string> { r.given + set i | 0 <= i < |order| :: order[i] }

  /** Nothing eligible is missing whose parent is there. */
  ghost predicate Closed(r: Registry, declared: set<string>) {
    forall name :: name in r.classes && !r.skipped(name) && r.parentOf(name) in declared ==> name in declared
  }

  // ----- The schedule

  /** The classes waiting for one parent; the map from parents to these keeps the order of insertion. */
  datatype Waiting = Waiting(parent: string, names: seq<string>)

  function Flat(ws: seq<Waiting>): multiset<string> {
    if ws == [] then multiset{} else Flat(ws[..|ws| - 1]) + multiset(ws[|ws| - 1].names)
  }

  lemma {:induction false} FlatReplace(ws: seq<Waiting>, k: nat, w: Waiting)
    requires k < |ws|
    ensures Flat(ws[k := w]) + multiset(ws[k].names) == Flat(ws) + multiset(w.names)
  {
    var front, last := ws[..|ws| - 1], multiset(ws[|ws| - 1].names);
    if k < |front| {
      FlatReplace(front, k, w);
      assert ws[k := w][..|ws| - 1] == front[k := w];
      SameSum(Flat(front[k := w]), multiset(ws[k].names), Flat(front), multiset(w.names), last);
    } else {
      assert ws[k := w][..|ws| - 1] == front;
      SameSum(Flat(front), last, Flat(front), last, multiset(w.names));
    }
  }

  lemma SameSum(a: multiset<string>, b: multiset<string>, c: multiset<string>, d: multiset<string>, last: multiset<string>)
    requires a + b == c + d
    ensures (a + last) + b == (c + last) + d
  {
    assert (a + last) + b == (a + b) + last;
    assert (c + last) + d == (c + d) + last;
  }

  lemma {:induction false} FlatRemove(ws: seq<Waiting>, k: nat)
    requires k < |ws|
    ensures Flat(ws[..k] + ws[k + 1..]) + multiset(ws[k].names) == Flat(ws)
  {
    var rest, front := ws[..k] + ws[k + 1..], ws[..|ws| - 1];
    if k < |front| {
      FlatRemove(front, k);
      RestOfFront(ws, k);
      SameSum(Flat(front[..k] + front[k + 1..]), multiset(ws[k].names), Flat(front), multiset{}, multiset(ws[|ws| - 1].names));
    } else {
      assert rest == front;
    }
  }

  lemma RestOfFront(ws: seq<Waiting>, k: nat)
    requires k < |ws| - 1
    ensures var rest, front := ws[..k] + ws[k + 1..], ws[..|ws| - 1];
      && |rest| > 0 && rest[|rest| - 1] == ws[|ws| - 1] && rest[..|rest| - 1] == front[..k] + front[k + 1..]
  {
    var front := ws[..|ws| - 1];
    assert front[k + 1..] == ws[k + 1..|ws| - 1];
  }

  lemma FlatPush(ws: seq<Waiting>, w: Waiting)
    ensures Flat(ws + [w]) == Flat(ws) + multiset(w.names)
  {
    assert (ws + [w])[..|ws|] == ws;
  }

  /** Whoever waits is eligible, not declared from the start, and waits for its own parent. */
  ghost predicate WaitsFor(r: Registry, names: seq<string>, parent: string) {
    forall i :: 0 <= i < |names| ==> Eligible(r, names[i]) && names[i] !in r.given && r.parentOf(names[i]) == parent
  }

  ghost predicate WaitsRightly(r: Registry, ws: seq<Waiting>) {
    && (forall k :: 0 <= k < |ws| ==> WaitsFor(r, ws[k].names, ws[k].parent))
    && forall k, l :: 0 <= k < l < |ws| ==> ws[k].parent != ws[l].parent
  }

  ghost predicate Waits(ws: seq<Waiting>, name: string) {
    exists k :: 0 <= k < |ws| && name in ws[k].names
  }

  method FindWaiting(ws: seq<Waiting>, parent: string) returns (k: nat)
    ensures k <= |ws|
    ensures k < |ws| ==> ws[k].parent == parent
    ensures k == |ws| ==> forall l :: 0 <= l < |ws| ==> ws[l].parent != parent
  {
    k := 0;
    while k < |ws| && ws[k].parent != parent
      invariant k <= |ws|
      invariant forall l :: 0 <= l < k ==> ws[l].parent != parent
    {
      k := k + 1;
    }
  }

  /** `waiting->push_back(class_name)`, with an entry for the parent made first if there is none. */
  method Defer(r: Registry, ws: seq<Waiting>, name: string) returns (now: seq<Waiting>)
    requires WaitsRightly(r, ws) && Eligible(r, name) && name !in r.given
    ensures WaitsRightly(r, now)
    ensures Flat(now) == Flat(ws) + multiset{name}
    ensures Waits(now, name)
    ensures forall other :: Waits(ws, other) ==> Waits(now, other)
  {
    var parent := r.parentOf(name);
    now := ws;
    var k := FindWaiting(now, parent);
    if k == |now| {
      OpenedRightly(r, now, parent);
      OpenedFlat(now, parent);
      now := now + [Waiting(parent, [])];
      StillWaiting(ws, now);
    }
    var w := now[k].(names := now[k].names + [name]);
    FlatReplace(now, k, w);
    FlatOneMore(Flat(now), Flat(now[k := w]), now[k].names, name);
    JoinedRightly(r, now, k, name);
    StillWaiting(now, now[k := w]);
    now := now[k := w];
    assert name in now[k].names;
  }

  lemma FlatOneMore(before: multiset<string>, now: multiset<string>, names: seq<string>, name: string)
    requires now + multiset(names) == before + multiset(names + [name])
    ensures now == before + multiset{name}
  {
    assert multiset(names + [name]) == multiset(names) + multiset{name};
    forall x ensures now[x] == (before + multiset{name})[x] {
      assert (now + multiset(names))[x] == (before + multiset(names + [name]))[x];
    }
  }

  lemma JoinedRightly(r: Registry, ws: seq<Waiting>, k: nat, name: string)
    requires WaitsRightly(r, ws) && k < |ws| && Eligible(r, name) && name !in r.given && r.parentOf(name) == ws[k].parent
    ensures WaitsRightly(r, ws[k := ws[k].(names := ws[k].names + [name])])
  {
  }

  lemma OpenedRightly(r: Registry, ws: seq<Waiting>, parent: string)
    requires WaitsRightly(r, ws) && forall l :: 0 <= l < |ws| ==> ws[l].parent != parent
    ensures WaitsRightly(r, ws + [Waiting(parent, [])])
  {
  }

  lemma OpenedFlat(ws: seq<Waiting>, parent: string)
    ensures Flat(ws + [Waiting(parent, [])]) == Flat(ws)
  {
    FlatPush(ws, Waiting(parent, []));
  }

  lemma StillWaiting(ws: seq<Waiting>, now: seq<Waiting>)
    requires |ws| <= |now| && forall k :: 0 <= k < |ws| ==> ws[k].names <= now[k].names
    ensures forall other :: Waits(ws, other) ==> Waits(now, other)
  {
    forall other | Waits(ws, other) ensures Waits(now, other) {
      var k :| 0 <= k < |ws| && other in ws[k].names;
      assert other in now[k].names;
    }
  }

  /** Emitting all that waits for a parent that is declared. */
  method EmitAll(r: Registry, order: seq<string>, names: seq<string>, parent: string) returns (now: seq<string>)
    requires Sound(r, order) && parent in Declared(r, order) && WaitsFor(r, names, parent)
    ensures Sound(r, now) && now == order + names
  {
    EmittedSound(r, order, names, parent);
    now := order;
    for i := 0 to |names|
      invariant now == order + names[..i]
    {
      OneMore(order, names, i);
      now := now + [names[i]];
    }
    assert names[..|names|] == names;
  }

  lemma OneMore(order: seq<string>, names: seq<string>, i: nat)
    requires i < |names|
    ensures (order + names[..i]) + [names[i]] == order + names[..i + 1]
  {
  }

  lemma {:induction false} EmittedSound(r: Registry, order: seq<string>, names: seq<string>, parent: string)
    requires Sound(r, order) && parent in Declared(r, order) && WaitsFor(r, names, parent)
    ensures Sound(r, order + names)
  {
    if names == [] {
      assert order + names == order;
    } else {
      var front, last := names[..|names| - 1], names[|names| - 1];
      EmittedSound(r, order, front, parent);
      assert parent in r.given || parent in order + front by {
        if parent !in r.given {
          var j :| 0 <= j < |order| && order[j] == parent;
          assert (order + front)[j] == parent;
        }
      }
      assert WaitsFor(r, names, parent);
      SoundPush(r, order + front, last);
      OneMore(order, names, |names| - 1);
      assert names[..|names|] == names;
    }
  }

  lemma SoundPush(r: Registry, order: seq<string>, name: string)
    requires Sound(r, order) && Eligible(r, name) && name !in r.given
    requires r.parentOf(name) in r.given || r.parentOf(name) in order
    ensures Sound(r, order + [name])
  {
    var now := order + [name];
    forall i | 0 <= i < |now|
      ensures Eligible(r, now[i]) && now[i] !in r.given
      ensures r.parentOf(now[i]) in r.given || r.parentOf(now[i]) in now[..i]
    {
      assert now[..i] == order[..i];
    }
  }

  /** Each class seen so far is skipped, declared or waiting. */
  ghost predicate Covered(r: Registry, seen: seq<string>, order: seq<string>, ws: seq<Waiting>) {
    forall name :: name in seen ==> r.skipped(name) || name in Declared(r, order) || Waits(ws, name)
  }

  /** What holds between any two iterations of either loop, the first `n` classes having been looked at. */
  ghost predicate Progress(r: Registry, n: nat, order: seq<string>, ws: seq<Waiting>)
    requires n <= |r.classes|
  {
    && Sound(r, order) && WaitsRightly(r, ws) && Covered(r, r.classes[..n], order, ws)
    && multiset(order) + Flat(ws) <= multiset(r.classes[..n])
  }

  /** The first pass: a class is declared if its parent is, and waits for it otherwise. */
  method FirstPass(r: Registry) returns (order: seq<string>, emitted: set<string>, waiting: seq<Waiting>)
    ensures emitted == Declared(r, order) && Progress(r, |r.classes|, order, waiting)
  {
    order, emitted, waiting := [], r.given, [];
    for i := 0 to |r.classes|
      invariant emitted == Declared(r, order) && Progress(r, i, order, waiting)
    {
      var name := r.classes[i];
      if name in emitted || r.skipped(name) {
        PassedOver(r, i, order, waiting);
        continue;
      }
      if r.parentOf(name) !in emitted {
        ghost var before := waiting;
        waiting := Defer(r, waiting, name);
        Deferred(r, i, order, before, waiting);
        continue;
      }
      Emitted(r, i, order, waiting);
      order := order + [name];
      emitted := emitted + {name};
    }
  }

  lemma SeenPush(classes: seq<string>, i: nat)
    requires i < |classes|
    ensures classes[..i + 1] == classes[..i] + [classes[i]]
    ensures multiset(classes[..i + 1]) == multiset(classes[..i]) + multiset{classes[i]}
  {
    assert classes[..i + 1] == classes[..i] + [classes[i]];
  }

  /** The three ways through the body of the first loop. */
  lemma PassedOver(r: Registry, i: nat, order: seq<string>, ws: seq<Waiting>)
    requires i < |r.classes| && Progress(r, i, order, ws)
    requires r.classes[i] in Declared(r, order) || r.skipped(r.classes[i])
    ensures Progress(r, i + 1, order, ws)
  {
    SeenPush(r.classes, i);
  }

  lemma Deferred(r: Registry, i: nat, order: seq<string>, ws: seq<Waiting>, now: seq<Waiting>)
    requires i < |r.classes| && Progress(r, i, order, ws)
    requires WaitsRightly(r, now) && Flat(now) == Flat(ws) + multiset{r.classes[i]}
    requires Waits(now, r.classes[i]) && forall other :: Waits(ws, other) ==> Waits(now, other)
    ensures Progress(r, i + 1, order, now)
  {
    SeenPush(r.classes, i);
    OneMoreSeen(multiset(order), Flat(ws), multiset(r.classes[..i]), r.classes[i]);
  }

  lemma Emitted(r: Registry, i: nat, order: seq<string>, ws: seq<Waiting>)
    requires i < |r.classes| && Progress(r, i, order, ws)
    requires r.classes[i] !in r.given && !r.skipped(r.classes[i]) && r.parentOf(r.classes[i]) in Declared(r, order)
    ensures Progress(r, i + 1, order + [r.classes[i]], ws)
    ensures Declared(r, order + [r.classes[i]]) == Declared(r, order) + {r.classes[i]}
  {
    var name := r.classes[i];
    SeenPush(r.classes, i);
    SoundPush(r, order, name);
    DeclaredConcat(r, order, [name]);
    assert (set j | 0 <= j < |[name]| :: [name][j]) == {name};
    OneMoreSeen(multiset(order), Flat(ws), multiset(r.classes[..i]), name);
    assert multiset(order + [name]) == multiset(order) + multiset{name};
  }

  lemma OneMoreSeen(order: multiset<string>, flat: multiset<string>, seen: multiset<string>, name: string)
    requires order + flat <= seen
    ensures order + (flat + multiset{name}) <= seen + multiset{name}
    ensures (order + multiset{name}) + flat <= seen + multiset{name}
  {
    assert order + (flat + multiset{name}) == (order + flat) + multiset{name};
    assert (order + multiset{name}) + flat == (order + flat) + multiset{name};
  }

  /** The first entry whose parent is declared, or the end. */
  method FindReady(ws: seq<Waiting>, emitted: set<string>) returns (k: nat)
    ensures k <= |ws|
    ensures k < |ws| ==> ws[k].parent in emitted
    ensures k == |ws| ==> forall l :: 0 <= l < |ws| ==> ws[l].parent !in emitted
  {
    k := 0;
    while k < |ws| && ws[k].parent !in emitted
      invariant k <= |ws|
      invariant forall l :: 0 <= l < k ==> ws[l].parent !in emitted
    {
      k := k + 1;
    }
  }

  /**
    The class part of `generate_runtime_cpp_api`, for any set of classes declared from the start: everything
    emitted follows its parent, nothing eligible whose parent is declared is missing, and nothing is emitted
    more often than it is listed.
   */
  method GenerateOrder(r: Registry) returns (order: seq<string>)
    ensures Sound(r, order)
    ensures Closed(r, Declared(r, order))
    ensures multiset(order) <= multiset(r.classes)
  {
    var emitted, waiting;
    order, emitted, waiting := FirstPass(r);
    while waiting != []
      invariant emitted == Declared(r, order) && Progress(r, |r.classes|, order, waiting)
      decreases |waiting|
    {
      var initial := |waiting|;
      var k := FindReady(waiting, emitted);
      if k < |waiting| {
        var w := waiting[k];
        ReadyEntry(r, order, waiting, k);
        DeclaredConcat(r, order, w.names);
        ProgressAfter(r, order, waiting, k);
        order := EmitAll(r, order, w.names, w.parent);
        emitted := emitted + set j | 0 <= j < |w.names| :: w.names[j];
        waiting := waiting[..k] + waiting[k + 1..];
      }
      if |waiting| == initial {
        break;
      }
    }
    AtEnd(r, order, waiting);
  }

  lemma ReadyEntry(r: Registry, order: seq<string>, ws: seq<Waiting>, k: nat)
    requires Progress(r, |r.classes|, order, ws) && k < |ws|
    ensures Sound(r, order) && WaitsFor(r, ws[k].names, ws[k].parent)
  {
  }

  /** One round of the second loop. */
  lemma ProgressAfter(r: Registry, order: seq<string>, ws: seq<Waiting>, k: nat)
    requires Progress(r, |r.classes|, order, ws) && k < |ws| && ws[k].parent in Declared(r, order)
    ensures Progress(r, |r.classes|, order + ws[k].names, ws[..k] + ws[k + 1..])
  {
    var names, rest := ws[k].names, ws[..k] + ws[k + 1..];
    EmittedSound(r, order, names, ws[k].parent);
    StillRightly(r, ws, k);
    CoveredAfter(r, order, names, ws, k);
    FlatRemove(ws, k);
    MovedOver(multiset(order), multiset(names), Flat(rest), Flat(ws), multiset(r.classes[..|r.classes|]));
    assert multiset(order + names) == multiset(order) + multiset(names);
  }

  lemma MovedOver(order: multiset<string>, names: multiset<string>, rest: multiset<string>, flat: multiset<string>, seen: multiset<string>)
    requires rest + names == flat && order + flat <= seen
    ensures (order + names) + rest <= seen
  {
    assert (order + names) + rest == order + (rest + names);
  }

  lemma StillRightly(r: Registry, ws: seq<Waiting>, k: nat)
    requires WaitsRightly(r, ws) && k < |ws|
    ensures WaitsRightly(r, ws[..k] + ws[k + 1..])
  {
    var rest := ws[..k] + ws[k + 1..];
    assert forall l :: 0 <= l < |rest| ==> rest[l] == ws[if l < k then l else l + 1];
  }

  lemma DeclaredConcat(r: Registry, order: seq<string>, names: seq<string>)
    ensures Declared(r, order + names) == Declared(r, order) + set j | 0 <= j < |names| :: names[j]
  {
    forall name | name in Declared(r, order) + (set j | 0 <= j < |names| :: names[j])
      ensures name in Declared(r, order + names)
    {
      if name !in r.given {
        if name in Declared(r, order) {
          var j :| 0 <= j < |order| && order[j] == name;
          assert (order + names)[j] == name;
        } else {
          var j :| 0 <= j < |names| && names[j] == name;
          assert (order + names)[|order| + j] == name;
        }
      }
    }
  }

  lemma CoveredAfter(r: Registry, order: seq<string>, names: seq<string>, ws: seq<Waiting>, k: nat)
    requires Covered(r, r.classes[..|r.classes|], order, ws) && k < |ws| && names == ws[k].names
    ensures Covered(r, r.classes[..|r.classes|], order + names, ws[..k] + ws[k + 1..])
  {
    var rest := ws[..k] + ws[k + 1..];
    DeclaredConcat(r, order, names);
    forall name | name in r.classes
      ensures r.skipped(name) || name in Declared(r, order + names) || Waits(rest, name)
    {
      if !r.skipped(name) && name !in Declared(r, order + names) {
        assert r.classes[..|r.classes|] == r.classes;
        var l :| 0 <= l < |ws| && name in ws[l].names;
        assert l != k;
        assert rest[if l < k then l else l - 1] == ws[l];
      }
    }
  }

  /** When the second loop stops: nobody waits, or nobody for a parent that is declared. */
  lemma AtEnd(r: Registry, order: seq<string>, ws: seq<Waiting>)
    requires Progress(r, |r.classes|, order, ws)
    requires forall l :: 0 <= l < |ws| ==> ws[l].parent !in Declared(r, order)
    ensures Sound(r, order) && Closed(r, Declared(r, order)) && multiset(order) <= multiset(r.classes)
  {
    assert r.classes[..|r.classes|] == r.classes;
    forall name | name in r.classes && !r.skipped(name) && r.parentOf(name) in Declared(r, order)
      ensures name in Declared(r, order)
    {
      WaitsForParent(r, ws, name);
    }
  }

  lemma WaitsForParent(r: Registry, ws: seq<Waiting>, name: string)
    requires WaitsRightly(r, ws)
    ensures Waits(ws, name) ==> exists k :: 0 <= k < |ws| && ws[k].parent == r.parentOf(name)
  {
    if Waits(ws, name) {
      var k :| 0 <= k < |ws| && name in ws[k].names;
      assert ws[k].parent == r.parentOf(name);
    }
  }

  // ----- What the contract of GenerateOrder amounts to

  lemma {:induction false} SoundIsGrounded(r: Registry, order: seq<string>, i: nat)
    requires Sound(r, order) && i < |order|
    ensures Reachable(r, order[i])
  {
    var parent := r.parentOf(order[i]);
    if parent in r.given {
      assert Grounded(r, parent, 0);
      assert Grounded(r, order[i], 1);
    } else {
      var j :| 0 <= j < i && order[j] == parent;
      SoundIsGrounded(r, order, j);
      var n: nat :| Grounded(r, order[j], n);
      assert Grounded(r, order[i], n + 1);
    }
  }

  lemma {:induction false} GroundedIsDeclared(r: Registry, declared: set<string>, name: string, n: nat)
    requires r.given <= declared && Closed(r, declared) && Grounded(r, name, n)
    ensures name in declared
    decreases n
  {
    if name !in r.given {
      GroundedIsDeclared(r, declared, r.parentOf(name), n - 1);
    }
  }

  lemma DeclaredIsGrounded(r: Registry, order: seq<string>, name: string) returns (n: nat)
    requires Sound(r, order) && name in Declared(r, order)
    ensures Grounded(r, name, n)
  {
    if name in r.given {
      n := 0;
    } else {
      var i :| 0 <= i < |order| && order[i] == name;
      SoundIsGrounded(r, order, i);
      n :| Grounded(r, order[i], n);
    }
  }

  /**
    The least fixed point: a class ends up declared exactly when its chain of ancestors reaches one
    declared by hand through listed classes that are not skipped.
   */
  lemma DeclaredExactly(r: Registry, order: seq<string>, name: string)
    requires Sound(r, order) && Closed(r, Declared(r, order))
    ensures name in Declared(r, order) <==> Reachable(r, name)
  {
    if name in Declared(r, order) {
      var n := DeclaredIsGrounded(r, order, name);
      assert Grounded(r, name, n);
    }
    if Reachable(r, name) {
      var n: nat :| Grounded(r, name, n);
      GroundedIsDeclared(r, Declared(r, order), name, n);
    }
  }

  /** What is declared is contained in every set that is closed, so no smaller schedule would do. */
  lemma DeclaredIsLeast(r: Registry, order: seq<string>, closed: set<string>)
    requires Sound(r, order) && r.given <= closed && Closed(r, closed)
    ensures Declared(r, order) <= closed
  {
    forall i | 0 <= i < |order| ensures order[i] in closed {
      SoundIsGrounded(r, order, i);
      var n: nat :| Grounded(r, order[i], n);
      GroundedIsDeclared(r, closed, order[i], n);
    }
  }

  /** A class list without repetitions gives an order without repetitions. */
  lemma EmittedOnce(r: Registry, order: seq<string>, i: nat, j: nat)
    requires multiset(order) <= multiset(r.classes) && i < j < |order|
    requires forall k, l :: 0 <= k < l < |r.classes| ==> r.classes[k] != r.classes[l]
    ensures order[i] != order[j]
  {
    if order[i] == order[j] {
      TwiceInSequence(order, i, j);
      OnceInSequence(r.classes, order[i]);
      assert false;
    }
  }

  lemma TwiceInSequence(s: seq<string>, i: nat, j: nat)
    requires i < j < |s| && s[i] == s[j]
    ensures multiset(s)[s[i]] >= 2
  {
    assert s == s[..j] + [s[j]] + s[j + 1..];
    assert s[i] in s[..j];
  }

  lemma {:induction false} OnceInSequence(s: seq<string>, x: string)
    requires forall k, l :: 0 <= k < l < |s| ==> s[k] != s[l]
    ensures multiset(s)[x] <= 1
  {
    if s != [] {
      var front := s[..|s| - 1];
      OnceInSequence(front, x);
      assert s == front + [s[|s| - 1]];
      if s[|s| - 1] == x {
        assert x !in front;
      }
    }
  }

  /** And with the classes that the hand-written part declares: the least fixed point over these, in an order that can be compiled. */
  method GenerateRuntimeCppApi(classes: seq<string>, parentOf: string -> string, skipped: string -> bool)
    returns (order: seq<string>)
    ensures var r := Registry(PRE_EMITTED, classes, parentOf, skipped);
      && Sound(r, order) && multiset(order) <= multiset(classes)
      && forall name :: name in Declared(r, order) <==> Reachable(r, name)
  {
    var r := Registry(PRE_EMITTED, classes, parentOf, skipped);
    order := GenerateOrder(r);
    forall name ensures name in Declared(r, order) <==> Reachable(r, name) {
      DeclaredExactly(r, order, name);
    }
  }
}
