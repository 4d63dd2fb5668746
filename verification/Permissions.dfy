/**
  What a guest may reach: the allow-list of objects, kept by an id that is never reused beside an
  address that is, and the restriction callbacks, which a running call may tighten but not loosen
  (src/sandbox_restrictions.cpp, src/sandbox.h:447-547, 952-970, src/sandbox_syscalls.cpp:32-59).
 */
module Permissions {
  import opened Basics

  // ----- The engine

  type Id = nat
  type Address = nat

  datatype EngineObject = EngineObject(address: Address, refCounted: bool)

  /** Every object there ever was, and which of them still exist. Id 0 and address 0 are never given out. */
  datatype Engine = Engine(born: map<Id, EngineObject>, live: set<Id>)

  ghost predicate EngineInv(e: Engine) {
    && e.live <= e.born.Keys && 0 !in e.born
    && (forall id :: id in e.born ==> e.born[id].address != 0)
    && forall a, b :: a in e.live && b in e.live && e.born[a].address == e.born[b].address ==> a == b
  }

  predicate LiveAt(e: Engine, id: Id, address: Address) {
    id in e.live && id in e.born && e.born[id].address == address
  }

  // ----- The sandbox

  /** A restriction callback: not valid, the one that refuses everything, or the host's own. */
  datatype Callback<!Q> = Unset | Restrictive | Asks(answer: Q -> bool)

  /** What a callback answers; without a valid one everything is allowed. */
  function Answer<Q>(cb: Callback<Q>, q: Q): bool {
    match cb
    case Unset => true
    case Restrictive => false
    case Asks(answer) => answer(q)
  }

  datatype Method = Method(on: Id, name: string)
  datatype Property = Property(on: Id, name: string, isSet: bool)

  datatype Rules = Rules(
    classes: Callback<string>,
    objects: Callback<Id>,
    methods: Callback<Method>,
    properties: Callback<Property>,
    resources: Callback<string>,
    allowed: map<Id, Address>,
    refs: set<Id>)

  datatype World = World(engine: Engine, rules: Rules, depth: nat)

  predicate InVmCall(w: World) { w.depth != 0 }

  function GetRestrictions(r: Rules): bool {
    !r.classes.Unset? && !r.objects.Unset? && !r.methods.Unset? && !r.properties.Unset? && !r.resources.Unset?
  }

  /** `is_explicitly_allowed_object`: on the list, or let in by a callback. */
  function IsExplicitlyAllowed(r: Rules, id: Id): bool {
    id in r.allowed || (!r.objects.Unset? && Answer(r.objects, id))
  }

  /** `is_allowed_object`: an empty list without a callback allows everything. */
  function IsAllowedObject(r: Rules, id: Id): bool {
    (r.allowed == map[] && r.objects.Unset?) || IsExplicitlyAllowed(r, id)
  }

  // ----- Operations

  function OrRestrictive<Q>(cb: Callback<Q>): Callback<Q> { if cb.Unset? then Restrictive else cb }

  function SetRestrictions(w: World, enable: bool): World {
    var r := w.rules;
    if enable then
      w.(rules := r.(classes := OrRestrictive(r.classes), objects := OrRestrictive(r.objects),
                     methods := OrRestrictive(r.methods), properties := OrRestrictive(r.properties),
                     resources := OrRestrictive(r.resources)))
    else if InVmCall(w) then w
    else w.(rules := r.(classes := Unset, objects := Unset, methods := Unset, properties := Unset, resources := Unset))
  }

  /** `add_allowed_object`; no id stands for a null object or one without an engine instance. */
  function AddAllowed(w: World, target: Option<Id>): World
    requires target.Some? ==> target.value in w.engine.born
  {
    if InVmCall(w) || target.None? then w
    else
      var id, o := target.value, w.engine.born[target.value];
      w.(rules := w.rules.(allowed := w.rules.allowed[id := o.address],
                           refs := if o.refCounted then w.rules.refs + {id} else w.rules.refs))
  }

  function RemoveAllowed(w: World, target: Option<Id>): World {
    if target.None? then w
    else w.(rules := w.rules.(allowed := w.rules.allowed - {target.value}, refs := w.rules.refs - {target.value}))
  }

  function ClearAllowed(w: World): World {
    if InVmCall(w) then w else w.(rules := w.rules.(allowed := map[], refs := {}))
  }

  datatype Op =
    | Restrict(enable: bool)
    | AddObject(target: Option<Id>)
    | RemoveObject(target: Option<Id>)
    | ClearObjects
    | ObjectCallback(objects: Callback<Id>)
    | ClassCallback(classes: Callback<string>)
    | MethodCallback(methods: Callback<Method>)
    | PropertyCallback(properties: Callback<Property>)
    | ResourceCallback(resources: Callback<string>)
    | Allocate(id: Id, address: Address, refCounted: bool)
    | Free(id: Id)
    | EnterCall
    | LeaveCall

  /**
    What the engine allows: a new object has an id never used before and an address no live object has;
    a counted object is not freed while a reference to it is held; the host passes objects that exist.
   */
  predicate Possible(w: World, op: Op) {
    match op
    case Allocate(id, address, _) =>
      id != 0 && address != 0 && id !in w.engine.born
      && forall other :: other in w.engine.live && other in w.engine.born ==> w.engine.born[other].address != address
    case Free(id) => id in w.engine.live && id !in w.rules.refs
    case AddObject(target) => target.Some? ==> target.value in w.engine.live && target.value in w.engine.born
    case LeaveCall => w.depth > 0
    case _ => true
  }

  function Do(w: World, op: Op): World
    requires Possible(w, op)
  {
    match op
    case Restrict(enable) => SetRestrictions(w, enable)
    case AddObject(target) => AddAllowed(w, target)
    case RemoveObject(target) => RemoveAllowed(w, target)
    case ClearObjects => ClearAllowed(w)
    case ObjectCallback(cb) => if InVmCall(w) then w else w.(rules := w.rules.(objects := cb))
    case ClassCallback(cb) => if InVmCall(w) then w else w.(rules := w.rules.(classes := cb))
    case MethodCallback(cb) => if InVmCall(w) then w else w.(rules := w.rules.(methods := cb))
    case PropertyCallback(cb) => if InVmCall(w) then w else w.(rules := w.rules.(properties := cb))
    case ResourceCallback(cb) => if InVmCall(w) then w else w.(rules := w.rules.(resources := cb))
    case Allocate(id, address, refCounted) =>
      w.(engine := Engine(w.engine.born[id := EngineObject(address, refCounted)], w.engine.live + {id}))
    case Free(id) => w.(engine := w.engine.(live := w.engine.live - {id}))
    case EnterCall => w.(depth := w.depth + 1)
    case LeaveCall => w.(depth := w.depth - 1)
  }

  /** `now` is reached from `w` by these operations. */
  ghost predicate Runs(w: World, ops: seq<Op>, now: World)
    decreases ops
  {
    if ops == [] then now == w
    else Possible(w, ops[0]) && Runs(Do(w, ops[0]), ops[1..], now)
  }

  /** How many calls the operations enter and do not leave again. */
  function Balance(ops: seq<Op>): int {
    if ops == [] then 0
    else (if ops[0].EnterCall? then 1 else if ops[0].LeaveCall? then -1 else 0) + Balance(ops[1..])
  }

  /** A call is running exactly while not all that were entered have been left. */
  lemma {:induction false} DepthCounts(w: World, ops: seq<Op>, now: World)
    requires Runs(w, ops, now)
    ensures now.depth == w.depth + Balance(ops)
    ensures InVmCall(now) <==> w.depth + Balance(ops) > 0
    decreases ops
  {
    if ops != [] {
      DepthCounts(Do(w, ops[0]), ops[1..], now);
    }
  }

  // ----- What the callbacks decide

  /** Answered as the host's callback `cb` answers: nothing is refused without one. */
  ghost predicate AnswersFor<Q(!new)>(cb: Callback<Q>, now: Callback<Q>) {
    forall q: Q :: Answer(now, q) <==> cb.Unset? || (cb.Asks? && cb.answer(q))
  }

  /** Answered as it does, but everything is refused without one. */
  ghost predicate RefusesUnless<Q(!new)>(cb: Callback<Q>, now: Callback<Q>) {
    forall q: Q :: Answer(now, q) <==> cb.Asks? && cb.answer(q)
  }

  /** Restrictions are off: every class, method, property and resource is allowed, and of objects those on a list that is not empty. */
  ghost predicate Unrestricted(r: Rules) {
    && AnswersFor(Unset, r.classes) && AnswersFor(Unset, r.methods)
    && AnswersFor(Unset, r.properties) && AnswersFor(Unset, r.resources)
    && forall id :: IsAllowedObject(r, id) <==> r.allowed == map[] || id in r.allowed
  }

  /** Restrictions are on over the host's callbacks: what none of these allows, nor for objects the list, is refused. */
  ghost predicate RestrictedOver(r: Rules, now: Rules) {
    && RefusesUnless(r.classes, now.classes) && RefusesUnless(r.methods, now.methods)
    && RefusesUnless(r.properties, now.properties) && RefusesUnless(r.resources, now.resources)
    && forall id :: IsAllowedObject(now, id) <==> id in r.allowed || (r.objects.Asks? && r.objects.answer(id))
  }

  /** What `set_restrictions` comes to for every question: on, it takes effect at any time; off, only outside a call. */
  lemma RestrictDecides(w: World, enable: bool)
    ensures var now := SetRestrictions(w, enable).rules;
      && now.allowed == w.rules.allowed
      && (enable ==> RestrictedOver(w.rules, now))
      && (!enable && !InVmCall(w) ==> Unrestricted(now))
      && (!enable && InVmCall(w) ==> now == w.rules)
  {
  }

  /** An object is allowed by the list or by the callback set last, and by an empty list where there is none. */
  lemma ObjectCallbackDecides(w: World, cb: Callback<Id>, id: Id)
    requires !InVmCall(w)
    ensures IsAllowedObject(Do(w, ObjectCallback(cb)).rules, id) <==>
      id in w.rules.allowed || (cb.Asks? && cb.answer(id)) || (cb.Unset? && w.rules.allowed == map[])
  {
  }

  // ----- The allow-list survives address reuse

  /** An entry has the address its object had; a counted one is held, and so exists. */
  ghost predicate ListInv(w: World) {
    && EngineInv(w.engine)
    && (forall id :: id in w.rules.allowed ==>
          id in w.engine.born && w.rules.allowed[id] == w.engine.born[id].address
          && (w.engine.born[id].refCounted ==> id in w.rules.refs))
    && (forall id :: id in w.rules.refs ==> id in w.engine.live && id in w.rules.allowed)
  }

  lemma DoKeepsList(w: World, op: Op)
    requires ListInv(w) && Possible(w, op)
    ensures ListInv(Do(w, op))
  {
  }

  lemma {:induction false} RunKeepsList(w: World, ops: seq<Op>, now: World)
    requires ListInv(w) && Runs(w, ops, now)
    ensures ListInv(now)
    decreases ops
  {
    if ops != [] {
      DoKeepsList(w, ops[0]);
      RunKeepsList(Do(w, ops[0]), ops[1..], now);
    }
  }

  const START := World(Engine(map[], {}), Rules(Unset, Unset, Unset, Unset, Unset, map[], {}), 0)

  /** The object the list lets a guest reach at an address: one that is there now and is on the list by its id. */
  predicate Reachable(w: World, address: Address, id: Id) { LiveAt(w.engine, id, address) && id in w.rules.allowed }

  /** Over every run an entry of a counted object names an object that exists, at the address on the list. */
  lemma CountedEntriesLive(ops: seq<Op>, now: World, id: Id)
    requires Runs(START, ops, now) && id in now.rules.allowed
    ensures id in now.engine.born
    ensures now.engine.born[id].refCounted ==> Reachable(now, now.rules.allowed[id], id)
  {
    RunKeepsList(START, ops, now);
  }

  /**
    `get_explicitly_allowed_object`: whatever order the map is walked in, the answer is the object that
    occupies the address and is on the list by its id, and null when there is none; entries of freed
    objects that had the address before do not matter.
   */
  method GetExplicitlyAllowedObject(w: World, address: Address) returns (found: Option<Id>)
    requires ListInv(w)
    ensures found.Some? ==> Reachable(w, address, found.value)
    ensures found.None? ==> forall id :: !Reachable(w, address, id)
  {
    if address == 0 {
      return None;
    }
    var left := w.rules.allowed.Keys;
    while left != {}
      invariant left <= w.rules.allowed.Keys
      invariant forall id :: id in w.rules.allowed && id !in left ==> !Reachable(w, address, id)
      decreases left
    {
      var id :| id in left;
      left := left - {id};
      if w.rules.allowed[id] != address {
        continue;
      }
      if id !in w.engine.live || w.engine.born[id].address != address {
        continue;
      }
      return Some(id);
    }
    return None;
  }

  /** What a listed object is not taken off by. */
  predicate Spares(op: Op, id: Id) { op != Free(id) && op != RemoveObject(Some(id)) && op != ClearObjects }

  lemma {:induction false} StaysReachable(w: World, ops: seq<Op>, now: World, address: Address, id: Id)
    requires ListInv(w) && Runs(w, ops, now) && Reachable(w, address, id)
    requires forall k :: 0 <= k < |ops| ==> Spares(ops[k], id)
    ensures Reachable(now, address, id)
    decreases ops
  {
    if ops != [] {
      DoKeepsList(w, ops[0]);
      StaysReachable(Do(w, ops[0]), ops[1..], now, address, id);
    }
  }

  /** The host makes an object, and lists it. */
  function Listed(w: World, made: Op): World
    requires made.Allocate? && Possible(w, made)
  {
    Do(Do(w, made), AddObject(Some(made.id)))
  }

  lemma ListedNow(w: World, made: Op)
    requires ListInv(w) && made.Allocate? && Possible(w, made) && !InVmCall(w)
    ensures ListInv(Listed(w, made)) && Reachable(Listed(w, made), made.address, made.id)
    ensures Listed(w, made).engine.born[made.id] == EngineObject(made.address, made.refCounted)
  {
    DoKeepsList(w, made);
    DoKeepsList(Do(w, made), AddObject(Some(made.id)));
  }

  /**
    An object that is made and listed outside a call is reachable at its address, whatever happens, until it
    is freed, taken off or the list is cleared; and one that is ref-counted cannot be freed before that.
   */
  lemma ListedIsReachable(before: seq<Op>, w: World, made: Op, ops: seq<Op>, now: World)
    requires Runs(START, before, w) && made.Allocate? && Possible(w, made) && !InVmCall(w)
    requires Runs(Listed(w, made), ops, now) && forall k :: 0 <= k < |ops| ==> Spares(ops[k], made.id)
    ensures Reachable(now, made.address, made.id)
    ensures made.refCounted ==> !Possible(now, Free(made.id))
  {
    RunKeepsList(START, before, w);
    ListedNow(w, made);
    RunKeepsList(Listed(w, made), ops, now);
    StaysReachable(Listed(w, made), ops, now, made.address, made.id);
    StaysBorn(Listed(w, made), ops, now, made.id);
  }

  /** What an object is does not change. */
  lemma {:induction false} StaysBorn(w: World, ops: seq<Op>, now: World, id: Id)
    requires Runs(w, ops, now) && id in w.engine.born
    ensures id in now.engine.born && now.engine.born[id] == w.engine.born[id]
    decreases ops
  {
    if ops != [] {
      StaysBorn(Do(w, ops[0]), ops[1..], now, id);
    }
  }

  /** At most one object can be the answer, so the order of the walk cannot be observed. */
  lemma ReachableUnique(ops: seq<Op>, now: World, address: Address, a: Id, b: Id)
    requires Runs(START, ops, now) && Reachable(now, address, a) && Reachable(now, address, b)
    ensures a == b
  {
    RunKeepsList(START, ops, now);
  }

  // ----- Handles

  /** A handle of the call, and the engine's object whose binding is remembered for it, once it has been looked up. */
  datatype ScopedObject = ScopedObject(address: Address, binding: Option<Address>)

  method FindScopedObject(scoped: seq<ScopedObject>, address: Address) returns (k: nat)
    ensures k <= |scoped|
    ensures k < |scoped| ==> scoped[k].address == address
    ensures forall j :: 0 <= j < k ==> scoped[j].address != address
  {
    k := 0;
    while k < |scoped| && scoped[k].address != address
      invariant k <= |scoped| && forall j :: 0 <= j < k ==> scoped[j].address != address
    {
      k := k + 1;
    }
  }

  predicate Scoped(scoped: seq<ScopedObject>, address: Address) {
    exists k :: 0 <= k < |scoped| && scoped[k].address == address
  }

  /** One entry per object, and no binding of another object. */
  predicate Orderly(scoped: seq<ScopedObject>) {
    && (forall j, k :: 0 <= j < k < |scoped| ==> scoped[j].address != scoped[k].address)
    && forall k :: 0 <= k < |scoped| && scoped[k].binding.Some? ==> scoped[k].binding.value == scoped[k].address
  }

  /** The same handles, of which more may be bound now. */
  predicate SameHandles(scoped: seq<ScopedObject>, now: seq<ScopedObject>) {
    |scoped| <= |now| &&
    forall k :: 0 <= k < |scoped| ==>
      now[k].address == scoped[k].address && (scoped[k].binding.Some? ==> now[k].binding == scoped[k].binding)
  }

  /**
    `add_scoped_entry`: an object takes one place per call however often it is handed over, and the
    limit stops exactly a new object that finds no place.
   */
  method AddScopedEntry(scoped: seq<ScopedObject>, maxRefs: nat, address: Address, binding: Option<Address>)
    returns (now: seq<ScopedObject>, isNew: Outcome<bool>)
    requires Orderly(scoped) && |scoped| <= maxRefs && (binding.Some? ==> binding.value == address)
    ensures Orderly(now) && |now| <= maxRefs
    ensures isNew.Thrown? <==> !Scoped(scoped, address) && |scoped| == maxRefs
    ensures isNew.Thrown? ==> now == scoped
    ensures isNew.Returned? ==> forall a :: Scoped(now, a) <==> Scoped(scoped, a) || a == address
    ensures isNew.Returned? ==> (isNew.value <==> !Scoped(scoped, address)) && |now| == |scoped| + if isNew.value then 1 else 0
    ensures SameHandles(scoped, now)
  {
    now := scoped;
    var k := FindScopedObject(scoped, address);
    if k < |scoped| {
      if scoped[k].binding.None? {
        now := scoped[k := ScopedObject(address, binding)];
      }
      forall a ensures Scoped(now, a) <==> Scoped(scoped, a) || a == address {
        if Scoped(scoped, a) {
          var j :| 0 <= j < |scoped| && scoped[j].address == a;
          assert now[j].address == a;
        }
        assert now[k].address == address;
      }
      return now, Returned(false);
    }
    if |scoped| >= maxRefs {
      return now, Thrown;
    }
    now := scoped + [ScopedObject(address, binding)];
    forall a ensures Scoped(now, a) <==> Scoped(scoped, a) || a == address {
      if Scoped(scoped, a) {
        var j :| 0 <= j < |scoped| && scoped[j].address == a;
        assert now[j].address == a;
      }
      assert now[|scoped|].address == address;
    }
    isNew := Returned(true);
  }

  /** `resolve_scoped_object`: the binding of the handle's own object, looked up at its first use. */
  method ResolveScopedObject(scoped: seq<ScopedObject>, k: nat) returns (now: seq<ScopedObject>, bound: Address)
    requires Orderly(scoped) && k < |scoped|
    ensures Orderly(now) && SameHandles(scoped, now) && |now| == |scoped|
    ensures bound == scoped[k].address && now[k].binding == Some(bound)
  {
    now := scoped;
    if now[k].binding.None? {
      now := now[k := ScopedObject(now[k].address, Some(now[k].address))];
    }
    bound := now[k].binding.value;
  }

  /**
    `get_object_from_address`: a handle resolves exactly when the call was given it, or a live object on
    the list is at that address; an empty list lets nothing through here. It resolves to the object the
    handle was given for, never to another.
   */
  method GetObjectFromAddress(w: World, scoped: seq<ScopedObject>, address: Address)
    returns (r: Outcome<Address>, now: seq<ScopedObject>)
    requires ListInv(w) && Orderly(scoped)
    ensures Orderly(now) && SameHandles(scoped, now) && |now| == |scoped|
    ensures r.Returned? <==> address != 0 && (Scoped(scoped, address) || exists id :: Reachable(w, address, id))
    ensures r.Returned? ==> r.value == address
  {
    now := scoped;
    if address == 0 {
      return Thrown, now;
    }
    var k := FindScopedObject(scoped, address);
    if k < |scoped| {
      var bound;
      now, bound := ResolveScopedObject(scoped, k);
      return Returned(bound), now;
    }
    var found := GetExplicitlyAllowedObject(w, address);
    if found.Some? {
      return Returned(w.engine.born[found.value].address), now;
    }
    return Thrown, now;
  }

  // ----- A running call only tightens

  /** Every operation of the run happens inside a call, nested calls included. */
  ghost predicate Inside(w: World, ops: seq<Op>)
    decreases ops
  {
    InVmCall(w) && (ops == [] || (Possible(w, ops[0]) && Inside(Do(w, ops[0]), ops[1..])))
  }

  /** Nothing is allowed by `now` that `r` did not allow, apart from what an emptied list lifts. */
  ghost predicate Tighter(r: Rules, now: Rules) {
    && (GetRestrictions(r) ==> GetRestrictions(now))
    && now.allowed.Keys <= r.allowed.Keys && now.refs <= r.refs
    && (forall id :: id in now.allowed ==> now.allowed[id] == r.allowed[id])
    && (now.objects == r.objects || (r.objects.Unset? && now.objects.Restrictive?))
    && (forall name :: Answer(now.classes, name) ==> Answer(r.classes, name))
    && (forall m :: Answer(now.methods, m) ==> Answer(r.methods, m))
    && (forall p :: Answer(now.properties, p) ==> Answer(r.properties, p))
    && (forall name :: Answer(now.resources, name) ==> Answer(r.resources, name))
  }

  lemma DoTightens(w: World, op: Op)
    requires InVmCall(w) && Possible(w, op)
    ensures Tighter(w.rules, Do(w, op).rules)
  {
  }

  /** Over any run inside a call. */
  lemma {:induction false} RunTightens(w: World, ops: seq<Op>, now: World)
    requires Inside(w, ops) && Runs(w, ops, now)
    ensures Tighter(w.rules, now.rules)
    decreases ops
  {
    if ops != [] {
      DoTightens(w, ops[0]);
      RunTightens(Do(w, ops[0]), ops[1..], now);
    }
  }

  /** An object the guest names itself is never let in by a call that is running. */
  lemma ExplicitOnlyShrinks(w: World, ops: seq<Op>, now: World, id: Id)
    requires Inside(w, ops) && Runs(w, ops, now) && IsExplicitlyAllowed(now.rules, id)
    ensures IsExplicitlyAllowed(w.rules, id)
  {
    RunTightens(w, ops, now);
  }

  /** The list was emptied with no object callback to take its place. */
  predicate ListLifted(before: Rules, now: Rules) {
    before.allowed != map[] && now.allowed == map[] && now.objects.Unset?
  }

  /** Whether the run takes every entry off the list and never sets an object callback: known from where it starts and what it does. */
  ghost predicate EmptiesUnguarded(w: World, ops: seq<Op>) {
    && w.rules.allowed != map[] && w.rules.objects.Unset? && Restrict(true) !in ops
    && forall id :: id in w.rules.allowed ==> RemoveObject(Some(id)) in ops
  }

  /** What is left of the list and of the object callback after a run inside a call. */
  lemma {:induction false} RunLeaves(w: World, ops: seq<Op>, now: World)
    requires Inside(w, ops) && Runs(w, ops, now)
    ensures now.rules.objects.Unset? <==> w.rules.objects.Unset? && Restrict(true) !in ops
    ensures forall id :: id in now.rules.allowed <==> id in w.rules.allowed && RemoveObject(Some(id)) !in ops
    decreases ops
  {
    if ops != [] {
      var op, rest := ops[0], ops[1..];
      assert forall other :: other in ops <==> other == op || other in rest;
      RunLeaves(Do(w, op), rest, now);
      StepLeaves(w, op);
    }
  }

  lemma StepLeaves(w: World, op: Op)
    requires InVmCall(w) && Possible(w, op)
    ensures Do(w, op).rules.objects.Unset? <==> w.rules.objects.Unset? && op != Restrict(true)
    ensures forall id :: id in Do(w, op).rules.allowed <==> id in w.rules.allowed && op != RemoveObject(Some(id))
  {
  }

  lemma ListLiftedExactly(w: World, ops: seq<Op>, now: World)
    requires Inside(w, ops) && Runs(w, ops, now)
    ensures ListLifted(w.rules, now.rules) <==> EmptiesUnguarded(w, ops)
  {
    RunLeaves(w, ops, now);
    if EmptiesUnguarded(w, ops) {
      assert now.rules.allowed.Keys == {};
    }
    if now.rules.allowed == map[] {
      assert forall id :: id in w.rules.allowed ==> id !in now.rules.allowed;
    }
  }

  /**
    Exactly when a run inside a call ends with some object allowed that was not before: when it starts
    with a list that is not empty and no object callback, takes every entry off, and does not enable
    restrictions.
   */
  lemma LoosensExactlyWhenLifted(w: World, ops: seq<Op>, now: World)
    requires Inside(w, ops) && Runs(w, ops, now)
    ensures (exists id :: IsAllowedObject(now.rules, id) && !IsAllowedObject(w.rules, id)) <==> EmptiesUnguarded(w, ops)
  {
    RunTightens(w, ops, now);
    ListLiftedExactly(w, ops, now);
    if ListLifted(w.rules, now.rules) {
      var id := Unlisted(w.rules.allowed.Keys);
      assert IsAllowedObject(now.rules, id) && !IsAllowedObject(w.rules, id);
    }
  }

  lemma {:induction false} Unlisted(ids: set<Id>) returns (id: Id)
    ensures id !in ids && forall other :: other in ids ==> other < id
    decreases ids
  {
    if ids == {} {
      id := 0;
    } else {
      var one :| one in ids;
      var above := Unlisted(ids - {one});
      id := if one < above then above else one + 1;
      forall other | other in ids ensures other < id {
        assert other == one || other in ids - {one};
      }
    }
  }

  // ----- As it runs

  /**
    The fields, and the methods that change them, in an engine `e`. The list stays true to the engine's
    objects, and inside a call nothing is allowed afterwards that was not before.
   */
  class Sandbox {
    var classes: Callback<string>
    var objects: Callback<Id>
    var methods: Callback<Method>
    var properties: Callback<Property>
    var resources: Callback<string>
    var allowed: map<Id, Address>
    var refs: set<Id>
    var depth: nat

    ghost function View(e: Engine): World
      reads this
    {
      World(e, Rules(classes, objects, methods, properties, resources, allowed, refs), depth)
    }

    ghost predicate Valid(e: Engine)
      reads this
    {
      ListInv(View(e))
    }

    /** From `was`, the only way is tighter, unless no call is running. */
    ghost predicate TighterInCall(was: World)
      reads this
    {
      InVmCall(was) ==> Tighter(was.rules, View(was.engine).rules)
    }

    constructor ()
      ensures View(START.engine) == START && Valid(START.engine)
    {
      classes, objects, methods, properties, resources := Unset, Unset, Unset, Unset, Unset;
      allowed, refs, depth := map[], {}, 0;
    }

    /** Enabling always takes effect; disabling does outside a call, and inside one changes nothing. */
    method SetRestrictionsTo(enable: bool, ghost e: Engine)
      requires Valid(e)
      modifies this`classes, this`objects, this`methods, this`properties, this`resources
      ensures Valid(e) && View(e) == SetRestrictions(old(View(e)), enable)
      ensures TighterInCall(old(View(e)))
      ensures GetRestrictions(View(e).rules) <==> enable || (depth != 0 && GetRestrictions(old(View(e)).rules))
      ensures enable ==> RestrictedOver(old(View(e)).rules, View(e).rules)
      ensures !enable && depth == 0 ==> Unrestricted(View(e).rules)
    {
      DoTightensInCall(View(e), Restrict(enable));
      RestrictDecides(View(e), enable);
      if enable {
        if classes.Unset? { classes := Restrictive; }
        if objects.Unset? { objects := Restrictive; }
        if methods.Unset? { methods := Restrictive; }
        if properties.Unset? { properties := Restrictive; }
        if resources.Unset? { resources := Restrictive; }
      } else {
        if depth != 0 {
          return;
        }
        classes, objects, methods, properties, resources := Unset, Unset, Unset, Unset, Unset;
      }
    }

    /** Exactly the object becomes reachable at its address, and only outside a call. */
    method AddAllowedObject(target: Option<Id>, e: Engine)
      requires Valid(e) && Possible(View(e), AddObject(target))
      modifies this`allowed, this`refs
      ensures Valid(e) && View(e) == AddAllowed(old(View(e)), target)
      ensures TighterInCall(old(View(e)))
      ensures forall a: Address, id: Id :: Reachable(View(e), a, id) <==>
        old(Reachable(View(e), a, id)) || (depth == 0 && target == Some(id) && LiveAt(e, id, a))
    {
      DoTightensInCall(View(e), AddObject(target));
      if depth != 0 || target.None? {
        return;
      }
      var o := e.born[target.value];
      allowed := allowed[target.value := o.address];
      if o.refCounted {
        refs := refs + {target.value};
      }
    }

    method RemoveAllowedObject(target: Option<Id>, ghost e: Engine)
      requires Valid(e)
      modifies this`allowed, this`refs
      ensures Valid(e) && View(e) == RemoveAllowed(old(View(e)), target)
      ensures TighterInCall(old(View(e)))
      ensures forall a: Address, id: Id :: Reachable(View(e), a, id) <==> old(Reachable(View(e), a, id)) && target != Some(id)
    {
      DoTightensInCall(View(e), RemoveObject(target));
      if target.None? {
        return;
      }
      allowed := allowed - {target.value};
      refs := refs - {target.value};
    }

    method ClearAllowedObjects(ghost e: Engine)
      requires Valid(e)
      modifies this`allowed, this`refs
      ensures Valid(e) && View(e) == ClearAllowed(old(View(e)))
      ensures TighterInCall(old(View(e)))
      ensures depth == 0 ==> forall a: Address, id: Id :: !Reachable(View(e), a, id)
    {
      DoTightensInCall(View(e), ClearObjects);
      if depth != 0 {
        return;
      }
      allowed, refs := map[], {};
    }

    method SetObjectAllowedCallback(cb: Callback<Id>, ghost e: Engine)
      requires Valid(e)
      modifies this`objects
      ensures Valid(e) && View(e) == Do(old(View(e)), ObjectCallback(cb))
      ensures TighterInCall(old(View(e)))
      ensures depth == 0 ==> AnswersFor(cb, objects)
    {
      DoTightensInCall(View(e), ObjectCallback(cb));
      if depth == 0 {
        objects := cb;
      }
    }

    method SetClassAllowedCallback(cb: Callback<string>, ghost e: Engine)
      requires Valid(e)
      modifies this`classes
      ensures Valid(e) && View(e) == Do(old(View(e)), ClassCallback(cb))
      ensures TighterInCall(old(View(e)))
      ensures depth == 0 ==> AnswersFor(cb, classes)
    {
      DoTightensInCall(View(e), ClassCallback(cb));
      if depth == 0 {
        classes := cb;
      }
    }

    method SetMethodAllowedCallback(cb: Callback<Method>, ghost e: Engine)
      requires Valid(e)
      modifies this`methods
      ensures Valid(e) && View(e) == Do(old(View(e)), MethodCallback(cb))
      ensures TighterInCall(old(View(e)))
      ensures depth == 0 ==> AnswersFor(cb, methods)
    {
      DoTightensInCall(View(e), MethodCallback(cb));
      if depth == 0 {
        methods := cb;
      }
    }

    method SetPropertyAllowedCallback(cb: Callback<Property>, ghost e: Engine)
      requires Valid(e)
      modifies this`properties
      ensures Valid(e) && View(e) == Do(old(View(e)), PropertyCallback(cb))
      ensures TighterInCall(old(View(e)))
      ensures depth == 0 ==> AnswersFor(cb, properties)
    {
      DoTightensInCall(View(e), PropertyCallback(cb));
      if depth == 0 {
        properties := cb;
      }
    }

    method SetResourceAllowedCallback(cb: Callback<string>, ghost e: Engine)
      requires Valid(e)
      modifies this`resources
      ensures Valid(e) && View(e) == Do(old(View(e)), ResourceCallback(cb))
      ensures TighterInCall(old(View(e)))
      ensures depth == 0 ==> AnswersFor(cb, resources)
    {
      DoTightensInCall(View(e), ResourceCallback(cb));
      if depth == 0 {
        resources := cb;
      }
    }
  }

  /** What every operation keeps, whether or not a call is running. */
  lemma DoTightensInCall(w: World, op: Op)
    requires ListInv(w) && Possible(w, op)
    ensures ListInv(Do(w, op))
    ensures InVmCall(w) ==> Tighter(w.rules, Do(w, op).rules)
  {
    DoKeepsList(w, op);
    if InVmCall(w) {
      DoTightens(w, op);
    }
  }
}
