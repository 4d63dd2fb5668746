/**
  The scoped-Variant arena of the sandbox as a value: call levels, their vectors of Variants and of
  pointers, and every operation that reads or writes them (src/sandbox.cpp:1270-1414).

  A vector's storage has an identity (`buffer`), so that a reallocation is visible: it gives the
  vector a fresh buffer, and a pointer taken into the old one no longer points at any element.
 */
module VariantArena {
  import opened Basics

  /** Sandbox::MAX_LEVEL (src/sandbox.h:46). */
  const MAX_LEVEL: nat := 4

  /** A Variant, opaque but for its type. */
  datatype Variant = Variant(kind: nat, payload: int)

  const NIL_KIND: nat := 0
  const NIL := Variant(NIL_KIND, 0)

  /** The address of a Variant: an element of some vector's storage, or one of the host's own Variants. */
  datatype Pointer = Cell(buffer: nat, at: nat) | Host(id: nat)

  /** One call level: `variants` with its capacity and storage identity, and `scoped_variants`. */
  datatype CurrentState = CurrentState(variants: seq<Variant>, capacity: nat, buffer: nat, scoped: seq<Pointer>)

  datatype ArenaFields = ArenaFields(
    states: seq<CurrentState>,
    current: nat,
    host: seq<Variant>,
    nextBuffer: nat,
    maxRefs: nat,
    exceptions: nat,
    callsMade: nat)

  const EMPTY_STATE := CurrentState([], 0, 0, [])

  /** `m_states` is a fixed array and `m_current_state` always points into it. */
  type Arena = a: ArenaFields | |a.states| == MAX_LEVEL && a.current < MAX_LEVEL
    witness ArenaFields([EMPTY_STATE, EMPTY_STATE, EMPTY_STATE, EMPTY_STATE], 0, [], 0, 0, 0, 0)

  /** What an operation leaves behind, and what it returned unless it threw. */
  datatype Reply<+T> = Reply(arena: Arena, result: Outcome<T>)

  // ----- Storage

  function State(a: Arena): CurrentState { a.states[a.current] }

  /** `is_mutable_variant`: the address lies within the vector's elements (src/sandbox.cpp:1797-1804). */
  predicate IsMutable(st: CurrentState, p: Pointer) {
    p.Cell? && p.buffer == st.buffer && p.at < |st.variants|
  }

  /** The first level whose storage is `buffer`, or MAX_LEVEL when no vector has it any more. */
  function LevelOf(a: Arena, buffer: nat): nat {
    if a.states[0].buffer == buffer then 0
    else if a.states[1].buffer == buffer then 1
    else if a.states[2].buffer == buffer then 2
    else if a.states[3].buffer == buffer then 3
    else MAX_LEVEL
  }

  /** Whether `p` points at a Variant that exists. */
  predicate Live(a: Arena, p: Pointer) {
    match p
    case Host(id) => id < |a.host|
    case Cell(buffer, at) =>
      var level := LevelOf(a, buffer);
      level < MAX_LEVEL && at < |a.states[level].variants|
  }

  /** The Variant at `p`; a dangling pointer reads as nil here and as anything at all in the source. */
  function Deref(a: Arena, p: Pointer): Variant {
    if !Live(a, p) then NIL
    else match p
      case Host(id) => a.host[id]
      case Cell(buffer, at) => a.states[LevelOf(a, buffer)].variants[at]
  }

  /** Assignment to element `at` of the vector of `level`. */
  function Poke(a: Arena, level: nat, at: nat, v: Variant): Arena
    requires level < MAX_LEVEL && at < |a.states[level].variants|
  {
    var st := a.states[level];
    a.(states := a.states[level := st.(variants := st.variants[at := v])])
  }

  /** `variants.push_back`: within the capacity the storage stays, beyond it the elements move. */
  function PushBack(a: Arena, level: nat, v: Variant): Arena
    requires level < MAX_LEVEL
  {
    var st := a.states[level];
    var longer := st.variants + [v];
    if |st.variants| < st.capacity then
      a.(states := a.states[level := st.(variants := longer)])
    else
      a.(states := a.states[level := st.(variants := longer, capacity := 2 * st.capacity + 1, buffer := a.nextBuffer)],
         nextBuffer := a.nextBuffer + 1)
  }

  /** `&variants.back()`. */
  function Back(st: CurrentState): Pointer
    requires |st.variants| > 0
  {
    Cell(st.buffer, |st.variants| - 1)
  }

  function PushPointer(a: Arena, level: nat, p: Pointer): Arena
    requires level < MAX_LEVEL
  {
    var st := a.states[level];
    a.(states := a.states[level := st.(scoped := st.scoped + [p])])
  }

  /** `CurrentState::append` (src/sandbox.h:940-943). */
  function Append(a: Arena, level: nat, v: Variant): Arena
    requires level < MAX_LEVEL
  {
    var pushed := PushBack(a, level, v);
    PushPointer(pushed, level, Back(pushed.states[level]))
  }

  /** `variants.reserve(n)`: the elements move exactly when the capacity has to grow. */
  function Reserve(a: Arena, level: nat, n: nat): Arena
    requires level < MAX_LEVEL
  {
    var st := a.states[level];
    if n <= st.capacity then a
    else a.(states := a.states[level := st.(capacity := n, buffer := a.nextBuffer)], nextBuffer := a.nextBuffer + 1)
  }

  /** The same on every level. */
  function ReserveAll(a: Arena, n: nat): Arena {
    Reserve(Reserve(Reserve(Reserve(a, 0, n), 1, n), 2, n), 3, n)
  }

  // ----- Operations

  /** The index the guest is given for the newest slot of the current level. */
  function NewestIndex(a: Arena): Int32 {
    var count: int := ToInt32(|State(a).scoped|);
    if a.current != 0 then ToInt32(count - 1) else ToInt32(-count)
  }

  /** `add_scoped_variant` (src/sandbox.cpp:1272-1283). */
  function AddScoped(a: Arena, p: Pointer): Reply<Int32> {
    if |State(a).scoped| >= State(a).capacity then Reply(a, Thrown)
    else
      var added := PushPointer(a, a.current, p);
      Reply(added, Returned(NewestIndex(added)))
  }

  /** `create_scoped_variant` (src/sandbox.cpp:1284-1295). */
  function CreateScoped(a: Arena, v: Variant): Reply<Int32> {
    if |State(a).scoped| >= State(a).capacity then Reply(a, Thrown)
    else
      var added := Append(a, a.current, v);
      Reply(added, Returned(NewestIndex(added)))
  }

  /** `is_permanent_variant` (src/sandbox.h:364). */
  predicate IsPermanent(index: Int32) { index < 0 && index != INT32_MIN }

  /** `get_scoped_variant` (src/sandbox.cpp:1296-1316). */
  function GetScoped(a: Arena, index: Int32): Option<Pointer> {
    if 0 <= index < |State(a).scoped| then Some(State(a).scoped[index])
    else if index < 0 then
      if index == INT32_MIN then None
      else if -index - 1 < |a.states[0].scoped| then Some(a.states[0].scoped[-index - 1])
      else None
    else None
  }

  /** `get_mutable_scoped_variant` (src/sandbox.cpp:1317-1341). */
  function GetMutable(a: Arena, index: Int32): Reply<Pointer> {
    var level := if IsPermanent(index) then 0 else a.current;
    var slot := if IsPermanent(index) then -index - 1 else index;
    var st := a.states[level];
    if slot < 0 || slot >= |st.scoped| then Reply(a, Thrown)
    else
      var p := st.scoped[slot];
      if IsMutable(st, p) then Reply(a, Returned(p))
      else if |st.variants| >= st.capacity then Reply(a, Thrown)
      else
        var pushed := PushBack(a, level, Deref(a, p));
        var now := pushed.states[level];
        var repointed := pushed.(states := pushed.states[level := now.(scoped := now.scoped[slot := Back(now)])]);
        Reply(repointed, Returned(Back(now)))
  }

  /** `get_mutable_scoped_variant(index) = v`, as the guest's in-place operations use it (src/sandbox_syscalls.cpp:2602-2607). */
  function Mutate(a: Arena, index: Int32, v: Variant): Reply<()> {
    var got := GetMutable(a, index);
    if got.result.Thrown? then Reply(got.arena, Thrown)
    else
      var level := if IsPermanent(index) then 0 else a.current;
      Reply(Poke(got.arena, level, got.result.value.at, v), Returned(()))
  }

  /** `create_permanent_variant` (src/sandbox.cpp:1342-1375); `husk` is whatever a moved-from Variant is left as. */
  function CreatePermanent(a: Arena, index: Int32, husk: Variant): Reply<Int32> {
    if index < 0 then Reply(a, Returned(index))
    else
      match GetScoped(a, index)
      case None => Reply(a, Thrown)
      case Some(p) =>
        if |a.states[0].variants| >= a.states[0].capacity then Reply(a, Returned(index))
        else
          var source := if IsMutable(State(a), p) then Poke(a, a.current, p.at, husk) else a;
          var added := Append(source, 0, Deref(a, p));
          var newest: int := ToInt32(|added.states[0].variants| - 1);
          Reply(added, Returned(ToInt32(-newest - 1)))
  }

  /** `assign_permanent_variant` (src/sandbox.cpp:1376-1388); it negates the index, so INT32_MIN is not for it. */
  function AssignPermanent(a: Arena, index: Int32, v: Variant): Reply<()>
    requires index != INT32_MIN
  {
    if index < 0 && -index - 1 < |a.states[0].variants| then Reply(Poke(a, 0, -index - 1, v), Returned(()))
    else Reply(a, Thrown)
  }

  /** `try_reuse_assign_variant`, two arguments (src/sandbox.cpp:1389-1406). */
  function TryReuse(a: Arena, index: Int32, v: Variant): Reply<Int32> {
    if IsPermanent(index) then
      var stored := AssignPermanent(a, index, v);
      Reply(stored.arena, if stored.result.Thrown? then Thrown else Returned(index))
    else if 0 <= index < |State(a).scoped| && IsMutable(State(a), State(a).scoped[index]) then
      Reply(Poke(a, a.current, State(a).scoped[index].at, v), Returned(index))
    else CreateScoped(a, v)
  }

  /** `try_reuse_assign_variant`, four arguments (src/sandbox.cpp:1407-1414). */
  function TryReuseFrom(a: Arena, sourceIndex: Int32, source: Pointer, index: Int32, v: Variant): Reply<Int32> {
    if !IsPermanent(index) && index == sourceIndex && IsMutable(State(a), source) then
      Reply(Poke(a, a.current, source.at, v), Returned(index))
    else TryReuse(a, index, v)
  }

  /** The copying half of `api_vclone` (src/sandbox_syscalls.cpp:1267-1274). */
  function Clone(a: Arena, index: Int32): Reply<Int32> {
    match GetScoped(a, index)
    case None => Reply(a, Thrown)
    case Some(p) => CreateScoped(a, Deref(a, p))
  }

  /** `api_vassign` (src/sandbox_syscalls.cpp:1415-1438). */
  function Assign(a: Arena, to: Int32, from: Int32): Reply<Int32> {
    if to == INT32_MIN then Reply(a, Returned(from))
    else
      match (GetScoped(a, to), GetScoped(a, from))
      case (Some(p), Some(q)) =>
        if Deref(a, p).kind != NIL_KIND && Deref(a, p).kind != Deref(a, q).kind then Reply(a, Thrown)
        else TryReuseFrom(a, from, p, to, Deref(a, q))
      case _ => Reply(a, Thrown)
  }

  /** `set_max_refs`: outside a call every level's vector is told to reserve (src/sandbox.cpp:1806-1816). */
  function SetMaxRefs(a: Arena, max: nat): Arena {
    var limited := a.(maxRefs := max);
    if a.current != 0 then limited
    else ReserveAll(limited, max)
  }
}
