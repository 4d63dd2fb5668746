/**
  What each operation of the arena promises its caller: the index it returns resolves to the value
  it was given, at most one existing Variant changes, and the throws happen exactly when they must.
 */
module ArenaOperations {
  import opened Basics
  import opened VariantArena
  import opened ArenaInvariant

  /** `p` is an element of the current level or of the permanent one. */
  predicate Writable(a: Arena, p: Pointer) {
    IsMutable(State(a), p) || IsMutable(a.states[0], p)
  }

  /** Between `a` and `now`, no Variant but the one at `p` changed, and no pointer but `p` lost its target. */
  ghost predicate OnlyChanged(a: Arena, now: Arena, p: Pointer) {
    forall q :: Live(a, q) && q != p ==> Live(now, q) && Deref(now, q) == Deref(a, q)
  }

  ghost predicate NothingChanged(a: Arena, now: Arena) {
    forall q :: Live(a, q) ==> Live(now, q) && Deref(now, q) == Deref(a, q)
  }

  /** The Variant at `p` is one the level may write, it holds `v`, and no other Variant was touched. */
  ghost predicate HoldsAt(a: Arena, now: Arena, p: Pointer, v: Variant) {
    Writable(now, p) && Live(now, p) && Deref(now, p) == v && OnlyChanged(a, now, p)
  }

  /** And the index resolves to it. */
  ghost predicate Holds(a: Arena, now: Arena, index: Int32, v: Variant) {
    GetScoped(now, index).Some? && HoldsAt(a, now, GetScoped(now, index).value, v)
  }

  lemma LevelOfStorage(a: Arena, level: nat)
    requires Separate(a) && level < MAX_LEVEL
    ensures LevelOf(a, a.states[level].buffer) == level
  {
  }

  /** Reading through a pointer after one level has been replaced. */
  lemma DerefReplaced(a: Arena, level: nat, now: CurrentState, q: Pointer)
    requires Storage(a) && level < MAX_LEVEL && now.buffer == a.states[level].buffer
    ensures var b := Replaced(a, level, now);
      if Owns(now, q) then
        && (Live(b, q) <==> q.at < |now.variants|)
        && (Live(b, q) ==> Deref(b, q) == now.variants[q.at])
      else
        && (Live(b, q) <==> Live(a, q))
        && Deref(b, q) == Deref(a, q)
  {
    LevelOfStorage(a, level);
    var b := Replaced(a, level, now);
    if q.Cell? {
      assert LevelOf(b, q.buffer) == LevelOf(a, q.buffer);
    }
  }

  lemma ReplacedOnlyChanged(a: Arena, level: nat, now: CurrentState, p: Pointer)
    requires Storage(a) && level < MAX_LEVEL && now.buffer == a.states[level].buffer
    requires |a.states[level].variants| <= |now.variants|
    requires forall at :: 0 <= at < |a.states[level].variants| && Cell(now.buffer, at) != p
               ==> now.variants[at] == a.states[level].variants[at]
    ensures OnlyChanged(a, Replaced(a, level, now), p)
  {
    forall q | Live(a, q) && q != p
      ensures Live(Replaced(a, level, now), q) && Deref(Replaced(a, level, now), q) == Deref(a, q)
    {
      LevelOfStorage(a, level);
      DerefReplaced(a, level, now, q);
      if Owns(now, q) {
        assert q == Cell(now.buffer, q.at);
      }
    }
  }

  lemma ReplacedNothingChanged(a: Arena, level: nat, now: CurrentState)
    requires Storage(a) && level < MAX_LEVEL && now.buffer == a.states[level].buffer
    requires a.states[level].variants <= now.variants
    ensures NothingChanged(a, Replaced(a, level, now))
  {
    forall q | Live(a, q)
      ensures Live(Replaced(a, level, now), q) && Deref(Replaced(a, level, now), q) == Deref(a, q)
    {
      LevelOfStorage(a, level);
      DerefReplaced(a, level, now, q);
    }
  }

  lemma OnlyThenNothing(a: Arena, b: Arena, c: Arena, p: Pointer)
    requires OnlyChanged(a, b, p) && NothingChanged(b, c)
    ensures OnlyChanged(a, c, p)
  {
  }

  // ----- Adding a slot

  /** The newest slot of the current level is reached by the index returned for it. */
  lemma NewestIndexResolves(a: Arena)
    requires Inv(a) && |State(a).scoped| > 0
    ensures GetScoped(a, NewestIndex(a)) == Some(State(a).scoped[|State(a).scoped| - 1])
    ensures NewestIndex(a) == if a.current == 0 then -|State(a).scoped| else |State(a).scoped| - 1
  {
    RoomForSlot(a, a.current);
  }

  /** The current level has used up this many more slots and elements. */
  predicate Costs(a: Arena, now: Arena, slots: nat, elements: nat) {
    && now.current == a.current
    && |State(now).scoped| == |State(a).scoped| + slots
    && |State(now).variants| == |State(a).variants| + elements
  }

  /** A created Variant throws exactly when the level is full, and is otherwise found under its index. */
  lemma CreateScopedResolves(a: Arena, v: Variant)
    requires Inv(a)
    ensures var r := CreateScoped(a, v);
      && Inv(r.arena) && Keeps(a, r.arena) && NothingChanged(a, r.arena)
      && (r.result.Thrown? <==> |State(a).scoped| == State(a).capacity)
      && (r.result.Thrown? ==> r.arena == a)
      && (r.result.Returned? ==> Holds(a, r.arena, r.result.value, v) && Costs(a, r.arena, 1, 1))
  {
    RoomForSlot(a, a.current);
    if |State(a).scoped| < State(a).capacity {
      AppendKeeps(a, a.current, v);
      var now := Appended(State(a), v);
      var p := Cell(now.buffer, |State(a).variants|);
      NewestIndexResolves(Append(a, a.current, v));
      DerefReplaced(a, a.current, now, p);
      LevelOfStorage(a, a.current);
      ReplacedNothingChanged(a, a.current, now);
    }
  }

  /** An added pointer costs one slot and no element, and its index resolves to the very pointer. */
  lemma AddScopedResolves(a: Arena, p: Pointer)
    requires Inv(a) && a.current != 0 && Reaches(a, a.current, p) && !Owns(State(a), p)
    ensures var r := AddScoped(a, p);
      && Inv(r.arena) && Keeps(a, r.arena) && NothingChanged(a, r.arena)
      && (r.result.Thrown? <==> |State(a).scoped| == State(a).capacity)
      && (r.result.Thrown? ==> r.arena == a)
      && (r.result.Returned? ==> GetScoped(r.arena, r.result.value) == Some(p) && Costs(a, r.arena, 1, 0))
  {
    RoomForSlot(a, a.current);
    if |State(a).scoped| < State(a).capacity {
      PushPointerKeeps(a, p);
      ReplacedNothingChanged(a, a.current, State(a).(scoped := State(a).scoped + [p]));
      NewestIndexResolves(PushPointer(a, a.current, p));
    }
  }

  // ----- Writing

  /** Where an index that resolves resolves to, and in which level's slots. */
  lemma GetScopedReaches(a: Arena, index: Int32)
    requires Inv(a) && GetScoped(a, index).Some?
    ensures Reaches(a, a.current, GetScoped(a, index).value)
    ensures Live(a, GetScoped(a, index).value)
    ensures IsPermanent(index) ==> GetScoped(a, index).value == Cell(a.states[0].buffer, -index - 1)
  {
    LevelOfStorage(a, 0);
    if !IsPermanent(index) && a.current != 0 {
      assert LevelInv(a, a.current);
    }
  }

  /** The copying half of `get_mutable_scoped_variant`: its capacity check passes. */
  lemma GetMutableCopies(a: Arena, index: Int32)
    requires Inv(a) && !IsPermanent(index) && GetScoped(a, index).Some? && !IsMutable(State(a), State(a).scoped[index])
    ensures var now := Repointed(State(a), index, Deref(a, State(a).scoped[index]));
      && Inv(Replaced(a, a.current, now)) && Keeps(a, Replaced(a, a.current, now))
      && GetMutable(a, index) == Reply(Replaced(a, a.current, now), Returned(Cell(now.buffer, |State(a).variants|)))
  {
    LevelOfStorage(a, a.current);
    if a.current != 0 {
      assert LevelInv(a, a.current);
      RepointKeeps(a, index, Deref(a, State(a).scoped[index]));
    }
  }

  /**
    `get_mutable_scoped_variant` fails exactly for an index that does not resolve: its capacity check
    never throws. What it returns is owned, holds the value the index held, and is what the index
    now resolves to.
   */
  lemma GetMutableResolves(a: Arena, index: Int32)
    requires Inv(a)
    ensures var r := GetMutable(a, index);
      && Inv(r.arena) && Keeps(a, r.arena) && NothingChanged(a, r.arena)
      && (r.result.Thrown? <==> GetScoped(a, index).None?)
      && (r.result.Thrown? ==> r.arena == a)
      && (r.result.Returned? ==>
            && GetScoped(r.arena, index) == Some(r.result.value)
            && IsMutable(r.arena.states[if IsPermanent(index) then 0 else a.current], r.result.value)
            && Deref(r.arena, r.result.value) == Deref(a, GetScoped(a, index).value)
            && Costs(a, r.arena, 0, if IsPermanent(index) || Reusable(a, index) then 0 else 1))
  {
    if GetScoped(a, index).Some? && !IsPermanent(index) && !IsMutable(State(a), State(a).scoped[index]) {
      var v := Deref(a, State(a).scoped[index]);
      var now := Repointed(State(a), index, v);
      GetMutableCopies(a, index);
      DerefReplaced(a, a.current, now, Cell(now.buffer, |State(a).variants|));
      ReplacedNothingChanged(a, a.current, now);
    }
  }

  lemma PokeHolds(a: Arena, level: nat, at: nat, v: Variant)
    requires Inv(a) && (level == 0 || level == a.current) && at < |a.states[level].variants|
    ensures var now := Poke(a, level, at, v); var p := Cell(a.states[level].buffer, at);
      Writable(now, p) && Live(now, p) && Deref(now, p) == v && OnlyChanged(a, now, p)
  {
    var st := a.states[level];
    var now := st.(variants := st.variants[at := v]);
    LevelOfStorage(a, level);
    DerefReplaced(a, level, now, Cell(st.buffer, at));
    ReplacedOnlyChanged(a, level, now, Cell(st.buffer, at));
  }

  lemma MutateHolds(a: Arena, index: Int32, v: Variant)
    requires Inv(a)
    ensures var r := Mutate(a, index, v);
      && Inv(r.arena) && Keeps(a, r.arena)
      && (r.result.Thrown? <==> GetScoped(a, index).None?)
      && (r.result.Thrown? ==> r.arena == a)
      && (r.result.Returned? ==> Holds(a, r.arena, index, v))
  {
    GetMutableResolves(a, index);
    var got := GetMutable(a, index);
    if got.result.Returned? {
      PokeThrough(got.arena, index, got.result.value, v);
      KeepsTransitive(a, got.arena, Mutate(a, index, v).arena);
      NothingThenOnly(a, got.arena, Mutate(a, index, v).arena, got.result.value);
    }
  }

  lemma PokeThrough(a: Arena, index: Int32, p: Pointer, v: Variant)
    requires Inv(a) && GetScoped(a, index) == Some(p)
    requires IsMutable(a.states[if IsPermanent(index) then 0 else a.current], p)
    ensures var now := Poke(a, if IsPermanent(index) then 0 else a.current, p.at, v);
      Inv(now) && Keeps(a, now) && Holds(a, now, index, v) && GetScoped(now, index) == Some(p)
  {
    var level := if IsPermanent(index) then 0 else a.current;
    PokeKeeps(a, level, p.at, v);
    PokeHolds(a, level, p.at, v);
  }

  lemma NothingThenOnly(a: Arena, b: Arena, c: Arena, p: Pointer)
    requires NothingChanged(a, b) && OnlyChanged(b, c, p)
    ensures OnlyChanged(a, c, p)
  {
  }

  /** The index names an element the current level owns, so that assigning to it costs nothing. */
  predicate Reusable(a: Arena, index: Int32) {
    0 <= index < |State(a).scoped| && IsMutable(State(a), State(a).scoped[index])
  }

  /** Assigning through `index` has nowhere to put the value. */
  predicate NoRoomFor(a: Arena, index: Int32) {
    if IsPermanent(index) then GetScoped(a, index).None?
    else !Reusable(a, index) && |State(a).scoped| == State(a).capacity
  }

  /**
    Assigning through an index writes a Variant of the current or the permanent level and nothing
    else; the index to use from then on resolves to the new value, and is the same one where the
    level owns what it names. It throws exactly when there is no room.
   */
  lemma TryReuseHolds(a: Arena, index: Int32, v: Variant)
    requires Inv(a)
    ensures var r := TryReuse(a, index, v);
      && Inv(r.arena) && Keeps(a, r.arena)
      && (r.result.Thrown? ==> r.arena == a)
      && (r.result.Thrown? <==> NoRoomFor(a, index))
      && (r.result.Returned? ==> Holds(a, r.arena, r.result.value, v))
      && (r.result.Returned? && (IsPermanent(index) || Reusable(a, index)) ==>
            r.result.value == index && Costs(a, r.arena, 0, 0))
      && (r.result.Returned? && !IsPermanent(index) && !Reusable(a, index) ==>
            NothingChanged(a, r.arena) && Costs(a, r.arena, 1, 1))
  {
    if IsPermanent(index) {
      AssignPermanentHolds(a, index, v);
    } else if Reusable(a, index) {
      PokeOwned(a, index, v);
    } else {
      CreateScopedResolves(a, v);
    }
  }

  /** Level 0's alignment is what makes the element that is written the one the index resolves to. */
  lemma AssignPermanentHolds(a: Arena, index: Int32, v: Variant)
    requires Inv(a) && IsPermanent(index)
    ensures var r := AssignPermanent(a, index, v);
      && Inv(r.arena) && Keeps(a, r.arena)
      && (r.result.Thrown? ==> r.arena == a)
      && (r.result.Returned? ==> Holds(a, r.arena, index, v))
      && (r.result.Returned? <==> GetScoped(a, index).Some?)
  {
    if GetScoped(a, index).Some? {
      PokePermanent(a, index, v);
    }
  }

  lemma PokePermanent(a: Arena, index: Int32, v: Variant)
    requires Inv(a) && IsPermanent(index) && GetScoped(a, index).Some?
    ensures var now := Poke(a, 0, -index - 1, v);
      Inv(now) && Keeps(a, now) && Holds(a, now, index, v)
  {
    PokeKeeps(a, 0, -index - 1, v);
    PokeHolds(a, 0, -index - 1, v);
    assert GetScoped(a, index) == Some(Cell(a.states[0].buffer, -index - 1));
  }

  lemma PokeOwned(a: Arena, index: Int32, v: Variant)
    requires Inv(a) && Reusable(a, index)
    ensures var now := Poke(a, a.current, State(a).scoped[index].at, v);
      Inv(now) && Keeps(a, now) && Holds(a, now, index, v)
  {
    PokeKeeps(a, a.current, State(a).scoped[index].at, v);
    PokeHolds(a, a.current, State(a).scoped[index].at, v);
  }

  /** The four-argument overload keeps the same promise whenever `source` is what `sourceIndex` names. */
  lemma TryReuseFromHolds(a: Arena, sourceIndex: Int32, source: Pointer, index: Int32, v: Variant)
    requires Inv(a)
    requires index == sourceIndex ==> GetScoped(a, sourceIndex) == Some(source)
    ensures var r := TryReuseFrom(a, sourceIndex, source, index, v);
      && Inv(r.arena) && Keeps(a, r.arena)
      && (r.result.Thrown? ==> r.arena == a)
      && (r.result.Thrown? <==> NoRoomFor(a, index) && !(index == sourceIndex && IsMutable(State(a), source)))
      && (r.result.Returned? ==> Holds(a, r.arena, r.result.value, v))
  {
    if !IsPermanent(index) && index == sourceIndex && IsMutable(State(a), source) {
      PokeKeeps(a, a.current, source.at, v);
      PokeHolds(a, a.current, source.at, v);
    } else {
      TryReuseHolds(a, index, v);
    }
  }

  /** What `Variant::assign` refuses: an index that does not resolve, or a change of type. */
  predicate Refused(a: Arena, to: Int32, from: Int32) {
    || GetScoped(a, to).None? || GetScoped(a, from).None?
    || (var kind := Deref(a, GetScoped(a, to).value).kind;
        kind != NIL_KIND && kind != Deref(a, GetScoped(a, from).value).kind)
  }

  /**
    `Variant::assign`: an empty destination takes over the index `from`; otherwise the guest's new
    index holds what `from` held and no other Variant changes, and it throws exactly when refused or
    out of room.
   */
  lemma AssignHolds(a: Arena, to: Int32, from: Int32)
    requires Inv(a)
    ensures var r := Assign(a, to, from);
      && Inv(r.arena) && Keeps(a, r.arena)
      && (to == INT32_MIN ==> r == Reply(a, Returned(from)))
      && (r.result.Thrown? ==> r.arena == a)
      && (to != INT32_MIN ==> (r.result.Thrown? <==> Refused(a, to, from) || NoRoomFor(a, to)))
      && (to != INT32_MIN && r.result.Returned? ==>
            Holds(a, r.arena, r.result.value, Deref(a, GetScoped(a, from).value)))
  {
    match (GetScoped(a, to), GetScoped(a, from)) {
      case (Some(p), Some(q)) => TryReuseFromHolds(a, from, p, to, Deref(a, q));
      case _ =>
    }
  }

  lemma CloneHolds(a: Arena, index: Int32)
    requires Inv(a)
    ensures var r := Clone(a, index);
      && Inv(r.arena) && Keeps(a, r.arena) && NothingChanged(a, r.arena)
      && (r.result.Thrown? ==> r.arena == a)
      && (r.result.Thrown? <==> GetScoped(a, index).None? || |State(a).scoped| == State(a).capacity)
      && (r.result.Returned? ==> Holds(a, r.arena, r.result.value, Deref(a, GetScoped(a, index).value)))
  {
    if GetScoped(a, index).Some? {
      CreateScopedResolves(a, Deref(a, GetScoped(a, index).value));
    }
  }

  // ----- Reallocation

  /** No pointer into the storage that a vector had points at anything any more. */
  ghost predicate Dangles(a: Arena, now: Arena, level: nat)
    requires level < MAX_LEVEL
  {
    forall at: nat :: !Live(now, Cell(a.states[level].buffer, at))
  }

  /** What `push_back` and `reserve` do to a vector that is too small: the elements move, and every pointer to them dangles. */
  lemma ReallocationDangles(a: Arena, level: nat, v: Variant, n: nat)
    requires Separate(a) && level < MAX_LEVEL
    ensures var b := PushBack(a, level, v);
      && Separate(b) && b.states[level].variants == a.states[level].variants + [v]
      && (|a.states[level].variants| == a.states[level].capacity ==>
            Dangles(a, b, level) && |b.states[level].variants| <= b.states[level].capacity)
      && (|a.states[level].variants| < a.states[level].capacity ==> b.states[level].buffer == a.states[level].buffer)
    ensures var b := Reserve(a, level, n);
      && Separate(b) && b.states[level].variants == a.states[level].variants
      && (if n > a.states[level].capacity then Dangles(a, b, level) && b.states[level].capacity == n else b == a)
  {
  }

  // ----- The permanent level

  /** Appending to level 0, at any level: the new element is the one the new negative index names. */
  lemma PermanentAppended(a: Arena, v: Variant)
    requires Inv(a) && |a.states[0].variants| < a.states[0].capacity
    ensures var b := Append(a, 0, v); var count := |a.states[0].variants|; var q := Cell(a.states[0].buffer, count);
      && Inv(b) && Keeps(a, b) && NothingChanged(a, b)
      && |b.states[0].variants| == count + 1
      && GetScoped(b, -count - 1) == Some(q)
      && Live(b, q) && Deref(b, q) == v
  {
    AppendKeeps(a, 0, v);
    var now := Appended(a.states[0], v);
    var q := Cell(now.buffer, |a.states[0].variants|);
    LevelOfStorage(a, 0);
    DerefReplaced(a, 0, now, q);
    ReplacedNothingChanged(a, 0, now);
  }

  /**
    Making a Variant permanent while level 0 has room: the answer is a new negative index that
    resolves to the value the scoped index had, and only the scoped Variant the value was moved out
    of may change.
   */
  lemma CreatePermanentResolves(a: Arena, index: Int32, husk: Variant)
    requires Inv(a) && index >= 0 && GetScoped(a, index).Some?
    requires |a.states[0].variants| < a.states[0].capacity
    ensures var r := CreatePermanent(a, index, husk); var p := GetScoped(a, index).value;
      && Inv(r.arena) && Keeps(a, r.arena)
      && r.result == Returned(-|a.states[0].variants| - 1)
      && GetScoped(r.arena, r.result.value).Some?
      && Deref(r.arena, GetScoped(r.arena, r.result.value).value) == Deref(a, p)
      && OnlyChanged(a, r.arena, p)
      && (!IsMutable(State(a), p) ==> NothingChanged(a, r.arena))
  {
    var p := GetScoped(a, index).value;
    var source := PermanentSource(a, p, husk);
    CreatePermanentShape(a, index, husk);
    if IsMutable(State(a), p) {
      PokeKeeps(a, a.current, p.at, husk);
      PokeHolds(a, a.current, p.at, husk);
      PermanentMoved(a, source, Deref(a, p), p);
    } else {
      PermanentAppended(a, Deref(a, p));
    }
  }

  /** The arena after the value has been moved out of an owned Variant; a foreign one is only copied. */
  function PermanentSource(a: Arena, p: Pointer, husk: Variant): Arena {
    if IsMutable(State(a), p) then Poke(a, a.current, p.at, husk) else a
  }

  lemma CreatePermanentShape(a: Arena, index: Int32, husk: Variant)
    requires Inv(a) && index >= 0 && GetScoped(a, index).Some?
    requires |a.states[0].variants| < a.states[0].capacity
    ensures var p := GetScoped(a, index).value;
      CreatePermanent(a, index, husk)
        == Reply(Append(PermanentSource(a, p, husk), 0, Deref(a, p)), Returned(-|a.states[0].variants| - 1))
  {
  }

  lemma PermanentMoved(a: Arena, source: Arena, v: Variant, p: Pointer)
    requires Inv(source) && Keeps(a, source) && OnlyChanged(a, source, p)
    requires source.states[0].buffer == a.states[0].buffer
    requires |source.states[0].variants| == |a.states[0].variants| < a.states[0].capacity == source.states[0].capacity
    ensures var b := Append(source, 0, v); var count := |a.states[0].variants|;
      && Inv(b) && Keeps(a, b) && OnlyChanged(a, b, p)
      && |b.states[0].variants| == count + 1
      && GetScoped(b, -count - 1) == Some(Cell(a.states[0].buffer, count))
      && Deref(b, Cell(a.states[0].buffer, count)) == v
  {
    PermanentAppended(source, v);
    KeepsTransitive(a, source, Append(source, 0, v));
    OnlyThenNothing(a, source, Append(source, 0, v), p);
  }

  /** In every other case nothing is touched: the index comes back, or an index that does not resolve throws. */
  lemma CreatePermanentDeclines(a: Arena, index: Int32, husk: Variant)
    requires Inv(a)
    requires index < 0 || GetScoped(a, index).None? || |a.states[0].variants| == a.states[0].capacity
    ensures CreatePermanent(a, index, husk)
         == Reply(a, if index >= 0 && GetScoped(a, index).None? then Thrown else Returned(index))
  {
  }

  // ----- The limit on references

  function Larger(x: nat, y: nat): nat { if x < y then y else x }

  /** What `reserve` does to one vector: the elements stay, in the same storage if it was large enough and in new storage if not. */
  predicate Reserved(st: CurrentState, now: CurrentState, n: nat, nextBuffer: nat) {
    && now.variants == st.variants && now.scoped == st.scoped
    && now.capacity == Larger(st.capacity, n)
    && if n <= st.capacity then now.buffer == st.buffer else now.buffer >= nextBuffer
  }

  /** The levels below `k` have been told to reserve. */
  ghost predicate ReservedBelow(a: Arena, now: Arena, n: nat, k: nat) {
    && Separate(now) && a.nextBuffer <= now.nextBuffer
    && now == a.(states := now.states, nextBuffer := now.nextBuffer)
    && (forall l :: 0 <= l < MAX_LEVEL && l < k ==> Reserved(a.states[l], now.states[l], n, a.nextBuffer))
    && forall l :: k <= l < MAX_LEVEL ==> now.states[l] == a.states[l]
  }

  lemma ReserveOne(a: Arena, b: Arena, n: nat, k: nat)
    requires ReservedBelow(a, b, n, k) && k < MAX_LEVEL
    ensures ReservedBelow(a, Reserve(b, k, n), n, k + 1)
  {
  }

  lemma ReserveAllShape(a: Arena, n: nat)
    requires Separate(a)
    ensures ReservedBelow(a, ReserveAll(a, n), n, MAX_LEVEL)
  {
    ReserveOne(a, a, n, 0);
    var b := Reserve(a, 0, n);
    ReserveOne(a, b, n, 1);
    var c := Reserve(b, 1, n);
    ReserveOne(a, c, n, 2);
    ReserveOne(a, Reserve(c, 2, n), n, 3);
  }

  /** Inside a call only the number changes. */
  lemma SetMaxRefsInCall(a: Arena, max: nat)
    requires Inv(a) && a.current != 0
    ensures Inv(SetMaxRefs(a, max)) && Keeps(a, SetMaxRefs(a, max))
  {
    var b := SetMaxRefs(a, max);
    forall l | 1 <= l <= b.current ensures LevelInv(b, l) {
      assert LevelInv(a, l);
      forall s | 0 <= s < |b.states[l].scoped| ensures Reaches(b, l, b.states[l].scoped[s]) {
        assert Reaches(a, l, b.states[l].scoped[s]);
      }
    }
  }

  /** Whether `set_max_refs(max)` is called where it has to move permanent Variants. */
  predicate MovesPermanents(a: Arena, max: nat) {
    a.current == 0 && max > a.states[0].capacity && a.states[0].variants != []
  }

  /** Inside a call any limit is; outside one, it has to keep permanent Variants in place and indices in 32 bits. */
  predicate Harmless(a: Arena, max: nat) {
    a.current != 0 || (max < INT32_LIMIT && !MovesPermanents(a, max))
  }

  /**
    `set_max_refs` leaves the arena intact exactly when it does not grow level 0's vector under
    permanent Variants, outside a call: growing moves the elements, and the slots keep the addresses
    they had. Nor may it leave room for more slots than a 32-bit index can tell apart.
   */
  lemma SetMaxRefsIntact(a: Arena, max: nat)
    requires Inv(a)
    ensures Inv(SetMaxRefs(a, max)) <==> Harmless(a, max)
  {
    if a.current != 0 {
      SetMaxRefsInCall(a, max);
    } else {
      var b := SetMaxRefs(a, max);
      ReserveAllShape(a.(maxRefs := max), max);
      assert Reserved(a.states[0], b.states[0], max, a.nextBuffer);
      if MovesPermanents(a, max) {
        assert b.states[0].scoped[0] == Cell(a.states[0].buffer, 0);
      }
    }
  }

  /** After such a growth every index the guest was given for a permanent Variant dangles. */
  lemma SetMaxRefsDangles(a: Arena, max: nat, index: Int32)
    requires Inv(a) && MovesPermanents(a, max)
    requires IsPermanent(index) && GetScoped(a, index).Some?
    ensures GetScoped(SetMaxRefs(a, max), index).Some?
    ensures !Live(SetMaxRefs(a, max), GetScoped(SetMaxRefs(a, max), index).value)
  {
    ReserveAllShape(a.(maxRefs := max), max);
    var b := SetMaxRefs(a, max);
    forall l | 0 <= l < MAX_LEVEL ensures b.states[l].buffer != a.states[0].buffer {
      assert Reserved(a.states[l], b.states[l], max, a.nextBuffer);
    }
  }
}
