/**
  What every operation of the arena keeps: owned cells and slots in bijection on every active level,
  slot i at cell i on the permanent level, no storage ever moved, nothing outside the current and
  the permanent level written.
 */
module ArenaInvariant {
  import opened Basics
  import opened VariantArena

  // ----- The invariant

  predicate Owns(st: CurrentState, p: Pointer) { p.Cell? && p.buffer == st.buffer }

  /** How many of the slots point into the storage `buffer`. */
  function OwnedSlots(scoped: seq<Pointer>, buffer: nat): nat {
    if scoped == [] then 0
    else
      var last := scoped[|scoped| - 1];
      OwnedSlots(scoped[..|scoped| - 1], buffer) + if last.Cell? && last.buffer == buffer then 1 else 0
  }

  /** Every element has exactly one slot, and every slot into this storage points at an element. */
  ghost predicate Bijective(st: CurrentState) {
    && (forall at :: 0 <= at < |st.variants| ==> Cell(st.buffer, at) in st.scoped)
    && (forall s :: 0 <= s < |st.scoped| && Owns(st, st.scoped[s]) ==> st.scoped[s].at < |st.variants|)
    && (forall s, t :: 0 <= s < t < |st.scoped| && Owns(st, st.scoped[s]) ==> st.scoped[s] != st.scoped[t])
    && |st.variants| == OwnedSlots(st.scoped, st.buffer)
  }

  /** Slot i points at element i, and there is nothing else. */
  ghost predicate Aligned(st: CurrentState) {
    && |st.scoped| == |st.variants| <= st.capacity
    && forall i :: 0 <= i < |st.scoped| ==> st.scoped[i] == Cell(st.buffer, i)
  }

  /** `p` points at a Variant of the host, or at an element of `level` or of a level below it. */
  ghost predicate Reaches(a: Arena, level: nat, p: Pointer)
    requires level < MAX_LEVEL
  {
    match p
    case Host(id) => id < |a.host|
    case Cell(buffer, at) => LevelOf(a, buffer) <= level && at < |a.states[LevelOf(a, buffer)].variants|
  }

  ghost predicate LevelInv(a: Arena, level: nat)
    requires level < MAX_LEVEL
  {
    var st := a.states[level];
    && |st.scoped| <= st.capacity
    && Bijective(st)
    && forall s :: 0 <= s < |st.scoped| ==> Reaches(a, level, st.scoped[s])
  }

  /** No two vectors share storage. */
  ghost predicate Separate(a: Arena) {
    && (forall l :: 0 <= l < MAX_LEVEL ==> a.states[l].buffer < a.nextBuffer)
    && (forall l, m :: 0 <= l < m < MAX_LEVEL ==> a.states[l].buffer != a.states[m].buffer)
  }

  /** And no index leaves the range of int32_t. */
  ghost predicate Storage(a: Arena) {
    Separate(a) && forall l :: 0 <= l < MAX_LEVEL ==> a.states[l].capacity < INT32_LIMIT
  }

  ghost predicate Inv(a: Arena) {
    && Storage(a)
    && Aligned(a.states[0])
    && forall l :: 1 <= l <= a.current ==> LevelInv(a, l)
  }

  // ----- What an operation may change

  /**
    The same vectors, in the same storage, no shorter; a slot is left alone unless it pointed
    elsewhere, and then it now points at an element that is new.
   */
  ghost predicate Grows(st: CurrentState, now: CurrentState) {
    && now.buffer == st.buffer && now.capacity == st.capacity
    && |st.variants| <= |now.variants| && |st.scoped| <= |now.scoped|
    && forall s :: 0 <= s < |st.scoped| ==>
         || now.scoped[s] == st.scoped[s]
         || (!Owns(st, st.scoped[s]) && Owns(now, now.scoped[s]) && now.scoped[s].at >= |st.variants|)
  }

  /**
    Permanent indices keep what they name; inside a call only the current and the permanent level
    change, and those only grow; the host's Variants and the outer levels stay as they were.
   */
  ghost predicate Keeps(a: Arena, now: Arena) {
    && now.current == a.current
    && a.host <= now.host
    && a.states[0].scoped <= now.states[0].scoped
    && (a.current != 0 ==> Grows(a.states[0], now.states[0]) && Grows(State(a), State(now)))
    && forall l :: 1 <= l < a.current ==> now.states[l] == a.states[l]
  }

  lemma KeepsTransitive(a: Arena, b: Arena, c: Arena)
    requires Keeps(a, b) && Keeps(b, c)
    ensures Keeps(a, c)
  {
    if a.current != 0 {
      GrowsTransitive(a.states[0], b.states[0], c.states[0]);
      GrowsTransitive(State(a), State(b), State(c));
    }
  }

  lemma GrowsTransitive(a: CurrentState, b: CurrentState, c: CurrentState)
    requires Grows(a, b) && Grows(b, c)
    ensures Grows(a, c)
  {
    forall s | 0 <= s < |a.scoped| && c.scoped[s] != a.scoped[s]
      ensures !Owns(a, a.scoped[s]) && Owns(c, c.scoped[s]) && c.scoped[s].at >= |a.variants|
    {
      assert b.scoped[s] == a.scoped[s] || c.scoped[s] == b.scoped[s];
    }
  }

  // ----- Counting owned slots

  lemma {:induction false} OwnedSlotsBound(scoped: seq<Pointer>, buffer: nat)
    ensures OwnedSlots(scoped, buffer) <= |scoped|
    ensures forall s :: 0 <= s < |scoped| && !(scoped[s].Cell? && scoped[s].buffer == buffer) ==> OwnedSlots(scoped, buffer) < |scoped|
  {
    if scoped != [] {
      OwnedSlotsBound(scoped[..|scoped| - 1], buffer);
    }
  }

  lemma {:induction false} OwnedSlotsUpdate(scoped: seq<Pointer>, buffer: nat, s: nat, at: nat)
    requires s < |scoped| && !(scoped[s].Cell? && scoped[s].buffer == buffer)
    ensures OwnedSlots(scoped[s := Cell(buffer, at)], buffer) == OwnedSlots(scoped, buffer) + 1
  {
    var front := scoped[..|scoped| - 1];
    var updated := scoped[s := Cell(buffer, at)];
    if s < |front| {
      OwnedSlotsUpdate(front, buffer, s, at);
      assert updated[..|updated| - 1] == front[s := Cell(buffer, at)];
    } else {
      assert updated[..|updated| - 1] == front;
    }
  }

  lemma OwnedSlotsPush(scoped: seq<Pointer>, buffer: nat, p: Pointer)
    ensures OwnedSlots(scoped + [p], buffer)
         == OwnedSlots(scoped, buffer) + if p.Cell? && p.buffer == buffer then 1 else 0
  {
    assert (scoped + [p])[..|scoped|] == scoped;
  }

  lemma {:induction false} OwnedSlotsAll(scoped: seq<Pointer>, buffer: nat)
    requires forall i :: 0 <= i < |scoped| ==> scoped[i] == Cell(buffer, i)
    ensures OwnedSlots(scoped, buffer) == |scoped|
  {
    if scoped != [] {
      OwnedSlotsAll(scoped[..|scoped| - 1], buffer);
    }
  }

  /** The permanent level's alignment is the strongest form of the bijection. */
  lemma AlignedIsBijective(st: CurrentState)
    requires Aligned(st)
    ensures Bijective(st)
  {
    OwnedSlotsAll(st.scoped, st.buffer);
    forall at | 0 <= at < |st.variants| ensures Cell(st.buffer, at) in st.scoped {
      assert st.scoped[at] == Cell(st.buffer, at);
    }
  }

  // ----- Primitives

  function Replaced(a: Arena, level: nat, now: CurrentState): Arena
    requires level < MAX_LEVEL
  {
    a.(states := a.states[level := now])
  }

  /** A pointer stays good while the vectors it may point into only grow. */
  lemma ReachesReplaced(a: Arena, level: nat, now: CurrentState, from: nat, p: Pointer)
    requires level < MAX_LEVEL && from < MAX_LEVEL && Grows(a.states[level], now)
    ensures Reaches(a, from, p) ==> Reaches(Replaced(a, level, now), from, p)
  {
  }

  /** The one step behind every operation: the current or the permanent level is replaced by a grown one. */
  lemma ReplacedKeeps(a: Arena, level: nat, now: CurrentState)
    requires Inv(a) && (level == 0 || level == a.current) && Grows(a.states[level], now)
    requires level == 0 ==> Aligned(now)
    requires level != 0 ==> |now.scoped| <= now.capacity && Bijective(now)
    requires level != 0 ==> forall s :: 0 <= s < |now.scoped| ==> Reaches(Replaced(a, level, now), level, now.scoped[s])
    ensures Inv(Replaced(a, level, now)) && Keeps(a, Replaced(a, level, now))
  {
    var b := Replaced(a, level, now);
    forall l | 1 <= l <= b.current ensures LevelInv(b, l) {
      if l != level {
        assert LevelInv(a, l);
        forall s | 0 <= s < |b.states[l].scoped| ensures Reaches(b, l, b.states[l].scoped[s]) {
          ReachesReplaced(a, level, now, l, b.states[l].scoped[s]);
        }
      }
    }
  }

  lemma PokeKeeps(a: Arena, level: nat, at: nat, v: Variant)
    requires Inv(a) && (level == 0 || level == a.current) && at < |a.states[level].variants|
    ensures Inv(Poke(a, level, at, v)) && Keeps(a, Poke(a, level, at, v))
  {
    var st := a.states[level];
    var now := st.(variants := st.variants[at := v]);
    if level != 0 {
      assert LevelInv(a, level);
      forall s | 0 <= s < |now.scoped| ensures Reaches(Replaced(a, level, now), level, now.scoped[s]) {
        ReachesReplaced(a, level, now, level, now.scoped[s]);
      }
    }
    ReplacedKeeps(a, level, now);
  }

  /** Below the capacity, `append` adds one element and one slot for it. */
  function Appended(st: CurrentState, v: Variant): CurrentState {
    st.(variants := st.variants + [v], scoped := st.scoped + [Cell(st.buffer, |st.variants|)])
  }

  lemma AppendedBijective(st: CurrentState, v: Variant)
    requires Bijective(st)
    ensures Bijective(Appended(st, v))
  {
    OwnedSlotsPush(st.scoped, st.buffer, Cell(st.buffer, |st.variants|));
    assert Appended(st, v).scoped[|st.scoped|] == Cell(st.buffer, |st.variants|);
    forall at | 0 <= at < |st.variants| ensures Cell(st.buffer, at) in Appended(st, v).scoped {}
  }

  /** A slot that is free is a slot the vector of Variants has room for. */
  lemma RoomForSlot(a: Arena, level: nat)
    requires Inv(a) && (level == 0 || level == a.current)
    ensures |a.states[level].variants| <= |a.states[level].scoped| <= a.states[level].capacity
  {
    if level != 0 {
      assert LevelInv(a, level);
      OwnedSlotsBound(a.states[level].scoped, a.states[level].buffer);
    }
  }

  lemma AppendShape(a: Arena, level: nat, v: Variant)
    requires level < MAX_LEVEL && |a.states[level].variants| < a.states[level].capacity
    ensures Append(a, level, v) == Replaced(a, level, Appended(a.states[level], v))
  {
  }

  lemma AppendKeeps(a: Arena, level: nat, v: Variant)
    requires Inv(a) && (level == 0 || level == a.current)
    requires |a.states[level].scoped| < a.states[level].capacity
    ensures Append(a, level, v) == Replaced(a, level, Appended(a.states[level], v))
    ensures Inv(Append(a, level, v)) && Keeps(a, Append(a, level, v))
  {
    RoomForSlot(a, level);
    AppendShape(a, level, v);
    var st := a.states[level];
    var now := Appended(st, v);
    if level != 0 {
      assert LevelInv(a, level);
      AppendedBijective(st, v);
      AppendedReaches(a, level, v);
    }
    ReplacedKeeps(a, level, now);
  }

  lemma AppendedReaches(a: Arena, level: nat, v: Variant)
    requires Storage(a) && level < MAX_LEVEL && LevelInv(a, level)
    ensures var now := Appended(a.states[level], v);
      forall s :: 0 <= s < |now.scoped| ==> Reaches(Replaced(a, level, now), level, now.scoped[s])
  {
    var now := Appended(a.states[level], v);
    forall s | 0 <= s < |now.scoped| ensures Reaches(Replaced(a, level, now), level, now.scoped[s]) {
      if s < |a.states[level].scoped| {
        ReachesReplaced(a, level, now, level, now.scoped[s]);
      }
    }
  }

  lemma PushedBijective(st: CurrentState, p: Pointer)
    requires Bijective(st) && !Owns(st, p)
    ensures Bijective(st.(scoped := st.scoped + [p]))
  {
    OwnedSlotsPush(st.scoped, st.buffer, p);
    forall at | 0 <= at < |st.variants| ensures Cell(st.buffer, at) in st.scoped + [p] {}
  }

  lemma PushPointerKeeps(a: Arena, p: Pointer)
    requires Inv(a) && a.current != 0 && |State(a).scoped| < State(a).capacity
    requires Reaches(a, a.current, p) && !Owns(State(a), p)
    ensures Inv(PushPointer(a, a.current, p)) && Keeps(a, PushPointer(a, a.current, p))
  {
    var st := State(a);
    var now := st.(scoped := st.scoped + [p]);
    assert LevelInv(a, a.current);
    PushedBijective(st, p);
    ReachesReplaced(a, a.current, now, a.current, p);
    forall s | 0 <= s < |st.scoped| ensures Reaches(Replaced(a, a.current, now), a.current, st.scoped[s]) {
      ReachesReplaced(a, a.current, now, a.current, st.scoped[s]);
    }
    ReplacedKeeps(a, a.current, now);
  }

  /** Copying a Variant the level does not own, and pointing the slot at the copy. */
  function Repointed(st: CurrentState, s: nat, v: Variant): CurrentState
    requires s < |st.scoped|
  {
    st.(variants := st.variants + [v], scoped := st.scoped[s := Cell(st.buffer, |st.variants|)])
  }

  lemma RepointedBijective(st: CurrentState, s: nat, v: Variant)
    requires Bijective(st) && s < |st.scoped| && !Owns(st, st.scoped[s])
    ensures Bijective(Repointed(st, s, v))
  {
    var now := Repointed(st, s, v);
    OwnedSlotsUpdate(st.scoped, st.buffer, s, |st.variants|);
    forall at | 0 <= at < |now.variants| ensures Cell(st.buffer, at) in now.scoped {
      if at == |st.variants| {
        assert now.scoped[s] == Cell(st.buffer, at);
      } else {
        var t :| 0 <= t < |st.scoped| && st.scoped[t] == Cell(st.buffer, at);
        assert now.scoped[t] == st.scoped[t];
      }
    }
  }

  lemma RepointKeeps(a: Arena, s: nat, v: Variant)
    requires Inv(a) && a.current != 0 && s < |State(a).scoped| && !Owns(State(a), State(a).scoped[s])
    ensures |State(a).variants| < State(a).capacity
    ensures Inv(Replaced(a, a.current, Repointed(State(a), s, v)))
    ensures Keeps(a, Replaced(a, a.current, Repointed(State(a), s, v)))
  {
    var st := State(a);
    var now := Repointed(st, s, v);
    assert LevelInv(a, a.current);
    OwnedSlotsBound(st.scoped, st.buffer);
    RepointedBijective(st, s, v);
    forall t | 0 <= t < |now.scoped| ensures Reaches(Replaced(a, a.current, now), a.current, now.scoped[t]) {
      if t != s {
        ReachesReplaced(a, a.current, now, a.current, st.scoped[t]);
      }
    }
    ReplacedKeeps(a, a.current, now);
  }
}
