/**
  The arena as the program has it: an object whose operations update its levels in place and throw
  part-way. Each is proved to leave the fields as the operation of the same name in VariantArena and
  ArenaRuns leaves the value, to keep the invariant, and to give its caller what ArenaOperations proves.
 */
module ArenaMachine {
  import opened Basics
  import opened VariantArena
  import opened ArenaInvariant
  import opened ArenaOperations
  import opened ArenaRuns
  import opened ArenaCalls

  class Sandbox {
    var states: seq<CurrentState>
    var current: nat
    var host: seq<Variant>
    var nextBuffer: nat
    var maxRefs: nat
    var exceptions: nat
    var callsMade: nat

    /** As many levels as there are, and one of them current: what holds also in the middle of an operation. */
    predicate Shaped()
      reads this
    {
      |states| == MAX_LEVEL && current < MAX_LEVEL
    }

    function View(): Arena
      requires Shaped()
      reads this
    {
      ArenaFields(states, current, host, nextBuffer, maxRefs, exceptions, callsMade)
    }

    ghost predicate Valid()
      reads this
    {
      Shaped() && Inv(View())
    }

    constructor (max: nat)
      ensures Shaped() && (Valid() <==> max < INT32_LIMIT)
      ensures current == 0 && maxRefs == max
      ensures forall l :: 0 <= l < MAX_LEVEL ==> states[l].capacity == max && states[l].variants == [] && states[l].scoped == []
    {
      states := seq(MAX_LEVEL, (l: nat) => CurrentState([], max, l, []));
      current, host, nextBuffer, maxRefs, exceptions, callsMade := 0, [], MAX_LEVEL, max, 0, 0;
      new;
      assert states[0].capacity == max;
    }

    /** `variants.push_back` of one level. */
    method PushBackAt(level: nat, v: Variant)
      requires Shaped() && level < MAX_LEVEL
      modifies this`states, this`nextBuffer
      ensures Shaped() && View() == PushBack(old(View()), level, v)
    {
      var st := states[level];
      if |st.variants| >= st.capacity {
        st := st.(capacity := 2 * st.capacity + 1, buffer := nextBuffer);
        nextBuffer := nextBuffer + 1;
      }
      states := states[level := st.(variants := st.variants + [v])];
    }

    method AppendAt(level: nat, v: Variant)
      requires Shaped() && level < MAX_LEVEL
      modifies this`states, this`nextBuffer
      ensures Shaped() && View() == Append(old(View()), level, v)
    {
      PushBackAt(level, v);
      var st := states[level];
      states := states[level := st.(scoped := st.scoped + [Back(st)])];
    }

    /** An assignment to one element. */
    method PokeAt(level: nat, at: nat, v: Variant)
      requires Shaped() && level < MAX_LEVEL && at < |states[level].variants|
      modifies this`states
      ensures Shaped() && View() == Poke(old(View()), level, at, v)
    {
      var st := states[level];
      states := states[level := st.(variants := st.variants[at := v])];
    }

    /** `add_scoped_variant`, for a Variant of the host or of a level below. */
    method AddScopedVariant(p: Pointer) returns (r: Outcome<Int32>)
      requires Valid() && current != 0 && Reaches(View(), current, p) && !Owns(states[current], p)
      modifies this`states
      ensures Valid() && Reply(View(), r) == AddScoped(old(View()), p)
      ensures Keeps(old(View()), View()) && NothingChanged(old(View()), View())
      ensures r.Thrown? <==> old(|states[current].scoped| == states[current].capacity)
      ensures r.Returned? ==> GetScoped(View(), r.value) == Some(p) && Costs(old(View()), View(), 1, 0)
    {
      AddScopedResolves(View(), p);
      var st := states[current];
      if |st.scoped| >= st.capacity {
        return Thrown;
      }
      states := states[current := st.(scoped := st.scoped + [p])];
      return Returned(NewestIndex(View()));
    }

    method CreateScopedVariant(v: Variant) returns (r: Outcome<Int32>)
      requires Valid()
      modifies this`states, this`nextBuffer
      ensures Valid() && Reply(View(), r) == CreateScoped(old(View()), v)
      ensures Keeps(old(View()), View()) && NothingChanged(old(View()), View())
      ensures r.Thrown? <==> old(|states[current].scoped| == states[current].capacity)
      ensures r.Returned? ==> Holds(old(View()), View(), r.value, v) && Costs(old(View()), View(), 1, 1)
    {
      CreateScopedResolves(View(), v);
      if |states[current].scoped| >= states[current].capacity {
        return Thrown;
      }
      AppendAt(current, v);
      return Returned(NewestIndex(View()));
    }

    /** The capacity check is the source's; the contract says that it never fires. */
    method GetMutableScopedVariant(index: Int32) returns (r: Outcome<Pointer>)
      requires Valid()
      modifies this`states, this`nextBuffer
      ensures Valid() && Reply(View(), r) == GetMutable(old(View()), index)
      ensures Keeps(old(View()), View()) && NothingChanged(old(View()), View())
      ensures r.Thrown? <==> GetScoped(old(View()), index).None?
      ensures r.Returned? ==> GetScoped(View(), index) == Some(r.value) && Writable(View(), r.value)
      ensures r.Returned? ==> Deref(View(), r.value) == Deref(old(View()), GetScoped(old(View()), index).value)
    {
      GetMutableResolves(View(), index);
      var level, slot: int := current, index;
      if IsPermanent(index) {
        level, slot := 0, -index - 1;
      }
      if slot < 0 || slot >= |states[level].scoped| {
        return Thrown;
      }
      var p := states[level].scoped[slot];
      if IsMutable(states[level], p) {
        return Returned(p);
      }
      if |states[level].variants| >= states[level].capacity {
        return Thrown;
      }
      PushBackAt(level, Deref(View(), p));
      var st := states[level];
      states := states[level := st.(scoped := st.scoped[slot := Back(st)])];
      return Returned(Back(states[level]));
    }

    /** The write a caller of `get_mutable_scoped_variant` makes through the reference it got. */
    method WriteScopedVariant(index: Int32, v: Variant) returns (r: Outcome<()>)
      requires Valid()
      modifies this`states, this`nextBuffer
      ensures Valid() && Reply(View(), r) == Mutate(old(View()), index, v)
      ensures Keeps(old(View()), View())
      ensures r.Thrown? <==> GetScoped(old(View()), index).None?
      ensures r.Thrown? ==> View() == old(View())
      ensures r.Returned? ==> Holds(old(View()), View(), index, v)
    {
      MutateHolds(View(), index, v);
      var got := GetMutableScopedVariant(index);
      if got.Thrown? {
        return Thrown;
      }
      PokeAt(if IsPermanent(index) then 0 else current, got.value.at, v);
      return Returned(());
    }

    method CreatePermanentVariant(index: Int32, husk: Variant) returns (r: Outcome<Int32>)
      requires Valid()
      modifies this`states, this`nextBuffer
      ensures Valid() && Reply(View(), r) == CreatePermanent(old(View()), index, husk)
      ensures Keeps(old(View()), View())
      ensures r.Thrown? <==> index >= 0 && GetScoped(old(View()), index).None?
      ensures r.Returned? && r.value != index ==>
        GetScoped(View(), r.value).Some?
        && Deref(View(), GetScoped(View(), r.value).value) == Deref(old(View()), GetScoped(old(View()), index).value)
        && OnlyChanged(old(View()), View(), GetScoped(old(View()), index).value)
      ensures r.Thrown? || r.value == index ==> View() == old(View())
    {
      MakePermanentResolves(View(), index, husk);
      if index < 0 {
        return Returned(index);
      }
      var found := GetScoped(View(), index);
      if found.None? {
        return Thrown;
      }
      if |states[0].variants| >= states[0].capacity {
        return Returned(index);
      }
      var v := Deref(View(), found.value);
      if IsMutable(states[current], found.value) {
        PokeAt(current, found.value.at, husk);
      }
      AppendAt(0, v);
      var newest: int := ToInt32(|states[0].variants| - 1);
      return Returned(ToInt32(-newest - 1));
    }

    method AssignPermanentVariant(index: Int32, v: Variant) returns (r: Outcome<()>)
      requires Valid() && index != INT32_MIN
      modifies this`states
      ensures Valid() && Reply(View(), r) == AssignPermanent(old(View()), index, v)
      ensures Keeps(old(View()), View())
      ensures r.Returned? <==> IsPermanent(index) && GetScoped(old(View()), index).Some?
      ensures r.Returned? ==> Holds(old(View()), View(), index, v)
    {
      if IsPermanent(index) {
        AssignPermanentHolds(View(), index, v);
      } else {
        KeepsItself(View());
      }
      if index < 0 {
        var at := -index - 1;
        if at < |states[0].variants| {
          PokeAt(0, at, v);
          return Returned(());
        }
      }
      return Thrown;
    }

    method TryReuseAssignVariant(index: Int32, v: Variant) returns (r: Outcome<Int32>)
      requires Valid()
      modifies this`states, this`nextBuffer
      ensures Valid() && Reply(View(), r) == TryReuse(old(View()), index, v)
      ensures Keeps(old(View()), View())
      ensures r.Thrown? <==> NoRoomFor(old(View()), index)
      ensures r.Thrown? ==> View() == old(View())
      ensures r.Returned? ==> Holds(old(View()), View(), r.value, v)
    {
      TryReuseHolds(View(), index, v);
      if IsPermanent(index) {
        var stored := AssignPermanentVariant(index, v);
        return if stored.Thrown? then Thrown else Returned(index);
      }
      var st := states[current];
      if index >= 0 && index < |st.scoped| {
        var p := st.scoped[index];
        if IsMutable(st, p) {
          PokeAt(current, p.at, v);
          return Returned(index);
        }
      }
      r := CreateScopedVariant(v);
    }

    method TryReuseAssignFrom(sourceIndex: Int32, source: Pointer, index: Int32, v: Variant) returns (r: Outcome<Int32>)
      requires Valid() && (index == sourceIndex ==> GetScoped(View(), sourceIndex) == Some(source))
      modifies this`states, this`nextBuffer
      ensures Valid() && Reply(View(), r) == TryReuseFrom(old(View()), sourceIndex, source, index, v)
      ensures Keeps(old(View()), View())
      ensures r.Thrown? <==>
        NoRoomFor(old(View()), index) && !(index == sourceIndex && old(IsMutable(states[current], source)))
      ensures r.Thrown? ==> View() == old(View())
      ensures r.Returned? ==> Holds(old(View()), View(), r.value, v)
    {
      TryReuseFromHolds(View(), sourceIndex, source, index, v);
      if !IsPermanent(index) && index == sourceIndex && IsMutable(states[current], source) {
        PokeAt(current, source.at, v);
        return Returned(index);
      }
      r := TryReuseAssignVariant(index, v);
    }

    /** `api_vassign`. */
    method VAssign(to: Int32, from: Int32) returns (r: Outcome<Int32>)
      requires Valid()
      modifies this`states, this`nextBuffer
      ensures Valid() && Reply(View(), r) == Assign(old(View()), to, from)
      ensures Keeps(old(View()), View())
      ensures to != INT32_MIN ==> (r.Thrown? <==> Refused(old(View()), to, from) || NoRoomFor(old(View()), to))
      ensures r.Thrown? ==> View() == old(View())
      ensures to != INT32_MIN && r.Returned? ==>
        Holds(old(View()), View(), r.value, Deref(old(View()), GetScoped(old(View()), from).value))
    {
      AssignHolds(View(), to, from);
      if to == INT32_MIN {
        return Returned(from);
      }
      var p := GetScoped(View(), to);
      if p.None? {
        return Thrown;
      }
      var q := GetScoped(View(), from);
      if q.None? {
        return Thrown;
      }
      var va, vb := Deref(View(), p.value), Deref(View(), q.value);
      if va.kind != NIL_KIND && va.kind != vb.kind {
        return Thrown;
      }
      r := TryReuseAssignFrom(from, p.value, to, vb);
    }

    /** The copying half of `api_vclone`. */
    method VClone(index: Int32) returns (r: Outcome<Int32>)
      requires Valid()
      modifies this`states, this`nextBuffer
      ensures Valid() && Reply(View(), r) == Clone(old(View()), index)
      ensures Keeps(old(View()), View()) && NothingChanged(old(View()), View())
      ensures r.Thrown? <==>
        GetScoped(old(View()), index).None? || old(|states[current].scoped| == states[current].capacity)
      ensures r.Thrown? ==> View() == old(View())
      ensures r.Returned? ==>
        Holds(old(View()), View(), r.value, Deref(old(View()), GetScoped(old(View()), index).value))
    {
      CloneHolds(View(), index);
      var p := GetScoped(View(), index);
      if p.None? {
        return Thrown;
      }
      r := CreateScopedVariant(Deref(View(), p.value));
    }

    method ReserveAt(level: nat, n: nat)
      requires Shaped() && level < MAX_LEVEL
      modifies this`states, this`nextBuffer
      ensures Shaped() && View() == Reserve(old(View()), level, n)
    {
      var st := states[level];
      if n > st.capacity {
        states := states[level := st.(capacity := n, buffer := nextBuffer)];
        nextBuffer := nextBuffer + 1;
      }
    }

    /** Every limit is accepted; the object stays sound exactly when the limit is harmless where it is set. */
    method SetMaxReferences(max: nat)
      requires Valid()
      modifies this`states, this`nextBuffer, this`maxRefs
      ensures Shaped() && View() == SetMaxRefs(old(View()), max)
      ensures Valid() <==> Harmless(old(View()), max)
      ensures Valid() ==> Keeps(old(View()), View())
    {
      SetMaxRefsIntact(View(), max);
      if Harmless(View(), max) {
        LimitSafe(View(), max);
      }
      maxRefs := max;
      if current == 0 {
        ReserveAt(0, max);
        ReserveAt(1, max);
        ReserveAt(2, max);
        ReserveAt(3, max);
      }
    }

    // ----- Calls

    /** The host turning the arguments of a call into pointers. */
    method MakePointers(args: seq<Argument>) returns (r: Outcome<seq<Pointer>>)
      requires Shaped()
      modifies this`host
      ensures Shaped() && Reply(View(), r) == Pointers(old(View()), args)
      decreases args
    {
      if args == [] {
        return Returned([]);
      }
      var p: Pointer;
      match args[0] {
        case Named(index) =>
          var found := GetScoped(View(), index);
          if found.None? {
            return Thrown;
          }
          p := found.value;
        case Temporary(v) =>
          p := Host(|host|);
          host := host + [v];
      }
      var rest := MakePointers(args[1..]);
      return if rest.Thrown? then Thrown else Returned([p] + rest.value);
    }

    /** The part of `setup_arguments` that scopes complex arguments, one by one; each is from below this level. */
    method ScopeArguments(ps: seq<Pointer>) returns (threw: bool)
      requires Valid() && current != 0 && forall p :: p in ps ==> Reaches(View(), current - 1, p)
      modifies this`states
      ensures Valid() && Ran(View(), threw) == AddAll(old(View()), ps)
      decreases ps
    {
      if ps == [] {
        return false;
      }
      AddFirst(View(), ps);
      var added := AddScopedVariant(ps[0]);
      if added.Thrown? {
        return true;
      }
      threw := ScopeArguments(ps[1..]);
    }

    /** `m_current_state += 1` and `state.reset()`. */
    method EnterLevel()
      requires Shaped() && current + 1 < MAX_LEVEL
      modifies this`states, this`current, this`callsMade
      ensures Shaped() && View() == Enter(old(View()))
    {
      current := current + 1;
      states := states[current := states[current].(variants := [], scoped := [])];
      callsMade := callsMade + 1;
    }

    /**
      `vmcall_internal`, with the guest function given as the steps it takes. However it ends, the level is
      what it was, and so is every level of the calls outside; and what the guest left behind is there.
     */
    method VmCallInternal(ps: seq<Pointer>, body: seq<Step>)
      requires Valid() && forall p :: p in ps ==> Reaches(View(), current, p)
      modifies this
      ensures Valid() && View() == VmCall(old(View()), ps, body)
      ensures Framed(old(View()), View()) && LeftByCall(old(View()), ps, body, View())
      decreases body, 1
    {
      ghost var was := View();
      if current + 1 >= MAX_LEVEL {
        exceptions := exceptions + 1;
      } else {
        var threw := RunAbove(ps, body);
        if threw {
          exceptions := exceptions + 1;
        }
        current := current - 1;
      }
      assert View() == VmCall(was, ps, body);
      VmCallFramed(was, ps, body);
      CallLeaves(was, ps, body);
    }

    /** The called function, on the level above; left there for the caller to come back from. */
    method RunAbove(ps: seq<Pointer>, body: seq<Step>) returns (threw: bool)
      requires Valid() && current + 1 < MAX_LEVEL && forall p :: p in ps ==> Reaches(View(), current, p)
      modifies this
      ensures Shaped() && current == old(current) + 1
      ensures var entered := AddAll(Enter(old(View())), ps);
        Ran(View(), threw) == if entered.threw then entered else Run(entered.arena, body)
      decreases body, 0, 1
    {
      EnterInv(View());
      ghost var entered := AddAll(Enter(View()), ps).arena;
      AddAllCurrent(Enter(View()), ps);
      CalmInsideCall(entered, body);
      EnterLevel();
      threw := ScopeArguments(ps);
      if !threw {
        threw := RunGuest(body);
      }
    }

    /** One operation of the guest; true when it throws. */
    method DoStep(s: Step) returns (threw: bool)
      requires Valid() && CalmStep(View(), s)
      modifies this
      ensures Valid() && Ran(View(), threw) == Do(old(View()), s)
      ensures Keeps(old(View()), View())
      decreases s, 2
    {
      DoSafe(View(), s);
      match s {
        case MakePermanent(i, husk) =>
          var r := CreatePermanentVariant(i, husk);
          threw := r.Thrown?;
        case Limit(max) =>
          SetMaxReferences(max);
          threw := false;
        case Call(args, body) =>
          threw := CallGuest(args, body);
        case Fail =>
          threw := true;
        case _ =>
          threw := DoWrite(s);
      }
    }

    /** The operations that create or write one Variant. */
    method DoWrite(s: Step) returns (threw: bool)
      requires Valid() && (s.Create? || s.Write? || s.Reuse? || s.ReuseFrom? || s.Copy? || s.Set?)
      modifies this`states, this`nextBuffer
      ensures Valid() && Ran(View(), threw) == Do(old(View()), s)
    {
      match s {
        case Create(v) =>
          var r := CreateScopedVariant(v);
          threw := r.Thrown?;
        case Write(i, v) =>
          var r := WriteScopedVariant(i, v);
          threw := r.Thrown?;
        case Reuse(i, v) =>
          var r := TryReuseAssignVariant(i, v);
          threw := r.Thrown?;
        case ReuseFrom(source, i, v) =>
          var p := GetScoped(View(), source);
          if p.None? {
            return true;
          }
          var r := TryReuseAssignFrom(source, p.value, i, v);
          threw := r.Thrown?;
        case Copy(i) =>
          var r := VClone(i);
          threw := r.Thrown?;
        case Set(to, from) =>
          var r := VAssign(to, from);
          threw := r.Thrown?;
      }
    }

    /** A call made by the guest, with the arguments it names; naming one that does not resolve throws. */
    method CallGuest(args: seq<Argument>, body: seq<Step>) returns (threw: bool)
      requires Valid()
      modifies this
      ensures Valid() && Ran(View(), threw) == Do(old(View()), Call(args, body))
      decreases body, 2
    {
      PointersReach(View(), args);
      var ps := MakePointers(args);
      if ps.Thrown? {
        return true;
      }
      VmCallInternal(ps.value, body);
      threw := false;
    }

    method RunGuest(body: seq<Step>) returns (threw: bool)
      requires Valid() && Calm(View(), body)
      modifies this
      ensures Valid() && Ran(View(), threw) == Run(old(View()), body)
      ensures Keeps(old(View()), View())
      decreases body, 0, 0
    {
      RunSafe(View(), body);
      if body == [] {
        return false;
      }
      threw := DoStep(body[0]);
      if !threw {
        threw := RunGuest(body[1..]);
      }
    }
  }

  lemma KeepsItself(a: Arena)
    ensures Keeps(a, a)
  {
  }

  /** Both cases of `create_permanent_variant` together. */
  lemma MakePermanentResolves(a: Arena, index: Int32, husk: Variant)
    requires Inv(a)
    ensures var r := CreatePermanent(a, index, husk);
      && Inv(r.arena) && Keeps(a, r.arena)
      && (r.result.Thrown? <==> index >= 0 && GetScoped(a, index).None?)
      && (r.result.Returned? && r.result.value != index ==>
            && GetScoped(r.arena, r.result.value).Some? && GetScoped(a, index).Some?
            && Deref(r.arena, GetScoped(r.arena, r.result.value).value) == Deref(a, GetScoped(a, index).value)
            && OnlyChanged(a, r.arena, GetScoped(a, index).value))
      && (r.result.Thrown? || r.result.value == index ==> r.arena == a)
  {
    if index < 0 || GetScoped(a, index).None? || |a.states[0].variants| == a.states[0].capacity {
      CreatePermanentDeclines(a, index, husk);
    } else {
      CreatePermanentResolves(a, index, husk);
    }
  }
}
