/**
  Guest addresses by function name, behind three caches: one keyed by the name's hash, one by
  StringName, and a small direct-mapped one keyed by a string's own buffer
  (src/sandbox.cpp:371-387, 1135-1188, 1237-1244; src/sandbox.h:127-142).
 */
module AddressCache {

  // ----- State

  /** A String: the address of its buffer, and the text in it. */
  datatype StringRef = StringRef(buffer: nat, text: string)

  datatype LookupEntry = LookupEntry(name: string, address: nat)

  datatype NameEntry = NameEntry(name: StringRef, address: nat, valid: bool)

  const NO_ENTRY := NameEntry(StringRef(0, ""), 0, false)

  /** NameAddressCache::SIZE. */
  const SIZE: nat := 8

  const NO_ENTRIES := [NO_ENTRY, NO_ENTRY, NO_ENTRY, NO_ENTRY, NO_ENTRY, NO_ENTRY, NO_ENTRY, NO_ENTRY]

  /** The machine: absent, or the symbols of the program in it, zero for a name it does not have. */
  datatype Machine = Dummy | Loaded(symbol: string -> nat)

  datatype CacheFields = CacheFields(
    machine: Machine, lookup: map<int, LookupEntry>, snames: map<string, nat>, entries: seq<NameEntry>)

  type Cache = c: CacheFields | |c.entries| == SIZE witness CacheFields(Dummy, map[], map[], NO_ENTRIES)

  /** The slot of a buffer: its address times a 64-bit constant, shifted down and masked. */
  function SlotOf(buffer: nat): (slot: nat)
    ensures slot < SIZE
  {
    buffer * 0x9E37_79B9_7F4A_7C15 % 0x1_0000_0000_0000_0000 / 0x1_0000_0000 % SIZE
  }

  // ----- Operations

  /** `cached_address_of(hash, name)`. */
  function LookupHash(c: Cache, hash: string -> int, name: string): (Cache, nat) {
    if hash(name) in c.lookup then (c, c.lookup[hash(name)].address)
    else
      match c.machine
      case Dummy => (c, 0)
      case Loaded(symbol) =>
        (c.(lookup := c.lookup[hash(name) := LookupEntry(name, symbol(name))]), symbol(name))
  }

  /** `cached_address_of(StringName)`. */
  function LookupStringName(c: Cache, hash: string -> int, name: string): (Cache, nat) {
    if name in c.snames then (c, c.snames[name])
    else
      var (found, address) := LookupHash(c, hash, name);
      (found.(snames := found.snames[name := address]), address)
  }

  /** `cached_address_of_variant` on a String: a hit is the same buffer, not merely the same text. */
  function LookupString(c: Cache, hash: string -> int, name: StringRef): (Cache, nat) {
    var entry := c.entries[SlotOf(name.buffer)];
    if entry.valid && entry.name.buffer == name.buffer then (c, entry.address)
    else
      var (found, address) := LookupHash(c, hash, name.text);
      (found.(entries := found.entries[SlotOf(name.buffer) := NameEntry(name, address, true)]), address)
  }

  /** `add_cached_address`. */
  function Register(c: Cache, hash: string -> int, name: string, address: nat): Cache {
    c.(lookup := c.lookup[hash(name) := LookupEntry(name, address)], snames := map[], entries := NO_ENTRIES)
  }

  /** Taking over a function a resource lists, while loading (src/sandbox.cpp:683-688): only the first cache is told. */
  function Adopt(c: Cache, hash: string -> int, name: string, address: nat): Cache {
    c.(lookup := c.lookup[hash(name) := LookupEntry(name, address)])
  }

  /** `full_reset`, and then a machine for the new program or none. */
  function Reset(machine: Machine): Cache { CacheFields(machine, map[], map[], NO_ENTRIES) }

  // ----- What a lookup is supposed to answer

  /** The address last registered for the name, else the program's symbol, else zero. */
  function Want(machine: Machine, registered: map<string, nat>, name: string): nat {
    if name in registered then registered[name]
    else if machine.Loaded? then machine.symbol(name)
    else 0
  }

  ghost predicate InjectiveOn(hash: string -> int, used: set<string>) {
    forall a, b :: a in used && b in used && hash(a) == hash(b) ==> a == b
  }

  /**
    All three caches agree with the one map. `live` is the buffers in use and their text; a buffer the
    third cache holds on to is one of them, with the text it had, and is found in its own slot.
   */
  ghost predicate Agrees(
    c: Cache, hash: string -> int, used: set<string>, registered: map<string, nat>, live: map<nat, string>)
  {
    && (forall h :: h in c.lookup ==>
          && c.lookup[h].name in used && hash(c.lookup[h].name) == h
          && c.lookup[h].address == Want(c.machine, registered, c.lookup[h].name))
    && (forall name :: name in registered ==> name in used && hash(name) in c.lookup)
    && (forall name :: name in c.snames ==> c.snames[name] == Want(c.machine, registered, name))
    && (forall i :: 0 <= i < SIZE && c.entries[i].valid ==>
          && SlotOf(c.entries[i].name.buffer) == i
          && c.entries[i].name.buffer in live && live[c.entries[i].name.buffer] == c.entries[i].name.text
          && c.entries[i].address == Want(c.machine, registered, c.entries[i].name.text))
  }

  // ----- Single operations

  lemma LookupHashAgrees(
    c: Cache, hash: string -> int, used: set<string>, registered: map<string, nat>, live: map<nat, string>, name: string)
    requires Agrees(c, hash, used, registered, live) && InjectiveOn(hash, used) && name in used
    ensures LookupHash(c, hash, name).1 == Want(c.machine, registered, name)
    ensures Agrees(LookupHash(c, hash, name).0, hash, used, registered, live)
  {
    if hash(name) in c.lookup {
      var entry := c.lookup[hash(name)];
      assert entry.name in used && hash(entry.name) == hash(name);
      assert entry.name == name;
    }
  }

  lemma LookupStringNameAgrees(
    c: Cache, hash: string -> int, used: set<string>, registered: map<string, nat>, live: map<nat, string>, name: string)
    requires Agrees(c, hash, used, registered, live) && InjectiveOn(hash, used) && name in used
    ensures LookupStringName(c, hash, name).1 == Want(c.machine, registered, name)
    ensures Agrees(LookupStringName(c, hash, name).0, hash, used, registered, live)
  {
    LookupHashAgrees(c, hash, used, registered, live, name);
  }

  lemma LookupStringAgrees(
    c: Cache, hash: string -> int, used: set<string>, registered: map<string, nat>, live: map<nat, string>, name: StringRef)
    requires Agrees(c, hash, used, registered, live) && InjectiveOn(hash, used) && name.text in used
    requires name.buffer in live && live[name.buffer] == name.text
    ensures LookupString(c, hash, name).1 == Want(c.machine, registered, name.text)
    ensures Agrees(LookupString(c, hash, name).0, hash, used, registered, live)
  {
    LookupHashAgrees(c, hash, used, registered, live, name.text);
  }

  /**
    Each lookup answers the same question from its own cache the second time, whatever has become of the
    program and of the other caches; only the one by hash remembers nothing while there is no program.
   */
  lemma SecondLookupHits(c: Cache, hash: string -> int, ref: StringRef, now: Cache)
    ensures var (found, address) := LookupHash(c, hash, ref.text);
      (c.machine.Loaded? || hash(ref.text) in c.lookup) && now.lookup == found.lookup ==>
        LookupHash(now, hash, ref.text) == (now, address)
    ensures var (found, address) := LookupStringName(c, hash, ref.text);
      now.snames == found.snames ==> LookupStringName(now, hash, ref.text) == (now, address)
    ensures var (found, address) := LookupString(c, hash, ref);
      now.entries == found.entries ==> LookupString(now, hash, ref) == (now, address)
  {
  }

  lemma RegisterAgrees(
    c: Cache, hash: string -> int, used: set<string>, registered: map<string, nat>, live: map<nat, string>,
    name: string, address: nat)
    requires Agrees(c, hash, used, registered, live) && InjectiveOn(hash, used) && name in used
    ensures Agrees(Register(c, hash, name, address), hash, used, registered[name := address], live)
  {
  }

  /** Neither of the two quicker caches has an answer for `name` other than `address`. */
  predicate NotCachedOtherwise(c: Cache, name: string, address: nat) {
    && (name in c.snames ==> c.snames[name] == address)
    && forall i :: 0 <= i < SIZE && c.entries[i].valid && c.entries[i].name.text == name ==> c.entries[i].address == address
  }

  /**
    Adopting an address while loading keeps the caches in agreement exactly when neither of the two
    quicker ones holds another address for the name.
   */
  lemma AdoptAgrees(
    c: Cache, hash: string -> int, used: set<string>, registered: map<string, nat>, live: map<nat, string>,
    name: string, address: nat)
    requires Agrees(c, hash, used, registered, live) && InjectiveOn(hash, used) && name in used
    ensures Agrees(Adopt(c, hash, name, address), hash, used, registered[name := address], live)
       <==> NotCachedOtherwise(c, name, address)
  {
    var now := Adopt(c, hash, name, address);
    if Agrees(now, hash, used, registered[name := address], live) {
      forall i | 0 <= i < SIZE && c.entries[i].valid && c.entries[i].name.text == name
        ensures c.entries[i].address == address
      {
        assert now.entries[i] == c.entries[i];
      }
      assert name in c.snames ==> now.snames[name] == Want(now.machine, registered[name := address], name);
    }
  }

  // ----- Runs

  datatype Op =
    | ByHash(name: string)
    | ByStringName(name: string)
    | ByString(ref: StringRef)
    | Registers(name: string, address: nat)
    | Adopts(name: string, address: nat)
    | Loads(symbol: string -> nat)
    | Unloads
    | Allocate(buffer: nat, text: string)
    | Release(buffer: nat)

  /** The program, what it registered, and the strings around it. */
  datatype World = World(cache: Cache, registered: map<string, nat>, live: map<nat, string>)

  predicate Holds(c: Cache, buffer: nat) {
    exists i :: 0 <= i < SIZE && c.entries[i].valid && c.entries[i].name.buffer == buffer
  }

  /** What the engine's strings allow: a buffer is reused only once released, and not while a cache entry holds it. */
  predicate Possible(w: World, used: set<string>, op: Op) {
    match op
    case ByHash(name) => name in used
    case ByStringName(name) => name in used
    case ByString(ref) => ref.text in used && ref.buffer in w.live && w.live[ref.buffer] == ref.text
    case Registers(name, _) => name in used
    case Adopts(name, _) => name in used
    case Loads(_) => true
    case Unloads => true
    case Allocate(buffer, _) => buffer !in w.live
    case Release(buffer) => !Holds(w.cache, buffer)
  }

  function Do(w: World, hash: string -> int, op: Op): World {
    match op
    case ByHash(name) => w.(cache := LookupHash(w.cache, hash, name).0)
    case ByStringName(name) => w.(cache := LookupStringName(w.cache, hash, name).0)
    case ByString(ref) => w.(cache := LookupString(w.cache, hash, ref).0)
    case Registers(name, address) =>
      w.(cache := Register(w.cache, hash, name, address), registered := w.registered[name := address])
    case Adopts(name, address) =>
      w.(cache := Adopt(w.cache, hash, name, address), registered := w.registered[name := address])
    case Loads(symbol) => w.(cache := Reset(Loaded(symbol)), registered := map[])
    case Unloads => w.(cache := Reset(Dummy), registered := map[])
    case Allocate(buffer, text) => w.(live := w.live[buffer := text])
    case Release(buffer) => w.(live := w.live - {buffer})
  }

  function Run(w: World, hash: string -> int, ops: seq<Op>): World {
    if ops == [] then w else Do(Run(w, hash, ops[..|ops| - 1]), hash, ops[|ops| - 1])
  }

  predicate AllPossible(w: World, hash: string -> int, used: set<string>, ops: seq<Op>) {
    ops == [] ||
    (AllPossible(w, hash, used, ops[..|ops| - 1]) && Possible(Run(w, hash, ops[..|ops| - 1]), used, ops[|ops| - 1]))
  }

  /** An adoption finds no other address cached. */
  predicate Uncontradicted(w: World, op: Op) { op.Adopts? ==> NotCachedOtherwise(w.cache, op.name, op.address) }

  predicate AllUncontradicted(w: World, hash: string -> int, ops: seq<Op>) {
    ops == [] ||
    (AllUncontradicted(w, hash, ops[..|ops| - 1]) && Uncontradicted(Run(w, hash, ops[..|ops| - 1]), ops[|ops| - 1]))
  }

  const START := World(Reset(Dummy), map[], map[])

  lemma DoAgrees(w: World, hash: string -> int, used: set<string>, op: Op)
    requires Agrees(w.cache, hash, used, w.registered, w.live) && InjectiveOn(hash, used)
    requires Possible(w, used, op) && Uncontradicted(w, op)
    ensures var now := Do(w, hash, op); Agrees(now.cache, hash, used, now.registered, now.live)
  {
    match op
    case ByHash(name) => LookupHashAgrees(w.cache, hash, used, w.registered, w.live, name);
    case ByStringName(name) => LookupStringNameAgrees(w.cache, hash, used, w.registered, w.live, name);
    case ByString(ref) => LookupStringAgrees(w.cache, hash, used, w.registered, w.live, ref);
    case Registers(name, address) => RegisterAgrees(w.cache, hash, used, w.registered, w.live, name, address);
    case Adopts(name, address) => AdoptAgrees(w.cache, hash, used, w.registered, w.live, name, address);
    case _ =>
  }

  lemma {:induction false} RunAgrees(hash: string -> int, used: set<string>, ops: seq<Op>)
    requires InjectiveOn(hash, used) && AllPossible(START, hash, used, ops) && AllUncontradicted(START, hash, ops)
    ensures var w := Run(START, hash, ops); Agrees(w.cache, hash, used, w.registered, w.live)
  {
    if ops != [] {
      RunAgrees(hash, used, ops[..|ops| - 1]);
      DoAgrees(Run(START, hash, ops[..|ops| - 1]), hash, used, ops[|ops| - 1]);
    }
  }

  /** After any run, the three lookups give one answer: the registered address, else the symbol, else zero. */
  lemma LookupsAgree(hash: string -> int, used: set<string>, ops: seq<Op>, ref: StringRef)
    requires InjectiveOn(hash, used) && AllPossible(START, hash, used, ops) && AllUncontradicted(START, hash, ops)
    requires Possible(Run(START, hash, ops), used, ByString(ref))
    ensures var w := Run(START, hash, ops); var want := Want(w.cache.machine, w.registered, ref.text);
      && LookupHash(w.cache, hash, ref.text).1 == want
      && LookupStringName(w.cache, hash, ref.text).1 == want
      && LookupString(w.cache, hash, ref).1 == want
  {
    RunAgrees(hash, used, ops);
    var w := Run(START, hash, ops);
    LookupHashAgrees(w.cache, hash, used, w.registered, w.live, ref.text);
    LookupStringNameAgrees(w.cache, hash, used, w.registered, w.live, ref.text);
    LookupStringAgrees(w.cache, hash, used, w.registered, w.live, ref);
  }

  /** Every lookup gives the one answer, for every name in use and every string that holds one. */
  ghost predicate AnswersRight(w: World, hash: string -> int, used: set<string>) {
    && (forall name :: name in used ==>
          && LookupHash(w.cache, hash, name).1 == Want(w.cache.machine, w.registered, name)
          && LookupStringName(w.cache, hash, name).1 == Want(w.cache.machine, w.registered, name))
    && forall ref: StringRef :: ref.buffer in w.live && w.live[ref.buffer] == ref.text && ref.text in used ==>
         LookupString(w.cache, hash, ref).1 == Want(w.cache.machine, w.registered, ref.text)
  }

  lemma AgreementAnswers(w: World, hash: string -> int, used: set<string>)
    requires Agrees(w.cache, hash, used, w.registered, w.live) && InjectiveOn(hash, used)
    ensures AnswersRight(w, hash, used)
  {
    forall name | name in used
      ensures LookupHash(w.cache, hash, name).1 == Want(w.cache.machine, w.registered, name)
      ensures LookupStringName(w.cache, hash, name).1 == Want(w.cache.machine, w.registered, name)
    {
      LookupHashAgrees(w.cache, hash, used, w.registered, w.live, name);
    }
    forall ref: StringRef | ref.buffer in w.live && w.live[ref.buffer] == ref.text && ref.text in used
      ensures LookupString(w.cache, hash, ref).1 == Want(w.cache.machine, w.registered, ref.text)
    {
      LookupStringAgrees(w.cache, hash, used, w.registered, w.live, ref);
    }
  }

  /** An adoption that a quicker cache contradicts makes some lookup answer the old address. */
  lemma ContradictionShows(w: World, hash: string -> int, used: set<string>, op: Op)
    requires Agrees(w.cache, hash, used, w.registered, w.live) && op.Adopts? && op.name in used && !Uncontradicted(w, op)
    ensures !AnswersRight(Do(w, hash, op), hash, used)
  {
    var now := Do(w, hash, op);
    if op.name in w.cache.snames && w.cache.snames[op.name] != op.address {
      assert LookupStringName(now.cache, hash, op.name).1 == w.cache.snames[op.name];
    } else {
      var i :| 0 <= i < SIZE && w.cache.entries[i].valid && w.cache.entries[i].name.text == op.name
               && w.cache.entries[i].address != op.address;
      var ref := w.cache.entries[i].name;
      assert SlotOf(ref.buffer) == i && LookupString(now.cache, hash, ref).1 == w.cache.entries[i].address;
    }
  }

  /** Every lookup is right in every state the run passes through. */
  ghost predicate RightThroughout(hash: string -> int, used: set<string>, ops: seq<Op>) {
    AnswersRight(Run(START, hash, ops), hash, used) && (ops == [] || RightThroughout(hash, used, ops[..|ops| - 1]))
  }

  /**
    Exactly which runs keep every lookup right in every state: those in which no adoption finds another
    address for its name in one of the quicker caches.
   */
  lemma {:induction false} RightExactly(hash: string -> int, used: set<string>, ops: seq<Op>)
    requires InjectiveOn(hash, used) && AllPossible(START, hash, used, ops)
    ensures RightThroughout(hash, used, ops) <==> AllUncontradicted(START, hash, ops)
  {
    if AllUncontradicted(START, hash, ops) {
      RunAgrees(hash, used, ops);
      AgreementAnswers(Run(START, hash, ops), hash, used);
    }
    if ops != [] {
      var front, op := ops[..|ops| - 1], ops[|ops| - 1];
      RightExactly(hash, used, front);
      if AllUncontradicted(START, hash, front) && !Uncontradicted(Run(START, hash, front), op) {
        RunAgrees(hash, used, front);
        ContradictionShows(Run(START, hash, front), hash, used, op);
      }
    }
  }

  /**
    A load that adopts after the program's `main` looked the name up: the look-up by hash answers the
    adopted address, the one by StringName the symbol it found before.
   */
  lemma AdoptionIsMissed(hash: string -> int, name: string, symbol: string -> nat, address: nat)
    requires address != symbol(name)
    ensures var ops := [Loads(symbol), ByStringName(name)]; var w := Run(START, hash, ops);
      && AllPossible(START, hash, {name}, ops)
      && var now := Do(w, hash, Adopts(name, address));
      && Want(now.cache.machine, now.registered, name) == LookupHash(now.cache, hash, name).1 == address
      && LookupStringName(now.cache, hash, name).1 == symbol(name)
  {
    var loads: seq<Op> := [Loads(symbol)];
    var ops: seq<Op> := [Loads(symbol), ByStringName(name)];
    assert loads[..0] == [] && ops[..1] == loads;
    assert Run(START, hash, loads) == World(Reset(Loaded(symbol)), map[], map[]);
    assert AllPossible(START, hash, {name}, loads);
  }

  /** The hash has to be injective: two names that collide make the second lookup answer for the first. */
  lemma CollisionDisagrees(hash: string -> int, a: string, b: string, symbol: string -> nat)
    requires a != b && hash(a) == hash(b) && symbol(a) != symbol(b)
    ensures var w := Run(START, hash, [Loads(symbol), ByHash(a)]);
      && AllPossible(START, hash, {a, b}, [Loads(symbol), ByHash(a)])
      && LookupHash(w.cache, hash, b).1 != Want(w.cache.machine, w.registered, b)
  {
    var loads: seq<Op> := [Loads(symbol)];
    var ops: seq<Op> := [Loads(symbol), ByHash(a)];
    assert loads[..0] == [] && ops[..1] == loads;
    assert Run(START, hash, loads) == World(Reset(Loaded(symbol)), map[], map[]);
    assert AllPossible(START, hash, {a, b}, loads);
  }

  // ----- As it runs

  /**
    The fields, with two ghost ones: the names in use, and what has been registered. `live` is the
    strings around the object when it is called.
   */
  class Lookups {
    const hash: string -> int
    var machine: Machine
    var lookup: map<int, LookupEntry>
    var snames: map<string, nat>
    const entries: array<NameEntry>
    ghost const used: set<string>
    ghost var registered: map<string, nat>

    function View(): Cache
      requires entries.Length == SIZE
      reads this, entries
    {
      CacheFields(machine, lookup, snames, entries[..])
    }

    ghost predicate Valid(live: map<nat, string>)
      reads this, entries
    {
      entries.Length == SIZE && InjectiveOn(hash, used) && Agrees(View(), hash, used, registered, live)
    }

    /** What every lookup is to answer. */
    ghost function Wanted(name: string): nat
      reads this
    {
      Want(machine, registered, name)
    }

    constructor (hash: string -> int, ghost used: set<string>)
      requires InjectiveOn(hash, used)
      ensures fresh(entries) && entries.Length == SIZE && this.hash == hash && this.used == used
      ensures View() == Reset(Dummy) && registered == map[]
      ensures forall live :: Valid(live)
    {
      this.hash := hash;
      this.used := used;
      machine, lookup, snames := Dummy, map[], map[];
      entries := new NameEntry[SIZE](_ => NO_ENTRY);
      registered := map[];
      new;
      assert entries[..] == NO_ENTRIES;
    }

    method CachedAddressOf(name: string, ghost live: map<nat, string>) returns (address: nat)
      requires Valid(live) && name in used
      modifies this`lookup
      ensures Valid(live) && (View(), address) == LookupHash(old(View()), hash, name)
      ensures address == Wanted(name)
    {
      LookupHashAgrees(View(), hash, used, registered, live, name);
      address := 0;
      var h := hash(name);
      if h in lookup {
        return lookup[h].address;
      } else if machine.Loaded? {
        address := machine.symbol(name);
        lookup := lookup[h := LookupEntry(name, address)];
      }
    }

    method CachedAddressOfStringName(name: string, ghost live: map<nat, string>) returns (address: nat)
      requires Valid(live) && name in used
      modifies this`lookup, this`snames
      ensures Valid(live) && (View(), address) == LookupStringName(old(View()), hash, name)
      ensures address == Wanted(name)
    {
      LookupStringNameAgrees(View(), hash, used, registered, live, name);
      if name in snames {
        return snames[name];
      }
      address := CachedAddressOf(name, live);
      snames := snames[name := address];
    }

    method CachedAddressOfString(name: StringRef, ghost live: map<nat, string>) returns (address: nat)
      requires Valid(live) && name.text in used && name.buffer in live && live[name.buffer] == name.text
      modifies this`lookup, entries
      ensures Valid(live) && (View(), address) == LookupString(old(View()), hash, name)
      ensures address == Wanted(name.text)
    {
      LookupStringAgrees(View(), hash, used, registered, live, name);
      var slot := SlotOf(name.buffer);
      var entry := entries[slot];
      if entry.valid && entry.name.buffer == name.buffer {
        return entry.address;
      }
      address := CachedAddressOf(name.text, live);
      entries[slot] := NameEntry(name, address, true);
    }

    /** `NameAddressCache::clear`. */
    method ClearEntries()
      requires entries.Length == SIZE
      modifies entries
      ensures entries[..] == NO_ENTRIES
    {
      for i := 0 to entries.Length
        invariant forall j :: 0 <= j < i ==> entries[j] == NO_ENTRY
      {
        entries[i] := NO_ENTRY;
      }
    }

    /** After a registration every lookup of the name wants the new address, and of any other name the old one. */
    method AddCachedAddress(name: string, address: nat, ghost live: map<nat, string>)
      requires Valid(live) && name in used
      modifies this`lookup, this`snames, this`registered, entries
      ensures Valid(live) && View() == Register(old(View()), hash, name, address)
      ensures Wanted(name) == address && forall other :: other != name ==> Wanted(other) == old(Wanted(other))
    {
      RegisterAgrees(View(), hash, used, registered, live, name, address);
      lookup := lookup[hash(name) := LookupEntry(name, address)];
      snames := map[];
      ClearEntries();
      registered := registered[name := address];
    }

    /** One round of the loop in `load`: the object is sound afterwards exactly when no quicker cache knew better. */
    method AdoptAddress(name: string, address: nat, ghost live: map<nat, string>)
      requires Valid(live) && name in used
      modifies this`lookup, this`registered
      ensures entries.Length == SIZE && View() == Adopt(old(View()), hash, name, address)
      ensures Wanted(name) == address
      ensures Valid(live) <==> old(NotCachedOtherwise(View(), name, address))
    {
      AdoptAgrees(View(), hash, used, registered, live, name, address);
      lookup := lookup[hash(name) := LookupEntry(name, address)];
      registered := registered[name := address];
    }

    method FullReset(next: Machine)
      requires entries.Length == SIZE && InjectiveOn(hash, used)
      modifies this`machine, this`lookup, this`snames, this`registered, entries
      ensures View() == Reset(next) && registered == map[]
      ensures forall live :: Valid(live)
    {
      machine := next;
      lookup, snames := map[], map[];
      registered := map[];
      ClearEntries();
    }
  }
}
