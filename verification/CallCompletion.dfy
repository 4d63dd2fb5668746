/**
  From the decoded signature table to the arguments a script function receives: the method table
  built from it (src/safegdscript/script_safegdscript.cpp:436-518) and the completion of a call with
  the defaults of the parameters the caller left out
  (src/safegdscript/script_instance_safegdscript.cpp:52-118).
 */
module CallCompletion {
  import opened Basics
  import opened SignatureCodec
  import opened SignatureRoundTrip

  /** A Variant, as far as a default or an argument needs one. */
  datatype Value =
    | NilValue
    | IntNumber(i: Int64)
    | FloatNumber(bits: Bits64)
    | Truth(b: bool)
    | Words(s: string)
    | EmptyList
    | EmptyTable
    | Passed(id: int)

  /** `String::utf8`, about which nothing is assumed. */
  type Utf8 = Text -> string

  const VARIANT_MAX: int := 39
  const NIL_TYPE: int := 0

  datatype Argument = Argument(name: string, kind: int)

  datatype Method = Method(
    name: string, vararg: bool, returnKind: int, arguments: seq<Argument>, defaults: seq<Value>)

  /** Always a type the engine has; the one asked for exactly when there is one. */
  function VariantTypeOrNil(kind: Int32): (r: int)
    ensures 0 <= r < VARIANT_MAX
    ensures r == kind <==> 0 <= kind < VARIANT_MAX
    ensures r != kind ==> r == NIL_TYPE
  {
    if kind < 0 || kind >= VARIANT_MAX then NIL_TYPE else kind
  }

  /** `default_argument_value`; the decoder leaves the stored value in step with the kind. */
  function DefaultArgument(utf8: Utf8, p: Parameter): Value
    requires Tagged(p)
  {
    match p.defaultKind
    case Int => IntNumber(p.default.i)
    case Float => FloatNumber(p.default.bits)
    case Bool => Truth(p.default.b)
    case String => Words(utf8(p.default.text))
    case EmptyArray => EmptyList
    case EmptyDict => EmptyTable
    case NoDefault => NilValue
    case Nil => NilValue
  }

  // ----- What the method table is for a name

  /** The last signature of that name, which is the one an overwriting map keeps. */
  function Declared(utf8: Utf8, table: seq<Signature>, name: string): Option<Signature> {
    if table == [] then None
    else if utf8(table[|table| - 1].name) == name then Some(table[|table| - 1])
    else Declared(utf8, table[..|table| - 1], name)
  }

  function Defaults(utf8: Utf8, s: Signature): seq<Value>
    requires TaggedSignature(s)
  {
    if s.required >= |s.parameters| then []
    else seq(|s.parameters| - s.required,
             i requires 0 <= i < |s.parameters| - s.required => DefaultArgument(utf8, s.parameters[s.required + i]))
  }

  function Arguments(utf8: Utf8, s: Signature): seq<Argument> {
    seq(|s.parameters|,
        i requires 0 <= i < |s.parameters| => Argument(utf8(s.parameters[i].name), VariantTypeOrNil(s.parameters[i].kind)))
  }

  function MethodFor(utf8: Utf8, table: seq<Signature>, name: string): Method
    requires TaggedTable(table)
  {
    match Declared(utf8, table, name)
    case None => Method(name, true, NIL_TYPE, [], [])
    case Some(s) =>
      DeclaredIsListed(utf8, table, name);
      Method(name, false, VariantTypeOrNil(s.returnType), Arguments(utf8, s), Defaults(utf8, s))
  }

  lemma {:induction false} DeclaredIsListed(utf8: Utf8, table: seq<Signature>, name: string)
    requires Declared(utf8, table, name).Some?
    ensures Declared(utf8, table, name).value in table && utf8(Declared(utf8, table, name).value.name) == name
  {
    if utf8(table[|table| - 1].name) != name {
      DeclaredIsListed(utf8, table[..|table| - 1], name);
    }
  }

  lemma {:induction false} NotDeclared(utf8: Utf8, table: seq<Signature>, name: string)
    ensures Declared(utf8, table, name).None? <==> forall i :: 0 <= i < |table| ==> utf8(table[i].name) != name
  {
    if table != [] {
      NotDeclared(utf8, table[..|table| - 1], name);
    }
  }

  /** Entry `j` is the last signature of that name. */
  ghost predicate LastNamed(utf8: Utf8, table: seq<Signature>, name: string, j: int) {
    0 <= j < |table| && utf8(table[j].name) == name && forall k :: j < k < |table| ==> utf8(table[k].name) != name
  }

  lemma {:induction false} DeclaredExactly(utf8: Utf8, table: seq<Signature>, name: string, j: int)
    requires LastNamed(utf8, table, name, j)
    ensures Declared(utf8, table, name) == Some(table[j])
  {
    if j < |table| - 1 {
      DeclaredExactly(utf8, table[..|table| - 1], name, j);
    }
  }

  lemma {:induction false} DeclaredIsLast(utf8: Utf8, table: seq<Signature>, name: string) returns (j: nat)
    requires Declared(utf8, table, name).Some?
    ensures LastNamed(utf8, table, name, j) && Declared(utf8, table, name) == Some(table[j])
  {
    j := |table| - 1;
    if utf8(table[j].name) != name {
      j := DeclaredIsLast(utf8, table[..j], name);
    }
  }

  /** The value that a parameter has by default, kind by kind: what is stored with it, or what its kind says. */
  ghost predicate Arrives(utf8: Utf8, p: Parameter, v: Value) {
    && (p.defaultKind.Int? ==> p.default.IntValue? && v == IntNumber(p.default.i))
    && (p.defaultKind.Float? ==> p.default.FloatValue? && v == FloatNumber(p.default.bits))
    && (p.defaultKind.Bool? ==> p.default.BoolValue? && v == Truth(p.default.b))
    && (p.defaultKind.String? ==> p.default.StringValue? && v == Words(utf8(p.default.text)))
    && (p.defaultKind.EmptyArray? ==> v == EmptyList)
    && (p.defaultKind.EmptyDict? ==> v == EmptyTable)
    && (p.defaultKind.NoDefault? || p.defaultKind.Nil? ==> v == NilValue)
  }

  lemma DefaultArrives(utf8: Utf8, p: Parameter)
    requires Tagged(p)
    ensures Arrives(utf8, p, DefaultArgument(utf8, p))
  {
  }

  /** The type the engine is told: the number given if it has that type, and nil if not. */
  predicate Typed(given: int, told: int) { told == if 0 <= given < VARIANT_MAX then given else NIL_TYPE }

  /** The entry is that of signature `s`: its return type, the names and types of its parameters, and the defaults of the last of them. */
  ghost predicate Describes(utf8: Utf8, s: Signature, m: Method) {
    && m.name == utf8(s.name) && !m.vararg && Typed(s.returnType, m.returnKind)
    && |m.arguments| == |s.parameters|
    && (forall k :: 0 <= k < |s.parameters| ==>
          m.arguments[k].name == utf8(s.parameters[k].name) && Typed(s.parameters[k].kind, m.arguments[k].kind))
    && |m.defaults| == (if s.required < |s.parameters| then |s.parameters| - s.required else 0)
    && forall k :: 0 <= k < |m.defaults| ==> Arrives(utf8, s.parameters[s.required + k], m.defaults[k])
  }

  /** A name has the entry of the last signature with that name, or one that claims nothing about its arguments. */
  ghost predicate EntryFor(utf8: Utf8, table: seq<Signature>, name: string, m: Method) {
    && m.name == name
    && (m.vararg <==> forall j :: 0 <= j < |table| ==> utf8(table[j].name) != name)
    && (m.vararg ==> m == Method(name, true, NIL_TYPE, [], []))
    && forall j :: LastNamed(utf8, table, name, j) ==> Describes(utf8, table[j], m)
  }

  lemma MethodDescribes(utf8: Utf8, table: seq<Signature>, name: string)
    requires TaggedTable(table)
    ensures EntryFor(utf8, table, name, MethodFor(utf8, table, name))
  {
    NotDeclared(utf8, table, name);
    forall j | LastNamed(utf8, table, name, j) ensures Describes(utf8, table[j], MethodFor(utf8, table, name)) {
      DeclaredExactly(utf8, table, name, j);
      EntryDescribes(utf8, table[j], MethodFor(utf8, table, name));
    }
  }

  lemma EntryDescribes(utf8: Utf8, s: Signature, m: Method)
    requires TaggedSignature(s)
    requires m == Method(utf8(s.name), false, VariantTypeOrNil(s.returnType), Arguments(utf8, s), Defaults(utf8, s))
    ensures Describes(utf8, s, m)
  {
    forall k | 0 <= k < |m.defaults| ensures Arrives(utf8, s.parameters[s.required + k], m.defaults[k]) {
      DefaultArrives(utf8, s.parameters[s.required + k]);
    }
  }

  /** The first loop of `update_methods_info`: later signatures overwrite earlier ones of the same name. */
  method SignaturesByName(utf8: Utf8, table: seq<Signature>) returns (byName: map<string, Signature>)
    ensures forall name :: name in byName <==> Declared(utf8, table, name).Some?
    ensures forall name :: name in byName ==> Declared(utf8, table, name) == Some(byName[name])
  {
    byName := map[];
    for i := 0 to |table|
      invariant forall name :: name in byName <==> Declared(utf8, table[..i], name).Some?
      invariant forall name :: name in byName ==> Declared(utf8, table[..i], name) == Some(byName[name])
    {
      byName := byName[utf8(table[i].name) := table[i]];
      assert table[..i + 1][..i] == table[..i];
    }
    assert table[..|table|] == table;
  }

  /** `update_methods_info`: one entry for each function the program exports, in that order. */
  method UpdateMethodsInfo(utf8: Utf8, table: seq<Signature>, functions: seq<string>) returns (methods: seq<Method>)
    requires TaggedTable(table)
    ensures |methods| == |functions|
    ensures forall i :: 0 <= i < |functions| ==> EntryFor(utf8, table, functions[i], methods[i])
  {
    var byName := SignaturesByName(utf8, table);
    methods := [];
    for i := 0 to |functions|
      invariant |methods| == i
      invariant forall j :: 0 <= j < i ==> EntryFor(utf8, table, functions[j], methods[j])
    {
      var name := functions[i];
      var m := Method(name, true, NIL_TYPE, [], []);
      if name in byName {
        DeclaredIsListed(utf8, table, name);
        m := EntryOf(utf8, byName[name]);
      }
      assert m == MethodFor(utf8, table, name);
      MethodDescribes(utf8, table, name);
      methods := methods + [m];
    }
  }

  /** The entry of a declared function. */
  method EntryOf(utf8: Utf8, s: Signature) returns (m: Method)
    requires TaggedSignature(s)
    ensures m == Method(utf8(s.name), false, VariantTypeOrNil(s.returnType), Arguments(utf8, s), Defaults(utf8, s))
    ensures Describes(utf8, s, m)
  {
    var arguments := [];
    for p := 0 to |s.parameters|
      invariant arguments == Arguments(utf8, s)[..p]
    {
      arguments := arguments + [Argument(utf8(s.parameters[p].name), VariantTypeOrNil(s.parameters[p].kind))];
    }
    var defaults := [];
    var p := s.required;
    while p < |s.parameters|
      invariant |defaults| == if s.required < |s.parameters| then p - s.required else 0
      invariant s.required < |s.parameters| ==> s.required <= p <= |s.parameters|
      invariant forall k :: 0 <= k < |defaults| ==> defaults[k] == Defaults(utf8, s)[k]
    {
      defaults := defaults + [DefaultArgument(utf8, s.parameters[p])];
      p := p + 1;
    }
    assert defaults == Defaults(utf8, s);
    m := Method(utf8(s.name), false, VariantTypeOrNil(s.returnType), arguments, defaults);
    EntryDescribes(utf8, s, m);
  }

  /** `find_knowninfo`: the first entry of that name. */
  method FindMethodInfo(methods: seq<Method>, name: string) returns (found: Option<Method>)
    ensures found.None? ==> forall i :: 0 <= i < |methods| ==> methods[i].name != name
    ensures found.Some? ==> exists i :: 0 <= i < |methods| && methods[i] == found.value && methods[i].name == name
                                     && forall j :: 0 <= j < i ==> methods[j].name != name
  {
    for i := 0 to |methods|
      invariant forall j :: 0 <= j < i ==> methods[j].name != name
    {
      if methods[i].name == name {
        return Some(methods[i]);
      }
    }
    return None;
  }

  // ----- The call

  datatype CallResult =
    | InvalidMethod
    | HostFunction(args: seq<Value>)
    | TooFew(argument: int, expected: int)
    | TooMany(argument: int, expected: int)
    | Guest(address: nat, args: seq<Value>)

  /** `callp`, up to the arguments the sandbox is called with. */
  method Callp(methods: seq<Method>, name: string, address: nat, isHostFunction: bool, args: seq<Value>)
    returns (r: CallResult)
    requires forall i :: 0 <= i < |methods| ==> |methods[i].defaults| <= |methods[i].arguments|
    ensures address == 0 ==> r == if isHostFunction then HostFunction(args) else InvalidMethod
    ensures address != 0 ==> exists found: Option<Method> :: FirstNamed(methods, name, found) && r == Completed(found, address, args)
  {
    if address == 0 {
      return if isHostFunction then HostFunction(args) else InvalidMethod;
    }
    var passed := args;
    var known := FindMethodInfo(methods, name);
    assert FirstNamed(methods, name, known);
    if known.Some? && !known.value.vararg {
      var m := known.value;
      var expected := |m.arguments|;
      var required := expected - |m.defaults|;
      if |args| < required {
        return TooFew(|args|, required);
      }
      if |args| > expected {
        return TooMany(|args|, expected);
      }
      if |args| < expected {
        var completed := [];
        for i := 0 to |args|
          invariant completed == args[..i]
        {
          completed := completed + [args[i]];
        }
        var firstDefault := |m.defaults| - (expected - |args|);
        for i := firstDefault to |m.defaults|
          invariant completed == args + m.defaults[firstDefault..i]
        {
          completed := completed + [m.defaults[i]];
        }
        passed := completed;
      }
    }
    return Guest(address, passed);
  }

  ghost predicate FirstNamed(methods: seq<Method>, name: string, found: Option<Method>) {
    match found
    case None => forall i :: 0 <= i < |methods| ==> methods[i].name != name
    case Some(m) =>
      exists i :: 0 <= i < |methods| && methods[i] == m && m.name == name && forall j :: 0 <= j < i ==> methods[j].name != name
  }

  /** The arguments of a method call, completed from the end of its defaults. */
  function Completed(found: Option<Method>, address: nat, args: seq<Value>): CallResult
    requires found.Some? ==> |found.value.defaults| <= |found.value.arguments|
  {
    if found.None? || found.value.vararg then Guest(address, args)
    else
      var m := found.value;
      if |args| < |m.arguments| - |m.defaults| then TooFew(|args|, |m.arguments| - |m.defaults|)
      else if |args| > |m.arguments| then TooMany(|args|, |m.arguments|)
      else Guest(address, args + m.defaults[|m.defaults| - (|m.arguments| - |args|)..])
  }

  // ----- End to end

  /** The outcome of calling a function with these parameters, so many of them required, parameter by parameter. */
  ghost predicate CallsWithDefaults(
    utf8: Utf8, ps: seq<Parameter>, required: nat, address: nat, args: seq<Value>, r: CallResult)
  {
    && (r.Guest? <==> required <= |args| <= |ps|)
    && (|args| < required ==> r == TooFew(|args|, required))
    && (|args| > |ps| ==> r == TooMany(|args|, |ps|))
    && (r.Guest? ==>
          && r.address == address
          && |r.args| == |ps|
          && args <= r.args
          && forall i :: |args| <= i < |ps| ==> Arrives(utf8, ps[i], r.args[i]))
  }

  /** The call of `name` in a program that has that method table. */
  ghost predicate Completes(utf8: Utf8, s: Signature, m: Method, address: nat, args: seq<Value>) {
    && |m.defaults| <= |m.arguments|
    && CallsWithDefaults(utf8, s.parameters, s.required, address, args, Completed(Some(m), address, args))
  }

  /**
    For every blob that decodes, every declared function and every number of arguments: the call is
    accepted exactly for counts between the required ones and the parameters, the guest then gets one
    argument for each parameter, the caller's first, and each one left out is that parameter's default.
   */
  lemma DecodedCallCompletes(utf8: Utf8, blob: seq<Byte>, name: string, j: int, address: nat, args: seq<Value>)
    requires Decode(blob).Some? && LastNamed(utf8, Decode(blob).value, name, j)
    ensures var table := Decode(blob).value;
      TaggedTable(table) && Completes(utf8, table[j], MethodFor(utf8, table, name), address, args)
  {
    DecodedIsClean(blob);
    CompletedByParameter(utf8, Decode(blob).value, name, j, address, args);
  }

  /**
    And for every table the compiler encodes, the call is that of the signature it wrote: with its
    parameters and their defaults, and as many required as the 32 bits for that number keep, and no more
    than there are parameters.
   */
  lemma EncodedCallCompletes(
    utf8: Utf8, table: seq<Signature>, t: seq<Byte>, name: string, j: int, address: nat, args: seq<Value>)
    requires TaggedTable(table) && Fits(table) && LastNamed(utf8, table, name, j)
    ensures Decode(Encode(table) + t).Some? && TaggedTable(Decode(Encode(table) + t).value)
    ensures var m := MethodFor(utf8, Decode(Encode(table) + t).value, name); var s := table[j];
      && |m.defaults| <= |m.arguments|
      && CallsWithDefaults(utf8, s.parameters, Min(s.required % U32_LIMIT, |s.parameters|), address, args,
                           Completed(Some(m), address, args))
  {
    RoundTrip(table, t);
    var received := ReceivedAll(table);
    assert forall k :: 0 <= k < |table| ==> received[k].name == table[k].name;
    DecodedCallCompletes(utf8, Encode(table) + t, name, j, address, args);
    var r := Completed(Some(MethodFor(utf8, received, name)), address, args);
    if r.Guest? {
      forall i | |args| <= i < |table[j].parameters| ensures Arrives(utf8, table[j].parameters[i], r.args[i]) {
        assert Arrives(utf8, received[j].parameters[i], r.args[i]);
        assert received[j].parameters[i] == Stored(table[j].parameters[i]);
        assert Tagged(table[j].parameters[i]) by {
          assert TaggedSignature(table[j]);
        }
      }
    }
  }

  lemma CompletedByParameter(utf8: Utf8, table: seq<Signature>, name: string, j: int, address: nat, args: seq<Value>)
    requires CleanTable(table) && LastNamed(utf8, table, name, j)
    ensures TaggedTable(table) && Completes(utf8, table[j], MethodFor(utf8, table, name), address, args)
  {
    TableIsTagged(table);
    MethodDescribes(utf8, table, name);
    assert CleanSignature(table[j]);
    DescribedCompletes(utf8, table[j], MethodFor(utf8, table, name), address, args);
  }

  lemma DescribedCompletes(utf8: Utf8, s: Signature, m: Method, address: nat, args: seq<Value>)
    requires Describes(utf8, s, m) && s.required <= |s.parameters|
    ensures Completes(utf8, s, m, address, args)
  {
    var r := Completed(Some(m), address, args);
    if r.Guest? {
      forall i | |args| <= i < |s.parameters| ensures Arrives(utf8, s.parameters[i], r.args[i]) {
        var k := i - s.required;
        assert r.args[i] == m.defaults[k] && Arrives(utf8, s.parameters[s.required + k], m.defaults[k]);
      }
    }
  }

  lemma TableIsTagged(table: seq<Signature>)
    requires CleanTable(table)
    ensures TaggedTable(table)
  {
    forall i | 0 <= i < |table| ensures TaggedSignature(table[i]) {
      CleanIsReceived(table[i]);
    }
  }

  /** The call of `name` by its table: as its last signature has it, or passed on as it is where there is none. */
  ghost predicate CalledBy(utf8: Utf8, table: seq<Signature>, name: string, address: nat, args: seq<Value>, r: CallResult) {
    && ((forall j :: 0 <= j < |table| ==> utf8(table[j].name) != name) ==> r == Guest(address, args))
    && forall j :: LastNamed(utf8, table, name, j) ==>
         CallsWithDefaults(utf8, table[j].parameters, table[j].required, address, args, r)
  }

  lemma EntryCalls(utf8: Utf8, table: seq<Signature>, name: string, m: Method, address: nat, args: seq<Value>)
    requires CleanTable(table) && EntryFor(utf8, table, name, m)
    ensures |m.defaults| <= |m.arguments|
    ensures CalledBy(utf8, table, name, address, args, Completed(Some(m), address, args))
  {
    NotDeclared(utf8, table, name);
    if !m.vararg {
      var last := DeclaredIsLast(utf8, table, name);
      assert CleanSignature(table[last]) && Describes(utf8, table[last], m);
    }
    forall j | LastNamed(utf8, table, name, j)
      ensures CallsWithDefaults(utf8, table[j].parameters, table[j].required, address, args, Completed(Some(m), address, args))
    {
      assert CleanSignature(table[j]) && Describes(utf8, table[j], m);
      DescribedCompletes(utf8, table[j], m, address, args);
    }
  }

  /** The whole path as it runs: a table from the compiler, the method table, a call by name. */
  method CallScript(utf8: Utf8, table: seq<Signature>, functions: seq<string>, name: string, address: nat, args: seq<Value>)
    returns (r: CallResult)
    requires CleanTable(table) && address != 0
    ensures if name in functions then CalledBy(utf8, table, name, address, args, r) else r == Guest(address, args)
  {
    TableIsTagged(table);
    var methods := UpdateMethodsInfo(utf8, table, functions);
    forall i | 0 <= i < |methods|
      ensures methods[i].name == functions[i] && |methods[i].defaults| <= |methods[i].arguments|
      ensures CalledBy(utf8, table, functions[i], address, args, Completed(Some(methods[i]), address, args))
    {
      EntryCalls(utf8, table, functions[i], methods[i], address, args);
    }
    r := Callp(methods, name, address, false, args);
    ghost var found: Option<Method> :| FirstNamed(methods, name, found) && r == Completed(found, address, args);
    if found.Some? {
      ghost var i :| 0 <= i < |methods| && methods[i] == found.value && methods[i].name == name;
      assert functions[i] == name;
    }
  }
}
