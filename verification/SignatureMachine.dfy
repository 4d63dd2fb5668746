/**
  The codec as the program runs it: an output buffer grown by appends, and a cursor whose failures
  are sticky and only looked at now and then. Proved to compute the printer and the parser of
  SignatureCodec on every input.
 */
module SignatureMachine {
  import opened Basics
  import opened SignatureCodec

  // ----- Writing

  lemma {:induction false} PutManyPush<T>(put: T --> seq<Byte>, xs: seq<T>, x: T)
    requires forall i :: 0 <= i < |xs| ==> put.requires(xs[i])
    requires put.requires(x)
    ensures PutMany(put, xs + [x]) == PutMany(put, xs) + put(x)
  {
    if xs == [] {
      assert xs + [x] == [x];
      assert PutMany(put, [x]) == put(x) + PutMany(put, []);
    } else {
      assert (xs + [x])[1..] == xs[1..] + [x];
      PutManyPush(put, xs[1..], x);
    }
  }

  lemma PutManyNext<T>(put: T --> seq<Byte>, xs: seq<T>, i: nat)
    requires i < |xs| && forall j :: 0 <= j <= i ==> put.requires(xs[j])
    ensures PutMany(put, xs[..i + 1]) == PutMany(put, xs[..i]) + put(xs[i])
  {
    assert xs[..i + 1] == xs[..i] + [xs[i]];
    PutManyPush(put, xs[..i], xs[i]);
  }

  lemma Assoc(a: seq<Byte>, b: seq<Byte>, c: seq<Byte>)
    ensures (a + b) + c == a + (b + c)
  {
  }

  method WriteText(before: seq<Byte>, t: Text) returns (out: seq<Byte>)
    ensures out == before + PutText(t)
  {
    out := before + ToBytes(|t|, 4);
    out := out + t;
    Assoc(before, ToBytes(|t|, 4), t);
  }

  /** The switch on the kind; `std::get` throws when the stored value is not of that kind. */
  method WriteDefault(before: seq<Byte>, p: Parameter) returns (out: Outcome<seq<Byte>>)
    ensures out == if Tagged(p) then Returned(before + PutDefault(p)) else Thrown
  {
    match p.defaultKind {
      case Int =>
        return if p.default.IntValue? then Returned(before + ToBytes(Unsigned64(p.default.i), 8)) else Thrown;
      case Float =>
        return if p.default.FloatValue? then Returned(before + ToBytes(p.default.bits, 8)) else Thrown;
      case Bool =>
        return if p.default.BoolValue? then Returned(before + [if p.default.b then 1 else 0]) else Thrown;
      case String =>
        if !p.default.StringValue? {
          return Thrown;
        }
        var text := WriteText(before, p.default.text);
        return Returned(text);
      case _ =>
        assert before + [] == before;
        return Returned(before);
    }
  }

  lemma ParameterPieces(before: seq<Byte>, name: seq<Byte>, kind: seq<Byte>, tag: seq<Byte>, default: seq<Byte>)
    ensures (((before + name) + kind) + tag) + default == before + (name + (kind + (tag + default)))
  {
    Assoc(before + name + kind, tag, default);
    Assoc(before + name, kind, tag + default);
    Assoc(before, name, kind + (tag + default));
  }

  /** The body of the inner loop: one parameter appended, unless reading its default throws. */
  method WriteParameter(before: seq<Byte>, p: Parameter) returns (out: Outcome<seq<Byte>>)
    ensures out == if Tagged(p) then Returned(before + PutParameter(p)) else Thrown
  {
    var bytes := WriteText(before, p.name);
    bytes := bytes + ToBytes(Unsigned32(p.kind), 4);
    bytes := bytes + [KindByte(p.defaultKind)];
    out := WriteDefault(bytes, p);
    if Tagged(p) {
      ParameterPieces(before, PutText(p.name), ToBytes(Unsigned32(p.kind), 4), [KindByte(p.defaultKind)], PutDefault(p));
    }
  }

  lemma SignaturePieces(
    before: seq<Byte>, name: seq<Byte>, returnType: seq<Byte>, line: seq<Byte>, description: seq<Byte>,
    required: seq<Byte>, count: seq<Byte>, parameters: seq<Byte>)
    ensures ((((((before + name) + returnType) + line) + description) + required) + count) + parameters
         == before + (name + (returnType + (line + (description + (required + (count + parameters))))))
  {
    Assoc(before + name + returnType + line + description + required, count, parameters);
    Assoc(before + name + returnType + line + description, required, count + parameters);
    Assoc(before + name + returnType + line, description, required + (count + parameters));
    ParameterPieces(before, name, returnType, line, description + (required + (count + parameters)));
  }

  /** The body of the outer loop. */
  method WriteSignature(before: seq<Byte>, s: Signature) returns (out: Outcome<seq<Byte>>)
    ensures out == if TaggedSignature(s) then Returned(before + PutSignature(s)) else Thrown
  {
    var bytes := WriteText(before, s.name);
    bytes := bytes + ToBytes(Unsigned32(s.returnType), 4);
    bytes := bytes + ToBytes(Unsigned32(s.line), 4);
    bytes := WriteText(bytes, s.description);
    bytes := bytes + ToBytes(s.required, 4);
    bytes := bytes + ToBytes(|s.parameters|, 4);
    out := WriteParameters(bytes, s.parameters);
    if TaggedSignature(s) {
      SignaturePieces(before, PutText(s.name), ToBytes(Unsigned32(s.returnType), 4), ToBytes(Unsigned32(s.line), 4),
                      PutText(s.description), ToBytes(s.required, 4), ToBytes(|s.parameters|, 4),
                      PutMany(PutParameter, s.parameters));
    }
  }

  method WriteParameters(before: seq<Byte>, ps: seq<Parameter>) returns (out: Outcome<seq<Byte>>)
    ensures (forall i :: 0 <= i < |ps| ==> Tagged(ps[i])) ==> out == Returned(before + PutMany(PutParameter, ps))
    ensures out == Thrown || forall i :: 0 <= i < |ps| ==> Tagged(ps[i])
  {
    var bytes := before;
    assert before + [] == before;
    for i := 0 to |ps|
      invariant forall j :: 0 <= j < i ==> Tagged(ps[j])
      invariant bytes == before + PutMany(PutParameter, ps[..i])
    {
      var written := WriteParameter(bytes, ps[i]);
      if written.Thrown? {
        return Thrown;
      }
      bytes := written.value;
      PutManyNext(PutParameter, ps, i);
      Assoc(before, PutMany(PutParameter, ps[..i]), PutParameter(ps[i]));
    }
    assert ps[..|ps|] == ps;
    return Returned(bytes);
  }

  /** `encode_function_signatures`. */
  method EncodeSignatures(table: seq<Signature>) returns (out: Outcome<seq<Byte>>)
    ensures out == if TaggedTable(table) then Returned(Encode(table)) else Thrown
  {
    var bytes: seq<Byte> := ToBytes(|table|, 4);
    assert ToBytes(|table|, 4) + [] == ToBytes(|table|, 4);
    for i := 0 to |table|
      invariant forall j :: 0 <= j < i ==> TaggedSignature(table[j])
      invariant bytes == ToBytes(|table|, 4) + PutMany(PutSignature, table[..i])
    {
      var written := WriteSignature(bytes, table[i]);
      if written.Thrown? {
        return Thrown;
      }
      bytes := written.value;
      PutManyNext(PutSignature, table, i);
      Assoc(ToBytes(|table|, 4), PutMany(PutSignature, table[..i]), PutSignature(table[i]));
    }
    assert table[..|table|] == table;
    return Returned(bytes);
  }

  // ----- Reading

  /** The state of a cursor agrees with a parse that began at `s`: the value and the rest, or a failure noted. */
  ghost predicate Agrees<T(!new)>(parsed: Parsed<T>, ok: bool, value: T, rest: seq<Byte>) {
    match parsed
    case Short => !ok
    case Got(v, r) => ok && value == v && rest == r
  }

  /** Items already read, then the rest of the parse. */
  function After<T>(done: seq<T>, more: Parsed<seq<T>>): Parsed<seq<T>> {
    match more
    case Short => Short
    case Got(xs, rest) => Got(done + xs, rest)
  }

  /**
    A loop that reads `count` items has read `i`, which are `done`, and the cursor is at `rest`; once a
    read has failed, so has the whole.
   */
  ghost predicate Reading<T(!new)>(
    get: seq<Byte> -> Parsed<T>, whole: Parsed<seq<T>>, done: seq<T>, ok: bool, rest: seq<Byte>, count: nat, i: nat)
  {
    i <= count && if ok then whole == After(done, GetMany(get, rest, count - i)) else whole.Short?
  }

  lemma ReadingStarts<T(!new)>(get: seq<Byte> -> Parsed<T>, whole: Parsed<seq<T>>, done: seq<T>, ok: bool, s: seq<Byte>, count: nat)
    requires whole == GetMany(get, s, count) && done == [] && ok
    ensures Reading(get, whole, done, ok, s, count, 0)
  {
    if whole.Got? {
      assert done + whole.value == whole.value;
    }
  }

  /** One iteration, from what reading one item does to the cursor. */
  lemma ReadingGoesOn<T(!new)>(
    get: seq<Byte> -> Parsed<T>, whole: Parsed<seq<T>>, done: seq<T>, s: seq<Byte>, count: nat, i: nat,
    x: T, ok: bool, rest: seq<Byte>)
    requires Reading(get, whole, done, true, s, count, i) && i < count
    requires Agrees(get(s), ok, x, rest)
    ensures Reading(get, whole, done + [x], ok, rest, count, i + 1)
  {
    if ok && GetMany(get, rest, count - i - 1).Got? {
      var xs := GetMany(get, rest, count - i - 1).value;
      assert done + ([x] + xs) == (done + [x]) + xs;
    }
  }

  lemma ReadingEnds<T(!new)>(
    get: seq<Byte> -> Parsed<T>, whole: Parsed<seq<T>>, done: seq<T>, ok: bool, rest: seq<Byte>, count: nat)
    requires Reading(get, whole, done, ok, rest, count, count)
    ensures Agrees(whole, ok, done, rest)
  {
    assert done + [] == done;
  }

  class Reader {
    const data: seq<Byte>
    var offset: nat
    var ok: bool

    ghost predicate Valid()
      reads this
    {
      offset <= |data|
    }

    ghost function Rest(): seq<Byte>
      requires Valid()
      reads this
    {
      data[offset..]
    }

    constructor (data: seq<Byte>)
      ensures Valid() && ok && Rest() == data && this.data == data
    {
      this.data := data;
      offset := 0;
      ok := true;
    }

    method Scalar(width: nat) returns (n: nat)
      requires Valid()
      modifies this
      ensures Valid()
      ensures old(ok) ==> Agrees(GetNumber(old(Rest()), width), ok, n, Rest())
      ensures !old(ok) ==> !ok
      ensures n < Limit(width)
    {
      LimitPositive(width);
      if !ok || offset + width > |data| {
        ok := false;
        return 0;
      }
      n := FromBytes(data[offset..offset + width]);
      NumberBound(data[offset..offset + width]);
      assert Rest()[..width] == data[offset..offset + width];
      offset := offset + width;
    }

    method Signed() returns (x: Int32)
      requires Valid()
      modifies this
      ensures Valid()
      ensures old(ok) ==> Agrees(GetInt32(old(Rest())), ok, x, Rest())
      ensures !old(ok) ==> !ok
    {
      var n := Scalar(4);
      x := Signed32(n);
    }

    method Str() returns (t: Text)
      requires Valid()
      modifies this
      ensures Valid()
      ensures old(ok) ==> Agrees(GetText(old(Rest())), ok, t, Rest())
      ensures !old(ok) ==> !ok
    {
      var length := Scalar(4);
      if !ok || offset + length > |data| {
        ok := false;
        return [];
      }
      t := data[offset..offset + length];
      assert Rest()[..length] == t;
      offset := offset + length;
    }

    /** The body of the inner loop; `valid` is false where it leaves the decoder with a failure. */
    method ReadParameter() returns (p: Parameter, valid: bool)
      requires Valid()
      modifies this
      ensures Valid()
      ensures old(ok) ==> Agrees(GetParameter(old(Rest())), ok && valid, p, Rest())
      ensures !old(ok) ==> !ok && !valid
    {
      var name := Str();
      var kind := Signed();
      var b := Scalar(1);
      p := Parameter(name, kind, NoDefault, UNSET);
      if !ok || b > KindByte(EmptyDict) {
        valid := false;
        return;
      }
      var defaultKind := KindOf(b).value;
      var default := ReadDefault(defaultKind);
      p := Parameter(name, kind, defaultKind, default);
      valid := true;
    }

    /** The switch on the kind. */
    method ReadDefault(kind: DefaultKind) returns (default: Default)
      requires Valid() && ok
      modifies this
      ensures Valid()
      ensures Agrees(GetDefault(old(Rest()), kind), ok, default, Rest())
    {
      default := UNSET;
      match kind {
        case Int =>
          var n := Scalar(8);
          default := IntValue(Signed64(n));
        case Float =>
          var n := Scalar(8);
          default := FloatValue(n);
        case Bool =>
          var n := Scalar(1);
          default := BoolValue(n != 0);
        case String =>
          var t := Str();
          default := StringValue(t);
        case _ =>
      }
    }

    /** The inner loop: a failed read of the last parameter's default is not noticed here, but `ok` is false. */
    method ReadParameters(count: nat) returns (ps: seq<Parameter>, valid: bool)
      requires Valid() && ok
      modifies this
      ensures Valid()
      ensures Agrees(GetMany(GetParameter, old(Rest()), count), ok && valid, ps, Rest())
    {
      ps, valid := [], true;
      ghost var whole := GetMany(GetParameter, Rest(), count);
      ReadingStarts(GetParameter, whole, ps, ok, Rest(), count);
      for i := 0 to count
        invariant Valid() && valid
        invariant Reading(GetParameter, whole, ps, ok, Rest(), count, i)
      {
        ghost var was, s := ok, Rest();
        var p;
        p, valid := ReadParameter();
        if was {
          ReadingGoesOn(GetParameter, whole, ps, s, count, i, p, ok && valid, Rest());
        }
        if !valid {
          return;
        }
        ps := ps + [p];
      }
      ReadingEnds(GetParameter, whole, ps, ok, Rest(), count);
    }

    method ReadHeader() returns (h: Header)
      requires Valid()
      modifies this
      ensures Valid()
      ensures old(ok) ==> Agrees(GetHeader(old(Rest())), ok, h, Rest())
      ensures !old(ok) ==> !ok
    {
      var name := Str();
      var returnType := Signed();
      var line := Signed();
      var description := Str();
      var required := Scalar(4);
      var count := Scalar(4);
      h := Header(name, returnType, line, description, required, count);
    }

    /** The body of the outer loop. */
    method ReadSignature(size: nat) returns (s: Signature, valid: bool)
      requires Valid()
      modifies this
      ensures Valid()
      ensures old(ok) ==> Agrees(GetSignature(old(Rest()), size), ok && valid, s, Rest())
      ensures !old(ok) ==> !ok && !valid
    {
      var h := ReadHeader();
      s := Signature(h.name, [], h.returnType, h.required, h.line, h.description);
      if !ok || h.count > size {
        valid := false;
        return;
      }
      var ps;
      ps, valid := ReadParameters(h.count);
      s := s.(parameters := ps);
      if s.required > |ps| {
        s := s.(required := |ps|);
      }
    }

    /** The outer loop; `get` is what reading one signature is specified to be. */
    method ReadSignatures(size: nat, count: nat, ghost get: seq<Byte> -> Parsed<Signature>)
      returns (out: seq<Signature>, valid: bool)
      requires Valid() && ok
      requires forall u :: get(u) == GetSignature(u, size)
      modifies this
      ensures Valid()
      ensures Agrees(GetMany(get, old(Rest()), count), ok && valid, out, Rest())
    {
      out, valid := [], true;
      ghost var whole := GetMany(get, Rest(), count);
      ReadingStarts(get, whole, out, ok, Rest(), count);
      for i := 0 to count
        invariant Valid() && valid
        invariant Reading(get, whole, out, ok, Rest(), count, i)
      {
        ghost var was, from := ok, Rest();
        var s;
        s, valid := ReadSignature(size);
        if was {
          ReadingGoesOn(get, whole, out, from, count, i, s, ok && valid, Rest());
        }
        if !valid {
          return;
        }
        out := out + [s];
      }
      ReadingEnds(get, whole, out, ok, Rest(), count);
    }
  }

  lemma {:induction false} LimitPositive(width: nat)
    ensures Limit(width) > 0
  {
    if width > 0 {
      LimitPositive(width - 1);
    }
  }

  /**
    `decode_function_signatures`: for arbitrary bytes it terminates without reading past the buffer,
    and accepts exactly what the parser accepts, leaving the output empty otherwise.
   */
  method DecodeSignatures(data: seq<Byte>) returns (accepted: bool, out: seq<Signature>)
    ensures Decode(data) == if accepted then Some(out) else None
    ensures !accepted ==> out == []
  {
    out := [];
    var reader := new Reader(data);
    var count := reader.Scalar(4);
    if !reader.ok || count > |data| {
      return false, [];
    }
    var valid;
    out, valid := reader.ReadSignatures(|data|, count, SignatureReader(|data|));
    if !valid || !reader.ok {
      return false, [];
    }
    accepted := true;
  }
}
