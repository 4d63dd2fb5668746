/**
  The binary form of the signature table byte by byte, and that the decoder reads exactly this form
  (src/gdscript/compiler/function_signature.cpp:53-164). Each predicate says that `s` is an item followed by `rest`.
 */
module SignatureFormat {
  import opened Basics
  import opened SignatureCodec
  import opened SignatureRoundTrip

  // ----- The form

  /** A 32-bit number without sign, least significant byte first. */
  ghost predicate NumberLaid(n: int, s: seq<Byte>, rest: seq<Byte>) {
    |s| >= 4 && s[4..] == rest &&
    var b0: int, b1: int, b2: int, b3: int := s[0], s[1], s[2], s[3];
    n == b0 + 0x100 * b1 + 0x1_0000 * b2 + 0x100_0000 * b3
  }

  /** One with a sign, in two's complement. */
  ghost predicate Int32Laid(x: int, s: seq<Byte>, rest: seq<Byte>) {
    INT32_MIN <= x < INT32_LIMIT && (NumberLaid(x, s, rest) || NumberLaid(x + U32_LIMIT, s, rest))
  }

  /** A 64-bit number: its low half and its high half. */
  ghost predicate WideLaid(n: int, s: seq<Byte>, rest: seq<Byte>) {
    exists low: nat, high: nat, s1 :: NumberLaid(low, s, s1) && NumberLaid(high, s1, rest) && n == low + U32_LIMIT * high
  }

  /** A text behind its length. */
  ghost predicate TextLaid(t: Text, s: seq<Byte>, rest: seq<Byte>) { NumberLaid(|t|, s, t + rest) }

  /** The byte for a kind of default. */
  predicate Coded(k: DefaultKind, b: Byte) {
    || (k.NoDefault? && b == 0) || (k.Nil? && b == 1) || (k.Int? && b == 2) || (k.Float? && b == 3)
    || (k.Bool? && b == 4) || (k.String? && b == 5) || (k.EmptyArray? && b == 6) || (k.EmptyDict? && b == 7)
  }

  /** A default of kind `k`: its value, or nothing for a kind that needs none. */
  ghost predicate DefaultLaid(k: DefaultKind, d: Default, s: seq<Byte>, rest: seq<Byte>) {
    if k.Int? then d.IntValue? && (WideLaid(d.i, s, rest) || WideLaid(d.i + U64_LIMIT, s, rest))
    else if k.Float? then d.FloatValue? && WideLaid(d.bits, s, rest)
    else if k.Bool? then d.BoolValue? && s != [] && (d.b <==> s[0] != 0) && s[1..] == rest
    else if k.String? then d.StringValue? && TextLaid(d.text, s, rest)
    else d == IntValue(0) && s == rest
  }

  /** A parameter: its name, its type, a byte for the kind of its default, the default. */
  ghost predicate ParameterLaid(p: Parameter, s: seq<Byte>, rest: seq<Byte>) {
    exists s1, s2 ::
      && TextLaid(p.name, s, s1) && Int32Laid(p.kind, s1, s2)
      && s2 != [] && Coded(p.defaultKind, s2[0]) && DefaultLaid(p.defaultKind, p.default, s2[1..], rest)
  }

  /** What stands before the parameters: name, return type, line, description, required count, number of parameters. */
  ghost predicate HeaderLaid(h: Header, s: seq<Byte>, rest: seq<Byte>) {
    exists s1, s2, s3, s4, s5 ::
      && TextLaid(h.name, s, s1) && Int32Laid(h.returnType, s1, s2) && Int32Laid(h.line, s2, s3)
      && TextLaid(h.description, s3, s4) && NumberLaid(h.required, s4, s5) && NumberLaid(h.count, s5, rest)
  }

  /** Items one after another. */
  ghost predicate ManyLaid<T(!new)>(laid: (T, seq<Byte>, seq<Byte>) -> bool, xs: seq<T>, s: seq<Byte>, rest: seq<Byte>)
    decreases |xs|
  {
    if xs == [] then s == rest else exists mid :: laid(xs[0], s, mid) && ManyLaid(laid, xs[1..], mid, rest)
  }

  ghost predicate ParametersLaid(ps: seq<Parameter>, s: seq<Byte>, rest: seq<Byte>) {
    ManyLaid((p, u, v) => ParameterLaid(p, u, v), ps, s, rest)
  }

  ghost predicate SignaturesLaid(table: seq<Signature>, s: seq<Byte>, rest: seq<Byte>) {
    ManyLaid((g, u, v) => SignatureLaid(g, u, v), table, s, rest)
  }

  /** A signature: its header, its parameters; what is read as required is no more than those. */
  ghost predicate SignatureLaid(g: Signature, s: seq<Byte>, rest: seq<Byte>) {
    exists required: nat, s1 ::
      && HeaderLaid(Header(g.name, g.returnType, g.line, g.description, required, |g.parameters|), s, s1)
      && g.required == (if required <= |g.parameters| then required else |g.parameters|)
      && ParametersLaid(g.parameters, s1, rest)
  }

  /** The table: its size, its signatures, and then anything at all. */
  ghost predicate TableLaid(table: seq<Signature>, data: seq<Byte>) {
    exists s1, rest :: NumberLaid(|table|, data, s1) && SignaturesLaid(table, s1, rest)
  }

  // ----- The decoder reads it

  lemma {:induction false} FromBytesSplit(a: seq<Byte>, b: seq<Byte>)
    ensures FromBytes(a + b) == FromBytes(a) + Limit(|a|) * FromBytes(b)
  {
    if a == [] {
      assert a + b == b;
    } else {
      assert (a + b)[1..] == a[1..] + b;
      FromBytesSplit(a[1..], b);
      assert Limit(|a|) * FromBytes(b) == 256 * (Limit(|a| - 1) * FromBytes(b));
    }
  }

  lemma FromFour(s: seq<Byte>)
    requires |s| >= 4
    ensures NumberLaid(FromBytes(s[..4]), s, s[4..]) && FromBytes(s[..4]) < U32_LIMIT
  {
    var b := s[..4];
    assert b[3..][1..] == [] && b[2..][1..] == b[3..] && b[1..][1..] == b[2..];
    var n3 := FromBytes(b[3..]);
    var n2 := FromBytes(b[2..]);
    var n1 := FromBytes(b[1..]);
    assert n3 == b[3] + 256 * FromBytes([]);
    assert n2 == s[2] + 256 * n3;
    assert n1 == s[1] + 256 * n2;
  }

  lemma NumberExactly(s: seq<Byte>, n: nat, rest: seq<Byte>)
    ensures GetNumber(s, 4) == Got(n, rest) <==> NumberLaid(n, s, rest)
    ensures NumberLaid(n, s, rest) ==> n < U32_LIMIT && |rest| == |s| - 4
  {
    if |s| >= 4 {
      FromFour(s);
    }
  }

  lemma Int32Exactly(s: seq<Byte>, x: Int32, rest: seq<Byte>)
    ensures GetInt32(s) == Got(x, rest) <==> Int32Laid(x, s, rest)
    ensures Int32Laid(x, s, rest) ==> |rest| == |s| - 4
  {
    if |s| >= 4 {
      FromFour(s);
    }
  }

  lemma WideExactly(s: seq<Byte>, n: nat, rest: seq<Byte>)
    ensures GetNumber(s, 8) == Got(n, rest) <==> WideLaid(n, s, rest)
    ensures WideLaid(n, s, rest) ==> n < U64_LIMIT && |rest| == |s| - 8
  {
    if |s| >= 8 {
      var low, high := FromBytes(s[..4]), FromBytes(s[4..][..4]);
      FromFour(s);
      FromFour(s[4..]);
      Limits();
      FromBytesSplit(s[..4], s[4..][..4]);
      assert s[..8] == s[..4] + s[4..][..4];
      assert s[4..][4..] == s[8..];
      assert NumberLaid(low, s, s[4..]) && NumberLaid(high, s[4..], s[8..]);
    }
  }

  lemma TextExactly(s: seq<Byte>, t: Text, rest: seq<Byte>)
    ensures GetText(s) == Got(t, rest) <==> TextLaid(t, s, rest)
    ensures TextLaid(t, s, rest) ==> |rest| == |s| - 4 - |t|
  {
    if |s| >= 4 {
      FromFour(s);
      var n := FromBytes(s[..4]);
      if |s[4..]| >= n {
        assert s[4..] == s[4..][..n] + s[4..][n..];
      }
      if |t| == n && s[4..] == t + rest {
        assert s[4..][..n] == t && s[4..][n..] == rest;
      }
    }
  }

  lemma KindExactly(b: Byte, k: DefaultKind)
    ensures KindOf(b) == Some(k) <==> Coded(k, b)
  {
  }

  lemma DefaultExactly(s: seq<Byte>, k: DefaultKind, d: Default, rest: seq<Byte>)
    ensures GetDefault(s, k) == Got(d, rest) <==> DefaultLaid(k, d, s, rest)
    ensures DefaultLaid(k, d, s, rest) ==> |rest| <= |s|
  {
    match k
    case Int => IntegerExactly(s, d, rest);
    case Float =>
      if d.FloatValue? {
        WideExactly(s, d.bits, rest);
      }
      if |s| >= 8 {
        WideExactly(s, FromBytes(s[..8]), s[8..]);
      }
    case Bool =>
      if s != [] {
        assert FromBytes(s[..1]) == s[0] + 256 * FromBytes([]);
      }
    case String =>
      if d.StringValue? {
        TextExactly(s, d.text, rest);
      }
    case _ =>
  }

  lemma IntegerExactly(s: seq<Byte>, d: Default, rest: seq<Byte>)
    ensures GetDefault(s, Int) == Got(d, rest) <==> DefaultLaid(Int, d, s, rest)
    ensures DefaultLaid(Int, d, s, rest) ==> |rest| <= |s|
  {
    if |s| >= 8 {
      NumberBound(s[..8]);
      Limits();
      WideExactly(s, FromBytes(s[..8]), s[8..]);
    }
    if d.IntValue? {
      if d.i >= 0 {
        WideExactly(s, d.i, rest);
      }
      WideExactly(s, d.i + U64_LIMIT, rest);
    }
  }

  /** A parameter is read where there is one, and nowhere else: a kind above 7 is refused, and so is a read past the end. */
  lemma ParameterExactly(s: seq<Byte>, p: Parameter, rest: seq<Byte>)
    ensures GetParameter(s) == Got(p, rest) <==> ParameterLaid(p, s, rest)
    ensures ParameterLaid(p, s, rest) ==> |rest| < |s|
  {
    if GetParameter(s) == Got(p, rest) {
      ParameterRead(s, p, rest);
    }
    if ParameterLaid(p, s, rest) {
      var s1, s2 :|
        && TextLaid(p.name, s, s1) && Int32Laid(p.kind, s1, s2)
        && s2 != [] && Coded(p.defaultKind, s2[0]) && DefaultLaid(p.defaultKind, p.default, s2[1..], rest);
      TextExactly(s, p.name, s1);
      Int32Exactly(s1, p.kind, s2);
      OneByte(s2);
      KindExactly(s2[0], p.defaultKind);
      DefaultExactly(s2[1..], p.defaultKind, p.default, rest);
    }
  }

  lemma ParameterRead(s: seq<Byte>, p: Parameter, rest: seq<Byte>)
    requires GetParameter(s) == Got(p, rest)
    ensures ParameterLaid(p, s, rest)
  {
    var s1 := GetText(s).rest;
    var s2 := GetInt32(s1).rest;
    TextExactly(s, p.name, s1);
    Int32Exactly(s1, p.kind, s2);
    OneByte(s2);
    KindExactly(s2[0], p.defaultKind);
    DefaultExactly(s2[1..], p.defaultKind, p.default, rest);
    assert TextLaid(p.name, s, s1) && Int32Laid(p.kind, s1, s2);
  }

  lemma OneByte(s: seq<Byte>)
    ensures GetNumber(s, 1) == if s == [] then Short else Got(s[0], s[1..])
  {
    if s != [] {
      assert FromBytes(s[..1]) == s[0] + 256 * FromBytes([]);
    }
  }

  lemma HeaderExactly(s: seq<Byte>, h: Header, rest: seq<Byte>)
    ensures GetHeader(s) == Got(h, rest) <==> HeaderLaid(h, s, rest)
    ensures HeaderLaid(h, s, rest) ==> |rest| < |s|
  {
    if GetHeader(s) == Got(h, rest) {
      HeaderRead(s, h, rest);
    }
    if HeaderLaid(h, s, rest) {
      var s1, s2, s3, s4, s5 :|
        && TextLaid(h.name, s, s1) && Int32Laid(h.returnType, s1, s2) && Int32Laid(h.line, s2, s3)
        && TextLaid(h.description, s3, s4) && NumberLaid(h.required, s4, s5) && NumberLaid(h.count, s5, rest);
      TextExactly(s, h.name, s1);
      Int32Exactly(s1, h.returnType, s2);
      Int32Exactly(s2, h.line, s3);
      TextExactly(s3, h.description, s4);
      NumberExactly(s4, h.required, s5);
      NumberExactly(s5, h.count, rest);
    }
  }

  lemma HeaderRead(s: seq<Byte>, h: Header, rest: seq<Byte>)
    requires GetHeader(s) == Got(h, rest)
    ensures HeaderLaid(h, s, rest)
  {
    var s1 := GetText(s).rest;
    var s2 := GetInt32(s1).rest;
    var s3 := GetInt32(s2).rest;
    var s4 := GetText(s3).rest;
    var s5 := GetNumber(s4, 4).rest;
    TextExactly(s, h.name, s1);
    Int32Exactly(s1, h.returnType, s2);
    Int32Exactly(s2, h.line, s3);
    TextExactly(s3, h.description, s4);
    NumberExactly(s4, h.required, s5);
    NumberExactly(s5, h.count, rest);
  }

  /** One item is read from no more than `size` bytes exactly where there is one, and takes some of them. */
  ghost predicate ReadsExactly<T(!new)>(
    get: seq<Byte> -> Parsed<T>, laid: (T, seq<Byte>, seq<Byte>) -> bool, size: nat, s: seq<Byte>, x: T, rest: seq<Byte>)
  {
    && (|s| <= size ==> (get(s) == Got(x, rest) <==> laid(x, s, rest)))
    && (laid(x, s, rest) ==> |rest| < |s|)
  }

  lemma {:induction false} ManyRead<T(!new)>(
    get: seq<Byte> -> Parsed<T>, laid: (T, seq<Byte>, seq<Byte>) -> bool, size: nat, s: seq<Byte>, xs: seq<T>, rest: seq<Byte>)
    requires |s| <= size && GetMany(get, s, |xs|) == Got(xs, rest)
    requires forall u, x, v :: ReadsExactly(get, laid, size, u, x, v)
    ensures ManyLaid(laid, xs, s, rest)
    decreases |xs|
  {
    if xs != [] {
      var mid := get(s).rest;
      var tail := GetMany(get, mid, |xs| - 1);
      assert xs == [get(s).value] + tail.value;
      assert xs[0] == get(s).value && xs[1..] == tail.value;
      assert ReadsExactly(get, laid, size, s, xs[0], mid);
      ManyRead(get, laid, size, mid, xs[1..], rest);
    }
  }

  lemma {:induction false} ManyFound<T(!new)>(
    get: seq<Byte> -> Parsed<T>, laid: (T, seq<Byte>, seq<Byte>) -> bool, size: nat, s: seq<Byte>, xs: seq<T>, rest: seq<Byte>)
    requires |s| <= size && ManyLaid(laid, xs, s, rest)
    requires forall u, x, v :: ReadsExactly(get, laid, size, u, x, v)
    ensures GetMany(get, s, |xs|) == Got(xs, rest) && |rest| + |xs| <= |s|
    decreases |xs|
  {
    if xs != [] {
      var mid :| laid(xs[0], s, mid) && ManyLaid(laid, xs[1..], mid, rest);
      assert ReadsExactly(get, laid, size, s, xs[0], mid);
      ManyFound(get, laid, size, mid, xs[1..], rest);
      assert xs == [xs[0]] + xs[1..];
    }
  }

  /** Reading so many items, one after another, from no more than `size` bytes. */
  lemma ManyExactly<T(!new)>(
    get: seq<Byte> -> Parsed<T>, laid: (T, seq<Byte>, seq<Byte>) -> bool, size: nat, s: seq<Byte>, xs: seq<T>, rest: seq<Byte>)
    requires |s| <= size
    requires forall u, x, v :: ReadsExactly(get, laid, size, u, x, v)
    ensures GetMany(get, s, |xs|) == Got(xs, rest) <==> ManyLaid(laid, xs, s, rest)
    ensures ManyLaid(laid, xs, s, rest) ==> |rest| + |xs| <= |s|
  {
    if GetMany(get, s, |xs|) == Got(xs, rest) {
      ManyRead(get, laid, size, s, xs, rest);
    }
    if ManyLaid(laid, xs, s, rest) {
      ManyFound(get, laid, size, s, xs, rest);
    }
  }

  lemma {:induction false} ManyCount<T>(get: seq<Byte> -> Parsed<T>, s: seq<Byte>, count: nat)
    requires GetMany(get, s, count).Got?
    ensures |GetMany(get, s, count).value| == count
    decreases count
  {
    if count > 0 {
      ManyCount(get, get(s).rest, count - 1);
    }
  }

  lemma ParametersExactly(s: seq<Byte>, ps: seq<Parameter>, rest: seq<Byte>)
    ensures GetMany(GetParameter, s, |ps|) == Got(ps, rest) <==> ParametersLaid(ps, s, rest)
    ensures ParametersLaid(ps, s, rest) ==> |rest| + |ps| <= |s|
  {
    var laid := (p, u, v) => ParameterLaid(p, u, v);
    forall u, p, v ensures ReadsExactly(GetParameter, laid, |s|, u, p, v) {
      ParameterExactly(u, p, v);
    }
    ManyExactly(GetParameter, laid, |s|, s, ps, rest);
  }

  /** No signature is refused for its number of parameters: each of them takes bytes. */
  lemma SignatureExactly(s: seq<Byte>, size: nat, g: Signature, rest: seq<Byte>)
    requires |s| <= size
    ensures GetSignature(s, size) == Got(g, rest) <==> SignatureLaid(g, s, rest)
    ensures SignatureLaid(g, s, rest) ==> |rest| < |s|
  {
    if GetSignature(s, size) == Got(g, rest) {
      SignatureRead(s, size, g, rest);
    }
    if SignatureLaid(g, s, rest) {
      var required: nat, s1 :|
        && HeaderLaid(Header(g.name, g.returnType, g.line, g.description, required, |g.parameters|), s, s1)
        && g.required == (if required <= |g.parameters| then required else |g.parameters|)
        && ParametersLaid(g.parameters, s1, rest);
      HeaderExactly(s, Header(g.name, g.returnType, g.line, g.description, required, |g.parameters|), s1);
      ParametersExactly(s1, g.parameters, rest);
    }
  }

  lemma SignatureRead(s: seq<Byte>, size: nat, g: Signature, rest: seq<Byte>)
    requires GetSignature(s, size) == Got(g, rest)
    ensures SignatureLaid(g, s, rest)
  {
    var h := GetHeader(s).value;
    var s1 := GetHeader(s).rest;
    ManyCount(GetParameter, s1, h.count);
    HeaderExactly(s, h, s1);
    ParametersExactly(s1, g.parameters, rest);
    assert h == Header(g.name, g.returnType, g.line, g.description, h.required, |g.parameters|);
  }

  lemma SignaturesExactly(s: seq<Byte>, size: nat, table: seq<Signature>, rest: seq<Byte>)
    requires |s| <= size
    ensures GetMany(SignatureReader(size), s, |table|) == Got(table, rest) <==> SignaturesLaid(table, s, rest)
    ensures SignaturesLaid(table, s, rest) ==> |rest| + |table| <= |s|
  {
    var get, laid := SignatureReader(size), (g, u, v) => SignatureLaid(g, u, v);
    forall u, g, v ensures ReadsExactly(get, laid, size, u, g, v) {
      SignatureExactly(u, |u|, g, v);
      if |u| <= size {
        SignatureExactly(u, size, g, v);
      }
    }
    ManyExactly(get, laid, size, s, table, rest);
  }

  /**
    For arbitrary bytes: they decode exactly if they begin with a table in this form, and then to that
    table; the checks of the counts against the size of the blob refuse nothing else.
   */
  lemma DecodesExactly(data: seq<Byte>, table: seq<Signature>)
    ensures Decode(data) == Some(table) <==> TableLaid(table, data)
  {
    if Decode(data) == Some(table) {
      var s1, rest := GetNumber(data, 4).rest, GetTable(data, |data|).rest;
      ManyCount(SignatureReader(|data|), s1, GetNumber(data, 4).value);
      NumberExactly(data, |table|, s1);
      SignaturesExactly(s1, |data|, table, rest);
    }
    if TableLaid(table, data) {
      var s1, rest :| NumberLaid(|table|, data, s1) && SignaturesLaid(table, s1, rest);
      NumberExactly(data, |table|, s1);
      SignaturesExactly(s1, |data|, table, rest);
    }
  }
}
