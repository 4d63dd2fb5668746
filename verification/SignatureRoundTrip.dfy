/**
  The printer and the parser of the signature table undo each other, exactly as far as 32-bit sizes
  reach; no table is a prefix of another; whatever decodes at all is a table that survives the trip.
 */
module SignatureRoundTrip {
  import opened Basics
  import opened SignatureCodec

  // ----- Which tables survive

  predicate TextFits(t: Text) { |t| < U32_LIMIT }

  predicate ParameterFits(p: Parameter) {
    TextFits(p.name) && (p.defaultKind == String && p.default.StringValue? ==> TextFits(p.default.text))
  }

  predicate SignatureFits(s: Signature) {
    && TextFits(s.name) && TextFits(s.description) && |s.parameters| < U32_LIMIT
    && forall i :: 0 <= i < |s.parameters| ==> ParameterFits(s.parameters[i])
  }

  /** Every length in the table is one that 32 bits can hold. */
  predicate Fits(table: seq<Signature>) {
    |table| < U32_LIMIT && forall i :: 0 <= i < |table| ==> SignatureFits(table[i])
  }

  /** Truncating the required count to 32 bits does not change what it means for this signature. */
  predicate RequiredFits(s: Signature) {
    Min(s.required % U32_LIMIT, |s.parameters|) == Min(s.required, |s.parameters|)
  }

  // ----- What comes back

  function Stored(p: Parameter): Parameter {
    match p.defaultKind
    case NoDefault => p.(default := UNSET)
    case Nil => p.(default := UNSET)
    case EmptyArray => p.(default := UNSET)
    case EmptyDict => p.(default := UNSET)
    case _ => p
  }

  function StoredAll(ps: seq<Parameter>): (r: seq<Parameter>)
    ensures |r| == |ps| && forall i :: 0 <= i < |ps| ==> r[i] == Stored(ps[i])
  {
    if ps == [] then [] else [Stored(ps[0])] + StoredAll(ps[1..])
  }

  /** A signature with its required count clamped to its parameters, and unused default values reset. */
  function Clamped(s: Signature): Signature {
    s.(parameters := StoredAll(s.parameters), required := Min(s.required, |s.parameters|))
  }

  /** What the decoder makes of it: the same, after the count has passed through 32 bits. */
  function Received(s: Signature): Signature {
    Clamped(s.(required := s.required % U32_LIMIT))
  }

  function ReceivedAll(table: seq<Signature>): (r: seq<Signature>)
    ensures |r| == |table| && forall i :: 0 <= i < |table| ==> r[i] == Received(table[i])
  {
    if table == [] then [] else [Received(table[0])] + ReceivedAll(table[1..])
  }

  // ----- Numbers

  lemma {:induction false} BytesOfNumber(n: nat, width: nat)
    requires n < Limit(width)
    ensures FromBytes(ToBytes(n, width)) == n
  {
    if width > 0 {
      BytesOfNumber(n / 256, width - 1);
      assert ToBytes(n, width)[1..] == ToBytes(n / 256, width - 1);
    }
  }

  /** Writing an integer to four bytes keeps it modulo two to the thirty-second. */
  lemma BytesTruncate(n: nat)
    ensures ToBytes(n, 4) == ToBytes(n % U32_LIMIT, 4)
  {
    var q, m := n / U32_LIMIT, n % U32_LIMIT;
    assert n == U32_LIMIT * q + m;
    var n1, m1 := n / 256, m / 256;
    assert n1 == 0x100_0000 * q + m1;
    var n2, m2 := n1 / 256, m1 / 256;
    assert n2 == 0x1_0000 * q + m2;
    var n3, m3 := n2 / 256, m2 / 256;
    assert n3 == 0x100 * q + m3;
    FourBytes(n);
    FourBytes(m);
  }

  lemma FourBytes(n: nat)
    ensures ToBytes(n, 4) == [n % 256, n / 256 % 256, n / 256 / 256 % 256, n / 256 / 256 / 256 % 256]
  {
    var n1 := n / 256;
    var n2 := n1 / 256;
    var n3 := n2 / 256;
    assert ToBytes(n3, 1) == [n3 % 256];
    assert ToBytes(n2, 2) == [n2 % 256] + ToBytes(n3, 1);
    assert ToBytes(n1, 3) == [n1 % 256] + ToBytes(n2, 2);
    assert ToBytes(n, 4) == [n % 256] + ToBytes(n1, 3);
  }

  lemma NumberTrip(n: nat, width: nat, t: seq<Byte>)
    requires n < Limit(width)
    ensures GetNumber(ToBytes(n, width) + t, width) == Got(n, t)
  {
    BytesOfNumber(n, width);
    assert (ToBytes(n, width) + t)[..width] == ToBytes(n, width);
    assert (ToBytes(n, width) + t)[width..] == t;
  }

  lemma Limits()
    ensures Limit(1) == 256 && Limit(4) == U32_LIMIT && Limit(8) == U64_LIMIT
  {
    assert Limit(2) == 256 * 256 && Limit(4) == 256 * (256 * Limit(2));
    assert Limit(6) == 256 * (256 * Limit(4)) && Limit(8) == 256 * (256 * Limit(6));
  }

  lemma Int32Trip(x: Int32, t: seq<Byte>)
    ensures GetInt32(ToBytes(Unsigned32(x), 4) + t) == Got(x, t)
  {
    Limits();
    NumberTrip(Unsigned32(x), 4, t);
  }

  lemma TextTrip(x: Text, t: seq<Byte>)
    requires TextFits(x)
    ensures GetText(PutText(x) + t) == Got(x, t)
  {
    Limits();
    assert PutText(x) + t == ToBytes(|x|, 4) + (x + t);
    NumberTrip(|x|, 4, x + t);
  }

  // ----- Parser after printer

  lemma DefaultTrip(p: Parameter, t: seq<Byte>)
    requires Tagged(p) && ParameterFits(p)
    ensures GetDefault(PutDefault(p) + t, p.defaultKind) == Got(Stored(p).default, t)
  {
    Limits();
    match p.defaultKind
    case Int => NumberTrip(Unsigned64(p.default.i), 8, t);
    case Float => NumberTrip(p.default.bits, 8, t);
    case Bool =>
      var n := if p.default.b then 1 else 0;
      assert ToBytes(n, 1) == [n];
      NumberTrip(n, 1, t);
    case String => TextTrip(p.default.text, t);
    case _ => assert PutDefault(p) + t == t;
  }

  lemma KindTrip(k: DefaultKind, t: seq<Byte>)
    ensures GetNumber([KindByte(k)] + t, 1) == Got(KindByte(k), t) && KindOf(KindByte(k)) == Some(k)
  {
    Limits();
    assert ToBytes(KindByte(k), 1) == [KindByte(k)];
    NumberTrip(KindByte(k), 1, t);
  }

  lemma ParameterTrip(p: Parameter, t: seq<Byte>)
    requires Tagged(p) && ParameterFits(p)
    ensures GetParameter(PutParameter(p) + t) == Got(Stored(p), t)
  {
    var s3 := PutDefault(p) + t;
    var s2 := [KindByte(p.defaultKind)] + s3;
    var s1 := ToBytes(Unsigned32(p.kind), 4) + s2;
    Pieces4(PutText(p.name), ToBytes(Unsigned32(p.kind), 4), [KindByte(p.defaultKind)], PutDefault(p), t);
    TextTrip(p.name, s1);
    Int32Trip(p.kind, s2);
    KindTrip(p.defaultKind, s3);
    DefaultTrip(p, t);
    FromPieces(PutParameter(p) + t, p.name, s1, p.kind, s2, p.defaultKind, s3, Stored(p).default, t);
  }

  lemma Pieces4(a: seq<Byte>, b: seq<Byte>, c: seq<Byte>, d: seq<Byte>, t: seq<Byte>)
    ensures (a + (b + (c + d))) + t == a + (b + (c + (d + t)))
  {
    assert (c + d) + t == c + (d + t);
    assert (b + (c + d)) + t == b + (c + (d + t));
  }

  lemma FromPieces(
    u: seq<Byte>, name: Text, s1: seq<Byte>, kind: Int32, s2: seq<Byte>, defaultKind: DefaultKind, s3: seq<Byte>,
    default: Default, t: seq<Byte>)
    requires GetText(u) == Got(name, s1) && GetInt32(s1) == Got(kind, s2)
    requires GetNumber(s2, 1) == Got(KindByte(defaultKind), s3) && KindOf(KindByte(defaultKind)) == Some(defaultKind)
    requires GetDefault(s3, defaultKind) == Got(default, t)
    ensures GetParameter(u) == Got(Parameter(name, kind, defaultKind, default), t)
  {
  }

  lemma {:induction false} ManyTrip<T(!new)>(
    put: T --> seq<Byte>, get: seq<Byte> -> Parsed<T>, xs: seq<T>, ys: seq<T>, t: seq<Byte>)
    requires |xs| == |ys|
    requires forall i :: 0 <= i < |xs| ==> put.requires(xs[i])
    requires forall i, u :: 0 <= i < |xs| ==> get(put(xs[i]) + u) == Got(ys[i], u)
    ensures GetMany(get, PutMany(put, xs) + t, |xs|) == Got(ys, t)
  {
    if xs == [] {
      assert PutMany(put, xs) + t == t;
    } else {
      var s1 := PutMany(put, xs[1..]) + t;
      assert PutMany(put, xs) + t == put(xs[0]) + s1;
      ManyTrip(put, get, xs[1..], ys[1..], t);
      assert [ys[0]] + ys[1..] == ys;
    }
  }

  lemma {:induction false} ManyTakeBytes<T>(put: T --> seq<Byte>, xs: seq<T>)
    requires forall i :: 0 <= i < |xs| ==> put.requires(xs[i]) && |put(xs[i])| > 0
    ensures |xs| <= |PutMany(put, xs)|
  {
    if xs != [] {
      ManyTakeBytes(put, xs[1..]);
    }
  }

  lemma ParametersTrip(ps: seq<Parameter>, t: seq<Byte>)
    requires forall i :: 0 <= i < |ps| ==> Tagged(ps[i]) && ParameterFits(ps[i])
    ensures GetMany(GetParameter, PutMany(PutParameter, ps) + t, |ps|) == Got(StoredAll(ps), t)
    ensures |ps| <= |PutMany(PutParameter, ps)|
  {
    forall i, u | 0 <= i < |ps| ensures GetParameter(PutParameter(ps[i]) + u) == Got(StoredAll(ps)[i], u) {
      ParameterTrip(ps[i], u);
    }
    ManyTrip(PutParameter, GetParameter, ps, StoredAll(ps), t);
    ManyTakeBytes(PutParameter, ps);
  }

  function PutHeader(s: Signature, s6: seq<Byte>): seq<Byte> {
    PutText(s.name) + (ToBytes(Unsigned32(s.returnType), 4) + (ToBytes(Unsigned32(s.line), 4)
      + (PutText(s.description) + (ToBytes(s.required, 4) + (ToBytes(|s.parameters|, 4) + s6)))))
  }

  lemma HeaderTrip(s: Signature, s6: seq<Byte>)
    requires TaggedSignature(s) && SignatureFits(s)
    ensures GetHeader(PutHeader(s, s6))
         == Got(Header(s.name, s.returnType, s.line, s.description, s.required % U32_LIMIT, |s.parameters|), s6)
  {
    var s5 := ToBytes(|s.parameters|, 4) + s6;
    var s4 := ToBytes(s.required, 4) + s5;
    var s3 := PutText(s.description) + s4;
    var s2 := ToBytes(Unsigned32(s.line), 4) + s3;
    Limits();
    TextTrip(s.name, ToBytes(Unsigned32(s.returnType), 4) + s2);
    Int32Trip(s.returnType, s2);
    Int32Trip(s.line, s3);
    TextTrip(s.description, s4);
    BytesTruncate(s.required);
    NumberTrip(s.required % U32_LIMIT, 4, s5);
    NumberTrip(|s.parameters|, 4, s6);
  }

  lemma SignatureTrip(s: Signature, size: nat, t: seq<Byte>)
    requires TaggedSignature(s) && SignatureFits(s) && |s.parameters| <= size
    ensures GetSignature(PutSignature(s) + t, size) == Got(Received(s), t)
  {
    var s6 := PutMany(PutParameter, s.parameters) + t;
    HeaderTrip(s, s6);
    ParametersTrip(s.parameters, t);
    FromHeader(PutSignature(s) + t, size, PutHeader(s, s6), s6, StoredAll(s.parameters), t) by {
      Pieces7(PutText(s.name), ToBytes(Unsigned32(s.returnType), 4), ToBytes(Unsigned32(s.line), 4), PutText(s.description),
              ToBytes(s.required, 4), ToBytes(|s.parameters|, 4), PutMany(PutParameter, s.parameters), t);
    }
  }

  lemma Pieces7(
    a: seq<Byte>, b: seq<Byte>, c: seq<Byte>, d: seq<Byte>, e: seq<Byte>, f: seq<Byte>, g: seq<Byte>, t: seq<Byte>)
    ensures (a + (b + (c + (d + (e + (f + g)))))) + t == a + (b + (c + (d + (e + (f + (g + t))))))
  {
    assert (f + g) + t == f + (g + t);
    assert (e + (f + g)) + t == e + (f + (g + t));
    assert (d + (e + (f + g))) + t == d + (e + (f + (g + t)));
    assert (c + (d + (e + (f + g)))) + t == c + (d + (e + (f + (g + t))));
    assert (b + (c + (d + (e + (f + g))))) + t == b + (c + (d + (e + (f + (g + t)))));
  }

  /** A signature is its header and then its parameters. */
  lemma FromHeader(u: seq<Byte>, size: nat, v: seq<Byte>, s6: seq<Byte>, ps: seq<Parameter>, t: seq<Byte>)
    requires u == v && GetHeader(v).Got? && GetHeader(v).rest == s6 && GetHeader(v).value.count == |ps| <= size
    requires GetMany(GetParameter, s6, |ps|) == Got(ps, t)
    ensures var h := GetHeader(v).value;
      GetSignature(u, size) == Got(Signature(h.name, ps, h.returnType, Min(h.required, |ps|), h.line, h.description), t)
  {
  }

  lemma {:induction false} PartOfMany<T>(put: T --> seq<Byte>, xs: seq<T>, i: nat)
    requires forall i :: 0 <= i < |xs| ==> put.requires(xs[i])
    requires i < |xs|
    ensures |put(xs[i])| <= |PutMany(put, xs)|
  {
    if i > 0 {
      PartOfMany(put, xs[1..], i - 1);
    }
  }

  lemma SignaturesTrip(table: seq<Signature>, size: nat, t: seq<Byte>)
    requires TaggedTable(table) && forall i :: 0 <= i < |table| ==> SignatureFits(table[i])
    requires |PutMany(PutSignature, table)| <= size
    ensures GetMany(SignatureReader(size), PutMany(PutSignature, table) + t, |table|) == Got(ReceivedAll(table), t)
    ensures |table| <= |PutMany(PutSignature, table)|
  {
    var get := SignatureReader(size);
    forall i, u | 0 <= i < |table| ensures get(PutSignature(table[i]) + u) == Got(ReceivedAll(table)[i], u) {
      PartOfMany(PutSignature, table, i);
      ParametersTrip(table[i].parameters, []);
      SignatureTrip(table[i], size, u);
    }
    ManyTrip(PutSignature, get, table, ReceivedAll(table), t);
    ManyTakeBytes(PutSignature, table);
  }

  /** Parsing an encoding consumes exactly the encoding, whatever follows it. */
  lemma TableTrip(table: seq<Signature>, t: seq<Byte>)
    requires TaggedTable(table) && Fits(table)
    ensures GetTable(Encode(table) + t, |Encode(table) + t|) == Got(ReceivedAll(table), t)
  {
    Limits();
    var s1 := PutMany(PutSignature, table) + t;
    assert Encode(table) + t == ToBytes(|table|, 4) + s1;
    NumberTrip(|table|, 4, s1);
    SignaturesTrip(table, |Encode(table) + t|, t);
  }

  /** Round trip, with anything after the table: the table comes back, and the rest does not matter. */
  lemma RoundTrip(table: seq<Signature>, t: seq<Byte>)
    requires TaggedTable(table) && Fits(table)
    ensures Decode(Encode(table) + t) == Some(ReceivedAll(table))
  {
    TableTrip(table, t);
  }

  // ----- More input never changes a parse that succeeded

  lemma NumberMore(s: seq<Byte>, width: nat, t: seq<Byte>)
    requires GetNumber(s, width).Got?
    ensures GetNumber(s + t, width) == Got(GetNumber(s, width).value, GetNumber(s, width).rest + t)
  {
    assert (s + t)[..width] == s[..width];
    assert (s + t)[width..] == s[width..] + t;
  }

  lemma Int32More(s: seq<Byte>, t: seq<Byte>)
    requires GetInt32(s).Got?
    ensures GetInt32(s + t) == Got(GetInt32(s).value, GetInt32(s).rest + t)
  {
    NumberMore(s, 4, t);
  }

  lemma TextMore(s: seq<Byte>, t: seq<Byte>)
    requires GetText(s).Got?
    ensures GetText(s + t) == Got(GetText(s).value, GetText(s).rest + t)
  {
    NumberMore(s, 4, t);
    var n, rest := GetNumber(s, 4).value, GetNumber(s, 4).rest;
    assert (rest + t)[..n] == rest[..n];
    assert (rest + t)[n..] == rest[n..] + t;
  }

  lemma DefaultMore(s: seq<Byte>, kind: DefaultKind, t: seq<Byte>)
    requires GetDefault(s, kind).Got?
    ensures GetDefault(s + t, kind) == Got(GetDefault(s, kind).value, GetDefault(s, kind).rest + t)
  {
    match kind
    case Int => NumberMore(s, 8, t); assert (s + t)[..8] == s[..8];
    case Float => NumberMore(s, 8, t); assert (s + t)[..8] == s[..8];
    case Bool => NumberMore(s, 1, t);
    case String => TextMore(s, t);
    case _ =>
  }

  lemma ParameterMore(s: seq<Byte>, t: seq<Byte>)
    requires GetParameter(s).Got?
    ensures GetParameter(s + t) == Got(GetParameter(s).value, GetParameter(s).rest + t)
  {
    TextMore(s, t);
    var s1 := GetText(s).rest;
    Int32More(s1, t);
    var s2 := GetInt32(s1).rest;
    NumberMore(s2, 1, t);
    DefaultMore(GetNumber(s2, 1).rest, KindOf(GetNumber(s2, 1).value).value, t);
  }

  lemma {:induction false} ManyMore<T(!new)>(
    get: seq<Byte> -> Parsed<T>, more: seq<Byte> -> Parsed<T>, s: seq<Byte>, count: nat, t: seq<Byte>)
    requires forall u, v :: get(u).Got? ==> more(u + v) == Got(get(u).value, get(u).rest + v)
    requires GetMany(get, s, count).Got?
    ensures GetMany(more, s + t, count) == Got(GetMany(get, s, count).value, GetMany(get, s, count).rest + t)
    decreases count
  {
    if count > 0 {
      ManyMore(get, more, get(s).rest, count - 1, t);
    }
  }

  lemma HeaderMore(s: seq<Byte>, t: seq<Byte>)
    requires GetHeader(s).Got?
    ensures GetHeader(s + t) == Got(GetHeader(s).value, GetHeader(s).rest + t)
  {
    TextMore(s, t);
    var s1 := GetText(s).rest;
    Int32More(s1, t);
    var s2 := GetInt32(s1).rest;
    Int32More(s2, t);
    var s3 := GetInt32(s2).rest;
    TextMore(s3, t);
    var s4 := GetText(s3).rest;
    NumberMore(s4, 4, t);
    NumberMore(GetNumber(s4, 4).rest, 4, t);
  }

  lemma SignatureMore(s: seq<Byte>, size: nat, t: seq<Byte>, larger: nat)
    requires GetSignature(s, size).Got? && size <= larger
    ensures GetSignature(s + t, larger) == Got(GetSignature(s, size).value, GetSignature(s, size).rest + t)
  {
    HeaderMore(s, t);
    forall u, v | GetParameter(u).Got?
      ensures GetParameter(u + v) == Got(GetParameter(u).value, GetParameter(u).rest + v)
    {
      ParameterMore(u, v);
    }
    ManyMore(GetParameter, GetParameter, GetHeader(s).rest, GetHeader(s).value.count, t);
  }

  lemma TableMore(s: seq<Byte>, t: seq<Byte>)
    requires GetTable(s, |s|).Got?
    ensures GetTable(s + t, |s + t|) == Got(GetTable(s, |s|).value, GetTable(s, |s|).rest + t)
  {
    NumberMore(s, 4, t);
    var get, more := SignatureReader(|s|), SignatureReader(|s + t|);
    forall u, v | get(u).Got? ensures more(u + v) == Got(get(u).value, get(u).rest + v) {
      SignatureMore(u, |s|, v, |s + t|);
    }
    ManyMore(get, more, GetNumber(s, 4).rest, GetNumber(s, 4).value, t);
  }

  /** Bytes appended to a blob that decodes do not change what it decodes to. */
  lemma TrailingBytesIgnored(data: seq<Byte>, t: seq<Byte>)
    requires Decode(data).Some?
    ensures Decode(data + t) == Decode(data)
  {
    TableMore(data, t);
  }

  /** A table cut short anywhere is refused: no strict prefix of an encoding decodes to anything. */
  lemma NoPrefixDecodes(table: seq<Signature>, cut: nat)
    requires TaggedTable(table) && Fits(table) && cut < |Encode(table)|
    ensures Decode(Encode(table)[..cut]).None?
  {
    TableTrip(table, []);
    assert Encode(table) + [] == Encode(table);
    NothingLeftToCut(Encode(table), cut);
  }

  /** A blob that is read to its last byte cannot be cut. */
  lemma NothingLeftToCut(e: seq<Byte>, cut: nat)
    requires GetTable(e, |e|).Got? && GetTable(e, |e|).rest == [] && cut < |e|
    ensures Decode(e[..cut]).None?
  {
    var p, q := e[..cut], e[cut..];
    assert p + q == e;
    if GetTable(p, |p|).Got? {
      TableMore(p, q);
      assert false;
    }
  }

  // ----- Whatever decodes is a table the codec keeps

  /** A parameter as the decoder leaves it. */
  predicate Clean(p: Parameter) { Tagged(p) && ParameterFits(p) && Stored(p) == p }

  predicate CleanSignature(s: Signature) {
    && TextFits(s.name) && TextFits(s.description) && |s.parameters| < U32_LIMIT
    && (forall i :: 0 <= i < |s.parameters| ==> Clean(s.parameters[i]))
    && s.required <= |s.parameters|
  }

  predicate CleanTable(table: seq<Signature>) {
    |table| < U32_LIMIT && forall i :: 0 <= i < |table| ==> CleanSignature(table[i])
  }

  lemma NumberFits(s: seq<Byte>)
    requires GetNumber(s, 4).Got?
    ensures GetNumber(s, 4).value < U32_LIMIT
  {
    Limits();
    NumberBound(s[..4]);
  }

  lemma TextIsClean(s: seq<Byte>)
    requires GetText(s).Got?
    ensures TextFits(GetText(s).value)
  {
    NumberFits(s);
  }

  lemma ParameterIsClean(s: seq<Byte>)
    requires GetParameter(s).Got?
    ensures Clean(GetParameter(s).value)
  {
    TextIsClean(s);
    var s2 := GetInt32(GetText(s).rest).rest;
    var s3 := GetNumber(s2, 1).rest;
    if KindOf(GetNumber(s2, 1).value) == Some(String) {
      TextIsClean(s3);
    }
  }

  lemma {:induction false} ManyAreGood<T(!new)>(get: seq<Byte> -> Parsed<T>, good: T -> bool, s: seq<Byte>, count: nat)
    requires forall u :: get(u).Got? ==> good(get(u).value)
    requires GetMany(get, s, count).Got?
    ensures |GetMany(get, s, count).value| == count
    ensures forall i :: 0 <= i < count ==> good(GetMany(get, s, count).value[i])
    decreases count
  {
    if count > 0 {
      ManyAreGood(get, good, get(s).rest, count - 1);
    }
  }

  lemma HeaderIsClean(s: seq<Byte>)
    requires GetHeader(s).Got?
    ensures var h := GetHeader(s).value; TextFits(h.name) && TextFits(h.description) && h.count < U32_LIMIT
  {
    TextIsClean(s);
    var s3 := GetInt32(GetInt32(GetText(s).rest).rest).rest;
    TextIsClean(s3);
    NumberFits(GetNumber(GetText(s3).rest, 4).rest);
  }

  lemma SignatureIsClean(s: seq<Byte>, size: nat)
    requires GetSignature(s, size).Got?
    ensures CleanSignature(GetSignature(s, size).value)
  {
    HeaderIsClean(s);
    forall u | GetParameter(u).Got? ensures Clean(GetParameter(u).value) {
      ParameterIsClean(u);
    }
    ManyAreGood(GetParameter, Clean, GetHeader(s).rest, GetHeader(s).value.count);
  }

  /** For arbitrary bytes: what decodes has 32-bit sizes and never requires more arguments than it has. */
  lemma DecodedIsClean(data: seq<Byte>)
    requires Decode(data).Some?
    ensures CleanTable(Decode(data).value)
  {
    NumberFits(data);
    var get := SignatureReader(|data|);
    forall u | get(u).Got? ensures CleanSignature(get(u).value) {
      SignatureIsClean(u, |data|);
    }
    ManyAreGood(get, CleanSignature, GetNumber(data, 4).rest, GetNumber(data, 4).value);
  }

  lemma CleanIsReceived(s: Signature)
    requires CleanSignature(s)
    ensures TaggedSignature(s) && SignatureFits(s) && Received(s) == s
  {
    assert StoredAll(s.parameters) == s.parameters;
  }

  /** Decoding, encoding again and decoding again is the same as decoding once, for arbitrary bytes. */
  lemma DecodeEncodeDecode(data: seq<Byte>)
    requires Decode(data).Some?
    ensures TaggedTable(Decode(data).value) && Decode(Encode(Decode(data).value)) == Decode(data)
  {
    DecodedIsClean(data);
    CleanTableReturns(Decode(data).value);
  }

  /** A signature with its required count clamped to its parameters and nothing else changed. */
  function Trimmed(s: Signature): Signature { s.(required := Min(s.required, |s.parameters|)) }

  function TrimmedAll(table: seq<Signature>): (r: seq<Signature>)
    ensures |r| == |table| && forall i :: 0 <= i < |table| ==> r[i] == Trimmed(table[i])
  {
    seq(|table|, i requires 0 <= i < |table| => Trimmed(table[i]))
  }

  /** No parameter keeps a value beside a kind that has none. */
  predicate NoSpareDefaults(s: Signature) { forall i :: 0 <= i < |s.parameters| ==> Stored(s.parameters[i]) == s.parameters[i] }

  /** What has to be true of one signature for only its required count to be clamped. */
  predicate Survives(s: Signature) { RequiredFits(s) && NoSpareDefaults(s) }

  /**
    Exactly which tables come back with each required count clamped and nothing else changed: those with
    32-bit lengths, no value beside a default kind that has none, and required counts that mean the same
    in 32 bits.
   */
  lemma RoundTripExact(table: seq<Signature>)
    requires TaggedTable(table)
    ensures Decode(Encode(table)) == Some(TrimmedAll(table))
       <==> Fits(table) && forall i :: 0 <= i < |table| ==> Survives(table[i])
  {
    if Decode(Encode(table)) == Some(TrimmedAll(table)) {
      DecodedIsClean(Encode(table));
      TrimmedFits(table);
    }
    if Fits(table) {
      RoundTrip(table, []);
      assert Encode(table) + [] == Encode(table);
      ReceivedIsTrimmed(table);
    }
  }

  lemma TrimmedFits(table: seq<Signature>)
    requires CleanTable(TrimmedAll(table))
    ensures Fits(table)
  {
    forall i | 0 <= i < |table| ensures SignatureFits(table[i]) {
      var c := TrimmedAll(table)[i];
      assert CleanSignature(c) && c == Trimmed(table[i]);
      forall j | 0 <= j < |table[i].parameters| ensures ParameterFits(table[i].parameters[j]) {
        assert Clean(c.parameters[j]);
      }
    }
  }

  lemma ReceivedIsTrimmedOne(s: Signature)
    ensures Received(s) == Trimmed(s) <==> Survives(s)
  {
    var ps := StoredAll(s.parameters);
    assert Received(s) == s.(parameters := ps, required := Min(s.required % U32_LIMIT, |s.parameters|));
    if ps == s.parameters {
      forall j | 0 <= j < |s.parameters| ensures Stored(s.parameters[j]) == s.parameters[j] {
        assert ps[j] == Stored(s.parameters[j]);
      }
    }
    assert NoSpareDefaults(s) ==> ps == s.parameters;
  }

  lemma ReceivedIsTrimmed(table: seq<Signature>)
    ensures ReceivedAll(table) == TrimmedAll(table) <==> forall i :: 0 <= i < |table| ==> Survives(table[i])
  {
    forall i | 0 <= i < |table| ensures Received(table[i]) == Trimmed(table[i]) <==> Survives(table[i]) {
      ReceivedIsTrimmedOne(table[i]);
    }
    if ReceivedAll(table) == TrimmedAll(table) {
      forall i | 0 <= i < |table| ensures Survives(table[i]) {
        assert ReceivedAll(table)[i] == TrimmedAll(table)[i];
      }
    }
  }

  /** And exactly which come back as they were: those the decoder could have produced. */
  lemma FixedExactly(table: seq<Signature>)
    requires TaggedTable(table)
    ensures Decode(Encode(table)) == Some(table) <==> CleanTable(table)
  {
    if Decode(Encode(table)) == Some(table) {
      DecodedIsClean(Encode(table));
    }
    if CleanTable(table) {
      CleanTableReturns(table);
    }
  }

  lemma CleanTableReturns(table: seq<Signature>)
    requires CleanTable(table)
    ensures TaggedTable(table) && Decode(Encode(table)) == Some(table)
  {
    forall i | 0 <= i < |table| ensures TaggedSignature(table[i]) && SignatureFits(table[i]) && Received(table[i]) == table[i] {
      CleanIsReceived(table[i]);
    }
    RoundTrip(table, []);
    assert Encode(table) + [] == Encode(table);
    assert ReceivedAll(table) == table;
  }

  /** A signature with a parameter that has no default and still carries a string; its count needs no clamping. */
  const SPARE := Signature([], [Parameter([], 0, NoDefault, StringValue([65]))], 0, 1, 0, [])

  /** The lengths fit and nothing is clamped, yet the table that comes back is another: the string is gone. */
  lemma SpareDefaultIsLost()
    ensures TaggedTable([SPARE]) && Fits([SPARE]) && RequiredFits(SPARE) && TrimmedAll([SPARE]) == [SPARE]
    ensures Decode(Encode([SPARE])) == Some([SPARE.(parameters := [Parameter([], 0, NoDefault, UNSET)])]) != Some([SPARE])
  {
    assert Tagged(SPARE.parameters[0]) && ParameterFits(SPARE.parameters[0]);
    assert TaggedSignature(SPARE) && SignatureFits(SPARE);
    RoundTrip([SPARE], []);
    assert Encode([SPARE]) + [] == Encode([SPARE]);
    assert StoredAll(SPARE.parameters) == [Parameter([], 0, NoDefault, UNSET)];
    assert ReceivedAll([SPARE]) == [Received(SPARE)];
  }
}
