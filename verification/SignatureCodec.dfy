/**
  The function-signature table: its binary form, the printer and the bounds-checked parser for it
  (src/gdscript/compiler/function_signature.cpp), both as functions on byte sequences.
 */
module SignatureCodec {
  import opened Basics

  type Byte = x: int | 0 <= x < 256

  const U32_LIMIT: nat := 0x1_0000_0000
  const U64_LIMIT: nat := 0x1_0000_0000_0000_0000

  type Int64 = x: int | -0x8000_0000_0000_0000 <= x < 0x8000_0000_0000_0000
  /** A double as its 64 bits, which is all the codec ever copies. */
  type Bits64 = x: int | 0 <= x < U64_LIMIT
  type Text = seq<Byte>

  // ----- The table (src/gdscript/compiler/function_signature.h:11-42)

  datatype DefaultKind = NoDefault | Nil | Int | Float | Bool | String | EmptyArray | EmptyDict

  /** `std::variant<int64_t, double, std::string, bool>`; kept beside the kind, and not always in step with it. */
  datatype Default = IntValue(i: Int64) | FloatValue(bits: Bits64) | StringValue(text: Text) | BoolValue(b: bool)

  datatype Parameter = Parameter(name: Text, kind: Int32, defaultKind: DefaultKind, default: Default)

  datatype Signature = Signature(
    name: Text, parameters: seq<Parameter>, returnType: Int32, required: nat, line: Int32, description: Text)

  /** `std::get` on the stored value does not throw for this kind. */
  predicate Tagged(p: Parameter) {
    match p.defaultKind
    case Int => p.default.IntValue?
    case Float => p.default.FloatValue?
    case Bool => p.default.BoolValue?
    case String => p.default.StringValue?
    case _ => true
  }

  predicate TaggedSignature(s: Signature) { forall i :: 0 <= i < |s.parameters| ==> Tagged(s.parameters[i]) }

  predicate TaggedTable(table: seq<Signature>) { forall i :: 0 <= i < |table| ==> TaggedSignature(table[i]) }

  // ----- Numbers, least significant byte first

  function Limit(width: nat): nat { if width == 0 then 1 else 256 * Limit(width - 1) }

  /** The low `width` bytes of a number: what copying out an integer of that width keeps of it. */
  function ToBytes(n: nat, width: nat): (bs: seq<Byte>)
    ensures |bs| == width
  {
    if width == 0 then [] else [n % 256] + ToBytes(n / 256, width - 1)
  }

  function FromBytes(bs: seq<Byte>): nat {
    if bs == [] then 0 else bs[0] + 256 * FromBytes(bs[1..])
  }

  /** Two's complement. */
  function Unsigned32(x: Int32): (n: nat)
    ensures n < U32_LIMIT
  {
    if x < 0 then x + U32_LIMIT else x
  }

  function Signed32(n: nat): Int32
    requires n < U32_LIMIT
  {
    if n < INT32_LIMIT then n else n - U32_LIMIT
  }

  function Unsigned64(x: Int64): (n: nat)
    ensures n < U64_LIMIT
  {
    if x < 0 then x + U64_LIMIT else x
  }

  function Signed64(n: nat): Int64
    requires n < U64_LIMIT
  {
    if n < 0x8000_0000_0000_0000 then n else n - U64_LIMIT
  }

  // ----- Printing

  /** One item after another. */
  function PutMany<T>(put: T --> seq<Byte>, xs: seq<T>): seq<Byte>
    requires forall i :: 0 <= i < |xs| ==> put.requires(xs[i])
  {
    if xs == [] then [] else put(xs[0]) + PutMany(put, xs[1..])
  }

  function PutText(t: Text): seq<Byte> { ToBytes(|t|, 4) + t }

  function KindByte(k: DefaultKind): (b: Byte)
    ensures b < 8
  {
    match k
    case NoDefault => 0
    case Nil => 1
    case Int => 2
    case Float => 3
    case Bool => 4
    case String => 5
    case EmptyArray => 6
    case EmptyDict => 7
  }

  function PutDefault(p: Parameter): seq<Byte>
    requires Tagged(p)
  {
    match p.defaultKind
    case Int => ToBytes(Unsigned64(p.default.i), 8)
    case Float => ToBytes(p.default.bits, 8)
    case Bool => [if p.default.b then 1 else 0]
    case String => PutText(p.default.text)
    case _ => []
  }

  function PutParameter(p: Parameter): seq<Byte>
    requires Tagged(p)
  {
    PutText(p.name) + (ToBytes(Unsigned32(p.kind), 4) + ([KindByte(p.defaultKind)] + PutDefault(p)))
  }

  function PutSignature(s: Signature): seq<Byte>
    requires TaggedSignature(s)
  {
    PutText(s.name) + (ToBytes(Unsigned32(s.returnType), 4) + (ToBytes(Unsigned32(s.line), 4)
      + (PutText(s.description) + (ToBytes(s.required, 4) + (ToBytes(|s.parameters|, 4) + PutMany(PutParameter, s.parameters))))))
  }

  /** `encode_function_signatures` (src/gdscript/compiler/function_signature.cpp:53-91). */
  function Encode(table: seq<Signature>): seq<Byte>
    requires TaggedTable(table)
  {
    ToBytes(|table|, 4) + PutMany(PutSignature, table)
  }

  // ----- Parsing

  /** A value and the bytes after it, or the failure of a read that does not fit in what is left. */
  datatype Parsed<+T> = Short | Got(value: T, rest: seq<Byte>)

  /** `count` items, one after another. */
  function GetMany<T>(get: seq<Byte> -> Parsed<T>, s: seq<Byte>, count: nat): Parsed<seq<T>>
    decreases count
  {
    if count == 0 then Got([], s)
    else
      match get(s)
      case Short => Short
      case Got(x, s1) =>
        match GetMany(get, s1, count - 1)
        case Short => Short
        case Got(xs, rest) => Got([x] + xs, rest)
  }

  function GetNumber(s: seq<Byte>, width: nat): Parsed<nat> {
    if |s| < width then Short else Got(FromBytes(s[..width]), s[width..])
  }

  function GetInt32(s: seq<Byte>): Parsed<Int32> {
    match GetNumber(s, 4)
    case Short => Short
    case Got(n, rest) => NumberBound(s[..4]); Got(Signed32(n), rest)
  }

  lemma {:induction false} NumberBound(bs: seq<Byte>)
    ensures FromBytes(bs) < Limit(|bs|)
  {
    if bs != [] {
      NumberBound(bs[1..]);
    }
  }

  function GetText(s: seq<Byte>): Parsed<Text> {
    match GetNumber(s, 4)
    case Short => Short
    case Got(n, rest) => if |rest| < n then Short else Got(rest[..n], rest[n..])
  }

  function KindOf(b: nat): Option<DefaultKind> {
    match b
    case 0 => Some(NoDefault)
    case 1 => Some(Nil)
    case 2 => Some(Int)
    case 3 => Some(Float)
    case 4 => Some(Bool)
    case 5 => Some(String)
    case 6 => Some(EmptyArray)
    case 7 => Some(EmptyDict)
    case _ => None
  }

  /** A kind without a value leaves the variant as it was constructed: the integer zero. */
  const UNSET := IntValue(0)

  function GetDefault(s: seq<Byte>, kind: DefaultKind): Parsed<Default> {
    match kind
    case Int =>
      (match GetNumber(s, 8)
       case Short => Short
       case Got(n, rest) => NumberBound(s[..8]); Got(IntValue(Signed64(n)), rest))
    case Float =>
      (match GetNumber(s, 8)
       case Short => Short
       case Got(n, rest) => NumberBound(s[..8]); Got(FloatValue(n), rest))
    case Bool =>
      (match GetNumber(s, 1)
       case Short => Short
       case Got(n, rest) => Got(BoolValue(n != 0), rest))
    case String =>
      (match GetText(s)
       case Short => Short
       case Got(t, rest) => Got(StringValue(t), rest))
    case _ => Got(UNSET, s)
  }

  function GetParameter(s: seq<Byte>): Parsed<Parameter> {
    match GetText(s)
    case Short => Short
    case Got(name, s1) =>
      match GetInt32(s1)
      case Short => Short
      case Got(kind, s2) =>
        match GetNumber(s2, 1)
        case Short => Short
        case Got(b, s3) =>
          match KindOf(b)
          case None => Short
          case Some(defaultKind) =>
            match GetDefault(s3, defaultKind)
            case Short => Short
            case Got(default, rest) => Got(Parameter(name, kind, defaultKind, default), rest)
  }

  function Min(x: nat, y: nat): nat { if x < y then x else y }

  /** The fields before the parameters, and how many parameters follow. */
  datatype Header = Header(name: Text, returnType: Int32, line: Int32, description: Text, required: nat, count: nat)

  function GetHeader(s: seq<Byte>): Parsed<Header> {
    match GetText(s)
    case Short => Short
    case Got(name, s1) =>
      match GetInt32(s1)
      case Short => Short
      case Got(returnType, s2) =>
        match GetInt32(s2)
        case Short => Short
        case Got(line, s3) =>
          match GetText(s3)
          case Short => Short
          case Got(description, s4) =>
            match GetNumber(s4, 4)
            case Short => Short
            case Got(required, s5) =>
              match GetNumber(s5, 4)
              case Short => Short
              case Got(count, rest) => Got(Header(name, returnType, line, description, required, count), rest)
  }

  /** `size` is that of the whole blob, which no honest parameter count exceeds. */
  function GetSignature(s: seq<Byte>, size: nat): Parsed<Signature> {
    match GetHeader(s)
    case Short => Short
    case Got(h, s1) =>
      if h.count > size then Short
      else
        match GetMany(GetParameter, s1, h.count)
        case Short => Short
        case Got(ps, rest) => Got(Signature(h.name, ps, h.returnType, Min(h.required, |ps|), h.line, h.description), rest)
  }

  function SignatureReader(size: nat): seq<Byte> -> Parsed<Signature> { s => GetSignature(s, size) }

  function GetTable(s: seq<Byte>, size: nat): Parsed<seq<Signature>> {
    match GetNumber(s, 4)
    case Short => Short
    case Got(count, s1) => if count > size then Short else GetMany(SignatureReader(size), s1, count)
  }

  /** `decode_function_signatures` (src/gdscript/compiler/function_signature.cpp:93-164); bytes after the table are ignored. */
  function Decode(data: seq<Byte>): Option<seq<Signature>> {
    match GetTable(data, |data|)
    case Short => None
    case Got(table, _) => Some(table)
  }
}
