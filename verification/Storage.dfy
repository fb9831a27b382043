/** Scalar widths, node and enum ids, property values, typed columns and checked offsets. */
module Storage {
  import opened Wrappers

  const U32_MAX: int := 0xFFFF_FFFF
  const SIGN_FLIP_64: int := 0x8000_0000_0000_0000
  const SIGN_FLIP_32: int := 0x8000_0000

  type u8 = x: int | 0 <= x < 0x100
  type u16 = x: int | 0 <= x < 0x1_0000
  type u32 = x: int | 0 <= x < 0x1_0000_0000
  type u64 = x: int | 0 <= x < 0x1_0000_0000_0000_0000
  type i16 = x: int | -0x8000 <= x < 0x8000
  type i32 = x: int | -0x8000_0000 <= x < 0x8000_0000
  type i64 = x: int | -0x8000_0000_0000_0000 <= x < 0x8000_0000_0000_0000

  /** A string as its UTF-8 bytes. */
  type Text = seq<u8>

  datatype RawNodeId = RawNodeId(kind: u32, seqNo: u32)

  datatype RawEnumId = RawEnumId(enumIndex: u16, variant: u16)

  datatype Direction = In | Out {
    function Factor(): nat {
      if In? then 0 else 1
    }

    function Flip(): Direction {
      if In? then Out else In
    }
  }

  datatype PropertyType =
    | NoType | BoolType | ByteType | ShortType | IntType | LongType
    | FloatType | DoubleType | NodeIdType | StringType | EnumType

  /**
   A property value. `PropertyValue` carries text and `StoredProperty` the interned id in its
   place; floats are kept as their bit patterns.
   */
  datatype Value<Str> =
    | Bool(flag: bool)
    | Byte(byte: u8)
    | Short(short: i16)
    | Int(int32: i32)
    | Long(int64: i64)
    | Float(bits32: u32)
    | Double(bits64: u64)
    | NodeId(node: RawNodeId)
    | String(text: Str)
    | Enum(enumId: RawEnumId)
  {
    function Typ(): PropertyType {
      match this
      case Bool(_) => BoolType
      case Byte(_) => ByteType
      case Short(_) => ShortType
      case Int(_) => IntType
      case Long(_) => LongType
      case Float(_) => FloatType
      case Double(_) => DoubleType
      case NodeId(_) => NodeIdType
      case String(_) => StringType
      case Enum(_) => EnumType
    }
  }

  type PropertyValue = Value<Text>
  type StoredProperty = Value<u32>

  datatype Error =
    | InvalidPropertyType(expected: PropertyType, found: PropertyType)
    | PropertyIndexNotFound
    | PropertyIndexOutOfBounds(start: nat, end: nat, count: nat)
    | NodeOffsetNotFound(seqNo: nat)
    | OffsetOverflow(value: nat)
    | OffsetUnderflow
    | UnresolvedNodeKind(kind: nat)
    | UnresolvedEdgeKind(kind: nat)
    | UnresolvedDirection(factor: nat)
    | ReverseEdgeNotFound(target: RawNodeId, node: RawNodeId, direction: Direction, edgeKind: nat)
    | EdgeHalfPropertyMismatch(edgeKind: nat, src: RawNodeId, dst: RawNodeId)
    | UnresolvedStringId(id: u32)
    | UnresolvedEnumKind(index: nat)
    | UnresolvedEnumVariant(index: nat, variant: nat)
    | EnumPropIndexMismatch(expectedIndex: nat, foundIndex: nat)
    | StorageSizeMismatch(expectedSlots: nat, foundSlots: nat)
    | OffsetsLengthMismatch(slot: nat, expectedLength: nat, foundLength: nat)
    | OffsetsBoundsMismatch(slot: nat, expectedBound: nat, foundBound: nat)
    | NodeSeqOutOfBounds(nodeId: RawNodeId, count: nat)
    | NodeCountOverflow(total: nat)

  // ----- columns

  /** A column: the marker that stores nothing, or values that all have one type. */
  datatype Column = NoValues | Typed(typ: PropertyType, items: seq<StoredProperty>) {
    ghost predicate WellTyped() {
      Typed? ==> typ != NoType && forall v <- items :: v.Typ() == typ
    }
  }

  type StorageArray = c: Column | c.WellTyped() witness NoValues

  function NewArray(typ: PropertyType): StorageArray {
    if typ == NoType then NoValues else Typed(typ, [])
  }

  function TypeOf(a: StorageArray): PropertyType {
    if a.NoValues? then NoType else a.typ
  }

  function Items(a: StorageArray): seq<StoredProperty> {
    if a.NoValues? then [] else a.items
  }

  /** The marker column reports length one although it holds nothing. */
  function LenOf(a: StorageArray): nat {
    if a.NoValues? then 1 else |a.items|
  }

  function ValueAt(a: StorageArray, index: nat): Option<StoredProperty> {
    if index < |Items(a)| then Some(Items(a)[index]) else None
  }

  function TryPush(a: StorageArray, v: StoredProperty): (r: Result<StorageArray, Error>)
    ensures r.Ok? <==> TypeOf(a) == v.Typ()
    ensures r.Ok? ==> TypeOf(r.value) == TypeOf(a) && Items(r.value) == Items(a) + [v]
  {
    if a.Typed? && a.typ == v.Typ() then Ok(Typed(a.typ, a.items + [v]))
    else Err(InvalidPropertyType(TypeOf(a), v.Typ()))
  }

  function TryAppend(a: StorageArray, b: StorageArray): (r: Result<StorageArray, Error>)
    ensures r.Ok? <==> TypeOf(a) == TypeOf(b)
    ensures r.Ok? ==> TypeOf(r.value) == TypeOf(a) && Items(r.value) == Items(a) + Items(b)
  {
    if a.NoValues? && b.NoValues? then Ok(a)
    else if a.Typed? && b.Typed? && a.typ == b.typ then Ok(Typed(a.typ, a.items + b.items))
    else Err(InvalidPropertyType(TypeOf(a), TypeOf(b)))
  }

  function RangedSlice<T>(v: seq<T>, start: nat, end: nat): (r: Result<seq<T>, Error>)
    ensures r.Ok? <==> start <= end <= |v|
    ensures r.Ok? ==> r.value == v[start..end]
  {
    if start <= end <= |v| then Ok(v[start..end])
    else Err(PropertyIndexOutOfBounds(start, end, |v|))
  }

  function TryExtendFromRange(a: StorageArray, src: StorageArray, start: nat, end: nat)
    : (r: Result<StorageArray, Error>)
    ensures TypeOf(a) == TypeOf(src) && start <= end <= |Items(src)| ==> r.Ok?
    ensures r.Ok? ==> TypeOf(r.value) == TypeOf(a) == TypeOf(src)
    ensures r.Ok? && a.Typed? ==>
              start <= end <= |Items(src)| && Items(r.value) == Items(a) + Items(src)[start..end]
  {
    if a.NoValues? && src.NoValues? then Ok(a)
    else if a.Typed? && src.Typed? && a.typ == src.typ then
      var part :- RangedSlice(src.items, start, end);
      Ok(Typed(a.typ, a.items + part))
    else Err(InvalidPropertyType(TypeOf(a), TypeOf(src)))
  }

  // ----- offsets

  function OffsetNew(value: nat): Result<u32, Error> {
    if value <= U32_MAX then Ok(value) else Err(OffsetOverflow(value))
  }

  /** `a - b` as a length. */
  function CheckedSub(a: u32, b: u32): (r: Result<nat, Error>)
    ensures r.Ok? <==> b <= a
    ensures r.Ok? ==> r.value + b == a
  {
    if b <= a then Ok(a - b) else Err(OffsetUnderflow)
  }

  function CheckedAddDelta(a: u32, delta: nat): (r: Result<u32, Error>)
    ensures r.Ok? <==> a + delta <= U32_MAX
    ensures r.Ok? ==> r.value - delta == a
  {
    if delta > U32_MAX then Err(OffsetOverflow(delta))
    else if a + delta > U32_MAX then Err(OffsetOverflow(a + delta))
    else Ok(a + delta)
  }

  function CheckedSubDelta(a: u32, delta: nat): (r: Result<u32, Error>)
    ensures r.Ok? <==> delta <= a
    ensures r.Ok? ==> r.value + delta == a
  {
    if delta > a then Err(OffsetUnderflow) else Ok(a - delta)
  }

  // ----- interned values

  /** The text a stored value stands for, given the interned strings. */
  function Resolve(strings: seq<Text>, v: StoredProperty): PropertyValue {
    match v
    case Bool(x) => Value.Bool(x)
    case Byte(x) => Value.Byte(x)
    case Short(x) => Value.Short(x)
    case Int(x) => Value.Int(x)
    case Long(x) => Value.Long(x)
    case Float(x) => Value.Float(x)
    case Double(x) => Value.Double(x)
    case NodeId(x) => Value.NodeId(x)
    case String(id) => Value.String(if id < |strings| then strings[id] else [])
    case Enum(x) => Value.Enum(x)
  }

  predicate IdInPool(strings: seq<Text>, v: StoredProperty) {
    v.String? ==> v.text < |strings|
  }

  ghost predicate Distinct<T>(s: seq<T>) {
    forall i, j | 0 <= i < j < |s| :: s[i] != s[j]
  }

  lemma ResolveInjective(strings: seq<Text>, v: StoredProperty, w: StoredProperty)
    requires Distinct(strings) && IdInPool(strings, v) && IdInPool(strings, w)
    ensures Resolve(strings, v) == Resolve(strings, w) <==> v == w
    ensures Resolve(strings, v).Typ() == v.Typ()
  {
  }
}
