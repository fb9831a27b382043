/** Order-preserving 64-bit keys of stored values. */
module ValueKeys {
  import opened Bits
  import opened Storage

  const LOW_64: u64 := 0xFFFF_FFFF_FFFF_FFFF
  const LOW_32: u32 := 0xFFFF_FFFF

  /** Two's complement with the sign bit flipped. */
  function SignedKey(value: i64): u64 {
    value + SIGN_FLIP_64
  }

  /** A negative pattern is inverted, a positive one moves above the midpoint. */
  function Float64Key(bits: u64): u64 {
    if bits >= SIGN_FLIP_64 then LOW_64 - bits else bits + SIGN_FLIP_64
  }

  function Float32Key(bits: u32): u64 {
    if bits >= SIGN_FLIP_32 then LOW_32 - bits else bits + SIGN_FLIP_32
  }

  function Key(v: StoredProperty): u64 {
    match v
    case Bool(flag) => if flag then 1 else 0
    case Byte(byte) => byte
    case Short(n) => SignedKey(n)
    case Int(n) => SignedKey(n)
    case Long(n) => SignedKey(n)
    case Float(bits) => Float32Key(bits)
    case Double(bits) => Float64Key(bits)
    case NodeId(n) => n.kind * 0x1_0000_0000 + n.seqNo
    case String(id) => id
    case Enum(id) => id.enumIndex * 0x1_0000 + id.variant
  }

  /** The key of the value stored at `index`; zero where nothing is stored. */
  function KeyAt(values: StorageArray, index: nat): u64 {
    var v := ValueAt(values, index);
    if v.Some? then Key(v.value) else 0
  }

  // ----- the keys as they are computed, with masks and shifts

  /** Conversion to 64 or 32 unsigned bits wraps round. */
  function Wrapped64(n: int): u64 {
    n % 0x1_0000_0000_0000_0000
  }

  function Wrapped32(n: int): u32 {
    n % 0x1_0000_0000
  }

  /** The same bits read as a two's complement number. */
  function AsSigned64(bits: u64): i64 {
    if bits >= SIGN_FLIP_64 then bits - 0x1_0000_0000_0000_0000 else bits
  }

  function AsSigned32(bits: u32): i32 {
    if bits >= SIGN_FLIP_32 then bits - 0x1_0000_0000 else bits
  }

  function MaskedSigned(value: i64): nat {
    BitXor(Wrapped64(value), SIGN_FLIP_64)
  }

  /** An arithmetic shift right is a division rounding down, which `/` is here. */
  function MaskedFloat64(bits: u64): nat {
    BitXor(bits, BitOr(Wrapped64(AsSigned64(bits) / Pow2(63)), SIGN_FLIP_64))
  }

  function MaskedFloat32(bits: u32): nat {
    BitXor(bits, BitOr(Wrapped32(AsSigned32(bits) / Pow2(31)), SIGN_FLIP_32))
  }

  function MaskedKey(v: StoredProperty): nat {
    match v
    case Bool(flag) => if flag then 1 else 0
    case Byte(byte) => byte
    case Short(n) => MaskedSigned(n)
    case Int(n) => MaskedSigned(n)
    case Long(n) => MaskedSigned(n)
    case Float(bits) => MaskedFloat32(bits)
    case Double(bits) => MaskedFloat64(bits)
    case NodeId(n) => BitOr(n.kind * Pow2(32), n.seqNo)
    case String(id) => id
    case Enum(id) => BitOr(id.enumIndex * Pow2(16), id.variant)
  }

  lemma MaskedSignedIs(value: i64)
    ensures MaskedSigned(value) == SignedKey(value)
  {
    hide Pow2, BitXor;
    Pow2Widths();
    XorTop(Wrapped64(value), 63);
  }

  lemma MaskedFloat64Is(bits: u64)
    ensures MaskedFloat64(bits) == Float64Key(bits)
  {
    hide Pow2, BitOr, BitXor;
    Pow2Widths();
    if bits >= SIGN_FLIP_64 {
      assert AsSigned64(bits) / SIGN_FLIP_64 == -1;
      OrOnes(SIGN_FLIP_64, 64);
      XorOnes(bits, 64);
    } else {
      assert AsSigned64(bits) / SIGN_FLIP_64 == 0;
      OrBelow(0, SIGN_FLIP_64, 64);
      XorTop(bits, 63);
    }
  }

  lemma MaskedFloat32Is(bits: u32)
    ensures MaskedFloat32(bits) == Float32Key(bits)
  {
    hide Pow2, BitOr, BitXor;
    Pow2Widths();
    if bits >= SIGN_FLIP_32 {
      assert AsSigned32(bits) / SIGN_FLIP_32 == -1;
      OrOnes(SIGN_FLIP_32, 32);
      XorOnes(bits, 32);
    } else {
      assert AsSigned32(bits) / SIGN_FLIP_32 == 0;
      OrBelow(0, SIGN_FLIP_32, 32);
      XorTop(bits, 31);
    }
  }

  /** The masks, shifts and ors of the computation give the keys the order is stated for. */
  lemma MaskedKeyIs(v: StoredProperty)
    ensures MaskedKey(v) == Key(v)
  {
    hide Pow2, BitOr, MaskedSigned, MaskedFloat32, MaskedFloat64, SignedKey, Float32Key, Float64Key;
    Pow2Widths();
    match v
    case Short(n) => MaskedSignedIs(n);
    case Int(n) => MaskedSignedIs(n);
    case Long(n) => MaskedSignedIs(n);
    case Float(bits) => MaskedFloat32Is(bits);
    case Double(bits) => MaskedFloat64Is(bits);
    case NodeId(n) => OrBelow(n.kind, n.seqNo, 32);
    case Enum(id) => OrBelow(id.enumIndex, id.variant, 16);
    case _ =>
  }

  // ----- what the order means

  /** The parts of a binary float: sign, biased exponent and fraction. */
  datatype FloatParts = FloatParts(negative: bool, exponent: nat, fraction: nat)

  function Parts64(bits: u64): FloatParts {
    var magnitude := bits % SIGN_FLIP_64;
    FloatParts(bits >= SIGN_FLIP_64, magnitude / 0x10_0000_0000_0000, magnitude % 0x10_0000_0000_0000)
  }

  function Parts32(bits: u32): FloatParts {
    var magnitude := bits % SIGN_FLIP_32;
    FloatParts(bits >= SIGN_FLIP_32, magnitude / 0x80_0000, magnitude % 0x80_0000)
  }

  predicate PairLess(a: nat, b: nat, c: nat, d: nat) {
    a < c || (a == c && b < d)
  }

  /**
   Strictly before in the totalOrder of section 5.10 of IEEE 754-2008: negative before positive,
   then by exponent and fraction, the other way round for negative floats. The two zeros and
   the different NaN patterns all have places of their own.
   */
  predicate TotalOrderLess(x: FloatParts, y: FloatParts) {
    if x.negative != y.negative then x.negative
    else if x.negative then PairLess(y.exponent, y.fraction, x.exponent, x.fraction)
    else PairLess(x.exponent, x.fraction, y.exponent, y.fraction)
  }

  /** The order of values of one type. */
  predicate ValueLess(v: StoredProperty, w: StoredProperty)
    requires v.Typ() == w.Typ()
  {
    match v
    case Bool(flag) => !flag && w.flag
    case Byte(byte) => byte < w.byte
    case Short(n) => n < w.short
    case Int(n) => n < w.int32
    case Long(n) => n < w.int64
    case Float(bits) => TotalOrderLess(Parts32(bits), Parts32(w.bits32))
    case Double(bits) => TotalOrderLess(Parts64(bits), Parts64(w.bits64))
    case NodeId(n) => PairLess(n.kind, n.seqNo, w.node.kind, w.node.seqNo)
    case String(id) => id < w.text
    case Enum(id) => PairLess(id.enumIndex, id.variant, w.enumId.enumIndex, w.enumId.variant)
  }

  lemma DoublesOrdered(x: u64, y: u64)
    ensures Float64Key(x) < Float64Key(y) <==> TotalOrderLess(Parts64(x), Parts64(y))
    ensures Float64Key(x) == Float64Key(y) <==> x == y
  {
    var m, n := x % SIGN_FLIP_64, y % SIGN_FLIP_64;
    assert m == if x >= SIGN_FLIP_64 then x - SIGN_FLIP_64 else x;
    assert n == if y >= SIGN_FLIP_64 then y - SIGN_FLIP_64 else y;
  }

  lemma FloatsOrdered(x: u32, y: u32)
    ensures Float32Key(x) < Float32Key(y) <==> TotalOrderLess(Parts32(x), Parts32(y))
    ensures Float32Key(x) == Float32Key(y) <==> x == y
  {
    var m, n := x % SIGN_FLIP_32, y % SIGN_FLIP_32;
    assert m == if x >= SIGN_FLIP_32 then x - SIGN_FLIP_32 else x;
    assert n == if y >= SIGN_FLIP_32 then y - SIGN_FLIP_32 else y;
  }

  /** Within one type, keys compare exactly as the values do, and only equal values share a key. */
  lemma KeysOrderValues(v: StoredProperty, w: StoredProperty)
    requires v.Typ() == w.Typ()
    ensures Key(v) < Key(w) <==> ValueLess(v, w)
    ensures Key(v) == Key(w) <==> v == w
  {
    match v
    case Float(bits) => FloatsOrdered(bits, w.bits32);
    case Double(bits) => DoublesOrdered(bits, w.bits64);
    case _ =>
  }
}
