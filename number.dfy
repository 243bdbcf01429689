/** The `Number` tagged union of crates/serde_valid_literal/src/number.rs: one
    variant per concrete integer type, each payload kept within its type's range.
    `isize` and `usize` are modelled at 64 bits. */
module Number {
  import opened Decimal

  type Int8 = x: int | -0x80 <= x < 0x80
  type Int16 = x: int | -0x8000 <= x < 0x8000
  type Int32 = x: int | -0x8000_0000 <= x < 0x8000_0000
  type Int64 = x: int | -0x8000_0000_0000_0000 <= x < 0x8000_0000_0000_0000
  type UInt8 = x: int | 0 <= x < 0x100
  type UInt16 = x: int | 0 <= x < 0x1_0000
  type UInt32 = x: int | 0 <= x < 0x1_0000_0000
  type UInt64 = x: int | 0 <= x < 0x1_0000_0000_0000_0000

  type NonZeroInt8 = x: Int8 | x != 0 witness 1
  type NonZeroInt16 = x: Int16 | x != 0 witness 1
  type NonZeroInt32 = x: Int32 | x != 0 witness 1
  type NonZeroInt64 = x: Int64 | x != 0 witness 1
  type NonZeroUInt8 = x: UInt8 | x != 0 witness 1
  type NonZeroUInt16 = x: UInt16 | x != 0 witness 1
  type NonZeroUInt32 = x: UInt32 | x != 0 witness 1
  type NonZeroUInt64 = x: UInt64 | x != 0 witness 1

  /** The variants in declaration order; the derived ordering compares this order first. */
  datatype Number =
    | I8(i8: Int8)
    | I16(i16: Int16)
    | I32(i32: Int32)
    | I64(i64: Int64)
    | Isize(isize: Int64)
    | U8(u8: UInt8)
    | U16(u16: UInt16)
    | U32(u32: UInt32)
    | U64(u64: UInt64)
    | Usize(usize: UInt64)
    | NonZeroI8(nzi8: NonZeroInt8)
    | NonZeroI16(nzi16: NonZeroInt16)
    | NonZeroI32(nzi32: NonZeroInt32)
    | NonZeroI64(nzi64: NonZeroInt64)
    | NonZeroIsize(nzisize: NonZeroInt64)
    | NonZeroU8(nzu8: NonZeroUInt8)
    | NonZeroU16(nzu16: NonZeroUInt16)
    | NonZeroU32(nzu32: NonZeroUInt32)
    | NonZeroU64(nzu64: NonZeroUInt64)
    | NonZeroUsize(nzusize: NonZeroUInt64)

  /** The concrete Rust types a `Number` can be built from. */
  datatype RustType =
    | I8Ty | I16Ty | I32Ty | I64Ty | IsizeTy
    | U8Ty | U16Ty | U32Ty | U64Ty | UsizeTy
    | NonZeroI8Ty | NonZeroI16Ty | NonZeroI32Ty | NonZeroI64Ty | NonZeroIsizeTy
    | NonZeroU8Ty | NonZeroU16Ty | NonZeroU32Ty | NonZeroU64Ty | NonZeroUsizeTy

  predicate IsNonZero(t: RustType)
  {
    match t
    case NonZeroI8Ty | NonZeroI16Ty | NonZeroI32Ty | NonZeroI64Ty | NonZeroIsizeTy => true
    case NonZeroU8Ty | NonZeroU16Ty | NonZeroU32Ty | NonZeroU64Ty | NonZeroUsizeTy => true
    case _ => false
  }

  /** The smallest value of the type (ignoring the NonZero exclusion of 0). */
  function MinValue(t: RustType): int
  {
    match t
    case I8Ty | NonZeroI8Ty => -0x80
    case I16Ty | NonZeroI16Ty => -0x8000
    case I32Ty | NonZeroI32Ty => -0x8000_0000
    case I64Ty | IsizeTy | NonZeroI64Ty | NonZeroIsizeTy => -0x8000_0000_0000_0000
    case _ => 0
  }

  /** The largest value of the type. */
  function MaxValue(t: RustType): int
  {
    match t
    case I8Ty | NonZeroI8Ty => 0x7F
    case I16Ty | NonZeroI16Ty => 0x7FFF
    case I32Ty | NonZeroI32Ty => 0x7FFF_FFFF
    case I64Ty | IsizeTy | NonZeroI64Ty | NonZeroIsizeTy => 0x7FFF_FFFF_FFFF_FFFF
    case U8Ty | NonZeroU8Ty => 0xFF
    case U16Ty | NonZeroU16Ty => 0xFFFF
    case U32Ty | NonZeroU32Ty => 0xFFFF_FFFF
    case U64Ty | UsizeTy | NonZeroU64Ty | NonZeroUsizeTy => 0xFFFF_FFFF_FFFF_FFFF
  }

  /** Whether the Rust type `t` can hold the integer `x`. */
  predicate Fits(t: RustType, x: int)
  {
    MinValue(t) <= x <= MaxValue(t) && (IsNonZero(t) ==> x != 0)
  }

  /** `From<T> for Number`: tags the value with the variant of its type and stores it unchanged. */
  function From(t: RustType, x: int): (n: Number)
    requires Fits(t, x)
    ensures TypeOf(n) == t && Payload(n) == x
  {
    match t
    case I8Ty => I8(x)
    case I16Ty => I16(x)
    case I32Ty => I32(x)
    case I64Ty => I64(x)
    case IsizeTy => Isize(x)
    case U8Ty => U8(x)
    case U16Ty => U16(x)
    case U32Ty => U32(x)
    case U64Ty => U64(x)
    case UsizeTy => Usize(x)
    case NonZeroI8Ty => NonZeroI8(x)
    case NonZeroI16Ty => NonZeroI16(x)
    case NonZeroI32Ty => NonZeroI32(x)
    case NonZeroI64Ty => NonZeroI64(x)
    case NonZeroIsizeTy => NonZeroIsize(x)
    case NonZeroU8Ty => NonZeroU8(x)
    case NonZeroU16Ty => NonZeroU16(x)
    case NonZeroU32Ty => NonZeroU32(x)
    case NonZeroU64Ty => NonZeroU64(x)
    case NonZeroUsizeTy => NonZeroUsize(x)
  }

  /** The Rust type whose variant `n` is. */
  function TypeOf(n: Number): RustType
  {
    match n
    case I8(_) => I8Ty
    case I16(_) => I16Ty
    case I32(_) => I32Ty
    case I64(_) => I64Ty
    case Isize(_) => IsizeTy
    case U8(_) => U8Ty
    case U16(_) => U16Ty
    case U32(_) => U32Ty
    case U64(_) => U64Ty
    case Usize(_) => UsizeTy
    case NonZeroI8(_) => NonZeroI8Ty
    case NonZeroI16(_) => NonZeroI16Ty
    case NonZeroI32(_) => NonZeroI32Ty
    case NonZeroI64(_) => NonZeroI64Ty
    case NonZeroIsize(_) => NonZeroIsizeTy
    case NonZeroU8(_) => NonZeroU8Ty
    case NonZeroU16(_) => NonZeroU16Ty
    case NonZeroU32(_) => NonZeroU32Ty
    case NonZeroU64(_) => NonZeroU64Ty
    case NonZeroUsize(_) => NonZeroUsizeTy
  }

  /** The stored integer; it always fits the variant's type, and a NonZero variant never holds 0. */
  function Payload(n: Number): (x: int)
    ensures Fits(TypeOf(n), x)
  {
    match n
    case I8(x) => x
    case I16(x) => x
    case I32(x) => x
    case I64(x) => x
    case Isize(x) => x
    case U8(x) => x
    case U16(x) => x
    case U32(x) => x
    case U64(x) => x
    case Usize(x) => x
    case NonZeroI8(x) => x
    case NonZeroI16(x) => x
    case NonZeroI32(x) => x
    case NonZeroI64(x) => x
    case NonZeroIsize(x) => x
    case NonZeroU8(x) => x
    case NonZeroU16(x) => x
    case NonZeroU32(x) => x
    case NonZeroU64(x) => x
    case NonZeroUsize(x) => x
  }

  /** Position of the variant in the enum's declaration. */
  function Discriminant(n: Number): (d: nat)
    ensures d < 20
  {
    match TypeOf(n)
    case I8Ty => 0
    case I16Ty => 1
    case I32Ty => 2
    case I64Ty => 3
    case IsizeTy => 4
    case U8Ty => 5
    case U16Ty => 6
    case U32Ty => 7
    case U64Ty => 8
    case UsizeTy => 9
    case NonZeroI8Ty => 10
    case NonZeroI16Ty => 11
    case NonZeroI32Ty => 12
    case NonZeroI64Ty => 13
    case NonZeroIsizeTy => 14
    case NonZeroU8Ty => 15
    case NonZeroU16Ty => 16
    case NonZeroU32Ty => 17
    case NonZeroU64Ty => 18
    case NonZeroUsizeTy => 19
  }

  /** The derived `PartialOrd`: variant order first, payload only within one variant. */
  predicate Less(a: Number, b: Number)
    ensures Less(a, b) ==> a != b && Discriminant(a) <= Discriminant(b)
    ensures TypeOf(a) == TypeOf(b) ==> (Less(a, b) <==> Payload(a) < Payload(b))
  {
    Discriminant(a) < Discriminant(b)
    || (Discriminant(a) == Discriminant(b) && Payload(a) < Payload(b))
  }

  /** `Display`: the decimal text of the payload, with no type tag. */
  function Display(n: Number): (s: string)
    ensures IsIntText(s)
    ensures ParseInt(s) == Payload(n)
  {
    IntTextRoundTrip(Payload(n));
    IntText(Payload(n))
  }

  /** Every `Number` is what `From` builds from its own type and payload. */
  lemma FromTypeOfPayload(n: Number)
    ensures From(TypeOf(n), Payload(n)) == n
  {
  }

  /** `From` is injective: different inputs never give the same `Number`. */
  lemma FromInjective(s: RustType, x: int, t: RustType, y: int)
    requires Fits(s, x) && Fits(t, y)
    ensures From(s, x) == From(t, y) <==> s == t && x == y
  {
  }

  lemma DiscriminantDeterminesType(a: Number, b: Number)
    ensures Discriminant(a) == Discriminant(b) <==> TypeOf(a) == TypeOf(b)
  {
  }

  /** The derived `PartialEq`: same variant and equal payloads, so `I32(5) != I64(5)`. */
  lemma EqualityIsSameVariantSamePayload(a: Number, b: Number)
    ensures a == b <==> TypeOf(a) == TypeOf(b) && Payload(a) == Payload(b)
  {
    if TypeOf(a) == TypeOf(b) && Payload(a) == Payload(b) {
      FromTypeOfPayload(a);
      FromTypeOfPayload(b);
    }
  }

  /** The derived ordering is a strict total order on `Number`. */
  lemma LessIsStrictTotalOrder(a: Number, b: Number, c: Number)
    ensures !Less(a, a)
    ensures Less(a, b) && Less(b, c) ==> Less(a, c)
    ensures Less(a, b) || a == b || Less(b, a)
    ensures Less(a, b) ==> !Less(b, a)
  {
    if Less(a, b) && Less(b, c) {
      LessTransitive(a, b, c);
    }
    LessTotal(a, b);
  }

  lemma LessTransitive(a: Number, b: Number, c: Number)
    requires Less(a, b) && Less(b, c)
    ensures Less(a, c)
  {
    var da, db, dc := Discriminant(a), Discriminant(b), Discriminant(c);
    var pa, pb, pc := Payload(a), Payload(b), Payload(c);
    assert da < db || (da == db && pa < pb);
    assert db < dc || (db == dc && pb < pc);
  }

  /** Two numbers neither less than the other are equal. */
  lemma LessTotal(a: Number, b: Number)
    ensures Less(a, b) || a == b || Less(b, a)
  {
    if !Less(a, b) && !Less(b, a) {
      assert Discriminant(a) == Discriminant(b) && Payload(a) == Payload(b);
      DiscriminantDeterminesType(a, b);
      EqualityIsSameVariantSamePayload(a, b);
    }
  }

  /** No widening across types: a lower variant is less whatever the payloads. */
  lemma VariantOrderDominates(a: Number, b: Number)
    requires Discriminant(a) < Discriminant(b)
    ensures Less(a, b) && !Less(b, a) && a != b
  {
  }

  lemma NoCrossTypeWidening()
    ensures I32(5) != I64(5)
    ensures Less(I32(100), I64(1))
    ensures Less(I64(-1), U8(0))
    ensures Display(I32(5)) == Display(I64(5)) == "5"
  {
    assert Display(I32(5)) == IntText(5);
  }

  /** Text is the same for every variant holding the same integer. */
  lemma DisplayIgnoresVariant(a: Number, b: Number)
    requires Payload(a) == Payload(b)
    ensures Display(a) == Display(b)
  {
  }
}
