/** `ov::element::Type_t` and the classification queries the modelled code
    asks of it. The dnnl data types s8/s4 used by the fully-connected
    descriptor code are written `I8`/`I4` here. */
module ElementTypes {

  datatype ElementType =
    | Dynamic | Boolean
    | Bf16 | F16 | F32 | F64
    | I4 | I8 | I16 | I32 | I64
    | U1 | U2 | U3 | U4 | U6 | U8 | U16 | U32 | U64
    | Nf4 | F8e4m3 | F8e5m2 | F4e2m1 | F8e8m0
    | String

  /** Position of the type in the enumeration, the value `std::hash` sees. */
  function Code(t: ElementType): nat
  {
    match t
    case Dynamic => 0
    case Boolean => 1
    case Bf16 => 2
    case F16 => 3
    case F32 => 4
    case F64 => 5
    case I4 => 6
    case I8 => 7
    case I16 => 8
    case I32 => 9
    case I64 => 10
    case U1 => 11
    case U2 => 12
    case U3 => 13
    case U4 => 14
    case U6 => 15
    case U8 => 16
    case U16 => 17
    case U32 => 18
    case U64 => 19
    case Nf4 => 20
    case F8e4m3 => 21
    case F8e5m2 => 22
    case F4e2m1 => 23
    case F8e8m0 => 24
    case String => 25
  }

  /** Floating-point element types (`is_real`). */
  predicate IsReal(t: ElementType)
  {
    t.Bf16? || t.F16? || t.F32? || t.F64? || t.F8e4m3? || t.F8e5m2? || t.F4e2m1? || t.F8e8m0?
  }

  /** `is_signed`: OpenVINO marks every type with a sign bit, booleans included. */
  predicate IsSigned(t: ElementType)
  {
    || t.Boolean? || t.Bf16? || t.F16? || t.F32? || t.F64?
    || t.I4? || t.I8? || t.I16? || t.I32? || t.I64?
    || t.F8e4m3? || t.F8e5m2? || t.F4e2m1?
  }

  /** `is_integral_number`: integral and not boolean. */
  predicate IsIntegralNumber(t: ElementType)
  {
    !IsReal(t) && t != Boolean
  }

  /** The two's-complement signed integer types. */
  predicate IsSignedInteger(t: ElementType)
  {
    t.I4? || t.I8? || t.I16? || t.I32? || t.I64?
  }

  /** Bit width of the signed integer types. */
  function SignedBits(t: ElementType): (bits: nat)
    requires IsSignedInteger(t)
    ensures bits in {4, 8, 16, 32, 64}
    ensures t == I4 ==> bits == 4
    ensures t == I8 ==> bits == 8
    ensures t == I16 ==> bits == 16
    ensures t == I32 ==> bits == 32
    ensures t == I64 ==> bits == 64
  {
    match t
    case I4 => 4
    case I8 => 8
    case I16 => 16
    case I32 => 32
    case I64 => 64
  }

  function Pow2(n: nat): nat
  {
    if n == 0 then 1 else 2 * Pow2(n - 1)
  }

  lemma {:induction false} Pow2Add(a: nat, b: nat)
    ensures Pow2(a + b) == Pow2(a) * Pow2(b)
  {
    if a > 0 {
      Pow2Add(a - 1, b);
    }
  }

  /** The powers the signed widths need, built from 2^16. */
  lemma Pow2Widths()
    ensures Pow2(3) == 0x8 && Pow2(7) == 0x80 && Pow2(15) == 0x8000
    ensures Pow2(31) == 0x8000_0000 && Pow2(63) == 0x8000_0000_0000_0000
  {
    assert Pow2(16) == 0x1_0000;
    Pow2Add(15, 16);
    Pow2Add(31, 32);
    Pow2Add(16, 16);
  }

  /** 2^(bits-1): the magnitude of the type's minimum value, which is also
      the number of its non-negative values. The per-type constants are the
      ones the minimum-value tensors and the symmetric zero-points carry. */
  function HalfRange(t: ElementType): (h: nat)
    requires IsSignedInteger(t)
    ensures t == I4 ==> h == 0x8
    ensures t == I8 ==> h == 0x80
    ensures t == I16 ==> h == 0x8000
    ensures t == I32 ==> h == 0x8000_0000
    ensures t == I64 ==> h == 0x8000_0000_0000_0000
  {
    Pow2Widths();
    Pow2(SignedBits(t) - 1)
  }

  /** The half range is half the number of values of the type's width. */
  lemma HalfRangeIsHalfWidth(t: ElementType)
    requires IsSignedInteger(t)
    ensures HalfRange(t) * 2 == Pow2(SignedBits(t))
  {
  }

  /** The signed integer types are exactly the signed integral numbers. */
  lemma SignedIntegralTypes(t: ElementType)
    ensures IsSigned(t) && IsIntegralNumber(t) <==> IsSignedInteger(t)
  {
  }
}
