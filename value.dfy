/**
 * The typed values read from or written to Modbus registers.
 *
 * Float payloads are carried as their IEEE 754 bit patterns (the form in which
 * they cross the wire), so that byte-level encoding and decoding stay exact.
 */
module Values {
  import opened Words
  import opened Errors

  /** The nine value kinds; the codec's type tags select one of these. */
  datatype ValueKind = BoolKind | U16Kind | I16Kind | U32Kind | I32Kind | F32Kind | U64Kind | I64Kind | F64Kind
  {
    predicate IsFloat() { this == F32Kind || this == F64Kind }

    /** Number of 16-bit registers a value of this kind occupies (coils occupy none). */
    function Registers(): nat
    {
      match this
      case BoolKind => 0
      case U16Kind | I16Kind => 1
      case U32Kind | I32Kind | F32Kind => 2
      case U64Kind | I64Kind | F64Kind => 4
    }
  }

  datatype ModbusValue =
    | Bool(b: bool)
    | U16(u16: uint16)
    | I16(i16: int16)
    | U32(u32: uint32)
    | I32(i32: int32)
    | F32(f32Bits: uint32)
    | U64(u64: uint64)
    | I64(i64: int64)
    | F64(f64Bits: uint64)
  {
    function Kind(): ValueKind
    {
      match this
      case Bool(_) => BoolKind
      case U16(_) => U16Kind
      case I16(_) => I16Kind
      case U32(_) => U32Kind
      case I32(_) => I32Kind
      case F32(_) => F32Kind
      case U64(_) => U64Kind
      case I64(_) => I64Kind
      case F64(_) => F64Kind
    }

    /** The mathematical integer an integer or Bool value stands for; None for floats. */
    function IntValue(): Option<int>
    {
      match this
      case Bool(b) => Some(if b then 1 else 0)
      case U16(v) => Some(v)
      case I16(v) => Some(v)
      case U32(v) => Some(v)
      case I32(v) => Some(v)
      case U64(v) => Some(v)
      case I64(v) => Some(v)
      case F32(_) => None
      case F64(_) => None
    }

    /** `register_count`: 0 for Bool, 1 for 16-bit, 2 for 32-bit and 4 for 64-bit values. */
    function RegisterCount(): (n: nat)
      ensures n == Kind().Registers()
      ensures n == 0 <==> this.Bool?
    {
      match this
      case Bool(_) => 0
      case U16(_) | I16(_) => 1
      case U32(_) | I32(_) | F32(_) => 2
      case U64(_) | I64(_) | F64(_) => 4
    }

    /**
     * `is_zero`: false for a set coil, and for numbers equality with zero.
     * A float equals 0.0 exactly when every bit except the sign bit is clear.
     */
    predicate IsZero()
      ensures !Kind().IsFloat() ==> (IsZero() <==> IntValue() == Some(0))
      ensures this.F32? ==> (IsZero() <==> f32Bits in {0, 0x8000_0000})
    {
      match this
      case Bool(b) => !b
      case U16(v) => v == 0
      case I16(v) => v == 0
      case U32(v) => v == 0
      case I32(v) => v == 0
      case F32(bits) => bits % 0x8000_0000 == 0
      case U64(v) => v == 0
      case I64(v) => v == 0
      case F64(bits) => bits % 0x8000_0000_0000_0000 == 0
    }

    /**
     * `as_i64` for the integer and Bool variants: exact, except that a U64
     * above i64::MAX wraps around (two's complement). Floats give None.
     */
    function AsI64(): (r: Option<int64>)
      ensures r.None? <==> Kind().IsFloat()
      ensures r.Some? && !this.U64? ==> Some(r.value as int) == IntValue()
      ensures this.U64? && u64 < 0x8000_0000_0000_0000 ==> r == Some(u64)
      ensures this.U64? && u64 >= 0x8000_0000_0000_0000 ==> r == Some(u64 - 0x1_0000_0000_0000_0000)
    {
      match this
      case Bool(b) => Some((if b then 1 else 0) as int64)
      case U16(v) => Some(v as int64)
      case I16(v) => Some(v as int64)
      case U32(v) => Some(v as int64)
      case I32(v) => Some(v as int64)
      case U64(v) => Some(ToSigned64(v))
      case I64(v) => Some(v)
      case F32(_) => None
      case F64(_) => None
    }

    /**
     * `type_name`: "bool" for a coil, otherwise the Rust type name of the
     * payload: 'f', 'i' or 'u' for float, signed or unsigned, then its width in bits.
     */
    function TypeName(): (n: string)
      ensures this.Bool? <==> n == "bool"
      ensures !this.Bool? ==> |n| == 3 && n[1..] == (if RegisterCount() == 1 then "16" else if RegisterCount() == 2 then "32" else "64")
      ensures n[0] == 'f' <==> Kind().IsFloat()
      ensures n[0] == 'i' <==> this.I16? || this.I32? || this.I64?
    {
      match this
      case Bool(_) => "bool"
      case U16(_) => "u16"
      case I16(_) => "i16"
      case U32(_) => "u32"
      case I32(_) => "i32"
      case F32(_) => "f32"
      case U64(_) => "u64"
      case I64(_) => "i64"
      case F64(_) => "f64"
    }
  }

  /** `ModbusValue::default()`. */
  function DefaultValue(): (v: ModbusValue)
    ensures v.Kind() == U16Kind && v.IsZero()
  {
    U16(0)
  }

  /** For every integer or Bool value, being zero and converting to the i64 zero coincide. */
  lemma IsZeroMatchesAsI64(v: ModbusValue)
    requires !v.Kind().IsFloat()
    ensures v.IsZero() <==> v.AsI64() == Some(0)
  {
  }

  lemma AsI64Examples()
    ensures U64(U64Max).AsI64() == Some(-1)
    ensures I16(-5).AsI64() == Some(-5)
    ensures Bool(true).AsI64() == Some(1)
  {
  }

  /** Distinct variants have distinct type names. */
  lemma TypeNameIdentifiesKind(v: ModbusValue, w: ModbusValue)
    ensures v.TypeName() == w.TypeName() <==> v.Kind() == w.Kind()
  {
  }
}
