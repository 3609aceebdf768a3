/**
 * The value codec: type tags, decoding registers into typed values, encoding
 * values (and plain numbers) into registers, the read-response parser, the
 * write-response checker and the FC05/06/15/16 request builders.
 */
module Codec {
  import opened Words
  import opened Errors
  import opened Constants
  import opened Bytes
  import opened Values
  import opened Pdu

  // ---------------------------------------------------------------------------
  // Type tags
  // ---------------------------------------------------------------------------

  /** The kind a lower-case type tag names, with all of its aliases; None for an unknown tag. */
  function KindNamed(name: string): Option<ValueKind>
  {
    match name
    case "bool" | "boolean" | "coil" => Some(BoolKind)
    case "uint16" | "u16" | "word" => Some(U16Kind)
    case "int16" | "i16" | "short" => Some(I16Kind)
    case "uint32" | "u32" | "dword" => Some(U32Kind)
    case "int32" | "i32" | "long" => Some(I32Kind)
    case "float32" | "f32" | "float" | "real" => Some(F32Kind)
    case "uint64" | "u64" | "qword" => Some(U64Kind)
    case "int64" | "i64" | "longlong" => Some(I64Kind)
    case "float64" | "f64" | "double" | "lreal" => Some(F64Kind)
    case _ => None
  }

  /** The kind a type tag selects: tags are compared after lower-casing. */
  function TagKind(tag: string): Option<ValueKind>
  {
    KindNamed(LowerString(tag))
  }

  /** The short name of every variant is a tag for its own kind. */
  lemma TypeNameIsTag(v: ModbusValue)
    ensures TagKind(v.TypeName()) == Some(v.Kind())
  {
    LowerStringOfLower(v.TypeName());
  }

  /** Registers a decode of this kind needs: one for a Bool (the register holding the bit). */
  function RegistersNeeded(k: ValueKind): (n: nat)
    ensures n >= 1 && (k != BoolKind ==> n == k.Registers())
  {
    if k == BoolKind then 1 else k.Registers()
  }

  /** `registers_for_type`: 0 for coils, 1, 2 or 4 for the numeric families, 1 for an unknown tag. */
  function RegistersForType(tag: string): (n: nat)
    ensures TagKind(tag).Some? ==> n == TagKind(tag).value.Registers()
    ensures TagKind(tag).None? ==> n == 1
  {
    match TagKind(tag)
    case Some(k) => k.Registers()
    case None => 1
  }

  lemma RegistersForTypeExamples()
    ensures RegistersForType("bool") == 0 && RegistersForType("uint16") == 1
  {
    TagBool();
    TagUint16();
  }

  lemma RegistersForWideTypeExamples()
    ensures RegistersForType("int32") == 2 && RegistersForType("float64") == 4
  {
    TagInt32();
    TagFloat64();
  }

  /** Tags are matched regardless of case. */
  lemma RegistersForUpperCaseTag()
    ensures RegistersForType("UINT16") == 1
  {
    LowerStringChars("UINT16");
    assert LowerString("UINT16") == "uint16";
  }

  // ---------------------------------------------------------------------------
  // Decoding
  // ---------------------------------------------------------------------------

  /**
   * `decode_register_value`: the value of the kind the tag names, read from the
   * first registers. A Bool is bit `bitPosition` of the first register; a
   * 16-bit value is the first register as it stands (no byte order applies);
   * wider values go through the order's byte pattern and a big-endian read.
   */
  function DecodeRegisterValue(registers: seq<uint16>, tag: string, bitPosition: uint8, order: ByteOrder): (r: Result<ModbusValue>)
    ensures TagKind(tag).None? ==> r == Err(InvalidData(UnsupportedDataType))
    ensures TagKind(tag).Some? && |registers| < RegistersNeeded(TagKind(tag).value) ==> r.Err?
    ensures TagKind(tag) == Some(BoolKind) && registers != [] && bitPosition > 15 ==>
              r == Err(InvalidData(InvalidBitPosition(bitPosition)))
    ensures r.Ok? <==> TagKind(tag).Some? && |registers| >= RegistersNeeded(TagKind(tag).value)
                       && (TagKind(tag) == Some(BoolKind) ==> bitPosition <= 15)
    ensures r.Ok? ==> r.value.Kind() == TagKind(tag).value
    ensures r.Ok? && TagKind(tag) == Some(BoolKind) ==> r.value == Bool(Bit(registers[0], bitPosition as nat))
  {
    DecodeKind(registers, TagKind(tag), bitPosition, order)
  }

  /** The decode once the tag is resolved to a kind (or to none). */
  function DecodeKind(registers: seq<uint16>, kind: Option<ValueKind>, bitPosition: uint8, order: ByteOrder): (r: Result<ModbusValue>)
    ensures kind.None? ==> r == Err(InvalidData(UnsupportedDataType))
    ensures kind.Some? && |registers| < RegistersNeeded(kind.value) ==> r.Err?
    ensures kind == Some(BoolKind) && registers != [] && bitPosition > 15 ==>
              r == Err(InvalidData(InvalidBitPosition(bitPosition)))
    ensures r.Ok? <==> kind.Some? && |registers| >= RegistersNeeded(kind.value)
                       && (kind == Some(BoolKind) ==> bitPosition <= 15)
    ensures r.Ok? ==> r.value.Kind() == kind.value
    ensures r.Ok? && kind == Some(BoolKind) ==> r.value == Bool(Bit(registers[0], bitPosition as nat))
  {
    match kind
    case None => Err(InvalidData(UnsupportedDataType))
    case Some(k) => if k.Registers() <= 1 then DecodeNarrow(registers, k, bitPosition) else DecodeWide(registers, k, order)
  }

  /** A Bool (one bit of the first register) or a 16-bit value (the first register as it stands). */
  function DecodeNarrow(registers: seq<uint16>, kind: ValueKind, bitPosition: uint8): (r: Result<ModbusValue>)
    requires kind.Registers() <= 1
    ensures registers == [] ==> r == Err(InvalidData(NoRegisters))
    ensures kind == BoolKind && registers != [] && bitPosition > 15 ==>
              r == Err(InvalidData(InvalidBitPosition(bitPosition)))
    ensures r.Ok? <==> registers != [] && (kind == BoolKind ==> bitPosition <= 15)
    ensures r.Ok? ==> r.value.Kind() == kind
    ensures r.Ok? && kind == BoolKind ==> r.value == Bool(Bit(registers[0], bitPosition as nat))
  {
    if |registers| == 0 then Err(InvalidData(NoRegisters))
    else
      match kind
      case BoolKind =>
        if bitPosition > 15 then Err(InvalidData(InvalidBitPosition(bitPosition)))
        else Ok(Bool(Bit(registers[0], bitPosition as nat)))
      case U16Kind => Ok(U16(registers[0]))
      case I16Kind => Ok(I16(ToSigned16(registers[0])))
  }

  /** A 32- or 64-bit value, through the order's byte pattern. */
  function DecodeWide(registers: seq<uint16>, kind: ValueKind, order: ByteOrder): (r: Result<ModbusValue>)
    requires kind.Registers() > 1
    ensures |registers| < kind.Registers() ==> r == Err(InvalidData(NotEnoughRegisters))
    ensures |registers| >= kind.Registers() ==> r.Ok? && r.value.Kind() == kind
  {
    if |registers| < kind.Registers() then Err(InvalidData(NotEnoughRegisters))
    else
      match kind
      case U32Kind => Ok(U32(RegsToU32(registers[..2], order)))
      case I32Kind => Ok(I32(RegsToI32(registers[..2], order)))
      case F32Kind => Ok(F32(RegsToU32(registers[..2], order)))
      case U64Kind => Ok(U64(RegsToU64(registers[..4], order)))
      case I64Kind => Ok(I64(RegsToI64(registers[..4], order)))
      case F64Kind => Ok(F64(RegsToU64(registers[..4], order)))
  }

  /** Registers after the ones a kind needs are ignored. */
  lemma DecodeIgnoresTrailingRegisters(registers: seq<uint16>, extra: seq<uint16>, tag: string, bitPosition: uint8, order: ByteOrder)
    requires TagKind(tag).Some? && |registers| >= RegistersNeeded(TagKind(tag).value)
    ensures DecodeRegisterValue(registers + extra, tag, bitPosition, order) == DecodeRegisterValue(registers, tag, bitPosition, order)
  {
    var k := TagKind(tag).value;
    var n := RegistersNeeded(k);
    assert (registers + extra)[..n] == registers[..n];
    assert (registers + extra)[0] == registers[0];
  }

  lemma TagBool()
    ensures TagKind("bool") == Some(BoolKind)
  {
    LowerStringOfLower("bool");
  }

  lemma TagUint16()
    ensures TagKind("uint16") == Some(U16Kind)
  {
    LowerStringOfLower("uint16");
  }

  lemma TagInt16()
    ensures TagKind("int16") == Some(I16Kind)
  {
    LowerStringOfLower("int16");
  }

  lemma TagInt32()
    ensures TagKind("int32") == Some(I32Kind)
  {
    LowerStringOfLower("int32");
  }

  lemma TagFloat64()
    ensures TagKind("float64") == Some(F64Kind)
  {
    LowerStringOfLower("float64");
  }

  lemma TagUint32()
    ensures TagKind("uint32") == Some(U32Kind)
  {
    LowerStringOfLower("uint32");
  }

  lemma U32Example()
    ensures RegsToU32([0x1234, 0x5678], BigEndian) == 0x1234_5678
    ensures RegsToU32([0x5678, 0x1234], BigEndianSwap) == 0x1234_5678
  {
    WordSplit(0x1234);
    WordSplit(0x5678);
  }

  lemma DecodeExamples()
    ensures DecodeRegisterValue([0x1234, 0x5678], "uint32", 0, BigEndian) == Ok(U32(0x1234_5678))
  {
    TagUint32();
    U32Example();
    var r: seq<uint16> := [0x1234, 0x5678];
    assert r[..2] == r;
  }

  lemma DecodeSwapExample()
    ensures DecodeRegisterValue([0x5678, 0x1234], "uint32", 0, BigEndianSwap) == Ok(U32(0x1234_5678))
  {
    TagUint32();
    U32Example();
    var s: seq<uint16> := [0x5678, 0x1234];
    assert s[..2] == s;
  }

  lemma DecodeSixteenBitExamples()
    ensures DecodeRegisterValue([0x1234], "uint16", 0, BigEndian) == Ok(U16(0x1234))
    ensures DecodeRegisterValue([0xFFFF], "int16", 0, BigEndian) == Ok(I16(-1))
  {
    TagUint16();
    TagInt16();
  }

  lemma DecodeBoolExamples()
    ensures DecodeRegisterValue([0x0004], "bool", 2, BigEndian) == Ok(Bool(true))
    ensures DecodeRegisterValue([0x0004], "bool", 0, BigEndian) == Ok(Bool(false))
  {
    TagBool();
    assert Bit(4, 2) == Bit(1, 0);
  }

  // ---------------------------------------------------------------------------
  // Encoding
  // ---------------------------------------------------------------------------

  /**
   * `encode_value`: never fails. A Bool becomes the register 1 or 0, a 16-bit
   * value one register (an I16 as its bit pattern), and the wider values their
   * big-endian bytes regrouped in the order's pattern.
   */
  function EncodeValue(v: ModbusValue, order: ByteOrder): (r: Result<seq<uint16>>)
    ensures r.Ok? && |r.value| == RegistersNeeded(v.Kind())
    ensures v.Bool? ==> r.value == [if v.b then 1 else 0]
  {
    match v
    case Bool(b) => Ok([if b then 1 else 0])
    case U16(x) => Ok([x])
    case I16(x) => Ok([ToUnsigned16(x)])
    case U32(x) => Ok(U32ToRegs(x, order))
    case I32(x) => Ok(I32ToRegs(x, order))
    case F32(bits) => Ok(U32ToRegs(bits, order))
    case U64(x) => Ok(U64ToRegs(x, order))
    case I64(x) => Ok(I64ToRegs(x, order))
    case F64(bits) => Ok(U64ToRegs(bits, order))
  }

  /** Decoding an encoded value under its own type name and the same order gives the value back. */
  lemma DecodeEncode(v: ModbusValue, order: ByteOrder)
    ensures DecodeRegisterValue(EncodeValue(v, order).value, v.TypeName(), 0, order) == Ok(v)
  {
    TypeNameIsTag(v);
    DecodeKindEncode(v, order);
  }

  /** The same round trip with the kind already resolved. */
  lemma DecodeKindEncode(v: ModbusValue, order: ByteOrder)
    ensures DecodeKind(EncodeValue(v, order).value, Some(v.Kind()), 0, order) == Ok(v)
  {
    match v
    case Bool(b) =>
      assert Bit(if b then 1 else 0, 0) == b;
    case U16(x) =>
    case I16(x) =>
      SignedRoundTrips(x, 0, 0);
    case U32(_) => DecodeKindEncode32(v, order);
    case I32(_) => DecodeKindEncode32(v, order);
    case F32(_) => DecodeKindEncode32(v, order);
    case U64(_) => DecodeKindEncode64(v, order);
    case I64(_) => DecodeKindEncode64(v, order);
    case F64(_) => DecodeKindEncode64(v, order);
  }

  lemma DecodeKindEncode32(v: ModbusValue, order: ByteOrder)
    requires v.U32? || v.I32? || v.F32?
    ensures DecodeKind(EncodeValue(v, order).value, Some(v.Kind()), 0, order) == Ok(v)
  {
    var regs := EncodeValue(v, order).value;
    assert regs[..2] == regs;
  }

  lemma DecodeKindEncode64(v: ModbusValue, order: ByteOrder)
    requires v.U64? || v.I64? || v.F64?
    ensures DecodeKind(EncodeValue(v, order).value, Some(v.Kind()), 0, order) == Ok(v)
  {
    var regs := EncodeValue(v, order).value;
    assert regs[..4] == regs;
  }

  /**
   * Encoding a decoded value gives back the registers it was read from, for
   * every kind but Bool (which keeps one bit of its register).
   */
  lemma EncodeDecode(registers: seq<uint16>, tag: string, order: ByteOrder)
    requires DecodeRegisterValue(registers, tag, 0, order).Ok?
    requires TagKind(tag) != Some(BoolKind)
    ensures var v := DecodeRegisterValue(registers, tag, 0, order).value;
            EncodeValue(v, order).value == registers[..RegistersNeeded(v.Kind())]
  {
    var v := DecodeRegisterValue(registers, tag, 0, order).value;
    match v.Kind()
    case U16Kind =>
    case I16Kind =>
    case U32Kind | F32Kind =>
      RegsToU32Inverse(registers[..2], order);
    case I32Kind =>
      RegsToU32Inverse(registers[..2], order);
    case U64Kind | F64Kind =>
      RegsToU64Inverse(registers[..4], order);
    case I64Kind =>
      RegsToU64Inverse(registers[..4], order);
  }

  lemma EncodeExample()
    ensures EncodeValue(U32(0x1234_5678), BigEndian).value == [0x1234, 0x5678]
  {
    assert Hi(0x1234) == 0x12 && Lo(0x1234) == 0x34 && Hi(0x5678) == 0x56 && Lo(0x5678) == 0x78;
    assert 0x1234_5678 / 0x1_0000 == 0x1234 && 0x1234_5678 % 0x1_0000 == 0x5678;
    var b := U32Be(0x1234_5678);
    assert b == [0x12, 0x34, 0x56, 0x78];
    assert Bytes4ToRegs(b, BigEndian) == [Word(0x12, 0x34), Word(0x56, 0x78)];
  }

  // ---------------------------------------------------------------------------
  // Clamping and encoding plain numbers
  // ---------------------------------------------------------------------------

  /** `f32::MAX` and `f64::MAX` as exact integers. */
  const F32Max: int := 340282346638528859811704183484516925440
  const F64Max: int := 179769313486231570814527423731704356798070567525844996598917476803157260780028538760589558632766878171540458953514382464234321326889464182768467546703537516986049910576551282076245490090389328944075868508455133942304583236903222948165808559332123348274797826204144723168738177180919299881250404026184124858368

  datatype Range = Range(lo: int, hi: int)

  /**
   * The clamping range of `clamp_to_data_type`. Only the short aliases are
   * listed there ("word", "dword", "float" and the like are unknown to it).
   * The 64-bit upper bounds are `u64::MAX as f64` and `i64::MAX as f64`, which
   * round up to 2^64 and 2^63.
   */
  function ClampRange(tag: string): Option<Range>
  {
    match LowerString(tag)
    case "uint16" | "u16" => Some(Range(0, 65535))
    case "int16" | "i16" => Some(Range(-32768, 32767))
    case "uint32" | "u32" => Some(Range(0, 4294967295))
    case "int32" | "i32" => Some(Range(-2147483648, 2147483647))
    case "uint64" | "u64" => Some(Range(0, 0x1_0000_0000_0000_0000))
    case "int64" | "i64" => Some(Range(-0x8000_0000_0000_0000, 0x8000_0000_0000_0000))
    case "float32" | "f32" => Some(Range(-F32Max, F32Max))
    case "float64" | "f64" => Some(Range(-F64Max, F64Max))
    case _ => None
  }

  /** `f64::clamp`. */
  function Clamp(value: int, range: Range): (r: int)
    requires range.lo <= range.hi
    ensures range.lo <= r <= range.hi
    ensures range.lo <= value <= range.hi ==> r == value
    ensures value < range.lo ==> r == range.lo
    ensures value > range.hi ==> r == range.hi
  {
    if value < range.lo then range.lo else if value > range.hi then range.hi else value
  }

  /** `clamp_to_data_type`: the value forced into the tag's range; unchanged for bool and unknown tags. */
  function ClampToDataType(value: int, tag: string): (r: int)
    ensures ClampRange(tag).None? ==> r == value
    ensures ClampRange(tag).Some? ==> ClampRange(tag).value.lo <= r <= ClampRange(tag).value.hi
    ensures ClampRange(tag).Some? && ClampRange(tag).value.lo <= value <= ClampRange(tag).value.hi ==> r == value
    ensures ClampRange(tag).Some? && value < ClampRange(tag).value.lo ==> r == ClampRange(tag).value.lo
    ensures ClampRange(tag).Some? && value > ClampRange(tag).value.hi ==> r == ClampRange(tag).value.hi
  {
    match ClampRange(tag)
    case None => value
    case Some(range) => Clamp(value, range)
  }

  lemma ClampExamples()
    ensures ClampToDataType(70000, "uint16") == 65535 && ClampToDataType(-100, "uint16") == 0
    ensures ClampToDataType(40000, "int16") == 32767 && ClampToDataType(-40000, "int16") == -32768
  {
    TagUint16();
    TagInt16();
  }

  /** The exact range of an integer kind. */
  function KindRange(k: ValueKind): Range
    requires !k.IsFloat() && k != BoolKind
  {
    match k
    case U16Kind => Range(0, 0xFFFF)
    case I16Kind => Range(-0x8000, 0x7FFF)
    case U32Kind => Range(0, 0xFFFF_FFFF)
    case I32Kind => Range(-0x8000_0000, 0x7FFF_FFFF)
    case U64Kind => Range(0, 0xFFFF_FFFF_FFFF_FFFF)
    case I64Kind => Range(-0x8000_0000_0000_0000, 0x7FFF_FFFF_FFFF_FFFF)
  }

  /**
   * `encode_f64_as_type`: clamp, then convert with Rust's saturating `as` and
   * encode like the matching variant. The bit patterns of `clamped as f32` and
   * of the f64 itself are supplied as `f32Bits` and `f64Bits`.
   */
  function EncodeF64AsType(value: int, tag: string, order: ByteOrder, f32Bits: int -> uint32, f64Bits: int -> uint64): (r: Result<seq<uint16>>)
    ensures TagKind(tag).None? ==> r == Err(InvalidData(UnsupportedDataType))
    ensures TagKind(tag).Some? ==> r.Ok? && |r.value| == RegistersNeeded(TagKind(tag).value)
  {
    var clamped := ClampToDataType(value, tag);
    match TagKind(tag)
    case None => Err(InvalidData(UnsupportedDataType))
    case Some(BoolKind) => Ok([if clamped != 0 then 1 else 0])
    case Some(F32Kind) => EncodeValue(F32(f32Bits(clamped)), order)
    case Some(F64Kind) => EncodeValue(F64(f64Bits(clamped)), order)
    case Some(k) => EncodeValue(IntegerValue(k, Clamp(clamped, KindRange(k))), order)
  }

  /** The integer variant of kind k holding n, which lies in the kind's range. */
  function IntegerValue(k: ValueKind, n: int): (v: ModbusValue)
    requires !k.IsFloat() && k != BoolKind
    requires KindRange(k).lo <= n <= KindRange(k).hi
    ensures v.Kind() == k && v.IntValue() == Some(n)
  {
    match k
    case U16Kind => U16(n)
    case I16Kind => I16(n)
    case U32Kind => U32(n)
    case I32Kind => I32(n)
    case U64Kind => U64(n)
    case I64Kind => I64(n)
  }

  /** The tag's clamping range never cuts into its kind's range, so clamping first changes nothing. */
  lemma ClampWithinKind(value: int, tag: string)
    requires TagKind(tag).Some? && !TagKind(tag).value.IsFloat() && TagKind(tag).value != BoolKind
    ensures Clamp(ClampToDataType(value, tag), KindRange(TagKind(tag).value)) == Clamp(value, KindRange(TagKind(tag).value))
  {
  }

  /**
   * Writing a number under an integer tag and reading it back under the same
   * tag gives the number saturated into the type's range.
   */
  lemma EncodeF64AsTypeReadsBack(value: int, tag: string, order: ByteOrder, f32Bits: int -> uint32, f64Bits: int -> uint64)
    requires TagKind(tag).Some? && !TagKind(tag).value.IsFloat() && TagKind(tag).value != BoolKind
    ensures var k := TagKind(tag).value;
            var regs := EncodeF64AsType(value, tag, order, f32Bits, f64Bits).value;
            DecodeRegisterValue(regs, tag, 0, order) == Ok(IntegerValue(k, Clamp(value, KindRange(k))))
  {
    var k := TagKind(tag).value;
    var v := IntegerValue(k, Clamp(ClampToDataType(value, tag), KindRange(k)));
    ClampWithinKind(value, tag);
    DecodeEncodeUnderTag(v, tag, order);
  }

  /** DecodeEncode for any tag of the value's kind, not only its short name. */
  lemma DecodeEncodeUnderTag(v: ModbusValue, tag: string, order: ByteOrder)
    requires TagKind(tag) == Some(v.Kind())
    ensures DecodeRegisterValue(EncodeValue(v, order).value, tag, 0, order) == Ok(v)
  {
    DecodeEncode(v, order);
    TypeNameIsTag(v);
  }

  /** A bool tag writes 1 for any non-zero number and 0 for zero. */
  lemma EncodeF64AsBool(value: int, tag: string, order: ByteOrder, f32Bits: int -> uint32, f64Bits: int -> uint64)
    requires TagKind(tag) == Some(BoolKind)
    ensures EncodeF64AsType(value, tag, order, f32Bits, f64Bits) == Ok([if value != 0 then 1 else 0])
  {
  }

  // ---------------------------------------------------------------------------
  // Read responses
  // ---------------------------------------------------------------------------

  /** Bytes widened to 16-bit values one by one (`u16::from(byte)`). */
  function Widen(bytes: seq<uint8>): (values: seq<uint16>)
    ensures |values| == |bytes|
  {
    seq(|bytes|, k requires 0 <= k < |bytes| => bytes[k] as uint16)
  }

  /**
   * What `parse_read_response` returns for the PDU bytes `data`: nothing for
   * fewer than two bytes; a mismatch when the first byte is not the expected
   * code; otherwise the data bytes the byte count announces, cut to those
   * actually present, as bytes (FC01/02) or as complete big-endian pairs
   * (FC03/04). Any other expected code is unsupported.
   */
  function ReadResponse(data: seq<uint8>, fc: uint8): (r: Result<seq<uint16>>)
  {
    if |data| < 2 then Ok([])
    else if data[0] != fc then Err(Protocol(FunctionCodeMismatch(fc, data[0])))
    else
      var count := Min(data[1], |data| - 2);
      var body := data[2..2 + count];
      if fc == FcReadCoils || fc == FcReadDiscreteInputs then Ok(Widen(body))
      else if fc == FcReadHoldingRegisters || fc == FcReadInputRegisters then Ok(RegistersOfBytes(body))
      else Err(Protocol(UnsupportedFunctionCode(fc)))
  }

  /**
   * `parse_read_response`. The expected count is not used by the source either.
   * Its guard `offset + 1 < len` in the register loop always holds, which the
   * loop asserts instead of branching on it.
   */
  method ParseReadResponse(pdu: ModbusPdu, fc: uint8, expectedCount: uint16) returns (r: Result<seq<uint16>>)
    requires pdu.Valid()
    ensures r == ReadResponse(pdu.AsSlice(), fc)
  {
    var data := pdu.AsSlice();
    if |data| < 2 {
      return Ok([]);
    }
    var actual := pdu.FunctionCode();
    if actual.value != fc {
      return Err(Protocol(FunctionCodeMismatch(fc, actual.value)));
    }
    var count := Min(data[1], |data| - 2);
    var body := data[2..2 + count];
    var registers: seq<uint16> := [];
    if fc == FcReadCoils || fc == FcReadDiscreteInputs {
      var k := 0;
      while k < count
        invariant 0 <= k <= count && registers == Widen(body)[..k]
      {
        registers := registers + [data[2 + k] as uint16];
        k := k + 1;
      }
      assert Widen(body)[..count] == Widen(body);
      return Ok(registers);
    } else if fc == FcReadHoldingRegisters || fc == FcReadInputRegisters {
      var pairs := count / 2;
      var i := 0;
      while i < pairs
        invariant 0 <= i <= pairs && registers == RegistersOfBytes(body)[..i]
      {
        var offset := 2 + i * 2;
        assert offset + 1 < |data|;
        assert RegistersOfBytes(body)[i] == Word(data[offset], data[offset + 1]);
        assert RegistersOfBytes(body)[..i + 1] == RegistersOfBytes(body)[..i] + [RegistersOfBytes(body)[i]];
        registers := registers + [data[offset] as int * 0x100 + data[offset + 1]];
        i := i + 1;
      }
      assert RegistersOfBytes(body)[..pairs] == RegistersOfBytes(body);
      return Ok(registers);
    }
    return Err(Protocol(UnsupportedFunctionCode(fc)));
  }

  /** A register response yields the complete pairs among the announced bytes that arrived. */
  lemma ReadResponseRegisterBody(fc: uint8, byteCount: uint8, body: seq<uint8>)
    requires fc == FcReadHoldingRegisters || fc == FcReadInputRegisters
    ensures ReadResponse([fc, byteCount] + body, fc) == Ok(RegistersOfBytes(body[..Min(byteCount, |body|)]))
  {
    var data := [fc, byteCount] + body;
    assert data[2..2 + Min(byteCount, |body|)] == body[..Min(byteCount, |body|)];
  }

  /** A byte count covering all the bytes that arrived: all their complete pairs are returned. */
  lemma ReadResponseWholeBody(fc: uint8, byteCount: uint8, body: seq<uint8>)
    requires fc == FcReadHoldingRegisters || fc == FcReadInputRegisters
    requires |body| <= byteCount
    ensures ReadResponse([fc, byteCount] + body, fc) == Ok(RegistersOfBytes(body))
  {
    ReadResponseRegisterBody(fc, byteCount, body);
    assert body[..|body|] == body;
  }

  /** A dangling odd byte after whole registers does not make a register. */
  lemma RegistersOfBytesDropsOdd(values: seq<uint16>, dangling: seq<uint8>)
    requires |dangling| <= 1
    ensures RegistersOfBytes(RegisterBytes(values) + dangling) == RegistersOfBytes(RegisterBytes(values))
  {
    var bytes := RegisterBytes(values);
    var longer := bytes + dangling;
    var n := |values|;
    assert |bytes| / 2 == n && |longer| / 2 == n;
    assert forall i :: 0 <= i < n ==> longer[2 * i] == bytes[2 * i] && longer[2 * i + 1] == bytes[2 * i + 1];
  }

  /** A register read answered in full: the announced registers come back. */
  lemma ReadResponseRegisters(fc: uint8, values: seq<uint16>)
    requires fc == FcReadHoldingRegisters || fc == FcReadInputRegisters
    requires |values| <= MaxReadRegisters
    ensures ReadResponse([fc, 2 * |values|] + RegisterBytes(values), fc) == Ok(values)
  {
    var body := RegisterBytes(values);
    ReadResponseRegisterBody(fc, 2 * |values|, body);
    assert body[..2 * |values|] == body;
    RegisterBytesRoundTrip(values);
  }

  /**
   * Graceful degradation: when the byte count announces more than arrived,
   * the complete pairs that did arrive are returned and a dangling byte is dropped.
   */
  lemma ReadResponseTruncated(fc: uint8, byteCount: uint8, values: seq<uint16>, dangling: seq<uint8>)
    requires fc == FcReadHoldingRegisters || fc == FcReadInputRegisters
    requires byteCount >= 2 * |values| + |dangling| && |dangling| <= 1
    ensures ReadResponse([fc, byteCount] + (RegisterBytes(values) + dangling), fc) == Ok(values)
  {
    var body := RegisterBytes(values) + dangling;
    ReadResponseWholeBody(fc, byteCount, body);
    RegistersOfBytesDropsOdd(values, dangling);
    RegisterBytesRoundTrip(values);
  }

  /** A coil read answered in full: the packed coil bytes come back, one per value. */
  lemma ReadResponseCoils(fc: uint8, coils: seq<bool>)
    requires fc == FcReadCoils || fc == FcReadDiscreteInputs
    requires |coils| <= MaxReadCoils
    ensures var bytes := PackCoils(coils);
            ReadResponse([fc, |bytes|] + bytes, fc) == Ok(Widen(bytes))
  {
    var bytes := PackCoils(coils);
    var data := [fc, |bytes|] + bytes;
    assert data[2..2 + |bytes|] == bytes;
  }

  /**
   * The read parser does not look for the exception bit: an exception answer
   * surfaces as a function-code mismatch naming the flagged code.
   */
  lemma ReadResponseException(fc: uint8, exceptionCode: uint8)
    requires fc < 0x80
    ensures ReadResponse([fc + 0x80, exceptionCode], fc) == Err(Protocol(FunctionCodeMismatch(fc, fc + 0x80)))
  {
  }

  lemma ReadResponseShort(data: seq<uint8>, fc: uint8)
    requires |data| < 2
    ensures ReadResponse(data, fc) == Ok([])
  {
  }

  // ---------------------------------------------------------------------------
  // Write responses
  // ---------------------------------------------------------------------------

  /**
   * `parse_write_response`: an empty PDU is an error; a PDU with the exception
   * bit set reports the function (bit cleared) and the exception code (0 when
   * absent); otherwise the first byte must be the expected code.
   */
  function ParseWriteResponse(pdu: ModbusPdu, expectedFc: uint8): (r: Result<bool>)
    reads pdu, pdu.data
    requires pdu.Valid()
    ensures pdu.AsSlice() == [] ==> r == Err(Protocol(EmptyResponse))
    ensures pdu.IsException() ==>
              r == Err(Exception(Low7(pdu.AsSlice()[0]), if pdu.ExceptionCode().Some? then pdu.ExceptionCode().value else 0))
    ensures r.Ok? <==> pdu.FunctionCode() == Some(expectedFc) && !HighBitSet(expectedFc)
    ensures r.Ok? ==> r.value
    ensures pdu.AsSlice() != [] && !pdu.IsException() && pdu.AsSlice()[0] != expectedFc ==>
              r == Err(Protocol(FunctionCodeMismatch(expectedFc, pdu.AsSlice()[0])))
  {
    var data := pdu.AsSlice();
    if data == [] then Err(Protocol(EmptyResponse))
    else if HighBitSet(data[0]) then Err(Exception(Low7(data[0]), if |data| > 1 then data[1] else 0))
    else if data[0] != expectedFc then Err(Protocol(FunctionCodeMismatch(expectedFc, data[0])))
    else Ok(true)
  }

  /** A server's normal answer to a single write echoes the request, which is accepted. */
  lemma WriteResponseEcho(pdu: ModbusPdu, fc: uint8, address: uint16, field: uint16)
    requires pdu.Valid() && fc < 0x80 && pdu.AsSlice() == AddressedRequest(fc, address, field)
    ensures ParseWriteResponse(pdu, fc) == Ok(true)
  {
  }

  /** An exception answer to a write reports the function and the exception code it carries. */
  lemma WriteResponseException(pdu: ModbusPdu, fc: uint8, exceptionCode: uint8)
    requires pdu.Valid() && fc < 0x80 && pdu.AsSlice() == [fc + 0x80, exceptionCode]
    ensures ParseWriteResponse(pdu, fc) == Err(Exception(fc, exceptionCode))
  {
  }

  // ---------------------------------------------------------------------------
  // Request builders
  // ---------------------------------------------------------------------------

  /** `build_fc05_pdu`: ON is sent as 0xFF00, OFF as 0x0000. */
  method BuildFc05Pdu(address: uint16, value: bool) returns (r: Result<ModbusPdu>)
    ensures r.Ok? && fresh(r.value) && r.value.Valid()
    ensures r.value.AsSlice() == AddressedRequest(FcWriteSingleCoil, address, CoilValue(value))
  {
    var b := new PduBuilder();
    var _ := b.FunctionCode(FcWriteSingleCoil);
    var _ := b.Address(address);
    var _ := b.Byte(if value then 0xFF else 0x00);
    var _ := b.Byte(0x00);
    var pdu := b.Build();
    return Ok(pdu);
  }

  /** `build_fc06_pdu`. */
  method BuildFc06Pdu(address: uint16, value: uint16) returns (r: Result<ModbusPdu>)
    ensures r.Ok? && fresh(r.value) && r.value.Valid()
    ensures r.value.AsSlice() == AddressedRequest(FcWriteSingleRegister, address, value)
  {
    var b := new PduBuilder();
    var _ := b.FunctionCode(FcWriteSingleRegister);
    var _ := b.Address(address);
    var _ := b.Quantity(value);
    var pdu := b.Build();
    return Ok(pdu);
  }

  /** What the packing loop of `build_fc15_pdu` holds: bytes pushed, the byte being filled, its next bit. */
  datatype CoilPacking = CoilPacking(packed: seq<uint8>, currentByte: nat, bitIndex: nat)

  /**
   * One coil more: a set coil does `current_byte |= 1 << bit_index`, and the
   * eighth bit pushes the byte and starts a new one.
   */
  function CoilPackingNext(st: CoilPacking, value: bool): (next: CoilPacking)
    requires st.bitIndex < 8 && st.currentByte < Pow2(st.bitIndex)
    ensures next.bitIndex < 8 && next.currentByte < Pow2(next.bitIndex)
    ensures next.bitIndex == 0 <==> st.bitIndex == 7
  {
    BitAboveWidth(st.currentByte, st.bitIndex);
    Pow2Monotone(st.bitIndex + 1, 8);
    assert Pow2(8) == 0x100;
    var b := if value then SetBit(st.currentByte, st.bitIndex) else st.currentByte;
    if st.bitIndex + 1 == 8 then CoilPacking(st.packed + [b as uint8], 0, 0)
    else CoilPacking(st.packed, b, st.bitIndex + 1)
  }

  /** The loop's state after its first `i` coils. */
  ghost function CoilPackingAfter(values: seq<bool>, i: nat): (st: CoilPacking)
    requires i <= |values|
    ensures st.bitIndex < 8 && st.currentByte < Pow2(st.bitIndex)
  {
    if i == 0 then CoilPacking([], 0, 0) else CoilPackingNext(CoilPackingAfter(values, i - 1), values[i - 1])
  }

  /**
   * `st` holds the first `i` coils: the packing of every whole group of eight,
   * then the coils since in the byte being filled.
   */
  ghost predicate PacksPrefix(values: seq<bool>, i: nat, st: CoilPacking)
  {
    8 * |st.packed| + st.bitIndex == i <= |values|
    && st.packed == PackCoils(values[..8 * |st.packed|])
    && st.currentByte == PackBits(values[8 * |st.packed|..i])
  }

  lemma CoilPackingNextPacks(values: seq<bool>, i: nat, st: CoilPacking)
    requires i < |values| && PacksPrefix(values, i, st) && st.bitIndex < 8 && st.currentByte < Pow2(st.bitIndex)
    ensures PacksPrefix(values, i + 1, CoilPackingNext(st, values[i]))
  {
    var start := 8 * |st.packed|;
    assert values[start..i + 1] == values[start..i] + [values[i]];
    PackBitsSnoc(values[start..i], values[i]);
    if st.bitIndex == 7 {
      assert values[..i + 1] == values[..start] + values[start..i + 1];
      PackCoilsAppend(values[..start], values[start..i + 1]);
      assert values[i + 1..i + 1] == [];
    }
  }

  /** After `i` coils the loop's state packs them. */
  lemma {:induction false} CoilPackingMeans(values: seq<bool>, i: nat)
    requires i <= |values|
    ensures PacksPrefix(values, i, CoilPackingAfter(values, i))
  {
    if i > 0 {
      CoilPackingMeans(values, i - 1);
      CoilPackingNextPacks(values, i - 1, CoilPackingAfter(values, i - 1));
    }
  }

  /** The next coil fits the byte, and a full byte still fits the request. */
  lemma CoilPackingStep(values: seq<bool>, i: nat)
    requires i < |values|
    ensures var st := CoilPackingAfter(values, i);
            SetBit(st.currentByte, st.bitIndex) < 0x100
            && (st.bitIndex == 7 ==> |st.packed| < DivCeil(|values|, 8))
  {
    var st := CoilPackingAfter(values, i);
    CoilPackingMeans(values, i);
    BitAboveWidth(st.currentByte, st.bitIndex);
    Pow2Monotone(st.bitIndex + 1, 8);
    assert Pow2(8) == 0x100;
  }

  lemma PacksAll(values: seq<bool>, st: CoilPacking)
    requires PacksPrefix(values, |values|, st) && st.bitIndex < 8 && st.currentByte < Pow2(st.bitIndex)
    ensures st.bitIndex > 0 ==> st.currentByte < 0x100 && st.packed + [st.currentByte as uint8] == PackCoils(values)
                                && |st.packed| < DivCeil(|values|, 8)
    ensures st.bitIndex == 0 ==> st.packed == PackCoils(values)
  {
    var start := 8 * |st.packed|;
    Pow2Monotone(st.bitIndex, 8);
    assert Pow2(8) == 0x100;
    if st.bitIndex > 0 {
      assert values == values[..start] + values[start..];
      PackCoilsAppend(values[..start], values[start..]);
    } else {
      assert values[..start] == values;
    }
  }

  /** Once every coil is seen, the pushed bytes and the partly filled byte (if any) are the packing. */
  lemma CoilPackingEnd(values: seq<bool>)
    ensures var st := CoilPackingAfter(values, |values|);
            (st.bitIndex > 0 ==> st.currentByte < 0x100 && st.packed + [st.currentByte as uint8] == PackCoils(values)
                                 && |st.packed| < DivCeil(|values|, 8))
            && (st.bitIndex == 0 ==> st.packed == PackCoils(values))
  {
    CoilPackingMeans(values, |values|);
    PacksAll(values, CoilPackingAfter(values, |values|));
  }

  /** The pushes every multiple-write request starts with: code, address, quantity, byte count. */
  method PushWriteHeader(pdu: ModbusPdu, fc: uint8, address: uint16, quantity: uint16, byteCount: uint8)
    requires pdu.Valid() && pdu.AsSlice() == []
    modifies pdu, pdu.data
    ensures pdu.Valid() && pdu.AsSlice() == AddressedRequest(fc, address, quantity) + [byteCount]
  {
    var _ := pdu.Push(fc);
    var _ := pdu.PushU16(address);
    var _ := pdu.PushU16(quantity);
    var _ := pdu.Push(byteCount);
  }

  /**
   * `build_fc15_pdu`: between 1 and 1968 coils, packed LSB first one byte at a
   * time; the last, partly filled byte is pushed after the loop.
   */
  method BuildFc15Pdu(address: uint16, values: seq<bool>) returns (r: Result<ModbusPdu>)
    ensures (|values| == 0 || |values| > MaxWriteCoils) ==> r == Err(InvalidData(InvalidCoilCount))
    ensures 0 < |values| <= MaxWriteCoils ==>
              r.Ok? && fresh(r.value) && r.value.Valid() && r.value.AsSlice() == MultipleCoilsRequest(address, values)
  {
    var n := |values|;
    if n == 0 || n > MaxWriteCoils {
      return Err(InvalidData(InvalidCoilCount));
    }
    var pdu := new ModbusPdu();
    var quantity: uint16 := n;
    var byteCount: uint8 := DivCeil(n, 8);
    PushWriteHeader(pdu, FcWriteMultipleCoils, address, quantity, byteCount);
    PushCoils(pdu, values);
    return Ok(pdu);
  }

  /** The packing loop of `build_fc15_pdu`, appending the packed coils to the PDU. */
  method PushCoils(pdu: ModbusPdu, values: seq<bool>)
    requires pdu.Valid() && pdu.len + DivCeil(|values|, 8) <= MaxPduSize
    modifies pdu, pdu.data
    ensures pdu.Valid() && pdu.AsSlice() == old(pdu.AsSlice()) + PackCoils(values)
  {
    ghost var header := pdu.AsSlice();
    ghost var packed: seq<uint8> := [];
    var n := |values|;
    var currentByte: uint8 := 0;
    var bitIndex := 0;
    var i := 0;
    while i < n
      invariant i <= n && pdu.Valid() && pdu.AsSlice() == header + packed && pdu.len == |header| + |packed|
      invariant CoilPackingAfter(values, i) == CoilPacking(packed, currentByte as nat, bitIndex)
    {
      CoilPackingStep(values, i);
      if values[i] {
        currentByte := SetBit(currentByte as nat, bitIndex) as uint8;
      }
      bitIndex := bitIndex + 1;
      if bitIndex == 8 {
        var _ := pdu.Push(currentByte);
        packed := packed + [currentByte];
        currentByte := 0;
        bitIndex := 0;
      }
      i := i + 1;
    }
    CoilPackingEnd(values);
    if bitIndex > 0 {
      var _ := pdu.Push(currentByte);
    }
  }

  /** `build_fc16_pdu`: between 1 and 123 registers, each pushed big-endian. */
  method BuildFc16Pdu(address: uint16, values: seq<uint16>) returns (r: Result<ModbusPdu>)
    ensures (|values| == 0 || |values| > MaxWriteRegisters) ==> r == Err(InvalidData(InvalidRegisterCount))
    ensures 0 < |values| <= MaxWriteRegisters ==>
              r.Ok? && fresh(r.value) && r.value.Valid() && r.value.AsSlice() == MultipleRegistersRequest(address, values)
  {
    var n := |values|;
    if n == 0 || n > MaxWriteRegisters {
      return Err(InvalidData(InvalidRegisterCount));
    }
    var pdu := new ModbusPdu();
    var quantity: uint16 := n;
    var byteCount: uint8 := 2 * n;
    PushWriteHeader(pdu, FcWriteMultipleRegisters, address, quantity, byteCount);
    PushRegisters(pdu, values);
    MultipleRegistersRequestLayout(address, values);
    return Ok(pdu);
  }

  /** The register loop of `build_fc16_pdu`. */
  method PushRegisters(pdu: ModbusPdu, values: seq<uint16>)
    requires pdu.Valid() && pdu.len + 2 * |values| <= MaxPduSize
    modifies pdu, pdu.data
    ensures pdu.Valid() && pdu.AsSlice() == old(pdu.AsSlice()) + RegisterBytes(values)
  {
    ghost var header := pdu.AsSlice();
    var i := 0;
    while i < |values|
      invariant 0 <= i <= |values| && pdu.Valid()
      invariant pdu.AsSlice() == header + RegisterBytes(values[..i])
    {
      var _ := pdu.PushU16(values[i]);
      RegisterBytesSnoc(values, i);
      AppendPair(header, RegisterBytes(values[..i]), Hi(values[i]), Lo(values[i]));
      i := i + 1;
    }
    assert values[..i] == values;
  }
}
