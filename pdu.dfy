/**
 * The protocol data unit: a fixed 253-byte buffer with a length, the builder
 * that fills it, and the request layouts of sections 6.1-6.6, 6.11 and 6.12 of
 * the MODBUS Application Protocol Specification V1.1b3.
 */
module Pdu {
  import opened Words
  import opened Errors
  import opened Constants

  // ---------------------------------------------------------------------------
  // Request layouts
  // ---------------------------------------------------------------------------

  /**
   * A function code followed by two big-endian 16-bit fields: the shape of the
   * read requests (address, quantity) and of the single writes (address, value).
   */
  function AddressedRequest(fc: uint8, address: uint16, field: uint16): (pdu: seq<uint8>)
    ensures |pdu| == 5 && pdu[0] == fc
    ensures pdu[1] as int * 0x100 + pdu[2] == address && pdu[3] as int * 0x100 + pdu[4] == field
  {
    [fc, Hi(address), Lo(address), Hi(field), Lo(field)]
  }

  /** The value field of a write-single-coil request: 0xFF00 for ON, 0x0000 for OFF. */
  function CoilValue(on: bool): uint16
  {
    if on then 0xFF00 else 0x0000
  }

  /** Registers as consecutive big-endian byte pairs. */
  function RegisterBytes(values: seq<uint16>): (bytes: seq<uint8>)
    ensures |bytes| == 2 * |values|
  {
    if values == [] then []
    else
      var last := values[|values| - 1];
      RegisterBytes(values[..|values| - 1]) + [Hi(last), Lo(last)]
  }

  /** The registers a run of big-endian byte pairs stands for (a trailing odd byte is ignored). */
  function RegistersOfBytes(bytes: seq<uint8>): (values: seq<uint16>)
    ensures |values| == |bytes| / 2
  {
    seq(|bytes| / 2, i requires 0 <= i < |bytes| / 2 => Word(bytes[2 * i], bytes[2 * i + 1]))
  }

  /** One register more appends its two bytes. */
  lemma RegisterBytesSnoc(values: seq<uint16>, i: nat)
    requires i < |values|
    ensures RegisterBytes(values[..i + 1]) == RegisterBytes(values[..i]) + [Hi(values[i]), Lo(values[i])]
  {
    assert values[..i + 1][..i] == values[..i];
  }

  /** Two bytes more after an even run decode to one register more. */
  lemma RegistersOfBytesSnoc(bytes: seq<uint8>, hi: uint8, lo: uint8)
    requires |bytes| % 2 == 0
    ensures RegistersOfBytes(bytes + [hi, lo]) == RegistersOfBytes(bytes) + [Word(hi, lo)]
  {
    var longer := bytes + [hi, lo];
    assert forall i :: 0 <= i < |bytes| / 2 ==> longer[2 * i] == bytes[2 * i] && longer[2 * i + 1] == bytes[2 * i + 1];
  }

  lemma AppendPair(header: seq<uint8>, body: seq<uint8>, hi: uint8, lo: uint8)
    ensures header + (body + [hi, lo]) == (header + body) + [hi] + [lo]
  {
  }

  /** Decoding the bytes of a register list gives the list back. */
  lemma {:induction false} RegisterBytesRoundTrip(values: seq<uint16>)
    ensures RegistersOfBytes(RegisterBytes(values)) == values
  {
    if values != [] {
      var n := |values|;
      var front, last := values[..n - 1], values[n - 1];
      RegisterBytesRoundTrip(front);
      RegistersOfBytesSnoc(RegisterBytes(front), Hi(last), Lo(last));
      WordSplit(last);
      assert values == front + [last];
    }
  }

  /** Eight coils per byte at most: the coils of byte j. */
  function CoilChunk(values: seq<bool>, j: nat): (chunk: seq<bool>)
    requires 8 * j < |values|
    ensures 1 <= |chunk| <= 8
  {
    values[8 * j .. Min(8 * j + 8, |values|)]
  }

  /** Coils packed LSB first into ceil(n/8) bytes, eight to a byte. */
  function PackCoils(values: seq<bool>): (bytes: seq<uint8>)
    ensures |bytes| == DivCeil(|values|, 8)
  {
    seq(DivCeil(|values|, 8), j requires 0 <= j < DivCeil(|values|, 8) => PackByte(CoilChunk(values, j)))
  }

  /**
   * The packing layout of section 6.11: coil i is bit i % 8 of byte i / 8, and
   * the unused high bits of the last byte are zero.
   */
  lemma PackCoilsBits(values: seq<bool>)
    ensures var bytes := PackCoils(values);
            (forall i :: 0 <= i < |values| ==> Bit(bytes[i / 8], i % 8) == values[i])
            && (forall i :: |values| <= i < 8 * |bytes| ==> !Bit(bytes[i / 8], i % 8))
  {
    var n, bytes := |values|, PackCoils(values);
    forall i | 0 <= i < n
      ensures Bit(bytes[i / 8], i % 8) == values[i]
    {
      assert CoilChunk(values, i / 8)[i % 8] == values[i];
    }
    forall i | n <= i < 8 * |bytes|
      ensures !Bit(bytes[i / 8], i % 8)
    {
      var chunk := CoilChunk(values, i / 8);
      Pow2Monotone(|chunk|, i % 8);
      BitAboveWidth(PackBits(chunk), i % 8);
    }
  }

  /** The coils a server reads back from the packed bytes (section 6.11). */
  function UnpackCoils(bytes: seq<uint8>, count: nat): (values: seq<bool>)
    requires count <= 8 * |bytes|
    ensures |values| == count
  {
    seq(count, i requires 0 <= i < count => Bit(bytes[i / 8], i % 8))
  }

  /** Unpacking packed coils gives the coils back. */
  lemma PackCoilsRoundTrip(values: seq<bool>)
    ensures UnpackCoils(PackCoils(values), |values|) == values
  {
    PackCoilsBits(values);
  }

  /** Packing a whole number of bytes' worth of coils and then one more chunk appends that chunk's byte. */
  lemma PackCoilsAppend(values: seq<bool>, chunk: seq<bool>)
    requires |values| % 8 == 0 && 1 <= |chunk| <= 8
    ensures PackCoils(values + chunk) == PackCoils(values) + [PackByte(chunk)]
  {
    var w := values + chunk;
    var m := |values| / 8;
    assert DivCeil(|values|, 8) == m;
    assert DivCeil(|w|, 8) == m + 1;
    var p, q := PackCoils(values), PackCoils(w);
    forall j | 0 <= j < m
      ensures q[j] == p[j]
    {
      assert CoilChunk(w, j) == CoilChunk(values, j);
    }
    assert CoilChunk(w, m) == chunk;
  }

  /** A coil after a whole number of bytes opens a new byte holding it as bit 0. */
  lemma PackCoilsSnocNewByte(values: seq<bool>, b: bool)
    requires |values| % 8 == 0
    ensures PackCoils(values + [b]) == PackCoils(values) + [if b then 1 else 0]
  {
    PackCoilsAppend(values, [b]);
    assert [b][1..] == [];
  }

  /** A coil inside a partly filled byte sets bit n % 8 of that last byte. */
  lemma PackCoilsSnocSameByte(values: seq<bool>, b: bool)
    requires |values| % 8 != 0
    ensures var p, q, j := PackCoils(values), PackCoils(values + [b]), |values| / 8;
            |q| == |p| == j + 1 && q[..j] == p[..j] && p[j] < Pow2(|values| % 8)
            && q[j] == if b then SetBit(p[j], |values| % 8) else p[j]
  {
    var j := |values| / 8;
    var front, rest := values[..8 * j], values[8 * j..];
    assert |rest| == |values| % 8;
    assert values == front + rest;
    assert values + [b] == front + (rest + [b]);
    var pf := PackCoils(front);
    assert |pf| == j by {
      assert DivCeil(8 * j, 8) == j;
    }
    PackCoilsAppend(front, rest);
    PackCoilsAppend(front, rest + [b]);
    var p, q := PackCoils(values), PackCoils(values + [b]);
    assert p == pf + [PackByte(rest)] && q == pf + [PackByte(rest + [b])];
    assert p[..j] == pf && q[..j] == pf;
    PackBitsSnoc(rest, b);
  }

  /**
   * One coil more: either it opens a new byte (bit 0 of it), or it sets bit
   * n % 8 of the last byte, which is what `byte |= 1 << (i % 8)` does.
   */
  lemma PackCoilsSnoc(values: seq<bool>, b: bool)
    ensures var p, q, j := PackCoils(values), PackCoils(values + [b]), |values| / 8;
            if |values| % 8 == 0 then q == p + [if b then 1 else 0]
            else |q| == |p| == j + 1 && q[..j] == p[..j] && p[j] < Pow2(|values| % 8)
                 && q[j] == if b then SetBit(p[j], |values| % 8) else p[j]
  {
    if |values| % 8 == 0 {
      PackCoilsSnocNewByte(values, b);
    } else {
      PackCoilsSnocSameByte(values, b);
    }
  }

  /** The layout of a Write Multiple Coils request, for a builder that pushes it field by field. */
  lemma MultipleCoilsLayout(address: uint16, values: seq<bool>, byteCount: uint8, quantity: uint16, pdu: seq<uint8>)
    requires byteCount as int == (|values| + 7) / 8 % 0x100
    requires quantity as int == |values| % 0x1_0000
    requires pdu == [FcWriteMultipleCoils] + [Hi(address), Lo(address)] + [Hi(quantity), Lo(quantity)] + [byteCount]
                    + PackCoils(values)
    ensures pdu == MultipleCoilsRequest(address, values)
  {
  }

  lemma PackCoilsExample()
    ensures PackCoils([true, false, true]) == [0x05]
  {
    var p := PackCoils([true, false, true]);
    assert |p| == 1;
    assert CoilChunk([true, false, true], 0) == [true, false, true];
  }

  /** Write Multiple Coils request (section 6.11): fc 0x0F, address, quantity, byte count, packed coils. */
  function MultipleCoilsRequest(address: uint16, values: seq<bool>): (pdu: seq<uint8>)
    ensures |pdu| == 6 + DivCeil(|values|, 8)
    ensures pdu[..5] == AddressedRequest(FcWriteMultipleCoils, address, |values| % 0x1_0000)
    ensures |values| <= 8 * 0xFF ==> pdu[5] == DivCeil(|values|, 8)
    ensures pdu[6..] == PackCoils(values)
  {
    var n := |values|;
    var byteCount: uint8 := DivCeil(n, 8) % 0x100;
    assert n <= 8 * 0xFF ==> byteCount == DivCeil(n, 8);
    var quantity: uint16 := n % 0x1_0000;
    var header := AddressedRequest(FcWriteMultipleCoils, address, quantity) + [byteCount];
    var pdu := header + PackCoils(values);
    assert pdu[..5] == header[..5] && pdu[5] == header[5] && pdu[6..] == PackCoils(values);
    pdu
  }

  /** Write Multiple Registers request (section 6.12): fc 0x10, address, quantity, byte count, registers. */
  function MultipleRegistersRequest(address: uint16, values: seq<uint16>): (pdu: seq<uint8>)
    ensures |pdu| == 6 + 2 * |values|
    ensures pdu[..5] == AddressedRequest(FcWriteMultipleRegisters, address, |values| % 0x1_0000)
    ensures |values| < 0x80 ==> pdu[5] == 2 * |values|
    ensures pdu[6..] == RegisterBytes(values)
  {
    var n := |values|;
    var byteCount: uint8 := (2 * n) % 0x100;
    assert n < 0x80 ==> byteCount == 2 * n;
    var quantity: uint16 := n % 0x1_0000;
    var header := AddressedRequest(FcWriteMultipleRegisters, address, quantity) + [byteCount];
    var pdu := header + RegisterBytes(values);
    assert pdu[..5] == header[..5] && pdu[5] == header[5] && pdu[6..] == RegisterBytes(values);
    pdu
  }

  /** A server decoding the data of a write-multiple-registers request reads the registers back. */
  lemma MultipleRegistersRequestValues(address: uint16, values: seq<uint16>)
    ensures RegistersOfBytes(MultipleRegistersRequest(address, values)[6..]) == values
  {
    RegisterBytesRoundTrip(values);
  }

  /** The layout of a write-multiple-registers request: header, byte count, registers. */
  lemma MultipleRegistersRequestLayout(address: uint16, values: seq<uint16>)
    ensures MultipleRegistersRequest(address, values)
         == AddressedRequest(FcWriteMultipleRegisters, address, |values| % 0x1_0000)
            + [(2 * |values|) % 0x100] + RegisterBytes(values)
  {
  }

  /** `ModbusPdu::function_code_description`: named by the code with its exception bit cleared. */
  function FunctionCodeDescription(fc: uint8): (name: string)
    ensures name == "Unknown Function" <==> Low7(fc) !in {0x01, 0x02, 0x03, 0x04, 0x05, 0x06, 0x0F, 0x10, 0x17}
  {
    match Low7(fc)
    case 0x01 => "Read Coils"
    case 0x02 => "Read Discrete Inputs"
    case 0x03 => "Read Holding Registers"
    case 0x04 => "Read Input Registers"
    case 0x05 => "Write Single Coil"
    case 0x06 => "Write Single Register"
    case 0x0F => "Write Multiple Coils"
    case 0x10 => "Write Multiple Registers"
    case 0x17 => "Read/Write Multiple Registers"
    case _ => "Unknown Function"
  }

  /** An exception response is described by the function it answers. */
  lemma ExceptionDescribedByFunction(fc: uint8)
    requires fc < 0x80
    ensures FunctionCodeDescription(fc + 0x80) == FunctionCodeDescription(fc)
  {
  }

  function Zeros(n: nat): (z: seq<uint8>)
    ensures |z| == n && forall i :: 0 <= i < n ==> z[i] == 0
  {
    seq(n, _ => 0)
  }

  /** ceil(i / 8) and ceil((i + 1) / 8) in terms of i / 8. */
  lemma DivCeil8(i: nat)
    ensures DivCeil(i, 8) == if i % 8 == 0 then i / 8 else i / 8 + 1
    ensures DivCeil(i + 1, 8) == i / 8 + 1
  {
  }

  /** Setting bit 0 of the first zero byte after `p` (or leaving it) appends that byte to `p`. */
  lemma NewByteStep(p: seq<uint8>, b: bool, k: nat)
    requires k > 0
    ensures var bytes := p + Zeros(k);
            SetBit(bytes[|p|], 0) == 1
            && (if b then bytes[|p| := 1] else bytes) == p + [if b then 1 else 0] + Zeros(k - 1)
  {
    var bytes := p + Zeros(k);
    assert bytes[|p|] == 0 && Bit(0, 0) == false;
    assert Zeros(k) == [0] + Zeros(k - 1);
  }

  /** Updating the last byte of `p` to the last byte of `q`, ahead of the zeros. */
  lemma SameByteStep(p: seq<uint8>, q: seq<uint8>, j: nat, k: nat, b: bool, x: uint8)
    requires |p| == |q| == j + 1 && q[..j] == p[..j] && q[j] == (if b then x else p[j])
    ensures var bytes := p + Zeros(k);
            bytes[j] == p[j] && (if b then bytes[j := x] else bytes) == q + Zeros(k)
  {
    assert p == p[..j] + [p[j]] && q == q[..j] + [q[j]];
  }

  /**
   * The loop step of `build_write_multiple_coils`: when the bytes hold the first
   * i coils packed and zeros after them, setting bit i % 8 of byte i / 8 (for
   * a set coil) makes them hold the first i + 1 coils.
   */
  lemma CoilBitStep(values: seq<bool>, i: nat, bytes: seq<uint8>, byteCount: nat)
    requires i < |values| && byteCount == DivCeil(|values|, 8)
    requires bytes == PackCoils(values[..i]) + Zeros(byteCount - DivCeil(i, 8))
    ensures i / 8 < |bytes| && DivCeil(i + 1, 8) <= byteCount
    ensures values[i] ==> SetBit(bytes[i / 8], i % 8) < 0x100
    ensures var next := if values[i] then bytes[i / 8 := SetBit(bytes[i / 8], i % 8)] else bytes;
            next == PackCoils(values[..i + 1]) + Zeros(byteCount - DivCeil(i + 1, 8))
  {
    assert values[..i + 1] == values[..i] + [values[i]];
    PackCoilsSnoc(values[..i], values[i]);
    DivCeil8(i);
    PackedStep(PackCoils(values[..i]), PackCoils(values[..i + 1]), i, values[i], byteCount);
  }

  /** `CoilBitStep` on the packed bytes alone, given how one more coil changes them. */
  lemma PackedStep(p: seq<uint8>, q: seq<uint8>, i: nat, b: bool, byteCount: nat)
    requires |p| == DivCeil(i, 8) && DivCeil(i + 1, 8) <= byteCount
    requires DivCeil(i, 8) == (if i % 8 == 0 then i / 8 else i / 8 + 1) && DivCeil(i + 1, 8) == i / 8 + 1
    requires if i % 8 == 0 then q == p + [if b then 1 else 0]
             else |q| == |p| == i / 8 + 1 && q[..i / 8] == p[..i / 8]
                  && q[i / 8] == if b then SetBit(p[i / 8], i % 8) else p[i / 8]
    ensures var bytes := p + Zeros(byteCount - DivCeil(i, 8));
            && i / 8 < |bytes|
            && (b ==> SetBit(bytes[i / 8], i % 8) < 0x100)
            && (if b then bytes[i / 8 := SetBit(bytes[i / 8], i % 8)] else bytes)
               == q + Zeros(byteCount - DivCeil(i + 1, 8))
  {
    var j := i / 8;
    if i % 8 == 0 {
      NewByteStep(p, b, byteCount - j);
    } else {
      SameByteStep(p, q, j, byteCount - (j + 1), b, q[j]);
    }
  }

  /**
   * The packing loop of `build_write_multiple_coils`: a zeroed vector of
   * ceil(n/8) bytes in which coil i sets bit i % 8 of byte i / 8.
   */
  method PackCoilBytes(values: seq<bool>) returns (bytes: seq<uint8>)
    ensures bytes == PackCoils(values)
  {
    var n := |values|;
    var byteCount := (n + 7) / 8;
    bytes := Zeros(byteCount);
    var i := 0;
    while i < n
      invariant 0 <= i <= n && DivCeil(i, 8) <= byteCount
      invariant bytes == PackCoils(values[..i]) + Zeros(byteCount - DivCeil(i, 8))
    {
      CoilBitStep(values, i, bytes, byteCount);
      if values[i] {
        bytes := bytes[i / 8 := SetBit(bytes[i / 8], i % 8)];
      }
      i := i + 1;
    }
    assert values[..n] == values;
  }

  // ---------------------------------------------------------------------------
  // The buffer
  // ---------------------------------------------------------------------------

  /** `ModbusPdu`: a fixed 253-byte array of which the first `len` bytes are the PDU. */
  class ModbusPdu {
    const data: array<uint8>
    var len: nat

    ghost predicate Valid()
      reads this
    {
      data.Length == MaxPduSize && len <= MaxPduSize
    }

    /** `as_slice`: the first `len` bytes. */
    function AsSlice(): (bytes: seq<uint8>)
      reads this, data
      requires Valid()
      ensures |bytes| == len <= MaxPduSize
    {
      data[..len]
    }

    /** `new`: an empty PDU. */
    constructor ()
      ensures Valid() && fresh(data) && AsSlice() == []
    {
      data := new uint8[MaxPduSize](_ => 0);
      len := 0;
    }

    /** `from_slice`: a PDU holding exactly the given bytes, refused above 253 bytes. */
    static method FromSlice(bytes: seq<uint8>) returns (r: Result<ModbusPdu>)
      ensures |bytes| > MaxPduSize ==> r == Err(Protocol(TooLarge))
      ensures |bytes| <= MaxPduSize ==>
                r.Ok? && fresh(r.value) && fresh(r.value.data) && r.value.Valid() && r.value.AsSlice() == bytes
    {
      if |bytes| > MaxPduSize {
        return Err(Protocol(TooLarge));
      }
      var pdu := new ModbusPdu();
      forall i | 0 <= i < |bytes| {
        pdu.data[i] := bytes[i];
      }
      pdu.len := |bytes|;
      return Ok(pdu);
    }

    /** `push`: append one byte, refused when the buffer is full. */
    method Push(b: uint8) returns (r: Outcome)
      requires Valid()
      modifies this, data
      ensures Valid()
      ensures old(len) < MaxPduSize ==> r == Pass && AsSlice() == old(AsSlice()) + [b]
      ensures old(len) >= MaxPduSize ==> r == Fail(Protocol(BufferFull)) && AsSlice() == old(AsSlice())
    {
      if len >= MaxPduSize {
        return Fail(Protocol(BufferFull));
      }
      data[len] := b;
      len := len + 1;
      return Pass;
    }

    /**
     * `push_u16`: the high byte, then the low byte, as two separate pushes. With
     * one free byte left the high byte is appended before the second push fails.
     */
    method PushU16(v: uint16) returns (r: Outcome)
      requires Valid()
      modifies this, data
      ensures Valid()
      ensures old(len) + 2 <= MaxPduSize ==> r == Pass && AsSlice() == old(AsSlice()) + [Hi(v), Lo(v)]
      ensures old(len) + 1 == MaxPduSize ==> r == Fail(Protocol(BufferFull)) && AsSlice() == old(AsSlice()) + [Hi(v)]
      ensures old(len) == MaxPduSize ==> r == Fail(Protocol(BufferFull)) && AsSlice() == old(AsSlice())
    {
      r := Push(Hi(v));
      if r.Fail? {
        return;
      }
      r := Push(Lo(v));
    }

    /** `extend`: append all bytes, or none of them when they would not fit. */
    method Extend(bytes: seq<uint8>) returns (r: Outcome)
      requires Valid()
      modifies this, data
      ensures Valid()
      ensures old(len) + |bytes| <= MaxPduSize ==> r == Pass && AsSlice() == old(AsSlice()) + bytes
      ensures old(len) + |bytes| > MaxPduSize ==> r == Fail(Protocol(WouldExceedCapacity)) && AsSlice() == old(AsSlice())
    {
      if len + |bytes| > MaxPduSize {
        return Fail(Protocol(WouldExceedCapacity));
      }
      forall i | 0 <= i < |bytes| {
        data[len + i] := bytes[i];
      }
      len := len + |bytes|;
      assert AsSlice() == old(AsSlice()) + bytes by {
        assert forall i :: 0 <= i < old(len) ==> data[i] == old(data[i]);
      }
      return Pass;
    }

    function Len(): (n: nat)
      reads this
      ensures n == len
    {
      len
    }

    predicate IsEmpty()
      reads this, data
      requires Valid()
      ensures IsEmpty() <==> AsSlice() == []
    {
      len == 0
    }

    /** `clear`: the PDU becomes empty. */
    method Clear()
      requires Valid()
      modifies this
      ensures Valid() && AsSlice() == []
    {
      len := 0;
    }

    /** `function_code`: the first byte, if any. */
    function FunctionCode(): (fc: Option<uint8>)
      reads this, data
      requires Valid()
      ensures fc.None? <==> AsSlice() == []
      ensures fc.Some? ==> fc.value == AsSlice()[0]
    {
      if len > 0 then Some(data[0]) else None
    }

    /** `is_exception`: the first byte has its 0x80 bit set (section 7). */
    predicate IsException()
      reads this, data
      requires Valid()
      ensures IsException() <==> AsSlice() != [] && HighBitSet(AsSlice()[0])
    {
      match FunctionCode()
      case Some(fc) => HighBitSet(fc)
      case None => false
    }

    /** `exception_code`: the second byte of an exception response, if present. */
    function ExceptionCode(): (code: Option<uint8>)
      reads this, data
      requires Valid()
      ensures code.Some? <==> IsException() && |AsSlice()| > 1
      ensures code.Some? ==> code.value == AsSlice()[1]
    {
      if IsException() && len > 1 then Some(data[1]) else None
    }
  }

  // ---------------------------------------------------------------------------
  // The builder
  // ---------------------------------------------------------------------------

  /** `PduBuilder`: fills a PDU field by field; every step can fail like the push it performs. */
  class PduBuilder {
    const pdu: ModbusPdu

    ghost predicate Valid()
      reads this, pdu
    {
      pdu.Valid()
    }

    constructor ()
      ensures Valid() && fresh(pdu) && fresh(pdu.data) && pdu.AsSlice() == []
    {
      pdu := new ModbusPdu();
    }

    method FunctionCode(fc: uint8) returns (r: Outcome)
      requires Valid()
      modifies pdu, pdu.data
      ensures Valid()
      ensures old(pdu.len) < MaxPduSize ==> r == Pass && pdu.AsSlice() == old(pdu.AsSlice()) + [fc]
      ensures old(pdu.len) >= MaxPduSize ==> r.Fail? && pdu.AsSlice() == old(pdu.AsSlice())
    {
      r := pdu.Push(fc);
    }

    method Address(address: uint16) returns (r: Outcome)
      requires Valid()
      modifies pdu, pdu.data
      ensures Valid()
      ensures old(pdu.len) + 2 <= MaxPduSize ==> r == Pass && pdu.AsSlice() == old(pdu.AsSlice()) + [Hi(address), Lo(address)]
      ensures old(pdu.len) + 2 > MaxPduSize ==> r.Fail?
    {
      r := pdu.PushU16(address);
    }

    method Quantity(quantity: uint16) returns (r: Outcome)
      requires Valid()
      modifies pdu, pdu.data
      ensures Valid()
      ensures old(pdu.len) + 2 <= MaxPduSize ==> r == Pass && pdu.AsSlice() == old(pdu.AsSlice()) + [Hi(quantity), Lo(quantity)]
      ensures old(pdu.len) + 2 > MaxPduSize ==> r.Fail?
    {
      r := pdu.PushU16(quantity);
    }

    method Byte(b: uint8) returns (r: Outcome)
      requires Valid()
      modifies pdu, pdu.data
      ensures Valid()
      ensures old(pdu.len) < MaxPduSize ==> r == Pass && pdu.AsSlice() == old(pdu.AsSlice()) + [b]
      ensures old(pdu.len) >= MaxPduSize ==> r == Fail(Protocol(BufferFull)) && pdu.AsSlice() == old(pdu.AsSlice())
    {
      r := pdu.Push(b);
    }

    method Data(bytes: seq<uint8>) returns (r: Outcome)
      requires Valid()
      modifies pdu, pdu.data
      ensures Valid()
      ensures old(pdu.len) + |bytes| <= MaxPduSize ==> r == Pass && pdu.AsSlice() == old(pdu.AsSlice()) + bytes
      ensures old(pdu.len) + |bytes| > MaxPduSize ==> r == Fail(Protocol(WouldExceedCapacity)) && pdu.AsSlice() == old(pdu.AsSlice())
    {
      r := pdu.Extend(bytes);
    }

    /** `build_read_request`: function codes 1 to 4 only. */
    static method BuildReadRequest(fc: uint8, address: uint16, quantity: uint16) returns (r: Result<ModbusPdu>)
      ensures !(0x01 <= fc <= 0x04) ==> r == Err(InvalidFunction(fc))
      ensures 0x01 <= fc <= 0x04 ==>
                r.Ok? && fresh(r.value) && r.value.Valid() && r.value.AsSlice() == AddressedRequest(fc, address, quantity)
    {
      if !(0x01 <= fc <= 0x04) {
        return Err(InvalidFunction(fc));
      }
      var b := new PduBuilder();
      var _ := b.FunctionCode(fc);
      var _ := b.Address(address);
      var _ := b.Quantity(quantity);
      return Ok(b.pdu);
    }

    /** `build_write_single_coil`: 0xFF00 for ON, 0x0000 for OFF. */
    static method BuildWriteSingleCoil(address: uint16, on: bool) returns (r: Result<ModbusPdu>)
      ensures r.Ok? && fresh(r.value) && r.value.Valid()
      ensures r.value.AsSlice() == AddressedRequest(FcWriteSingleCoil, address, CoilValue(on))
    {
      var b := new PduBuilder();
      var _ := b.FunctionCode(FcWriteSingleCoil);
      assert b.pdu.AsSlice() == [FcWriteSingleCoil];
      var _ := b.Address(address);
      assert b.pdu.AsSlice() == [FcWriteSingleCoil, Hi(address), Lo(address)];
      var _ := b.Quantity(CoilValue(on));
      return Ok(b.pdu);
    }

    /** `build_write_single_register`. */
    static method BuildWriteSingleRegister(address: uint16, value: uint16) returns (r: Result<ModbusPdu>)
      ensures r.Ok? && fresh(r.value) && r.value.Valid()
      ensures r.value.AsSlice() == AddressedRequest(FcWriteSingleRegister, address, value)
    {
      var b := new PduBuilder();
      var _ := b.FunctionCode(FcWriteSingleRegister);
      var _ := b.Address(address);
      var _ := b.Quantity(value);
      return Ok(b.pdu);
    }

    /**
     * `build_write_multiple_coils`: packs the coils into a byte vector, then
     * appends the header and the bytes. Nothing bounds the coil count except the
     * buffer: more than 1976 coils overflow it and the final extend fails.
     */
    static method BuildWriteMultipleCoils(address: uint16, values: seq<bool>) returns (r: Result<ModbusPdu>)
      ensures |values| <= 1976 ==>
                r.Ok? && fresh(r.value) && r.value.Valid() && r.value.AsSlice() == MultipleCoilsRequest(address, values)
      ensures |values| > 1976 ==> r == Err(Protocol(WouldExceedCapacity))
    {
      var n := |values|;
      var byteCount := (n + 7) / 8;
      var coilBytes := PackCoilBytes(values);
      var b := new PduBuilder();
      var _ := b.FunctionCode(FcWriteMultipleCoils);
      var _ := b.Address(address);
      var _ := b.Quantity(n % 0x1_0000);
      var _ := b.Byte(byteCount % 0x100);
      ghost var header := b.pdu.AsSlice();
      assert header == [FcWriteMultipleCoils] + [Hi(address), Lo(address)] + [Hi(n % 0x1_0000), Lo(n % 0x1_0000)]
                       + [byteCount % 0x100];
      var o := b.Data(coilBytes);
      if o.Fail? {
        return Err(o.error);
      }
      assert b.pdu.AsSlice() == header + coilBytes;
      MultipleCoilsLayout(address, values, byteCount % 0x100, n % 0x1_0000, b.pdu.AsSlice());
      return Ok(b.pdu);
    }

    /**
     * `build_write_multiple_registers`: header, then each register as two byte
     * pushes. More than 123 registers overflow the buffer at some push.
     */
    static method BuildWriteMultipleRegisters(address: uint16, values: seq<uint16>) returns (r: Result<ModbusPdu>)
      ensures |values| <= MaxWriteRegisters ==>
                r.Ok? && fresh(r.value) && r.value.Valid() && r.value.AsSlice() == MultipleRegistersRequest(address, values)
      ensures |values| > MaxWriteRegisters ==> r == Err(Protocol(BufferFull))
    {
      var n := |values|;
      var quantity: uint16 := n % 0x1_0000;
      var byteCount: uint8 := (2 * n) % 0x100;
      var b := new PduBuilder();
      var _ := b.FunctionCode(FcWriteMultipleRegisters);
      var _ := b.Address(address);
      var _ := b.Quantity(quantity);
      var _ := b.Byte(byteCount);
      assert b.pdu.AsSlice() == AddressedRequest(FcWriteMultipleRegisters, address, quantity) + [byteCount];
      var o := b.Registers(values);
      if o.Fail? {
        return Err(o.error);
      }
      MultipleRegistersRequestLayout(address, values);
      return Ok(b.pdu);
    }

    /**
     * The loop of `build_write_multiple_registers`: each register as a high-byte
     * push and a low-byte push, stopping at the first push that fails.
     */
    method Registers(values: seq<uint16>) returns (r: Outcome)
      requires Valid()
      modifies pdu, pdu.data
      ensures Valid()
      ensures old(pdu.len) + 2 * |values| <= MaxPduSize ==>
                r == Pass && pdu.AsSlice() == old(pdu.AsSlice()) + RegisterBytes(values)
      ensures old(pdu.len) + 2 * |values| > MaxPduSize ==> r == Fail(Protocol(BufferFull))
    {
      ghost var start := pdu.AsSlice();
      var i := 0;
      while i < |values|
        invariant 0 <= i <= |values| && Valid()
        invariant pdu.AsSlice() == start + RegisterBytes(values[..i])
      {
        ghost var before := pdu.AsSlice();
        var hi, lo := Hi(values[i]), Lo(values[i]);
        r := Byte(hi);
        if r.Fail? {
          return;
        }
        r := Byte(lo);
        if r.Fail? {
          return;
        }
        RegisterBytesSnoc(values, i);
        AppendPair(start, RegisterBytes(values[..i]), hi, lo);
        i := i + 1;
      }
      assert values[..i] == values;
      return Pass;
    }

    /** `build`: hands over the PDU filled so far. */
    method Build() returns (p: ModbusPdu)
      ensures p == pdu
    {
      return pdu;
    }
  }

  /** The read request of the PDU tests: holding registers 0x006B..0x006D. */
  lemma ReadRequestExample()
    ensures AddressedRequest(FcReadHoldingRegisters, 0x006B, 3) == [0x03, 0x00, 0x6B, 0x00, 0x03]
  {
  }

  lemma WriteSingleCoilExample()
    ensures AddressedRequest(FcWriteSingleCoil, 0x00AC, CoilValue(true)) == [0x05, 0x00, 0xAC, 0xFF, 0x00]
  {
  }

  lemma WriteSingleRegisterExample()
    ensures AddressedRequest(FcWriteSingleRegister, 0x0001, 0x0003) == [0x06, 0x00, 0x01, 0x00, 0x03]
  {
  }

  lemma RegisterBytesExample()
    ensures RegisterBytes([0x000A, 0x0102]) == [0x00, 0x0A, 0x01, 0x02]
  {
    var values: seq<uint16> := [0x000A, 0x0102];
    assert values[..1] == [0x000A] && values[..1][..0] == [];
    assert RegisterBytes(values[..1]) == [0x00, 0x0A];
  }

  lemma WriteMultipleRegistersExample()
    ensures MultipleRegistersRequest(0x0001, [0x000A, 0x0102])
         == [0x10, 0x00, 0x01, 0x00, 0x02, 0x04, 0x00, 0x0A, 0x01, 0x02]
  {
    var values: seq<uint16> := [0x000A, 0x0102];
    assert |values| % 0x1_0000 == 2 && (2 * |values|) % 0x100 == 4;
    MultipleRegistersRequestLayout(0x0001, values);
    RegisterBytesExample();
    assert AddressedRequest(FcWriteMultipleRegisters, 0x0001, 2) == [0x10, 0x00, 0x01, 0x00, 0x02];
    calc {
      MultipleRegistersRequest(0x0001, values);
      AddressedRequest(FcWriteMultipleRegisters, 0x0001, 2) + [4] + RegisterBytes(values);
      [0x10, 0x00, 0x01, 0x00, 0x02] + [4] + [0x00, 0x0A, 0x01, 0x02];
    }
  }
}
