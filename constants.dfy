/**
 * Frame sizes, per-request limits, function codes and exception codes of the
 * MODBUS Application Protocol Specification V1.1b3, as the library fixes them.
 */
module Constants {
  import opened Words

  // Frame sizes (section 4.1 of the MODBUS Application Protocol Specification)
  const MbapHeaderLen: nat := 6
  const MaxPduSize: nat := 253
  /** The MBAP length field counts the unit identifier plus the PDU. */
  const MaxMbapLength: nat := 1 + MaxPduSize
  const ResponseBufferSize: nat := 512

  // Per-request limits
  const MaxReadRegisters: nat := 125
  const MaxWriteRegisters: nat := 123
  const MaxReadCoils: nat := 2000
  const MaxWriteCoils: nat := 1968

  // Function codes
  const FcReadCoils: uint8 := 0x01
  const FcReadDiscreteInputs: uint8 := 0x02
  const FcReadHoldingRegisters: uint8 := 0x03
  const FcReadInputRegisters: uint8 := 0x04
  const FcWriteSingleCoil: uint8 := 0x05
  const FcWriteSingleRegister: uint8 := 0x06
  const FcWriteMultipleCoils: uint8 := 0x0F
  const FcWriteMultipleRegisters: uint8 := 0x10

  // Exception codes (section 7 of the MODBUS Application Protocol Specification)
  const ExIllegalFunction: uint8 := 0x01
  const ExIllegalDataAddress: uint8 := 0x02
  const ExIllegalDataValue: uint8 := 0x03
  const ExServerDeviceFailure: uint8 := 0x04
  const ExAcknowledge: uint8 := 0x05
  const ExServerDeviceBusy: uint8 := 0x06
  const ExMemoryParityError: uint8 := 0x08
  const ExGatewayPathUnavailable: uint8 := 0x0A
  const ExGatewayTargetFailed: uint8 := 0x0B

  /** Size of a read-registers response carrying n registers: fc, byte count, data. */
  function ReadRegistersResponseSize(n: nat): nat { 1 + 1 + 2 * n }

  /** Size of a write-multiple-registers request: fc, address, quantity, byte count, data. */
  function WriteRegistersRequestSize(n: nat): nat { 1 + 2 + 2 + 1 + 2 * n }

  /** Size of a read-coils response carrying n coils. */
  function ReadCoilsResponseSize(n: nat): nat { 1 + 1 + DivCeil(n, 8) }

  /** Size of a write-multiple-coils request carrying n coils. */
  function WriteCoilsRequestSize(n: nat): nat { 1 + 2 + 2 + 1 + DivCeil(n, 8) }

  lemma FrameSizes()
    ensures MbapHeaderLen == 6 && MaxPduSize == 253 && MaxMbapLength == 254
  {
  }

  /**
   * The register limits are the largest counts whose frames fit in one PDU:
   * 125 registers fit in a read response and 126 do not; 123 registers fit in
   * a write request and 124 do not.
   */
  lemma RegisterLimitsFit(n: nat)
    ensures ReadRegistersResponseSize(n) <= MaxPduSize <==> n <= MaxReadRegisters
    ensures WriteRegistersRequestSize(n) <= MaxPduSize <==> n <= MaxWriteRegisters
  {
  }

  /** The coil limits keep their frames within one PDU. */
  lemma CoilLimitsFit()
    ensures ReadCoilsResponseSize(MaxReadCoils) <= MaxPduSize
    ensures WriteCoilsRequestSize(MaxWriteCoils) <= MaxPduSize
  {
    assert DivCeil(MaxReadCoils, 8) == 250;
    assert DivCeil(MaxWriteCoils, 8) == 246;
  }
}
