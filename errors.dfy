/**
 * The library's error kinds and the result wrappers its operations return.
 *
 * The source's errors carry formatted messages; here each message is replaced by
 * a constructor naming the condition that produced it, so that contracts can say
 * which condition a failing call hit.
 */
module Errors {
  import opened Words

  datatype Option<T> = None | Some(value: T)

  /** Why a PDU or a response was refused at the protocol level. */
  datatype ProtocolFault =
    | BufferFull                                  // push on a full PDU
    | WouldExceedCapacity                         // extend past 253 bytes
    | TooLarge                                    // from_slice with more than 253 bytes
    | EmptyResponse                               // write response without any byte
    | FunctionCodeMismatch(expected: uint8, actual: uint8)
    | UnsupportedFunctionCode(code: uint8)

  /** Why data handed to the library was refused. */
  datatype DataFault =
    | NoRegisters                                 // bool / 16-bit decode of an empty register list
    | NotEnoughRegisters                          // 32- or 64-bit decode of a too-short list
    | InvalidBitPosition(position: uint8)         // bool decode with a bit above 15
    | UnsupportedDataType                         // unknown type tag
    | InvalidCoilCount                            // FC15 with 0 or more than 1968 coils
    | InvalidRegisterCount                        // FC16 with 0 or more than 123 registers
    | InvalidQuantity                             // client-side quantity validation

  datatype ModbusError =
    | Protocol(protocolFault: ProtocolFault)
    | InvalidData(dataFault: DataFault)
    | InvalidFunction(code: uint8)
    | Exception(functionCode: uint8, exceptionCode: uint8)
    | Connection

  datatype Result<T> = Ok(value: T) | Err(error: ModbusError)

  /** The result of an operation that returns `()` on success. */
  datatype Outcome = Pass | Fail(error: ModbusError)
}
