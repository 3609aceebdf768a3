# voltage_modbus protocol core in Dafny

This project models the protocol core of `voltage_modbus`, a Modbus TCP/RTU
client library written in Rust, and proves properties of that model. The core
covers:

- the byte-order conversions between 16-bit registers and bytes and integers
  (`ByteOrder`, ABCD/DCBA/CDAB/BADC);
- the typed value enum `ModbusValue`;
- the fixed 253-byte PDU buffer and its request builders;
- the value codec: type-tag dispatch, clamping, the read-response parser, the
  FC05/06/15/16 PDU builders and the write-response checker;
- the per-device limits and their request counts;
- the command batcher, with its grouping, counting and contiguity check;
- the client layer: the quantity validation of the single reads and writes,
  the chunking loops of the batch reads over a mock transport, the write
  payloads, and the register/u32 utilities.

One module per source file:

| file | module | source |
|---|---|---|
| words.dfy | `Words` | fixed-width integer types, byte split, ceiling division, saturating add, two's complement, bit packing (helpers shared by all files) |
| errors.dfy | `Errors` | `ModbusError` and the `Result` wrappers |
| constants.dfy | `Constants` | src/constants.rs |
| bytes.dfy | `Bytes` | src/bytes.rs |
| value.dfy | `Values` | src/value.rs |
| pdu.dfy | `Pdu` | src/pdu.rs |
| codec.dfy | `Codec` | src/codec.rs |
| device_limits.dfy | `Limits` | src/device_limits.rs |
| batcher.dfy | `Batcher` | src/batcher.rs |
| client.dfy | `Client` | src/client.rs |

The code that changes state in place takes the form of classes:

- `Pdu.ModbusPdu` holds an `array` of 253 bytes and a length, with `len <= 253`
  as its invariant.
- `Pdu.PduBuilder` wraps such a buffer.
- `Batcher.CommandBatcher` holds a `map` of command groups and a pending counter.
  Its invariant is that the counter equals the number of commands held.
- `Client.MockTransport` holds a request log and a queue of canned responses.
- `Client.GenericClient` sends through the mock transport and records its
  pauses.

Loops in the source become `while` loops in methods. Each such method is proved
against a specification function:

- the packing loops of the coil builders;
- the register loops;
- the read-response parser;
- the `are_strictly_consecutive` walk;
- the batch-read loop.

The batch-read loop is proved against `Client.BatchRun`, a recursive function
of the plan and the response queue. The lemmas about the batch read are stated
about that function.

## Model

| member | source | states |
|---|---|---|
| Words.DivCeil | src/device_limits.rs:115-120 | the ceiling quotient: q·d ≥ n and (q−1)·d < n |
| Words.SatAdd16 | src/client.rs:397 | `saturating_add` on u16: the sum when it fits, 65535 otherwise |
| Words.PackByte | src/client.rs:829-835 | bit k of the packed byte is coil k of the chunk, for every k below 8 |
| Words.SignedRoundTrips | src/bytes.rs:285-302 | the `as` casts between signed and unsigned 16/32/64-bit integers are mutually inverse |
| Constants.FrameSizes | src/constants.rs:14-24 | MBAP header 6, maximum PDU 253, maximum MBAP length 1 + 253 = 254 |
| Constants.RegisterLimitsFit | src/constants.rs:39-59 | a read-registers response of n registers fits a PDU exactly when n ≤ 125; a write-multiple-registers request exactly when n ≤ 123 |
| Constants.CoilLimitsFit | src/constants.rs:61-87 | a 2000-coil read response and a 1968-coil write request fit in 253 bytes |
| Bytes.DefaultOrder | src/bytes.rs:163-168 | the default order is big-endian, without word swap, not 16-bit only |
| Bytes.OrderPredicatesPartition | src/bytes.rs:128-154 | big- and little-endian partition the six orders; word swap holds exactly for the two swap variants |
| Bytes.NormalizeName | src/bytes.rs:90-100 | the normalised name has no '-' or '_' and no lower-case letter |
| Bytes.FromStr | src/bytes.rs:90-112 | an order is returned exactly when the normalised name is one of that order's spellings (pattern, short name, long name, eight-letter pattern); otherwise None |
| Bytes.FromStrIgnoresCase | src/bytes.rs:90-112 | `from_str` gives the same answer for a name and its lower-case form |
| Bytes.FromStrIgnoresSeparator | src/bytes.rs:90-112 | inserting '-' or '_' anywhere does not change the answer |
| Bytes.FromStrPatternName | src/bytes.rs:101-110 | ABCD, DCBA, CDAB, BADC, AB and BA each parse to their order |
| Bytes.FromStrLowerPatternName | src/bytes.rs:90-112 | the lower-case pattern names parse to the same orders |
| Bytes.FromStrSeparatedName | src/bytes.rs:90-112 | "big-endian" and "big_endian" parse to BigEndian |
| Bytes.FromStrBigEndian | src/bytes.rs:101-110 | "BIGENDIAN" parses to BigEndian |
| Bytes.FromStrCapitals | src/bytes.rs:90-112 | a name in capitals parses to the order its arms name |
| Bytes.FromStrRejects | src/bytes.rs:430-434 | "" and "invalid" parse to None |
| Bytes.FromStrSevenLetters | src/bytes.rs:101-110 | no arm has seven letters, so no seven-character name without separators is accepted |
| Bytes.RegsToBytes4 | src/bytes.rs:186-195 | `bytes_4_to_regs` under the same order gives the registers back |
| Bytes.Bytes4RoundTrip | src/bytes.rs:350-369 | `regs_to_bytes_4` of `bytes_4_to_regs` gives the bytes back, for every order |
| Bytes.RegsToBytes8 | src/bytes.rs:209-231 | `bytes_8_to_regs` under the same order gives the four registers back |
| Bytes.Bytes8RoundTrip | src/bytes.rs:373-400 | `regs_to_bytes_8` of `bytes_8_to_regs` gives the bytes back, for every order |
| Bytes.SixteenBitOrdersActAsWide | src/bytes.rs:186-231 | BigEndian16 and LittleEndian16 convert exactly like BigEndian and LittleEndian, in both directions and both widths |
| Bytes.RegsToBytes4Examples | src/bytes.rs:453-472 | [0x1234, 0x5678] becomes 12 34 56 78, 78 56 34 12, 56 78 12 34 and 34 12 78 56 under the four orders |
| Bytes.RegToBytes2 | src/bytes.rs:239-245 | little-endian byte order for LittleEndian and LittleEndian16, big-endian for the other orders |
| Bytes.RegToU16 | src/bytes.rs:249-254 | the bytes are swapped for LittleEndian16 only; every other order leaves the register as is |
| Bytes.RegToU16Involution | src/bytes.rs:249-254 | converting twice gives the register back |
| Bytes.RegToI16 | src/bytes.rs:258-260 | the two's-complement reading of `reg_to_u16` |
| Bytes.U32Be | src/bytes.rs:278-281 | `u32::from_be_bytes` of the bytes gives the value back |
| Bytes.BeU32Inverse | src/bytes.rs:278-281 | `to_be_bytes` of `from_be_bytes` gives the bytes back |
| Bytes.U64Be | src/bytes.rs:292-295 | the same for u64 |
| Bytes.BeU64Inverse | src/bytes.rs:292-295 | the same for u64 |
| Bytes.U32ToRegs | src/bytes.rs:310-313 | `regs_to_u32` of `u32_to_regs` is the value, for every order |
| Bytes.I32ToRegs | src/bytes.rs:317-319 | `regs_to_i32` of `i32_to_regs` is the value, through the unsigned path |
| Bytes.U64ToRegs | src/bytes.rs:330-333 | `regs_to_u64` of `u64_to_regs` is the value |
| Bytes.I64ToRegs | src/bytes.rs:337-339 | `regs_to_i64` of `i64_to_regs` is the value |
| Bytes.RegsToU32Inverse | src/bytes.rs:278-313 | `u32_to_regs` of `regs_to_u32` gives the registers back |
| Bytes.RegsToU64Inverse | src/bytes.rs:292-333 | `u64_to_regs` of `regs_to_u64` gives the registers back |
| Values.ModbusValue.RegisterCount | src/value.rs:107-114 | 0 for Bool, 1, 2 or 4 by width; 0 exactly for Bool |
| Values.ModbusValue.IsZero | src/value.rs:118-130 | Bool(b) is zero iff !b; each integer variant is zero iff its payload is 0; F32 is zero for +0.0 and −0.0 |
| Values.ModbusValue.AsI64 | src/value.rs:84-96 | exact for every integer variant except U64, which wraps around (u64::MAX becomes −1) |
| Values.ModbusValue.TypeName | src/value.rs:133-145 | "bool" exactly for a coil; otherwise three characters: 'f' exactly for floats, 'i' exactly for signed integers, then 16, 32 or 64 by the number of registers |
| Values.DefaultValue | src/value.rs:164-168 | U16(0) |
| Values.IsZeroMatchesAsI64 | src/value.rs:84-130 | an integer or Bool value is zero exactly when its i64 reading is 0 |
| Values.AsI64Examples | src/value.rs:249-254 | U64(u64::MAX) reads as −1, I16(−5) as −5, Bool(true) as 1 |
| Values.TypeNameIdentifiesKind | src/value.rs:133-145 | two values have the same type name exactly when they are the same variant |
| Pdu.AddressedRequest | src/pdu.rs:267-307 | five bytes: function code, then address and the 16-bit field, each high byte first |
| Pdu.RegisterBytesRoundTrip | src/pdu.rs:340-358 | the register payload decodes back to the registers |
| Pdu.PackCoils | src/pdu.rs:314-333 | ceil(n/8) bytes |
| Pdu.PackCoilsBits | src/pdu.rs:314-333 | coil i is bit i mod 8 of byte i / 8; the padding bits are 0 |
| Pdu.PackCoilsRoundTrip | src/pdu.rs:314-333 | unpacking the packed coils gives them back |
| Pdu.PackCoilsExample | src/codec.rs:654-661 | [true, false, true] packs to 0x05 |
| Pdu.MultipleCoilsRequest | src/pdu.rs:314-333 | header fc 0x0F, address, quantity, byte count ceil(n/8), then the packed coils |
| Pdu.MultipleRegistersRequest | src/pdu.rs:340-358 | header fc 0x10, address, quantity, byte count 2n, then the registers high byte first |
| Pdu.MultipleRegistersRequestValues | src/pdu.rs:340-358 | the data part decodes back to the registers |
| Pdu.FunctionCodeDescription | src/pdu.rs:166-179 | "Unknown Function" exactly for codes whose low seven bits are none of the nine listed codes |
| Pdu.ExceptionDescribedByFunction | src/pdu.rs:166-179 | an exception code is described like the function it answers |
| Pdu.PackCoilBytes | src/pdu.rs:319-324 | the packing loop yields the packed coils |
| Pdu.ModbusPdu.AsSlice | src/pdu.rs:109-111 | exactly `len` bytes, never more than 253 |
| Pdu.ModbusPdu.constructor | src/pdu.rs:22-27 | an empty PDU |
| Pdu.ModbusPdu.FromSlice | src/pdu.rs:31-66 | more than 253 bytes is an error; otherwise the PDU holds exactly the input |
| Pdu.ModbusPdu.Push | src/pdu.rs:70-79 | appends one byte, or fails with the buffer full and nothing changed |
| Pdu.ModbusPdu.PushU16 | src/pdu.rs:83-87 | appends high then low byte; at 252 bytes it appends the high byte and then fails |
| Pdu.ModbusPdu.Extend | src/pdu.rs:91-105 | appends all bytes, or fails with nothing changed when they would not fit |
| Pdu.ModbusPdu.Len | src/pdu.rs:121-123 | the length field |
| Pdu.ModbusPdu.IsEmpty | src/pdu.rs:127-129 | empty exactly when the slice is empty |
| Pdu.ModbusPdu.Clear | src/pdu.rs:133-135 | the slice becomes empty |
| Pdu.ModbusPdu.FunctionCode | src/pdu.rs:139-145 | None exactly for an empty PDU, otherwise the first byte |
| Pdu.ModbusPdu.IsException | src/pdu.rs:149-153 | the PDU is non-empty and its first byte has bit 0x80 set |
| Pdu.ModbusPdu.ExceptionCode | src/pdu.rs:157-163 | the second byte, exactly for an exception PDU with more than one byte |
| Pdu.PduBuilder.constructor | src/pdu.rs:202-206 | a builder over an empty PDU |
| Pdu.PduBuilder.FunctionCode | src/pdu.rs:210-213 | pushes the code |
| Pdu.PduBuilder.Address | src/pdu.rs:217-220 | pushes the address high byte first |
| Pdu.PduBuilder.Quantity | src/pdu.rs:224-227 | pushes the quantity high byte first |
| Pdu.PduBuilder.Byte | src/pdu.rs:231-234 | pushes one byte |
| Pdu.PduBuilder.Data | src/pdu.rs:238-241 | extends with the bytes, or fails with nothing changed |
| Pdu.PduBuilder.Build | src/pdu.rs:245-259 | hands over the PDU built so far |
| Pdu.PduBuilder.BuildReadRequest | src/pdu.rs:267-280 | `InvalidFunction` outside codes 1 to 4; otherwise code, address and quantity |
| Pdu.PduBuilder.BuildWriteSingleCoil | src/pdu.rs:287-294 | code 05, address, then FF00 for on and 0000 for off |
| Pdu.PduBuilder.BuildWriteSingleRegister | src/pdu.rs:301-307 | code 06, address, value |
| Pdu.PduBuilder.BuildWriteMultipleCoils | src/pdu.rs:314-333 | the FC15 layout up to 1976 coils; beyond that the final extend fails |
| Pdu.PduBuilder.BuildWriteMultipleRegisters | src/pdu.rs:340-358 | the FC16 layout up to 123 registers; beyond that a push fails |
| Pdu.PduBuilder.Registers | src/pdu.rs:351-355 | pushes every register high byte first, or fails once the buffer is full |
| Pdu.ReadRequestExample | src/pdu.rs:408-415 | reading 3 holding registers at 0x006B is 03 00 6B 00 03 |
| Pdu.WriteSingleCoilExample | src/pdu.rs:418-423 | coil 0x00AC on is 05 00 AC FF 00 |
| Pdu.WriteSingleRegisterExample | src/pdu.rs:426-431 | register 1 set to 3 is 06 00 01 00 03 |
| Pdu.WriteMultipleRegistersExample | src/pdu.rs:434-442 | registers 0x000A and 0x0102 at address 1 are 10 00 01 00 02 04 00 0A 01 02 |
| Codec.TypeNameIsTag | src/codec.rs:57-169 | each variant's type name is a tag for that variant's own kind |
| Codec.RegistersForType | src/codec.rs:515-524 | 0, 1, 2 or 4 for the known tags by kind; 1 for an unknown tag |
| Codec.RegistersForTypeExamples | src/codec.rs:634-639 | bool is 0 registers, uint16 is 1 |
| Codec.RegistersForWideTypeExamples | src/codec.rs:634-639 | int32 is 2 registers, float64 is 4 |
| Codec.RegistersForUpperCaseTag | src/codec.rs:515-524 | tags match regardless of case: "UINT16" is 1 register |
| Codec.DecodeRegisterValue | src/codec.rs:57-169 | an unknown tag is an error; too few registers for the kind is an error; a bool bit above 15 is an error; success exactly otherwise, with a value of the tag's kind; a decoded Bool is bit `bitPosition` of the first register |
| Codec.DecodeIgnoresTrailingRegisters | src/codec.rs:57-169 | registers beyond those the kind needs are ignored |
| Codec.DecodeExamples | src/codec.rs:550-563 | [0x1234, 0x5678] decodes as uint32 0x12345678 big-endian |
| Codec.DecodeSwapExample | src/codec.rs:550-563 | [0x5678, 0x1234] decodes as the same value under word swap (CDAB) |
| Codec.DecodeSixteenBitExamples | src/codec.rs:536-547 | 0x1234 decodes as uint16 0x1234; 0xFFFF as int16 −1 |
| Codec.DecodeBoolExamples | src/codec.rs:578-585 | bit 2 of 0x0004 is true and bit 0 is false |
| Codec.EncodeValue | src/codec.rs:289-318 | always succeeds, with as many registers as the kind needs; a Bool becomes the single register 1 when set and 0 when clear |
| Codec.DecodeEncode | src/codec.rs:289-318 | decoding an encoded value under its own type name and order gives the value back |
| Codec.EncodeDecode | src/codec.rs:57-169 | encoding a decoded non-bool value gives back the registers it was read from |
| Codec.DecodeEncodeUnderTag | src/codec.rs:57-318 | the round trip holds under every alias of the value's kind |
| Codec.EncodeExample | src/codec.rs:588-600 | U32 0x12345678 encodes big-endian as [0x1234, 0x5678] |
| Codec.Clamp | src/codec.rs:199 | the result lies in the range; a value inside is unchanged; a value outside moves to the nearer bound |
| Codec.ClampToDataType | src/codec.rs:183-200 | unchanged for bool and unknown tags; otherwise always inside the tag's range, unchanged inside it, the lower bound below it and the upper bound above it |
| Codec.ClampExamples | src/codec.rs:626-631 | 70000 → 65535 and −100 → 0 for uint16; 40000 → 32767 and −40000 → −32768 for int16 |
| Codec.EncodeF64AsType | src/codec.rs:334-372 | an unknown tag is an error; a known one always encodes to the registers its kind needs |
| Codec.EncodeF64AsTypeReadsBack | src/codec.rs:334-372 | an integer tag encodes the value clamped to the kind's range, and decodes back to it |
| Codec.EncodeF64AsBool | src/codec.rs:342 | a bool tag encodes [1] for a non-zero value and [0] for zero |
| Codec.ClampWithinKind | src/codec.rs:183-200 | clamping to the tag and then to the kind equals clamping to the kind |
| Codec.ParseReadResponse | src/codec.rs:215-269 | the parser loops yield what `ReadResponse` describes |
| Codec.ReadResponseShort | src/codec.rs:221-225 | fewer than two bytes yield an empty list, without a function-code check |
| Codec.ReadResponseException | src/codec.rs:227-235 | an exception reply is a function-code mismatch |
| Codec.ReadResponseCoils | src/codec.rs:242-250 | a coil reply yields each data byte widened to 16 bits |
| Codec.ReadResponseRegisterBody | src/codec.rs:237-264 | a register reply yields the complete big-endian pairs among min(byte count, bytes present) bytes |
| Codec.ReadResponseWholeBody | src/codec.rs:237-264 | when the byte count covers everything present, all complete pairs are read |
| Codec.ReadResponseRegisters | src/codec.rs:251-264 | a well-formed register reply gives back exactly its registers |
| Codec.ReadResponseTruncated | src/codec.rs:251-264 | a dangling odd byte is ignored |
| Codec.ParseWriteResponse | src/codec.rs:481-511 | empty is an error; an exception gives code & 0x7F and byte 1 (or 0); a mismatch is an error; otherwise Ok(true) |
| Codec.WriteResponseEcho | src/codec.rs:481-511 | an echoed write request is accepted |
| Codec.WriteResponseException | src/codec.rs:481-511 | fc + 0x80 with code c is the exception (fc, c) |
| Codec.BuildFc05Pdu | src/codec.rs:381-388 | code 05, address, FF00 or 0000 |
| Codec.BuildFc06Pdu | src/codec.rs:391-397 | code 06, address, value |
| Codec.BuildFc15Pdu | src/codec.rs:400-446 | 0 or more than 1968 coils is an error; otherwise the FC15 layout with the coils packed LSB first |
| Codec.PushCoils | src/codec.rs:423-443 | the bit loop appends exactly the packed coils |
| Codec.CoilPackingMeans | src/codec.rs:424-438 | after any number of coils, the bytes pushed so far pack every complete group of eight and the byte being filled packs the coils since |
| Codec.BuildFc16Pdu | src/codec.rs:449-478 | 0 or more than 123 registers is an error; otherwise the FC16 layout |
| Codec.PushRegisters | src/codec.rs:471-474 | the register loop appends each register high byte first |
| Limits.DeviceLimits.WithMaxReadRegisters | src/device_limits.rs:85-88 | only that field changes |
| Limits.DeviceLimits.WithMaxWriteRegisters | src/device_limits.rs:91-94 | only that field changes |
| Limits.DeviceLimits.WithMaxReadCoils | src/device_limits.rs:97-100 | only that field changes |
| Limits.DeviceLimits.WithMaxWriteCoils | src/device_limits.rs:103-106 | only that field changes |
| Limits.DeviceLimits.WithInterRequestDelayMs | src/device_limits.rs:109-112 | only that field changes |
| Limits.DeviceLimits.ReadRequestCount | src/device_limits.rs:115-120 | 0 for 0; otherwise n·max ≥ total and (n−1)·max < total |
| Limits.DeviceLimits.WriteRequestCount | src/device_limits.rs:123-128 | the same over the write maximum |
| Limits.DeviceLimits.IsReadWithinLimits | src/device_limits.rs:130-133 | with a positive maximum, within limits exactly when one read request covers the count; with a zero maximum, only for 0 |
| Limits.DeviceLimits.IsWriteWithinLimits | src/device_limits.rs:135-138 | the same for write requests |
| Limits.DeviceLimits.IsCoilReadWithinLimits | src/device_limits.rs:140-143 | with a positive maximum, within limits exactly when the coils fit one chunk of that size; with a zero maximum, only for 0 |
| Limits.DeviceLimits.IsCoilWriteWithinLimits | src/device_limits.rs:145-148 | the same for coil writes |
| Limits.DefaultLimits | src/device_limits.rs:151-160 | 125 / 123 / 2000 / 1968 and no delay, the protocol maxima |
| Limits.ConservativeLimits | src/device_limits.rs:74-82 | 50 / 50 / 500 / 500 and 10 ms |
| Limits.ConservativeWithinDefaults | src/device_limits.rs:74-82 | each conservative limit is positive and at most the default |
| Limits.WithinLimitsIsOneRequest | src/device_limits.rs:115-138 | a count is within the limit exactly when it needs at most one request |
| Limits.OneRequestIffWithin | src/device_limits.rs:115-120 | total ≤ max exactly when ceil(total / max) ≤ 1 |
| Limits.SettersCommute | src/device_limits.rs:85-112 | setting two different fields in either order gives the same limits |
| Limits.ReadRequestCountExamples | src/device_limits.rs:205-213 | with max 50: 0 → 0, 50 → 1, 51 → 2, 100 → 2, 101 → 3 |
| Limits.WriteRequestCountExamples | src/device_limits.rs:216-223 | with max 100: 0 → 0, 100 → 1, 101 → 2, 250 → 3 |
| Limits.WithinLimitsExamples | src/device_limits.rs:242-252 | with coil limits 1000 and 500, 1000 and 500 are within and 1001 and 501 are not |
| Batcher.TotalAppend | src/batcher.rs:151-155 | appending a command to a group adds one to the total |
| Batcher.TotalZero | src/batcher.rs:196-198 | with no empty group, the total is 0 exactly when there is no group |
| Batcher.CommandBatcher.constructor | src/batcher.rs:94-102 | no groups, counter 0, a 20 ms window, 100 commands per batch |
| Batcher.CommandBatcher.WithConfig | src/batcher.rs:109-117 | no groups, counter 0, the given window and batch size |
| Batcher.CommandBatcher.PendingCount | src/batcher.rs:121-123 | the number of commands held in all groups |
| Batcher.CommandBatcher.TakeCommands | src/batcher.rs:144-148 | returns every group, leaves none, counter 0, window restarted |
| Batcher.CommandBatcher.AddCommand | src/batcher.rs:151-155 | appends to the end of the command's group, other groups unchanged, counter + 1 |
| Batcher.CommandBatcher.Clear | src/batcher.rs:189-192 | no groups, counter 0 |
| Batcher.CommandBatcher.IsEmpty | src/batcher.rs:196-198 | empty exactly when no group is held |
| Batcher.CommandBatcher.GetRegisterCount | src/batcher.rs:184-186 | equals `registers_for_type` |
| Batcher.CommandBatcher.AreStrictlyConsecutive | src/batcher.rs:161-180 | the walk over the address-sorted commands yields `ConsecutiveAsWritten` |
| Batcher.CommandBatcher.Elapsed | src/batcher.rs:125-129 | the time since the window started, and 0 when the clock reads earlier than that start |
| Batcher.ShouldExecuteMeans | src/batcher.rs:131-139 | for every valid batcher, due exactly when the window has run out or the commands held in all groups reach the batch size |
| Batcher.BatchSizeTriggers | src/batcher.rs:285-294 | a fresh batcher holding `DEFAULT_MAX_BATCH_SIZE` commands is due at once |
| Batcher.FreshBatcherIdle | src/batcher.rs:94-139 | a fresh batcher is empty, counts 0 and does not release inside its window |
| Batcher.TilesMeansContiguous | src/batcher.rs:170-179 | the walk succeeds exactly when each command starts at the first address plus the spans before it |
| Batcher.ConsecutiveAsWrittenMeans | src/batcher.rs:161-180 | false below two commands; otherwise true exactly when each sorted command starts at the lowest address plus the spans of those before it |
| Batcher.SortByAddress | src/batcher.rs:166-167 | a permutation of the commands, sorted by address |
| Batcher.SameAddressKeepsOrder | src/batcher.rs:166-167 | the stable sort keeps two commands at one address in input order |
| Batcher.ConsecutiveAsWrittenDependsOnOrder | src/batcher.rs:161-180 | the same two commands are consecutive in one order and not in the other |
| Batcher.ConsecutiveCorrectedIgnoresOrder | src/batcher.rs:161-180 | with ties broken by span, any permutation of the commands gives the same answer |
| Batcher.WordCommandExtent | src/batcher.rs:184-186 | a uint16 command spans one register |
| Batcher.ConsecutiveOutOfOrderExample | src/batcher.rs:388-396 | uint16 writes to 101 and 100, in that order, are consecutive |
| Batcher.GapExample | src/batcher.rs:379-385 | uint16 writes to 100 and 105 are not consecutive |
| Batcher.GetRegisterCountExamples | src/batcher.rs:399-407 | uint16 is 1 register, float64 is 4 |
| Client.NextResponse | src/client.rs:1313-1373 | the head of the queue, or a connection error once it is empty |
| Client.MockTransport.Request | src/client.rs:1313-1373 | logs the request and answers with the next queued response |
| Client.MockTransport.Close | src/client.rs:1365-1368 | the connection flag is cleared; the request log and the response queue are unchanged |
| Client.MockTransport.AddResponse | src/client.rs:1313-1373 | queues one more response |
| Client.GenericClient.ExecuteRequest | src/client.rs:664-688 | forwards to the transport: one request logged, one response consumed |
| Client.ChunkBits | src/client.rs:691-737 | a coil read gives the parsed bits cut to the quantity, or the error |
| Client.ChunkRegisters | src/client.rs:739-783 | a register read gives the parsed registers, or the error |
| Client.BatchPlan | src/client.rs:253-455 | FC01/02 chunk by the coil limit under the 2000 cap; FC03/04 by the register limit under the 125 cap |
| Client.GenericClient.Read | src/client.rs:691-783 | a quantity of 0 or above the cap fails with nothing sent; otherwise one request and its chunk |
| Client.GenericClient.ReadBatch | src/client.rs:371-407 | the loop's result, requests, consumed responses and pauses are exactly those of `BatchRun` |
| Client.GenericClient.ReadBitsBatch | src/client.rs:253-338 | `read_01_batch` / `read_02_batch`: the batch loop over coil chunks |
| Client.GenericClient.ReadRegistersBatch | src/client.rs:371-455 | `read_03_batch` / `read_04_batch`: the batch loop over register chunks |
| Client.EmptyBatchExample | src/client.rs:384-386 | a quantity of 0 returns an empty result and sends nothing |
| Client.BatchRunRequest | src/client.rs:388-404 | request k reads min(limit, remaining − k·limit) at min(start + k·limit, 65535), with k·limit below the quantity |
| Client.BatchRunCoversQuantity | src/client.rs:388-404 | a successful batch asks for exactly the quantity, in ceil(quantity / limit) requests |
| Client.BatchRunConcatenates | src/client.rs:392-406 | a successful batch returns the chunks in request order |
| Client.BatchRunFirstError | src/client.rs:394 | every request before the last succeeded; a failed batch fails with the last request's error, or with the quantity check when nothing was sent |
| Client.BatchRunSleeps | src/client.rs:400-402 | one pause between each two requests when the delay is positive, none otherwise and none after the last |
| Client.BitsBatchAtMostQuantity | src/client.rs:253-289 | a coil batch never returns more coils than asked for |
| Client.RegisterBatchRequestCount | src/client.rs:371-407 | a successful register batch sends `read_request_count(quantity)` requests |
| Client.RegisterBatchExample | src/client.rs:1437-1470 | 120 registers at 50 per request: (0,50), (50,50), (100,20), and the chunks joined |
| Client.FailingBatchExample | src/client.rs:1507-1526 | a failing second chunk fails the batch after two requests |
| Client.CoilBatchExample | src/client.rs:1529-1555 | 600 coils at 500 per request: two requests and exactly 600 coils |
| Client.GenericClient.WriteSingleCoil | src/client.rs:785-799 | sends FC05 with FF 00 or 00 00 |
| Client.GenericClient.WriteSingleRegister | src/client.rs:801-812 | sends FC06 with the value high byte first |
| Client.GenericClient.WriteMultipleCoils | src/client.rs:814-848 | 0 or more than 1968 coils fails with nothing sent; otherwise FC15 with the packed coils |
| Client.GenericClient.WriteMultipleRegisters | src/client.rs:850-876 | 0 or more than 123 registers fails with nothing sent; otherwise FC16 with the register bytes |
| Client.Acknowledged | src/client.rs:785-876 | a write succeeds exactly when the transport answers |
| Client.WritePayloadsDecode | src/client.rs:785-876 | the payloads read back as FF00/0000, the register, every coil and every register, and match the PDU builder's data |
| Client.PackCoilChunks | src/client.rs:828-836 | the packing loop yields the coils packed LSB first |
| Client.PackChunk | src/client.rs:829-835 | the inner loop sets bit i for each set coil i |
| Client.RegisterPayload | src/client.rs:861-865 | the payload loop yields each register high byte first |
| Client.RegistersToU32Be | src/client.rs:1226-1237 | one value per complete pair |
| Client.RegistersToI32Be | src/client.rs:1240-1245 | one value per complete pair |
| Client.U32ToRegistersBe | src/client.rs:1256-1261 | two registers per value |
| Client.U32RegistersRoundTrip | src/client.rs:1226-1261 | joining the split registers gives the values back |
| Client.RegistersU32RoundTrip | src/client.rs:1226-1261 | splitting the joined values gives back the registers, less an odd last one |
| Client.RegistersToI32Sign | src/client.rs:1240-1245 | a pair is negative exactly when its high register has the top bit set; the unsigned reading agrees |
| Client.RegisterConversionExample | src/client.rs:1275-1282 | [0x1234, 0x5678, 0xABCD, 0xEF01] ↔ [0x12345678, 0xABCDEF01]; [0xFFFF, 0xFFFE] is −2 |

## Left out

- Transports: TCP, RTU and the protocol framing (`protocol.rs`, `transport.rs`) are not part of this model. A response is represented by what `parse_bits` and `parse_registers` make of it. The transport is the queue-backed mock of the client tests. An empty queue answers with a connection error.
- Async and `tokio::time::sleep`: the loops are sequential, and each pause is recorded in the client's `sleeps` log.
- Connection state, statistics, the client constructors and address parsing.
- Wall-clock time: `Instant::now` becomes an explicit `now` parameter. `Elapsed` saturates at 0 like `Instant` does.
- `HashMap` order: the batcher's groups are a `map`, and nothing depends on iteration order.
- Logging (`tracing`, `CallbackLogger`) and the `Display`/`as_str` text. Error messages become error constructors naming their condition.
- Floating point: F32 and F64 values are carried as IEEE bit patterns. Their byte conversions are exact. `as_f64` and the `*_f32_be` utilities are not part of the model.
- Values.ModbusValue.AsI64: returns None for F32 and F64, because the float-to-integer rounding is not modelled.
- Codec.ClampToDataType: the value is an integer, not an f64. The f32/f64 bounds are exact integers, and a NaN input is not modelled.
- Codec.EncodeF64AsType: the value is an integer. The f32/f64 bit patterns of the clamped value are parameters, because rounding is not modelled.
- Codec.ParseReadResponse: the expected count is accepted and ignored, as in the source.
- `utils::read_mixed_registers` and `utils::batch_write_registers`: they are thin loops over the single reads and writes already modelled.
- Batcher.CommandBatcher.AreStrictlyConsecutive: the expected address is an unbounded integer. The source's u16 `+=` could overflow, which panics in a debug build. Wrapping could never turn a mismatch into a match, because the addresses are u16 and the walk fails at the first mismatch.
- Pdu.ModbusPdu.PushU16: at 252 bytes the high byte stays in the buffer when the push fails. The model does what the code does. A description of the buffer as atomic would not match it.
- Bytes.LowerString: the codec matches tags after `str::to_lowercase`, which is Unicode lower-casing; the model lower-cases ASCII letters only. The answers agree, because only two non-ASCII characters lower-case to ASCII: KELVIN SIGN becomes 'k', which no tag contains, and capital I with dot above becomes 'i' followed by a combining dot, which no tag contains either. Any other non-ASCII character stays non-ASCII in both forms and matches no tag.
- Limits.DeviceLimits.ReadRequestCount: a non-zero total with a zero read maximum divides by zero in `div_ceil` and panics. The requires clause excludes that case rather than modelling the panic.
- Limits.DeviceLimits.WriteRequestCount: the same divide-by-zero panic with a zero write maximum is excluded by the requires clause.
- Client.BatchRun: the batch loop stops on a chunk whose quantity check fails. With a limit of 0 the first chunk reads 0 items, so the batch fails with a quantity error instead of looping forever.

## Findings

| source | as written | input that shows it | evidently intended | confidence | as-written member | corrected member |
|---|---|---|---|---|---|---|
| src/batcher.rs:161-180 | `are_strictly_consecutive` sorts only by address. The sort is stable, so commands sharing an address stay in input order. A zero-span `bool` command at the same address as a `uint16` then passes or fails the walk depending on which comes first. | a uint16 write and a bool write, both at address 100: [uint16, bool] gives false; [bool, uint16] gives true | the answer depends only on which commands there are (the doc comment and the out-of-order test treat the result as a property of the set) | not executed | Batcher.ConsecutiveAsWrittenDependsOnOrder | Batcher.ConsecutiveCorrectedIgnoresOrder |
