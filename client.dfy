/**
 * The client layer: quantity validation and payloads of the single requests,
 * the chunking loops of the batch reads, and the register/u32 conversions of
 * `utils`.
 *
 * The transport is the queue-backed mock transport: it records every request
 * it is given and answers each with the next canned response, or with a
 * connection error once the queue is empty. A response is represented by what
 * the protocol layer's `parse_bits` and `parse_registers` make of it, since
 * that layer is not part of this model.
 */
module Client {
  import opened Words
  import opened Errors
  import Constants
  import Limits
  import Pdu

  /** `ModbusRequest`: who is asked, for what, and the payload bytes (without the byte count). */
  datatype ModbusRequest = ModbusRequest(
    slaveId: uint8,
    functionCode: uint8,
    address: uint16,
    quantity: uint16,
    data: seq<uint8>)

  /** A response, seen through the two parsers the client applies to it. */
  datatype ModbusResponse = ModbusResponse(
    bits: Result<seq<bool>>,
    registers: Result<seq<uint16>>)

  type Queue = seq<Result<ModbusResponse>>

  /** The answer to the next request: the head of the queue, or a connection error. */
  function NextResponse(queue: Queue): (r: Result<ModbusResponse>)
    ensures queue == [] ==> r == Err(Connection)
    ensures queue != [] ==> r == queue[0]
  {
    if queue == [] then Err(Connection) else queue[0]
  }

  /** The queue once the next request has been answered. */
  function Rest(queue: Queue): (rest: Queue)
    ensures queue == [] ==> rest == []
    ensures queue != [] ==> queue == [queue[0]] + rest
  {
    if queue == [] then [] else queue[1..]
  }

  /** The queue once n requests have been answered. */
  function Drop(queue: Queue, n: nat): (rest: Queue)
    ensures |rest| == if n <= |queue| then |queue| - n else 0
  {
    if n == 0 then queue else Drop(Rest(queue), n - 1)
  }

  /** The mock transport of the client tests: a request log and a FIFO of canned responses. */
  class MockTransport {
    var requests: seq<ModbusRequest>
    var responses: Queue
    var connected: bool

    constructor()
      ensures requests == [] && responses == [] && connected
    {
      requests := [];
      responses := [];
      connected := true;
    }

    /** `add_response`: queue one more answer. */
    method AddResponse(response: Result<ModbusResponse>)
      modifies this
      ensures responses == old(responses) + [response]
      ensures requests == old(requests) && connected == old(connected)
    {
      responses := responses + [response];
    }

    /** `request`: log the request, then answer with the head of the queue. */
    method Request(request: ModbusRequest) returns (r: Result<ModbusResponse>)
      modifies this
      ensures requests == old(requests) + [request]
      ensures r == NextResponse(old(responses)) && responses == Rest(old(responses))
      ensures connected == old(connected)
    {
      requests := requests + [request];
      r := NextResponse(responses);
      responses := Rest(responses);
    }

    /** `close`: only the connection flag changes. */
    method Close()
      modifies this
      ensures !connected && requests == old(requests) && responses == old(responses)
    {
      connected := false;
    }
  }

  // ---------------------------------------------------------------------------
  // Reading one chunk
  // ---------------------------------------------------------------------------

  /** A read request carries no payload. */
  function ReadRequest(slaveId: uint8, fc: uint8, address: uint16, quantity: uint16): (request: ModbusRequest)
    ensures request.functionCode == fc && request.address == address && request.quantity == quantity
    ensures request.slaveId == slaveId && request.data == []
  {
    ModbusRequest(slaveId, fc, address, quantity, [])
  }

  /** `read_01`/`read_02` after the request: the parsed bits, cut to the quantity asked for. */
  function ChunkBits(quantity: uint16, response: Result<ModbusResponse>): (r: Result<seq<bool>>)
    ensures r.Ok? <==> response.Ok? && response.value.bits.Ok?
    ensures r.Ok? ==> r.value == response.value.bits.value[..Min(quantity, |response.value.bits.value|)]
    ensures r.Err? && response.Err? ==> r.error == response.error
  {
    match response
    case Err(e) => Err(e)
    case Ok(reply) =>
      match reply.bits
      case Err(e) => Err(e)
      case Ok(bits) => Ok(if quantity <= |bits| then bits[..quantity] else bits)
  }

  /** `read_03`/`read_04` after the request: the parsed registers, as they are. */
  function ChunkRegisters(quantity: uint16, response: Result<ModbusResponse>): (r: Result<seq<uint16>>)
    ensures r.Ok? <==> response.Ok? && response.value.registers.Ok?
    ensures r.Ok? ==> r.value == response.value.registers.value
    ensures r.Err? && response.Err? ==> r.error == response.error
  {
    match response
    case Err(e) => Err(e)
    case Ok(reply) => reply.registers
  }

  /** The per-request quantity check of `read_0X`, `write_0f` and `write_10`. */
  predicate QuantityValid(quantity: nat, cap: nat)
  {
    0 < quantity <= cap
  }

  /** How one batch read is carried out: by whom, with which function, cap and chunk size. */
  datatype ReadPlan = ReadPlan(slaveId: uint8, fc: uint8, cap: nat, limit: uint16, delayMs: uint64)

  /** The plan of `read_0X_batch` for a function code and a device's limits. */
  function BatchPlan(slaveId: uint8, fc: uint8, limits: Limits.DeviceLimits): (p: ReadPlan)
    requires 1 <= fc <= 4
    ensures p.slaveId == slaveId && p.fc == fc && p.delayMs == limits.interRequestDelayMs
    ensures fc <= 2 ==> p.cap == Constants.MaxReadCoils && p.limit == limits.maxReadCoils
    ensures fc >= 3 ==> p.cap == Constants.MaxReadRegisters && p.limit == limits.maxReadRegisters
  {
    if fc <= 2 then ReadPlan(slaveId, fc, Constants.MaxReadCoils, limits.maxReadCoils, limits.interRequestDelayMs)
    else ReadPlan(slaveId, fc, Constants.MaxReadRegisters, limits.maxReadRegisters, limits.interRequestDelayMs)
  }

  // ---------------------------------------------------------------------------
  // The batch loop, as a function of the plan and the response queue
  // ---------------------------------------------------------------------------

  /** What a batch read does: its result, the requests it sends and the pauses it takes. */
  datatype Run<T> = Run(result: Result<seq<T>>, requests: seq<ModbusRequest>, sleeps: nat)

  function Prepend<T>(values: seq<T>, r: Result<seq<T>>): Result<seq<T>>
  {
    match r
    case Ok(rest) => Ok(values + rest)
    case Err(e) => Err(e)
  }

  /** The chunk read next: what is left, but no more than the limit. */
  function ChunkSize(remaining: uint16, limit: uint16): (count: uint16)
    ensures count <= remaining && count <= limit && (count == remaining || count == limit)
  {
    if remaining <= limit then remaining else limit
  }

  /**
   * The `while remaining > 0` loop of `read_0X_batch`: read a chunk, append it,
   * advance the address with saturation, pause between chunks; the first
   * failure ends the batch.
   */
  function BatchRun<T>(p: ReadPlan, chunk: (uint16, Result<ModbusResponse>) -> Result<seq<T>>,
                       address: uint16, remaining: uint16, queue: Queue): (run: Run<T>)
    decreases remaining
  {
    if remaining == 0 then Run(Ok([]), [], 0)
    else
      var count := ChunkSize(remaining, p.limit);
      if !QuantityValid(count, p.cap) then Run(Err(InvalidData(InvalidQuantity)), [], 0)
      else
        var request := ReadRequest(p.slaveId, p.fc, address, count);
        match chunk(count, NextResponse(queue))
        case Err(e) => Run(Err(e), [request], 0)
        case Ok(values) =>
          var rest := BatchRun(p, chunk, SatAdd16(address, count), remaining - count, Rest(queue));
          var pause := if p.delayMs > 0 && remaining - count > 0 then 1 else 0;
          Run(Prepend(values, rest.result), [request] + rest.requests, pause + rest.sleeps)
  }

  /** Where a batch read started: its whole run, and the transport and pause log it began with. */
  datatype BatchStart<T> = BatchStart(target: Run<T>, queue: Queue, requests: seq<ModbusRequest>, sleeps: seq<uint64>)

  /** A run that continues after values, requests and pauses already accumulated. */
  function Continue<T>(acc: seq<T>, issued: seq<ModbusRequest>, paused: nat, run: Run<T>): Run<T>
  {
    Run(Prepend(acc, run.result), issued + run.requests, paused + run.sleeps)
  }

  lemma ContinueStep<T>(acc: seq<T>, issued: seq<ModbusRequest>, paused: nat,
                        values: seq<T>, request: ModbusRequest, pause: nat, rest: Run<T>)
    ensures Continue(acc, issued, paused, Run(Prepend(values, rest.result), [request] + rest.requests, pause + rest.sleeps))
         == Continue(acc + values, issued + [request], paused + pause, rest)
  {
    assert issued + ([request] + rest.requests) == issued + [request] + rest.requests;
    if rest.result.Ok? {
      assert acc + (values + rest.result.value) == acc + values + rest.result.value;
    }
  }

  /** n pauses of ms milliseconds each. */
  function Repeat(ms: uint64, n: nat): (s: seq<uint64>)
    ensures |s| == n
  {
    if n == 0 then [] else Repeat(ms, n - 1) + [ms]
  }

  // ---------------------------------------------------------------------------
  // The client
  // ---------------------------------------------------------------------------

  /** `GenericModbusClient` over the mock transport; `sleeps` records each pause, in milliseconds. */
  class GenericClient {
    const transport: MockTransport
    var sleeps: seq<uint64>

    constructor(transport: MockTransport)
      ensures this.transport == transport && sleeps == []
    {
      this.transport := transport;
      sleeps := [];
    }

    /** `execute_request`: hand the request to the transport (the logger is not modelled). */
    method ExecuteRequest(request: ModbusRequest) returns (r: Result<ModbusResponse>)
      modifies transport
      ensures transport.requests == old(transport.requests) + [request]
      ensures r == NextResponse(old(transport.responses)) && transport.responses == Rest(old(transport.responses))
      ensures transport.connected == old(transport.connected)
    {
      r := transport.Request(request);
    }

    /**
     * `read_01` .. `read_04`: refuse a quantity of 0 or above the function's cap
     * without sending anything; otherwise send the request and parse the answer.
     */
    method Read<T>(p: ReadPlan, chunk: (uint16, Result<ModbusResponse>) -> Result<seq<T>>,
                   address: uint16, quantity: uint16) returns (r: Result<seq<T>>)
      modifies transport
      ensures !QuantityValid(quantity, p.cap) ==>
                r == Err(InvalidData(InvalidQuantity)) && unchanged(transport)
      ensures QuantityValid(quantity, p.cap) ==>
                && r == chunk(quantity, NextResponse(old(transport.responses)))
                && transport.requests == old(transport.requests) + [ReadRequest(p.slaveId, p.fc, address, quantity)]
                && transport.responses == Rest(old(transport.responses))
                && transport.connected == old(transport.connected)
    {
      if quantity == 0 || quantity as nat > p.cap {
        return Err(InvalidData(InvalidQuantity));
      }
      var response := ExecuteRequest(ReadRequest(p.slaveId, p.fc, address, quantity));
      r := chunk(quantity, response);
    }

    /** `read_0X_batch`: the chunking loop, proved to do what `BatchRun` describes. */
    method ReadBatch<T>(p: ReadPlan, chunk: (uint16, Result<ModbusResponse>) -> Result<seq<T>>,
                        address: uint16, quantity: uint16) returns (r: Result<seq<T>>)
      modifies this, transport
      ensures var run := BatchRun(p, chunk, address, quantity, old(transport.responses));
              && r == run.result
              && transport.requests == old(transport.requests) + run.requests
              && transport.responses == Drop(old(transport.responses), |run.requests|)
              && sleeps == old(sleeps) + Repeat(p.delayMs, run.sleeps)
              && transport.connected == old(transport.connected)
    {
      if quantity == 0 {
        return Ok([]);
      }
      ghost var start := BatchStart(BatchRun(p, chunk, address, quantity, transport.responses),
                                    transport.responses, transport.requests, sleeps);
      ghost var issued: seq<ModbusRequest> := [];
      ghost var paused: nat := 0;
      var result: seq<T> := [];
      var current := address;
      var remaining := quantity;
      TracksFromStart(start, p, chunk, address, quantity);
      while remaining > 0
        invariant Tracks(start, p, chunk, result, issued, paused, current, remaining)
        invariant transport.connected == old(transport.connected)
        decreases remaining
      {
        var count := ChunkSize(remaining, p.limit);
        var got;
        got, issued, paused := ReadStep(start, p, chunk, result, issued, paused, current, remaining);
        if got.Err? {
          return Err(got.error);
        }
        result := result + got.value;
        current := SatAdd16(current, count);
        remaining := remaining - count;
      }
      TracksToEnd(start, p, chunk, result, issued, paused, current);
      return Ok(result);
    }

    /** The loop invariant of `ReadBatch`: what is done, followed by what is left, is the whole run. */
    ghost predicate Tracks<T>(start: BatchStart<T>, p: ReadPlan, chunk: (uint16, Result<ModbusResponse>) -> Result<seq<T>>,
                              result: seq<T>, issued: seq<ModbusRequest>, paused: nat,
                              current: uint16, remaining: uint16)
      reads this, transport
    {
      && transport.requests == start.requests + issued
      && transport.responses == Drop(start.queue, |issued|)
      && sleeps == start.sleeps + Repeat(p.delayMs, paused)
      && start.target == Continue(result, issued, paused, BatchRun(p, chunk, current, remaining, transport.responses))
    }

    /** What `ReadBatch` promises, once the run has ended. */
    ghost predicate Finished<T>(start: BatchStart<T>, p: ReadPlan, r: Result<seq<T>>,
                                issued: seq<ModbusRequest>, paused: nat)
      reads this, transport
    {
      && start.target == Run(r, issued, paused)
      && transport.requests == start.requests + issued
      && transport.responses == Drop(start.queue, |issued|)
      && sleeps == start.sleeps + Repeat(p.delayMs, paused)
    }

    lemma TracksFromStart<T>(start: BatchStart<T>, p: ReadPlan, chunk: (uint16, Result<ModbusResponse>) -> Result<seq<T>>,
                             address: uint16, quantity: uint16)
      requires start == BatchStart(BatchRun(p, chunk, address, quantity, transport.responses),
                                   transport.responses, transport.requests, sleeps)
      ensures Tracks(start, p, chunk, [], [], 0, address, quantity)
    {
      ContinueNothing(start.target);
      assert start.requests + [] == start.requests;
      assert start.sleeps + [] == start.sleeps;
    }

    lemma TracksToEnd<T>(start: BatchStart<T>, p: ReadPlan, chunk: (uint16, Result<ModbusResponse>) -> Result<seq<T>>,
                         result: seq<T>, issued: seq<ModbusRequest>, paused: nat, current: uint16)
      requires Tracks(start, p, chunk, result, issued, paused, current, 0)
      ensures Finished(start, p, Ok(result), issued, paused)
    {
      ContinueDone(result, issued, paused);
    }

    /**
     * One pass of the batch loop: read the next chunk, then pause when more is
     * left and a delay is set. The ghost parameters carry the loop invariant.
     */
    method ReadStep<T>(ghost start: BatchStart<T>, p: ReadPlan, chunk: (uint16, Result<ModbusResponse>) -> Result<seq<T>>,
                       result: seq<T>, ghost issued: seq<ModbusRequest>, ghost paused: nat,
                       current: uint16, remaining: uint16)
      returns (got: Result<seq<T>>, ghost issued': seq<ModbusRequest>, ghost paused': nat)
      requires remaining > 0 && Tracks(start, p, chunk, result, issued, paused, current, remaining)
      modifies this, transport
      ensures transport.connected == old(transport.connected)
      ensures got.Err? ==> Finished(start, p, got, issued', paused')
      ensures got.Ok? ==> var count := ChunkSize(remaining, p.limit);
                          count > 0 && Tracks(start, p, chunk, result + got.value, issued', paused',
                                              SatAdd16(current, count), remaining - count)
    {
      var count := ChunkSize(remaining, p.limit);
      got, issued' := ReadNext(start.target, start.queue, start.requests, p, chunk, result, issued, paused, current, remaining);
      paused' := paused;
      if got.Ok? && p.delayMs > 0 && remaining - count > 0 {
        PauseOnce(start.sleeps, p.delayMs, paused);
        Sleep(p.delayMs);
        paused' := paused + 1;
      }
    }

    /** The read of one pass, with what it does to the transport and to the run still ahead. */
    method ReadNext<T>(ghost target: Run<T>, ghost queue0: Queue, ghost requests0: seq<ModbusRequest>,
                       p: ReadPlan, chunk: (uint16, Result<ModbusResponse>) -> Result<seq<T>>,
                       result: seq<T>, ghost issued: seq<ModbusRequest>, ghost paused: nat,
                       current: uint16, remaining: uint16)
      returns (got: Result<seq<T>>, ghost issued': seq<ModbusRequest>)
      requires remaining > 0
      requires transport.requests == requests0 + issued && transport.responses == Drop(queue0, |issued|)
      requires target == Continue(result, issued, paused, BatchRun(p, chunk, current, remaining, transport.responses))
      modifies transport
      ensures transport.connected == old(transport.connected)
      ensures transport.requests == requests0 + issued' && transport.responses == Drop(queue0, |issued'|)
      ensures got.Err? ==> target == Run(got, issued', paused)
      ensures got.Ok? ==> var count := ChunkSize(remaining, p.limit);
                          var pause := if p.delayMs > 0 && remaining - count > 0 then 1 else 0;
                          count > 0 && target == Continue(result + got.value, issued', paused + pause,
                                                          BatchRun(p, chunk, SatAdd16(current, count), remaining - count, transport.responses))
    {
      var count := ChunkSize(remaining, p.limit);
      ghost var queue := transport.responses;
      got := Read(p, chunk, current, count);
      DropRest(queue0, |issued|);
      if got.Err? {
        LoopFail(target, p, chunk, result, issued, paused, current, remaining, queue, got);
        issued' := target.requests;
        if QuantityValid(count, p.cap) {
          SnocAssoc(requests0, issued, ReadRequest(p.slaveId, p.fc, current, count));
        }
      } else {
        LoopStep(target, p, chunk, result, issued, paused, current, remaining, queue, got.value);
        issued' := issued + [ReadRequest(p.slaveId, p.fc, current, count)];
        SnocAssoc(requests0, issued, ReadRequest(p.slaveId, p.fc, current, count));
      }
    }

    /** `tokio::time::sleep`: the pause is recorded, nothing else changes. */
    method Sleep(ms: uint64)
      modifies this
      ensures sleeps == old(sleeps) + [ms]
    {
      sleeps := sleeps + [ms];
    }

    /** `read_01_batch` / `read_02_batch`. */
    method ReadBitsBatch(slaveId: uint8, fc: uint8, address: uint16, quantity: uint16,
                         limits: Limits.DeviceLimits) returns (r: Result<seq<bool>>)
      requires fc == Constants.FcReadCoils || fc == Constants.FcReadDiscreteInputs
      modifies this, transport
      ensures var run := BatchRun(BatchPlan(slaveId, fc, limits), ChunkBits, address, quantity, old(transport.responses));
              && r == run.result
              && transport.requests == old(transport.requests) + run.requests
              && transport.responses == Drop(old(transport.responses), |run.requests|)
              && sleeps == old(sleeps) + Repeat(limits.interRequestDelayMs, run.sleeps)
    {
      r := ReadBatch(BatchPlan(slaveId, fc, limits), ChunkBits, address, quantity);
    }

    /** `read_03_batch` / `read_04_batch`. */
    method ReadRegistersBatch(slaveId: uint8, fc: uint8, address: uint16, quantity: uint16,
                              limits: Limits.DeviceLimits) returns (r: Result<seq<uint16>>)
      requires fc == Constants.FcReadHoldingRegisters || fc == Constants.FcReadInputRegisters
      modifies this, transport
      ensures var run := BatchRun(BatchPlan(slaveId, fc, limits), ChunkRegisters, address, quantity, old(transport.responses));
              && r == run.result
              && transport.requests == old(transport.requests) + run.requests
              && transport.responses == Drop(old(transport.responses), |run.requests|)
              && sleeps == old(sleeps) + Repeat(limits.interRequestDelayMs, run.sleeps)
    {
      r := ReadBatch(BatchPlan(slaveId, fc, limits), ChunkRegisters, address, quantity);
    }

    /** `write_05`: one coil, sent as FF 00 (on) or 00 00 (off). */
    method WriteSingleCoil(slaveId: uint8, address: uint16, value: bool) returns (r: Outcome)
      modifies transport
      ensures transport.requests == old(transport.requests) + [SingleCoilRequest(slaveId, address, value)]
      ensures r == Acknowledged(NextResponse(old(transport.responses)))
      ensures transport.responses == Rest(old(transport.responses)) && transport.connected == old(transport.connected)
    {
      var data: seq<uint8> := if value then [0xFF, 0x00] else [0x00, 0x00];
      var response := ExecuteRequest(ModbusRequest(slaveId, Constants.FcWriteSingleCoil, address, 1, data));
      r := if response.Ok? then Pass else Fail(response.error);
    }

    /** `write_06`: one register, sent big-endian. */
    method WriteSingleRegister(slaveId: uint8, address: uint16, value: uint16) returns (r: Outcome)
      modifies transport
      ensures transport.requests == old(transport.requests) + [SingleRegisterRequest(slaveId, address, value)]
      ensures r == Acknowledged(NextResponse(old(transport.responses)))
      ensures transport.responses == Rest(old(transport.responses)) && transport.connected == old(transport.connected)
    {
      var response := ExecuteRequest(ModbusRequest(slaveId, Constants.FcWriteSingleRegister, address, 1, [Hi(value), Lo(value)]));
      r := if response.Ok? then Pass else Fail(response.error);
    }

    /** `write_0f`: 1 to 1968 coils, packed eight to a byte; anything else is refused unsent. */
    method WriteMultipleCoils(slaveId: uint8, address: uint16, values: seq<bool>) returns (r: Outcome)
      modifies transport
      ensures !QuantityValid(|values|, Constants.MaxWriteCoils) ==>
                r == Fail(InvalidData(InvalidQuantity)) && unchanged(transport)
      ensures QuantityValid(|values|, Constants.MaxWriteCoils) ==>
                && transport.requests == old(transport.requests) + [MultipleCoilsRequest(slaveId, address, values)]
                && r == Acknowledged(NextResponse(old(transport.responses)))
                && transport.responses == Rest(old(transport.responses)) && transport.connected == old(transport.connected)
    {
      if |values| == 0 || |values| > 1968 {
        return Fail(InvalidData(InvalidQuantity));
      }
      var data := PackCoilChunks(values);
      var response := ExecuteRequest(ModbusRequest(slaveId, Constants.FcWriteMultipleCoils, address, |values| as uint16, data));
      r := if response.Ok? then Pass else Fail(response.error);
    }

    /** `write_10`: 1 to 123 registers, each sent big-endian; anything else is refused unsent. */
    method WriteMultipleRegisters(slaveId: uint8, address: uint16, values: seq<uint16>) returns (r: Outcome)
      modifies transport
      ensures !QuantityValid(|values|, Constants.MaxWriteRegisters) ==>
                r == Fail(InvalidData(InvalidQuantity)) && unchanged(transport)
      ensures QuantityValid(|values|, Constants.MaxWriteRegisters) ==>
                && transport.requests == old(transport.requests) + [MultipleRegistersRequest(slaveId, address, values)]
                && r == Acknowledged(NextResponse(old(transport.responses)))
                && transport.responses == Rest(old(transport.responses)) && transport.connected == old(transport.connected)
    {
      if |values| == 0 || |values| > 123 {
        return Fail(InvalidData(InvalidQuantity));
      }
      var data := RegisterPayload(values);
      var response := ExecuteRequest(ModbusRequest(slaveId, Constants.FcWriteMultipleRegisters, address, |values| as uint16, data));
      r := if response.Ok? then Pass else Fail(response.error);
    }
  }

  lemma ContinueNothing<T>(run: Run<T>)
    ensures Continue([], [], 0, run) == run
  {
    assert [] + run.requests == run.requests;
    if run.result.Ok? {
      assert [] + run.result.value == run.result.value;
    }
  }

  lemma ContinueDone<T>(acc: seq<T>, issued: seq<ModbusRequest>, paused: nat)
    ensures Continue(acc, issued, paused, Run(Ok([]), [], 0)) == Run(Ok(acc), issued, paused)
  {
    assert acc + [] == acc;
    assert issued + [] == issued;
  }

  /** One successful chunk of the batch loop. */
  lemma BatchRunStep<T>(p: ReadPlan, chunk: (uint16, Result<ModbusResponse>) -> Result<seq<T>>,
                        address: uint16, remaining: uint16, queue: Queue, values: seq<T>)
    requires remaining > 0 && QuantityValid(ChunkSize(remaining, p.limit), p.cap)
    requires chunk(ChunkSize(remaining, p.limit), NextResponse(queue)) == Ok(values)
    ensures var count := ChunkSize(remaining, p.limit);
            var rest := BatchRun(p, chunk, SatAdd16(address, count), remaining - count, Rest(queue));
            var pause := if p.delayMs > 0 && remaining - count > 0 then 1 else 0;
            BatchRun(p, chunk, address, remaining, queue)
              == Run(Prepend(values, rest.result), [ReadRequest(p.slaveId, p.fc, address, count)] + rest.requests, pause + rest.sleeps)
  {
  }

  /** The loop invariant survives a chunk that was read. */
  lemma LoopStep<T>(target: Run<T>, p: ReadPlan, chunk: (uint16, Result<ModbusResponse>) -> Result<seq<T>>,
                    result: seq<T>, issued: seq<ModbusRequest>, paused: nat,
                    address: uint16, remaining: uint16, queue: Queue, values: seq<T>)
    requires target == Continue(result, issued, paused, BatchRun(p, chunk, address, remaining, queue))
    requires remaining > 0 && QuantityValid(ChunkSize(remaining, p.limit), p.cap)
    requires chunk(ChunkSize(remaining, p.limit), NextResponse(queue)) == Ok(values)
    ensures var count := ChunkSize(remaining, p.limit);
            var pause := if p.delayMs > 0 && remaining - count > 0 then 1 else 0;
            target == Continue(result + values, issued + [ReadRequest(p.slaveId, p.fc, address, count)], paused + pause,
                               BatchRun(p, chunk, SatAdd16(address, count), remaining - count, Rest(queue)))
  {
    var count := ChunkSize(remaining, p.limit);
    var pause := if p.delayMs > 0 && remaining - count > 0 then 1 else 0;
    BatchRunStep(p, chunk, address, remaining, queue, values);
    ContinueStep(result, issued, paused, values, ReadRequest(p.slaveId, p.fc, address, count), pause,
                 BatchRun(p, chunk, SatAdd16(address, count), remaining - count, Rest(queue)));
  }

  /** A chunk that fails ends the run with its error. */
  lemma LoopFail<T>(target: Run<T>, p: ReadPlan, chunk: (uint16, Result<ModbusResponse>) -> Result<seq<T>>,
                    result: seq<T>, issued: seq<ModbusRequest>, paused: nat,
                    address: uint16, remaining: uint16, queue: Queue, got: Result<seq<T>>)
    requires target == Continue(result, issued, paused, BatchRun(p, chunk, address, remaining, queue))
    requires remaining > 0 && got.Err?
    requires var count := ChunkSize(remaining, p.limit);
             if QuantityValid(count, p.cap) then got == chunk(count, NextResponse(queue))
             else got == Err(InvalidData(InvalidQuantity))
    ensures var count := ChunkSize(remaining, p.limit);
            && target.result == got
            && target.sleeps == paused
            && target.requests == issued + (if QuantityValid(count, p.cap) then [ReadRequest(p.slaveId, p.fc, address, count)] else [])
  {
    if !QuantityValid(ChunkSize(remaining, p.limit), p.cap) {
      assert issued + [] == issued;
    }
  }

  lemma PauseOnce(before: seq<uint64>, ms: uint64, n: nat)
    ensures before + Repeat(ms, n) + [ms] == before + Repeat(ms, n + 1)
  {
    assert Repeat(ms, n + 1) == Repeat(ms, n) + [ms];
  }

  lemma SnocAssoc<T>(a: seq<T>, b: seq<T>, x: T)
    ensures (a + b) + [x] == a + (b + [x])
  {
  }

  lemma {:induction false} DropRest(queue: Queue, n: nat)
    ensures Drop(queue, n + 1) == Rest(Drop(queue, n))
  {
    if n > 0 {
      DropRest(Rest(queue), n - 1);
    }
  }

  // ---------------------------------------------------------------------------
  // What a batch read does, for every plan and every response queue
  // ---------------------------------------------------------------------------

  lemma MulCancel(a: int, b: int, d: int)
    requires d > 0 && a * d < b * d
    ensures a < b
  {
  }

  /** One more full chunk is one more request. */
  lemma DivCeilStep(n: nat, d: nat)
    requires 0 < d < n
    ensures DivCeil(n, d) == DivCeil(n - d, d) + 1
  {
    var q, q' := DivCeil(n, d), DivCeil(n - d, d);
    assert (q' + 1) * d == q' * d + d;
    assert (q - 1) * d < (q' + 1) * d;
    MulCancel(q - 1, q' + 1, d);
    if q' > 0 {
      assert (q' - 1) * d + d == q' * d;
      assert q' * d < q * d;
      MulCancel(q', q, d);
    }
  }

  /** Once the first chunk passes the quantity check, every later one does. */
  lemma LaterChunkValid(p: ReadPlan, remaining: uint16)
    requires remaining > 0 && QuantityValid(ChunkSize(remaining, p.limit), p.cap)
    requires remaining - ChunkSize(remaining, p.limit) > 0
    ensures QuantityValid(ChunkSize(remaining - ChunkSize(remaining, p.limit), p.limit), p.cap)
  {
  }

  /**
   * Request k of a batch reads min(limit, remaining - k * limit) items at
   * start + k * limit, saturated at 65535: the address never wraps around, and
   * each request starts inside the range still to be read.
   */
  lemma BatchRunRequest<T>(p: ReadPlan, chunk: (uint16, Result<ModbusResponse>) -> Result<seq<T>>,
                           address: uint16, remaining: uint16, queue: Queue, k: nat)
    requires k < |BatchRun(p, chunk, address, remaining, queue).requests|
    ensures var request := BatchRun(p, chunk, address, remaining, queue).requests[k];
            && k * p.limit < remaining
            && request.address == Min(address + k * p.limit, U16Max)
            && request.quantity == Min(p.limit, remaining - k * p.limit)
            && request.slaveId == p.slaveId && request.functionCode == p.fc && request.data == []
  {
    RunIsChunked(p, chunk, address, remaining, queue);
    ChunkedRequest(BatchRun(p, chunk, address, remaining, queue).requests, p, address, remaining, k);
  }

  /**
   * The shape of a run's requests alone: each reads the next chunk, and only
   * a full chunk with more left is followed by another.
   */
  ghost predicate Chunked(requests: seq<ModbusRequest>, p: ReadPlan, address: uint16, remaining: uint16)
    decreases |requests|
  {
    requests != [] ==>
      var count := ChunkSize(remaining, p.limit);
      && remaining > 0
      && requests[0] == ReadRequest(p.slaveId, p.fc, address, count)
      && (|requests| > 1 ==>
            && count == p.limit && remaining - count > 0
            && Chunked(requests[1..], p, SatAdd16(address, count), remaining - count))
  }

  lemma {:induction false} RunIsChunked<T>(p: ReadPlan, chunk: (uint16, Result<ModbusResponse>) -> Result<seq<T>>,
                                           address: uint16, remaining: uint16, queue: Queue)
    ensures Chunked(BatchRun(p, chunk, address, remaining, queue).requests, p, address, remaining)
    decreases remaining
  {
    var requests := BatchRun(p, chunk, address, remaining, queue).requests;
    if requests != [] {
      RunRequestsShape(p, chunk, address, remaining, queue);
      if |requests| > 1 {
        var count := ChunkSize(remaining, p.limit);
        RunIsChunked(p, chunk, SatAdd16(address, count), remaining - count, Rest(queue));
      }
    }
  }

  lemma {:induction false} ChunkedRequest(requests: seq<ModbusRequest>, p: ReadPlan, address: uint16, remaining: uint16, k: nat)
    requires Chunked(requests, p, address, remaining) && k < |requests|
    ensures && k * p.limit < remaining
            && requests[k].address == Min(address + k * p.limit, U16Max)
            && requests[k].quantity == Min(p.limit, remaining - k * p.limit)
            && requests[k].slaveId == p.slaveId && requests[k].functionCode == p.fc && requests[k].data == []
    decreases k
  {
    var count := ChunkSize(remaining, p.limit);
    if k > 0 {
      var next := SatAdd16(address, count);
      assert requests[k] == requests[1..][k - 1];
      ChunkedRequest(requests[1..], p, next, remaining - count, k - 1);
      ChunkShift(p.limit, k, address, remaining, count);
    }
  }

  /** The arithmetic of one step of `ChunkedRequest`: request k - 1 after the first is request k. */
  lemma ChunkShift(limit: uint16, k: nat, address: uint16, remaining: uint16, count: uint16)
    requires k > 0 && count == limit && count < remaining
    requires (k - 1) * limit < remaining - count
    ensures k * limit < remaining
    ensures Min(SatAdd16(address, count) + (k - 1) * limit, U16Max) == Min(address + k * limit, U16Max)
    ensures Min(limit, remaining - count - (k - 1) * limit) == Min(limit, remaining - k * limit)
  {
    NatProduct(k - 1, limit);
    var m: nat := (k - 1) * limit;
    assert k * limit == m + limit;
    SaturatedShift(address, count, m);
  }

  /** The first request of a run, and how the later ones continue from the next address. */
  lemma RunRequestsShape<T>(p: ReadPlan, chunk: (uint16, Result<ModbusResponse>) -> Result<seq<T>>,
                            address: uint16, remaining: uint16, queue: Queue)
    requires BatchRun(p, chunk, address, remaining, queue).requests != []
    ensures var run := BatchRun(p, chunk, address, remaining, queue);
            var count := ChunkSize(remaining, p.limit);
            && remaining > 0 && QuantityValid(count, p.cap)
            && run.requests[0] == ReadRequest(p.slaveId, p.fc, address, count)
            && (|run.requests| > 1 ==>
                  && count == p.limit && remaining - count > 0
                  && run.requests[1..] == BatchRun(p, chunk, SatAdd16(address, count), remaining - count, Rest(queue)).requests)
  {
    var count := ChunkSize(remaining, p.limit);
    var head := chunk(count, NextResponse(queue));
    if head.Ok? {
      BatchRunStep(p, chunk, address, remaining, queue, head.value);
    }
  }

  lemma NatProduct(x: nat, y: nat)
    ensures x * y >= 0
  {
  }

  /** Saturating once and then adding is saturating the sum. */
  lemma SaturatedShift(address: uint16, count: uint16, m: nat)
    ensures Min(SatAdd16(address, count) + m, U16Max) == Min(address + count + m, U16Max)
  {
  }

  /** How many items the requests of a run ask for, together. */
  function TotalQuantity(requests: seq<ModbusRequest>): nat
  {
    if requests == [] then 0 else requests[0].quantity + TotalQuantity(requests[1..])
  }

  /**
   * A batch that succeeds asks, over all its requests, for exactly the
   * quantity it was given, in ceil(quantity / limit) requests.
   */
  lemma {:induction false} BatchRunCoversQuantity<T>(p: ReadPlan, chunk: (uint16, Result<ModbusResponse>) -> Result<seq<T>>,
                                                     address: uint16, remaining: uint16, queue: Queue)
    requires BatchRun(p, chunk, address, remaining, queue).result.Ok?
    ensures var run := BatchRun(p, chunk, address, remaining, queue);
            && TotalQuantity(run.requests) == remaining
            && (remaining > 0 ==> p.limit > 0 && |run.requests| == DivCeil(remaining, p.limit))
    decreases remaining
  {
    if remaining > 0 {
      var count := ChunkSize(remaining, p.limit);
      var values := chunk(count, NextResponse(queue)).value;
      BatchRunStep(p, chunk, address, remaining, queue, values);
      var run := BatchRun(p, chunk, address, remaining, queue);
      var rest := BatchRun(p, chunk, SatAdd16(address, count), remaining - count, Rest(queue));
      BatchRunCoversQuantity(p, chunk, SatAdd16(address, count), remaining - count, Rest(queue));
      assert run.requests[1..] == rest.requests;
      if remaining - count > 0 {
        DivCeilStep(remaining, p.limit);
      } else {
        Limits.OneRequestIffWithin(remaining, p.limit);
      }
    }
  }

  /** The pauses fall between requests: one fewer than the requests, and none without a delay. */
  lemma {:induction false} BatchRunSleeps<T>(p: ReadPlan, chunk: (uint16, Result<ModbusResponse>) -> Result<seq<T>>,
                                             address: uint16, remaining: uint16, queue: Queue)
    ensures var run := BatchRun(p, chunk, address, remaining, queue);
            run.sleeps == if p.delayMs > 0 && |run.requests| > 0 then |run.requests| - 1 else 0
    decreases remaining
  {
    var count := ChunkSize(remaining, p.limit);
    if remaining > 0 && QuantityValid(count, p.cap) && chunk(count, NextResponse(queue)).Ok? {
      var values := chunk(count, NextResponse(queue)).value;
      BatchRunStep(p, chunk, address, remaining, queue, values);
      var rest := BatchRun(p, chunk, SatAdd16(address, count), remaining - count, Rest(queue));
      BatchRunSleeps(p, chunk, SatAdd16(address, count), remaining - count, Rest(queue));
      if remaining - count > 0 {
        LaterChunkValid(p, remaining);
        RunIssuesFirstRequest(p, chunk, SatAdd16(address, count), remaining - count, Rest(queue));
      }
    }
  }

  /** A run whose first chunk passes the quantity check sends that chunk's request. */
  lemma RunIssuesFirstRequest<T>(p: ReadPlan, chunk: (uint16, Result<ModbusResponse>) -> Result<seq<T>>,
                                 address: uint16, remaining: uint16, queue: Queue)
    requires remaining > 0 && QuantityValid(ChunkSize(remaining, p.limit), p.cap)
    ensures BatchRun(p, chunk, address, remaining, queue).requests != []
  {
  }

  /** The result of chunk k, read from the k-th response of the queue. */
  function ChunkResult<T>(chunk: (uint16, Result<ModbusResponse>) -> Result<seq<T>>,
                          request: ModbusRequest, queue: Queue, k: nat): Result<seq<T>>
  {
    chunk(request.quantity, NextResponse(Drop(queue, k)))
  }

  /** Whether a read ended well, and the error it ended with if not. */
  function OutcomeOf<T>(r: Result<seq<T>>): (o: Outcome)
    ensures o.Pass? <==> r.Ok?
    ensures r.Err? ==> o.error == r.error
  {
    match r
    case Ok(_) => Pass
    case Err(e) => Fail(e)
  }

  /**
   * The chunks of `requests`, read in turn from `queue`: all succeed but the
   * last, which ends with `outcome`.
   */
  ghost predicate ReadUntil<T>(chunk: (uint16, Result<ModbusResponse>) -> Result<seq<T>>,
                               requests: seq<ModbusRequest>, queue: Queue, outcome: Outcome)
    decreases |requests|
  {
    requests != [] ==>
      var head := chunk(requests[0].quantity, NextResponse(queue));
      if |requests| == 1 then OutcomeOf(head) == outcome
      else head.Ok? && ReadUntil(chunk, requests[1..], Rest(queue), outcome)
  }

  /** `ReadUntil` request by request, with request k read from the k-th response. */
  lemma {:induction false} ReadUntilMeans<T>(chunk: (uint16, Result<ModbusResponse>) -> Result<seq<T>>,
                                             requests: seq<ModbusRequest>, queue: Queue, outcome: Outcome)
    requires ReadUntil(chunk, requests, queue, outcome)
    ensures forall k | 0 <= k < |requests| - 1 :: ChunkResult(chunk, requests[k], queue, k).Ok?
    ensures requests != [] ==> OutcomeOf(ChunkResult(chunk, requests[|requests| - 1], queue, |requests| - 1)) == outcome
    decreases |requests|
  {
    if |requests| > 1 {
      var later := requests[1..];
      ReadUntilMeans(chunk, later, Rest(queue), outcome);
      forall k | 1 <= k < |requests|
        ensures ChunkResult(chunk, requests[k], queue, k) == ChunkResult(chunk, later[k - 1], Rest(queue), k - 1)
      {
        assert requests[k] == later[k - 1];
      }
    }
  }

  /**
   * The first failure ends the batch: every request but the last one read
   * successfully, and a failed batch fails with the last request's error, or,
   * when it sent nothing, with the quantity check of its first chunk.
   */
  lemma BatchRunFirstError<T>(p: ReadPlan, chunk: (uint16, Result<ModbusResponse>) -> Result<seq<T>>,
                              address: uint16, remaining: uint16, queue: Queue)
    ensures var run := BatchRun(p, chunk, address, remaining, queue);
            && (forall k | 0 <= k < |run.requests| - 1 :: ChunkResult(chunk, run.requests[k], queue, k).Ok?)
            && (run.result.Ok? && run.requests != [] ==>
                  ChunkResult(chunk, run.requests[|run.requests| - 1], queue, |run.requests| - 1).Ok?)
            && (run.result.Err? && run.requests != [] ==>
                  ChunkResult(chunk, run.requests[|run.requests| - 1], queue, |run.requests| - 1) == run.result)
            && (run.result.Err? && run.requests == [] ==>
                  run.result == Err(InvalidData(InvalidQuantity)) && !QuantityValid(ChunkSize(remaining, p.limit), p.cap))
  {
    var run := BatchRun(p, chunk, address, remaining, queue);
    FirstErrorInduction(p, chunk, address, remaining, queue);
    ReadUntilMeans(chunk, run.requests, queue, OutcomeOf(run.result));
    if run.requests != [] {
      var last := ChunkResult(chunk, run.requests[|run.requests| - 1], queue, |run.requests| - 1);
      assert OutcomeOf(last) == OutcomeOf(run.result);
    }
  }

  /** What `BatchRunFirstError` states, as one predicate for its induction. */
  ghost predicate FirstErrorHolds<T>(p: ReadPlan, chunk: (uint16, Result<ModbusResponse>) -> Result<seq<T>>,
                                     address: uint16, remaining: uint16, queue: Queue)
  {
    var run := BatchRun(p, chunk, address, remaining, queue);
    && ReadUntil(chunk, run.requests, queue, OutcomeOf(run.result))
    && (run.result.Err? && run.requests == [] ==>
          run.result == Err(InvalidData(InvalidQuantity)) && !QuantityValid(ChunkSize(remaining, p.limit), p.cap))
  }

  lemma {:induction false} FirstErrorInduction<T>(p: ReadPlan, chunk: (uint16, Result<ModbusResponse>) -> Result<seq<T>>,
                                                  address: uint16, remaining: uint16, queue: Queue)
    ensures FirstErrorHolds(p, chunk, address, remaining, queue)
    decreases remaining
  {
    var count := ChunkSize(remaining, p.limit);
    if remaining > 0 && QuantityValid(count, p.cap) && chunk(count, NextResponse(queue)).Ok? {
      FirstErrorInduction(p, chunk, SatAdd16(address, count), remaining - count, Rest(queue));
      FirstErrorNext(p, chunk, address, remaining, queue);
    } else {
      FirstErrorEnd(p, chunk, address, remaining, queue);
    }
  }

  /** A run whose first chunk succeeds, given that the run after it stops at its first error. */
  lemma FirstErrorNext<T>(p: ReadPlan, chunk: (uint16, Result<ModbusResponse>) -> Result<seq<T>>,
                          address: uint16, remaining: uint16, queue: Queue)
    requires var count := ChunkSize(remaining, p.limit);
             remaining > 0 && QuantityValid(count, p.cap) && chunk(count, NextResponse(queue)).Ok?
    requires var count := ChunkSize(remaining, p.limit);
             FirstErrorHolds(p, chunk, SatAdd16(address, count), remaining - count, Rest(queue))
    ensures FirstErrorHolds(p, chunk, address, remaining, queue)
  {
    var count := ChunkSize(remaining, p.limit);
    var values := chunk(count, NextResponse(queue)).value;
    BatchRunStep(p, chunk, address, remaining, queue, values);
    var run := BatchRun(p, chunk, address, remaining, queue);
    var rest := BatchRun(p, chunk, SatAdd16(address, count), remaining - count, Rest(queue));
    if remaining - count > 0 {
      LaterChunkValid(p, remaining);
      RunIssuesFirstRequest(p, chunk, SatAdd16(address, count), remaining - count, Rest(queue));
    } else {
      assert rest == Run(Ok([]), [], 0);
    }
    assert run.requests[1..] == rest.requests;
    assert OutcomeOf(run.result) == OutcomeOf(rest.result);
  }

  /** A run that ends at once: nothing to read, a refused quantity, or a failed first chunk. */
  lemma FirstErrorEnd<T>(p: ReadPlan, chunk: (uint16, Result<ModbusResponse>) -> Result<seq<T>>,
                         address: uint16, remaining: uint16, queue: Queue)
    requires var count := ChunkSize(remaining, p.limit);
             !(remaining > 0 && QuantityValid(count, p.cap) && chunk(count, NextResponse(queue)).Ok?)
    ensures FirstErrorHolds(p, chunk, address, remaining, queue)
  {
    var count := ChunkSize(remaining, p.limit);
    var run := BatchRun(p, chunk, address, remaining, queue);
    if remaining > 0 && QuantityValid(count, p.cap) {
      var request := ReadRequest(p.slaveId, p.fc, address, count);
      assert run == Run(chunk(count, NextResponse(queue)), [request], 0);
    }
  }

  /** The values of the requests' chunks, concatenated in request order. */
  function Collected<T>(chunk: (uint16, Result<ModbusResponse>) -> Result<seq<T>>,
                        requests: seq<ModbusRequest>, queue: Queue): seq<T>
  {
    if requests == [] then []
    else
      var head := chunk(requests[0].quantity, NextResponse(queue));
      (if head.Ok? then head.value else []) + Collected(chunk, requests[1..], Rest(queue))
  }

  /** A successful batch returns the chunks it read, in the order it read them. */
  lemma {:induction false} BatchRunConcatenates<T>(p: ReadPlan, chunk: (uint16, Result<ModbusResponse>) -> Result<seq<T>>,
                                                   address: uint16, remaining: uint16, queue: Queue)
    requires BatchRun(p, chunk, address, remaining, queue).result.Ok?
    ensures var run := BatchRun(p, chunk, address, remaining, queue);
            run.result.value == Collected(chunk, run.requests, queue)
    decreases remaining
  {
    if remaining > 0 {
      var count := ChunkSize(remaining, p.limit);
      var values := chunk(count, NextResponse(queue)).value;
      BatchRunStep(p, chunk, address, remaining, queue, values);
      var run := BatchRun(p, chunk, address, remaining, queue);
      var rest := BatchRun(p, chunk, SatAdd16(address, count), remaining - count, Rest(queue));
      BatchRunConcatenates(p, chunk, SatAdd16(address, count), remaining - count, Rest(queue));
      CollectedStep(chunk, queue, ReadRequest(p.slaveId, p.fc, address, count), values, run.requests, rest.requests);
    } else {
      assert BatchRun(p, chunk, address, remaining, queue) == Run(Ok([]), [], 0);
    }
  }

  /** The chunks of one more request: its own values, then the rest. */
  lemma CollectedStep<T>(chunk: (uint16, Result<ModbusResponse>) -> Result<seq<T>>, queue: Queue,
                         request: ModbusRequest, values: seq<T>, requests: seq<ModbusRequest>, later: seq<ModbusRequest>)
    requires chunk(request.quantity, NextResponse(queue)) == Ok(values)
    requires requests == [request] + later
    ensures Collected(chunk, requests, queue) == values + Collected(chunk, later, Rest(queue))
  {
    assert requests[1..] == later;
  }

  /** A coil batch never returns more coils than it was asked for. */
  lemma {:induction false} BitsBatchAtMostQuantity(p: ReadPlan, address: uint16, remaining: uint16, queue: Queue)
    requires BatchRun(p, ChunkBits, address, remaining, queue).result.Ok?
    ensures |BatchRun(p, ChunkBits, address, remaining, queue).result.value| <= remaining
    decreases remaining
  {
    if remaining > 0 {
      var count := ChunkSize(remaining, p.limit);
      var values := ChunkBits(count, NextResponse(queue)).value;
      BatchRunStep(p, ChunkBits, address, remaining, queue, values);
      BitsBatchAtMostQuantity(p, SatAdd16(address, count), remaining - count, Rest(queue));
    }
  }

  /** A register batch that succeeds sends as many requests as the device limits predict. */
  lemma RegisterBatchRequestCount(slaveId: uint8, fc: uint8, limits: Limits.DeviceLimits,
                                  address: uint16, quantity: uint16, queue: Queue)
    requires fc == Constants.FcReadHoldingRegisters || fc == Constants.FcReadInputRegisters
    requires BatchRun(BatchPlan(slaveId, fc, limits), ChunkRegisters, address, quantity, queue).result.Ok?
    ensures quantity > 0 ==> limits.maxReadRegisters > 0
    ensures quantity > 0 ==> |BatchRun(BatchPlan(slaveId, fc, limits), ChunkRegisters, address, quantity, queue).requests|
                             == limits.ReadRequestCount(quantity)
  {
    BatchRunCoversQuantity(BatchPlan(slaveId, fc, limits), ChunkRegisters, address, quantity, queue);
  }

  /** A reply to a register read; its bit view is never looked at. */
  function RegisterReply(values: seq<uint16>): Result<ModbusResponse>
  {
    Ok(ModbusResponse(Ok([]), Ok(values)))
  }

  /** A reply to a coil read; its register view is never looked at. */
  function CoilReply(values: seq<bool>): Result<ModbusResponse>
  {
    Ok(ModbusResponse(Ok(values), Ok([])))
  }

  /** 120 registers at 50 per request: three requests, and the chunks joined in order. */
  lemma RegisterBatchExample(c1: seq<uint16>, c2: seq<uint16>, c3: seq<uint16>)
    ensures var p := BatchPlan(1, Constants.FcReadHoldingRegisters, Limits.DefaultLimits().WithMaxReadRegisters(50));
            var run := BatchRun(p, ChunkRegisters, 0, 120, [RegisterReply(c1), RegisterReply(c2), RegisterReply(c3)]);
            && run.result == Ok(c1 + c2 + c3)
            && run.requests == [ReadRequest(1, 3, 0, 50), ReadRequest(1, 3, 50, 50), ReadRequest(1, 3, 100, 20)]
            && run.sleeps == 0
  {
    var p := BatchPlan(1, Constants.FcReadHoldingRegisters, Limits.DefaultLimits().WithMaxReadRegisters(50));
    var q := [RegisterReply(c1), RegisterReply(c2), RegisterReply(c3)];
    BatchRunStep(p, ChunkRegisters, 0, 120, q, c1);
    BatchRunStep(p, ChunkRegisters, 50, 70, Rest(q), c2);
    BatchRunStep(p, ChunkRegisters, 100, 20, Rest(Rest(q)), c3);
    assert c1 + (c2 + (c3 + [])) == c1 + c2 + c3;
  }

  /** A batch of nothing sends nothing and reads nothing. */
  lemma EmptyBatchExample(p: ReadPlan, address: uint16, queue: Queue)
    ensures BatchRun(p, ChunkRegisters, address, 0, queue) == Run(Ok([]), [], 0)
  {
  }

  /** The second of two chunks fails: the batch fails with its error after two requests. */
  lemma FailingBatchExample(c1: seq<uint16>, e: ModbusError)
    ensures var p := BatchPlan(1, Constants.FcReadHoldingRegisters, Limits.DefaultLimits().WithMaxReadRegisters(50));
            var run := BatchRun(p, ChunkRegisters, 0, 100, [RegisterReply(c1), Err(e)]);
            run.result == Err(e) && |run.requests| == 2 && run.sleeps == 0
  {
    var p := BatchPlan(1, Constants.FcReadHoldingRegisters, Limits.DefaultLimits().WithMaxReadRegisters(50));
    BatchRunStep(p, ChunkRegisters, 0, 100, [RegisterReply(c1), Err(e)], c1);
  }

  /**
   * 600 coils at 500 per request, each reply padded to whole bytes: two
   * requests, and exactly the 600 coils asked for.
   */
  lemma CoilBatchExample(b1: seq<bool>, b2: seq<bool>)
    requires |b1| == 504 && |b2| == 104
    ensures var p := BatchPlan(1, Constants.FcReadCoils, Limits.DefaultLimits().WithMaxReadCoils(500));
            var run := BatchRun(p, ChunkBits, 0, 600, [CoilReply(b1), CoilReply(b2)]);
            && run.result == Ok(b1[..500] + b2[..100])
            && run.requests == [ReadRequest(1, 1, 0, 500), ReadRequest(1, 1, 500, 100)]
  {
    var p := BatchPlan(1, Constants.FcReadCoils, Limits.DefaultLimits().WithMaxReadCoils(500));
    var q := [CoilReply(b1), CoilReply(b2)];
    BatchRunStep(p, ChunkBits, 0, 600, q, b1[..500]);
    BatchRunStep(p, ChunkBits, 500, 100, Rest(q), b2[..100]);
    assert b1[..500] + (b2[..100] + []) == b1[..500] + b2[..100];
  }

  // ---------------------------------------------------------------------------
  // Write payloads
  // ---------------------------------------------------------------------------

  /** A write succeeds exactly when the transport answers. */
  function Acknowledged(response: Result<ModbusResponse>): (r: Outcome)
    ensures r.Pass? <==> response.Ok?
    ensures r.Fail? ==> r.error == response.error
  {
    if response.Ok? then Pass else Fail(response.error)
  }

  function SingleCoilRequest(slaveId: uint8, address: uint16, value: bool): ModbusRequest
  {
    ModbusRequest(slaveId, Constants.FcWriteSingleCoil, address, 1, if value then [0xFF, 0x00] else [0x00, 0x00])
  }

  function SingleRegisterRequest(slaveId: uint8, address: uint16, value: uint16): ModbusRequest
  {
    ModbusRequest(slaveId, Constants.FcWriteSingleRegister, address, 1, [Hi(value), Lo(value)])
  }

  function MultipleCoilsRequest(slaveId: uint8, address: uint16, values: seq<bool>): ModbusRequest
    requires |values| <= Constants.MaxWriteCoils
  {
    ModbusRequest(slaveId, Constants.FcWriteMultipleCoils, address, |values|, Pdu.PackCoils(values))
  }

  function MultipleRegistersRequest(slaveId: uint8, address: uint16, values: seq<uint16>): ModbusRequest
    requires |values| <= Constants.MaxWriteRegisters
  {
    ModbusRequest(slaveId, Constants.FcWriteMultipleRegisters, address, |values|, Pdu.RegisterBytes(values))
  }

  /**
   * What a device reads back from the write payloads: the coil word FF00 or
   * 0000, the register itself, every coil in order, every register in order;
   * and the multiple-write payloads are the data part of the PDUs the PDU
   * builder makes for the same writes.
   */
  lemma WritePayloadsDecode(slaveId: uint8, address: uint16, on: bool, value: uint16,
                            coils: seq<bool>, registers: seq<uint16>)
    requires |coils| <= Constants.MaxWriteCoils && |registers| <= Constants.MaxWriteRegisters
    ensures var d := SingleCoilRequest(slaveId, address, on).data;
            Word(d[0], d[1]) == Pdu.CoilValue(on)
    ensures var d := SingleRegisterRequest(slaveId, address, value).data;
            Word(d[0], d[1]) == value
    ensures var rq := MultipleCoilsRequest(slaveId, address, coils);
            Pdu.UnpackCoils(rq.data, rq.quantity) == coils && rq.data == Pdu.MultipleCoilsRequest(address, coils)[6..]
    ensures var rq := MultipleRegistersRequest(slaveId, address, registers);
            Pdu.RegistersOfBytes(rq.data) == registers && rq.quantity == |registers|
            && rq.data == Pdu.MultipleRegistersRequest(address, registers)[6..]
  {
    WordSplit(value);
    Pdu.PackCoilsRoundTrip(coils);
    Pdu.RegisterBytesRoundTrip(registers);
  }

  /** The nested packing loop of `write_0f`: each run of eight coils becomes one byte, LSB first. */
  method PackCoilChunks(values: seq<bool>) returns (data: seq<uint8>)
    ensures data == Pdu.PackCoils(values)
  {
    data := [];
    var start := 0;
    ghost var chunks := 0;
    while start < |values|
      invariant start <= |values| && (start == 8 * chunks || start == |values|)
      invariant data == Pdu.PackCoils(values[..start])
    {
      var end := if start + 8 <= |values| then start + 8 else |values|;
      var chunk := values[start..end];
      var byte := PackChunk(chunk);
      Pdu.PackCoilsAppend(values[..start], chunk);
      assert values[..end] == values[..start] + chunk;
      data := data + [byte];
      start := end;
      chunks := chunks + 1;
    }
    assert values[..start] == values;
  }

  /** The inner loop of `write_0f`: `byte |= 1 << i` for every set coil i of the chunk. */
  method PackChunk(chunk: seq<bool>) returns (byte: uint8)
    requires |chunk| <= 8
    ensures byte == PackByte(chunk)
  {
    byte := 0;
    var i := 0;
    while i < |chunk|
      invariant i <= |chunk| && byte == PackBits(chunk[..i])
    {
      assert chunk[..i + 1] == chunk[..i] + [chunk[i]];
      PackBitsSnoc(chunk[..i], chunk[i]);
      Pow2Monotone(i + 1, 8);
      assert Pow2(8) == 256;
      if chunk[i] {
        byte := SetBit(byte, i);
      }
      i := i + 1;
    }
    assert chunk[..i] == chunk;
  }

  /** The payload loop of `write_10`: each register as its two big-endian bytes. */
  method RegisterPayload(values: seq<uint16>) returns (data: seq<uint8>)
    ensures data == Pdu.RegisterBytes(values)
  {
    data := [];
    var i := 0;
    while i < |values|
      invariant i <= |values| && data == Pdu.RegisterBytes(values[..i])
    {
      Pdu.RegisterBytesSnoc(values, i);
      data := data + [Hi(values[i]), Lo(values[i])];
      i := i + 1;
    }
    assert values[..i] == values;
  }

  // ---------------------------------------------------------------------------
  // utils: registers and 32-bit values
  // ---------------------------------------------------------------------------

  /** `registers_to_u32_be`: each pair (high, low) as one value; an odd last register is dropped. */
  function RegistersToU32Be(registers: seq<uint16>): (values: seq<uint32>)
    ensures |values| == |registers| / 2
  {
    seq(|registers| / 2, i requires 0 <= i < |registers| / 2 => registers[2 * i] as int * 0x1_0000 + registers[2 * i + 1])
  }

  /** `registers_to_i32_be`: the same pairs, read as two's complement. */
  function RegistersToI32Be(registers: seq<uint16>): (values: seq<int32>)
    ensures |values| == |registers| / 2
  {
    var unsigned := RegistersToU32Be(registers);
    seq(|unsigned|, i requires 0 <= i < |unsigned| => ToSigned32(unsigned[i]))
  }

  /** `u32_to_registers_be`: each value as its high and then its low half. */
  function U32ToRegistersBe(values: seq<uint32>): (registers: seq<uint16>)
    ensures |registers| == 2 * |values|
  {
    seq(2 * |values|, i requires 0 <= i < 2 * |values| =>
      if i % 2 == 0 then values[i / 2] / 0x1_0000 else values[i / 2] % 0x1_0000)
  }

  /** Splitting values into registers and joining them again gives the values back. */
  lemma U32RegistersRoundTrip(values: seq<uint32>)
    ensures RegistersToU32Be(U32ToRegistersBe(values)) == values
  {
    var registers := U32ToRegistersBe(values);
    forall i | 0 <= i < |values|
      ensures RegistersToU32Be(registers)[i] == values[i]
    {
      assert registers[2 * i] == values[i] / 0x1_0000;
      assert registers[2 * i + 1] == values[i] % 0x1_0000;
    }
  }

  /** Joining registers and splitting them again gives back all but an odd last register. */
  lemma RegistersU32RoundTrip(registers: seq<uint16>)
    ensures U32ToRegistersBe(RegistersToU32Be(registers)) == registers[..|registers| / 2 * 2]
  {
    var values := RegistersToU32Be(registers);
    forall i | 0 <= i < 2 * |values|
      ensures U32ToRegistersBe(values)[i] == registers[i]
    {
      var j := i / 2;
      assert values[j] == registers[2 * j] as int * 0x1_0000 + registers[2 * j + 1];
      if i % 2 == 0 {
        assert i == 2 * j;
      } else {
        assert i == 2 * j + 1;
      }
    }
  }

  /** A pair reads as a negative i32 exactly when the top bit of its high register is set. */
  lemma RegistersToI32Sign(registers: seq<uint16>, i: nat)
    requires i < |registers| / 2
    ensures RegistersToI32Be(registers)[i] < 0 <==> registers[2 * i] >= 0x8000
    ensures ToUnsigned32(RegistersToI32Be(registers)[i]) == RegistersToU32Be(registers)[i]
  {
  }

  lemma RegisterConversionExample()
    ensures RegistersToU32Be([0x1234, 0x5678, 0xABCD, 0xEF01]) == [0x1234_5678, 0xABCD_EF01]
    ensures U32ToRegistersBe([0x1234_5678, 0xABCD_EF01]) == [0x1234, 0x5678, 0xABCD, 0xEF01]
    ensures RegistersToI32Be([0xFFFF, 0xFFFE]) == [-2]
  {
    assert 0x1234_5678 / 0x1_0000 == 0x1234;
    assert 0xABCD_EF01 / 0x1_0000 == 0xABCD;
  }
}
