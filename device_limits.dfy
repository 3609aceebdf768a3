/**
 * Per-device protocol limits: how many registers and coils one request may
 * carry, the pause between requests, and how many requests a transfer needs.
 */
module Limits {
  import opened Words
  import Constants

  const DefaultMaxReadRegisters: uint16 := 125
  const DefaultMaxWriteRegisters: uint16 := 123
  const DefaultMaxReadCoils: uint16 := 2000
  const DefaultMaxWriteCoils: uint16 := 1968
  const DefaultInterRequestDelayMs: uint64 := 0

  /** `DeviceLimits`: a plain value; every setter returns a modified copy. */
  datatype DeviceLimits = DeviceLimits(
    maxReadRegisters: uint16,
    maxWriteRegisters: uint16,
    maxReadCoils: uint16,
    maxWriteCoils: uint16,
    interRequestDelayMs: uint64)
  {
    /** `with_max_read_registers`: only that field changes. */
    function WithMaxReadRegisters(count: uint16): (l: DeviceLimits)
      ensures l.maxReadRegisters == count
      ensures l.maxWriteRegisters == maxWriteRegisters && l.maxReadCoils == maxReadCoils
      ensures l.maxWriteCoils == maxWriteCoils && l.interRequestDelayMs == interRequestDelayMs
    {
      this.(maxReadRegisters := count)
    }

    /** `with_max_write_registers`: only that field changes. */
    function WithMaxWriteRegisters(count: uint16): (l: DeviceLimits)
      ensures l.maxWriteRegisters == count
      ensures l.maxReadRegisters == maxReadRegisters && l.maxReadCoils == maxReadCoils
      ensures l.maxWriteCoils == maxWriteCoils && l.interRequestDelayMs == interRequestDelayMs
    {
      this.(maxWriteRegisters := count)
    }

    /** `with_max_read_coils`: only that field changes. */
    function WithMaxReadCoils(count: uint16): (l: DeviceLimits)
      ensures l.maxReadCoils == count
      ensures l.maxReadRegisters == maxReadRegisters && l.maxWriteRegisters == maxWriteRegisters
      ensures l.maxWriteCoils == maxWriteCoils && l.interRequestDelayMs == interRequestDelayMs
    {
      this.(maxReadCoils := count)
    }

    /** `with_max_write_coils`: only that field changes. */
    function WithMaxWriteCoils(count: uint16): (l: DeviceLimits)
      ensures l.maxWriteCoils == count
      ensures l.maxReadRegisters == maxReadRegisters && l.maxWriteRegisters == maxWriteRegisters
      ensures l.maxReadCoils == maxReadCoils && l.interRequestDelayMs == interRequestDelayMs
    {
      this.(maxWriteCoils := count)
    }

    /** `with_inter_request_delay_ms`: only that field changes. */
    function WithInterRequestDelayMs(delayMs: uint64): (l: DeviceLimits)
      ensures l.interRequestDelayMs == delayMs
      ensures l.maxReadRegisters == maxReadRegisters && l.maxWriteRegisters == maxWriteRegisters
      ensures l.maxReadCoils == maxReadCoils && l.maxWriteCoils == maxWriteCoils
    {
      this.(interRequestDelayMs := delayMs)
    }

    /**
     * `read_request_count`: 0 for nothing to read, otherwise the fewest requests
     * of at most `maxReadRegisters` registers that cover the total. A zero
     * limit with a non-zero total divides by zero in the source.
     */
    function ReadRequestCount(total: uint16): (n: uint16)
      requires total == 0 || maxReadRegisters > 0
      ensures total == 0 ==> n == 0
      ensures total > 0 ==> n * maxReadRegisters >= total && (n - 1) * maxReadRegisters < total
    {
      if total == 0 then 0 else DivCeil(total, maxReadRegisters)
    }

    /** `write_request_count`: the same count over `maxWriteRegisters`. */
    function WriteRequestCount(total: uint16): (n: uint16)
      requires total == 0 || maxWriteRegisters > 0
      ensures total == 0 ==> n == 0
      ensures total > 0 ==> n * maxWriteRegisters >= total && (n - 1) * maxWriteRegisters < total
    {
      if total == 0 then 0 else DivCeil(total, maxWriteRegisters)
    }

    /** `is_read_within_limits`: the count fits one read request. */
    predicate IsReadWithinLimits(registerCount: uint16)
      ensures maxReadRegisters > 0 ==> (IsReadWithinLimits(registerCount) <==> ReadRequestCount(registerCount) <= 1)
      ensures maxReadRegisters == 0 ==> (IsReadWithinLimits(registerCount) <==> registerCount == 0)
    {
      if maxReadRegisters > 0 then OneRequestIffWithin(registerCount as nat, maxReadRegisters as nat); registerCount <= maxReadRegisters
      else registerCount <= maxReadRegisters
    }

    /** `is_write_within_limits`: the count fits one write request. */
    predicate IsWriteWithinLimits(registerCount: uint16)
      ensures maxWriteRegisters > 0 ==> (IsWriteWithinLimits(registerCount) <==> WriteRequestCount(registerCount) <= 1)
      ensures maxWriteRegisters == 0 ==> (IsWriteWithinLimits(registerCount) <==> registerCount == 0)
    {
      if maxWriteRegisters > 0 then OneRequestIffWithin(registerCount as nat, maxWriteRegisters as nat); registerCount <= maxWriteRegisters
      else registerCount <= maxWriteRegisters
    }

    /** `is_coil_read_within_limits`: the coils fit one chunk of the limit. */
    predicate IsCoilReadWithinLimits(coilCount: uint16)
      ensures maxReadCoils > 0 ==> (IsCoilReadWithinLimits(coilCount) <==> DivCeil(coilCount, maxReadCoils) <= 1)
      ensures maxReadCoils == 0 ==> (IsCoilReadWithinLimits(coilCount) <==> coilCount == 0)
    {
      if maxReadCoils > 0 then OneRequestIffWithin(coilCount as nat, maxReadCoils as nat); coilCount <= maxReadCoils
      else coilCount <= maxReadCoils
    }

    /** `is_coil_write_within_limits`: the coils fit one chunk of the limit. */
    predicate IsCoilWriteWithinLimits(coilCount: uint16)
      ensures maxWriteCoils > 0 ==> (IsCoilWriteWithinLimits(coilCount) <==> DivCeil(coilCount, maxWriteCoils) <= 1)
      ensures maxWriteCoils == 0 ==> (IsCoilWriteWithinLimits(coilCount) <==> coilCount == 0)
    {
      if maxWriteCoils > 0 then OneRequestIffWithin(coilCount as nat, maxWriteCoils as nat); coilCount <= maxWriteCoils
      else coilCount <= maxWriteCoils
    }
  }

  /** `DeviceLimits::default()` (and `new()`): the protocol's own maxima and no delay. */
  function DefaultLimits(): (l: DeviceLimits)
    ensures l.maxReadRegisters as int == Constants.MaxReadRegisters
    ensures l.maxWriteRegisters as int == Constants.MaxWriteRegisters
    ensures l.maxReadCoils as int == Constants.MaxReadCoils
    ensures l.maxWriteCoils as int == Constants.MaxWriteCoils
    ensures l.interRequestDelayMs == 0
  {
    DeviceLimits(DefaultMaxReadRegisters, DefaultMaxWriteRegisters, DefaultMaxReadCoils,
                 DefaultMaxWriteCoils, DefaultInterRequestDelayMs)
  }

  /** `conservative()`: 50 registers and 500 coils each way, 10 ms apart. */
  function ConservativeLimits(): (l: DeviceLimits)
    ensures l.maxReadRegisters == l.maxWriteRegisters == 50
    ensures l.maxReadCoils == l.maxWriteCoils == 500
    ensures l.interRequestDelayMs == 10
  {
    DeviceLimits(50, 50, 500, 500, 10)
  }

  /** The conservative profile never allows more than the defaults, but always something. */
  lemma ConservativeWithinDefaults()
    ensures var c, d := ConservativeLimits(), DefaultLimits();
            0 < c.maxReadRegisters <= d.maxReadRegisters && 0 < c.maxWriteRegisters <= d.maxWriteRegisters
            && 0 < c.maxReadCoils <= d.maxReadCoils && 0 < c.maxWriteCoils <= d.maxWriteCoils
  {
  }

  /** A transfer fits one request exactly when it is within the limit (and non-empty). */
  lemma WithinLimitsIsOneRequest(l: DeviceLimits, count: uint16)
    requires l.maxReadRegisters > 0 && l.maxWriteRegisters > 0
    ensures l.IsReadWithinLimits(count) <==> l.ReadRequestCount(count) <= 1
    ensures l.IsWriteWithinLimits(count) <==> l.WriteRequestCount(count) <= 1
  {
    OneRequestIffWithin(count, l.maxReadRegisters);
    OneRequestIffWithin(count, l.maxWriteRegisters);
  }

  lemma OneRequestIffWithin(total: nat, max: nat)
    requires max > 0
    ensures total <= max <==> DivCeil(total, max) <= 1
  {
    var q := DivCeil(total, max);
    if q >= 2 {
      var k: nat := q - 2;
      assert (q - 1) * max == k * max + max;
      assert k * max >= 0;
    } else if q == 1 {
      assert q * max == max;
    } else {
      assert q * max == 0;
    }
  }

  /** Setting two different fields gives the same limits in either order. */
  lemma SettersCommute(l: DeviceLimits, readMax: uint16, writeMax: uint16, delayMs: uint64)
    ensures l.WithMaxReadRegisters(readMax).WithMaxWriteRegisters(writeMax)
         == l.WithMaxWriteRegisters(writeMax).WithMaxReadRegisters(readMax)
    ensures l.WithMaxReadRegisters(readMax).WithInterRequestDelayMs(delayMs)
         == l.WithInterRequestDelayMs(delayMs).WithMaxReadRegisters(readMax)
  {
  }

  lemma ReadRequestCountExamples()
    ensures var l := DefaultLimits().WithMaxReadRegisters(50);
            l.ReadRequestCount(0) == 0 && l.ReadRequestCount(50) == 1 && l.ReadRequestCount(51) == 2
            && l.ReadRequestCount(100) == 2 && l.ReadRequestCount(101) == 3
  {
  }

  lemma WriteRequestCountExamples()
    ensures var l := DefaultLimits().WithMaxWriteRegisters(100);
            l.WriteRequestCount(0) == 0 && l.WriteRequestCount(100) == 1
            && l.WriteRequestCount(101) == 2 && l.WriteRequestCount(250) == 3
  {
  }

  lemma WithinLimitsExamples()
    ensures var l := DefaultLimits().WithMaxReadCoils(1000).WithMaxWriteCoils(500);
            l.IsCoilReadWithinLimits(1000) && !l.IsCoilReadWithinLimits(1001)
            && l.IsCoilWriteWithinLimits(500) && !l.IsCoilWriteWithinLimits(501)
  {
  }
}
