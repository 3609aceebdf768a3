/**
 * Command batching: write commands grouped by (slave id, function code) until
 * a time window expires or enough of them are pending, and the check whether a
 * group covers one contiguous register range.
 *
 * Time is a parameter `now` in milliseconds on a monotonic clock.
 */
module Batcher {
  import opened Words
  import opened Bytes
  import opened Values
  import Codec

  const DefaultBatchWindowMs: nat := 20
  const DefaultMaxBatchSize: nat := 100

  /** `BatchCommand`: one pending write. */
  datatype BatchCommand = BatchCommand(
    pointId: uint32,
    value: ModbusValue,
    slaveId: uint8,
    functionCode: uint8,
    registerAddress: uint16,
    dataType: string,
    byteOrder: ByteOrder)
  {
    /** The group a command is filed under. */
    function Key(): GroupKey
    {
      GroupKey(slaveId, functionCode)
    }
  }

  datatype GroupKey = GroupKey(slaveId: uint8, functionCode: uint8)

  type Groups = map<GroupKey, seq<BatchCommand>>

  // ---------------------------------------------------------------------------
  // Counting the commands held in groups
  // ---------------------------------------------------------------------------

  /** The number of commands in all groups together. */
  ghost function Total(m: Groups): nat
    decreases |m|
  {
    if m.Keys == {} then 0
    else
      var k :| k in m;
      assert |m - {k}| < |m| by {
        assert (m - {k}).Keys == m.Keys - {k};
      }
      |m[k]| + Total(m - {k})
  }

  /** Removing a present key leaves one key fewer. */
  lemma MapRemoveKey<K, V>(m: map<K, V>, k: K)
    requires k in m
    ensures (m - {k}).Keys == m.Keys - {k} && |m - {k}| == |m| - 1
  {
    assert (m - {k}).Keys == m.Keys - {k};
  }

  /** Two keys can be removed in either order. */
  lemma MapRemoveCommutes<K, V>(m: map<K, V>, a: K, b: K)
    ensures (m - {a}) - {b} == (m - {b}) - {a}
  {
  }

  /** The total does not depend on which group is counted first. */
  lemma {:induction false} TotalRemove(m: Groups, k: GroupKey)
    requires k in m
    ensures Total(m) == |m[k]| + Total(m - {k})
    decreases |m|
  {
    var first :| first in m && Total(m) == |m[first]| + Total(m - {first});
    if first != k {
      var rest := m - {first};
      MapRemoveKey(m, first);
      MapRemoveKey(m, k);
      TotalRemove(rest, k);
      TotalRemove(m - {k}, first);
      MapRemoveCommutes(m, first, k);
    }
  }

  /** `entry(key).or_default()`: the group of a key, empty when it has none yet. */
  function Group(m: Groups, k: GroupKey): seq<BatchCommand>
  {
    if k in m then m[k] else []
  }

  /** Appending a command to its group adds one to the total. */
  lemma TotalAppend(m: Groups, k: GroupKey, c: BatchCommand)
    ensures Total(m[k := Group(m, k) + [c]]) == Total(m) + 1
  {
    var m' := m[k := Group(m, k) + [c]];
    TotalRemove(m', k);
    assert m' - {k} == m - {k};
    if k in m {
      TotalRemove(m, k);
    } else {
      assert m - {k} == m;
    }
  }

  /** With no empty group, nothing is pending exactly when there are no groups. */
  lemma TotalZero(m: Groups)
    requires forall k :: k in m ==> m[k] != []
    ensures Total(m) == 0 <==> m == map[]
  {
    if m != map[] {
      var k :| k in m;
      TotalRemove(m, k);
    }
  }

  // ---------------------------------------------------------------------------
  // The batcher
  // ---------------------------------------------------------------------------

  /** `CommandBatcher`. */
  class CommandBatcher {
    var pendingCommands: Groups
    var lastBatchTime: nat
    var totalPending: nat
    const batchWindowMs: nat
    const maxBatchSize: nat

    /** The counter matches the groups, and every group holds at least one command. */
    ghost predicate Valid()
      reads this
    {
      totalPending == Total(pendingCommands)
      && forall k :: k in pendingCommands ==> pendingCommands[k] != []
    }

    /** `new`: no commands, a 20 ms window and at most 100 commands per batch. */
    constructor (now: nat)
      ensures Valid() && pendingCommands == map[] && totalPending == 0 && lastBatchTime == now
      ensures batchWindowMs == DefaultBatchWindowMs && maxBatchSize == DefaultMaxBatchSize
    {
      pendingCommands := map[];
      lastBatchTime := now;
      totalPending := 0;
      batchWindowMs := DefaultBatchWindowMs;
      maxBatchSize := DefaultMaxBatchSize;
    }

    /** `with_config`: no commands, the given window and batch size. */
    constructor WithConfig(windowMs: nat, batchSize: nat, now: nat)
      ensures Valid() && pendingCommands == map[] && totalPending == 0 && lastBatchTime == now
      ensures batchWindowMs == windowMs && maxBatchSize == batchSize
    {
      pendingCommands := map[];
      lastBatchTime := now;
      totalPending := 0;
      batchWindowMs := windowMs;
      maxBatchSize := batchSize;
    }

    /** `pending_count`: the number of commands held in all groups. */
    function PendingCount(): (n: nat)
      reads this
      requires Valid()
      ensures n == Total(pendingCommands)
    {
      totalPending
    }

    /** `elapsed_since_last_batch`, at time `now`. */
    function Elapsed(now: nat): (e: nat)
      reads this
      ensures now >= lastBatchTime ==> lastBatchTime + e == now
      ensures now < lastBatchTime ==> e == 0
    {
      if now >= lastBatchTime then now - lastBatchTime else 0
    }

    /** `should_execute`: the window has passed, or enough commands are pending. */
    predicate ShouldExecute(now: nat)
      reads this
    {
      Elapsed(now) >= batchWindowMs || totalPending >= maxBatchSize
    }

    /** `take_commands`: hands over every group and starts a new window. */
    method TakeCommands(now: nat) returns (taken: Groups)
      requires Valid()
      modifies this
      ensures Valid()
      ensures taken == old(pendingCommands) && Total(taken) == old(totalPending)
      ensures pendingCommands == map[] && totalPending == 0 && lastBatchTime == now
    {
      lastBatchTime := now;
      totalPending := 0;
      taken := pendingCommands;
      pendingCommands := map[];
    }

    /** `add_command`: appended at the end of its group; the counter goes up by one. */
    method AddCommand(command: BatchCommand)
      requires Valid()
      modifies this
      ensures Valid()
      ensures pendingCommands == old(pendingCommands)[command.Key() := Group(old(pendingCommands), command.Key()) + [command]]
      ensures totalPending == old(totalPending) + 1 && lastBatchTime == old(lastBatchTime)
    {
      var key := command.Key();
      TotalAppend(pendingCommands, key, command);
      pendingCommands := pendingCommands[key := Group(pendingCommands, key) + [command]];
      totalPending := totalPending + 1;
    }

    /** `clear`: drops every group; the window is not restarted. */
    method Clear()
      requires Valid()
      modifies this
      ensures Valid()
      ensures pendingCommands == map[] && totalPending == 0 && lastBatchTime == old(lastBatchTime)
    {
      pendingCommands := map[];
      totalPending := 0;
    }

    /** `is_empty`: no command is pending, which is the same as having no group. */
    predicate IsEmpty()
      reads this
      requires Valid()
      ensures IsEmpty() <==> pendingCommands == map[]
    {
      TotalZero(pendingCommands);
      totalPending == 0
    }

    /** `get_register_count`: `registers_for_type` narrowed to u16. */
    static function GetRegisterCount(dataType: string): (n: uint16)
      ensures n as int == Codec.RegistersForType(dataType)
    {
      Codec.RegistersForType(dataType)
    }

    /**
     * `are_strictly_consecutive`: false below two commands; otherwise the
     * commands, stably sorted by address, are walked with an expected address
     * that starts at the lowest one and grows by each command's register count.
     */
    static method AreStrictlyConsecutive(commands: seq<BatchCommand>) returns (r: bool)
      ensures r == ConsecutiveAsWritten(commands)
    {
      if |commands| < 2 {
        return false;
      }
      var sorted := SortByAddress(commands);
      ghost var walk := Tiles(Extents(sorted), sorted[0].registerAddress);
      assert walk == ConsecutiveAsWritten(commands);
      var expected := sorted[0].registerAddress as int;
      var i := 0;
      assert Extents(sorted)[0..] == Extents(sorted);
      while i < |sorted|
        invariant 0 <= i <= |sorted|
        invariant walk == Tiles(Extents(sorted)[i..], expected)
      {
        if sorted[i].registerAddress != expected {
          WalkStops(sorted, i, expected);
          return false;
        }
        WalkAdvances(sorted, i, expected);
        expected := expected + GetRegisterCount(sorted[i].dataType) as int;
        i := i + 1;
      }
      assert Extents(sorted)[i..] == [];
      return true;
    }
  }

  /** A fresh batcher is empty and, inside its window and below its batch size, does not release. */
  lemma FreshBatcherIdle(b: CommandBatcher, now: nat)
    requires b.Valid() && b.pendingCommands == map[] && b.lastBatchTime <= now < b.lastBatchTime + b.batchWindowMs
    requires b.maxBatchSize > 0
    ensures b.IsEmpty() && b.PendingCount() == 0 && !b.ShouldExecute(now)
  {
    TotalZero(b.pendingCommands);
  }

  /** A batch is due once its window has run out or the commands held in all groups reach the batch size. */
  lemma ShouldExecuteMeans(b: CommandBatcher, now: nat)
    requires b.Valid()
    ensures b.ShouldExecute(now) <==> b.Elapsed(now) >= b.batchWindowMs || Total(b.pendingCommands) >= b.maxBatchSize
  {
  }

  /** Filling a fresh batcher with `DefaultMaxBatchSize` commands makes it due at once. */
  method BatchSizeTriggers(now: nat) returns (fires: bool)
    ensures fires
  {
    var b := new CommandBatcher(now);
    var i := 0;
    while i < DefaultMaxBatchSize
      invariant 0 <= i <= DefaultMaxBatchSize
      invariant b.Valid() && b.totalPending == i && b.lastBatchTime == now
      invariant b.maxBatchSize == DefaultMaxBatchSize
    {
      b.AddCommand(WordCommand(i as uint32, i as uint16));
      i := i + 1;
    }
    fires := b.ShouldExecute(now);
  }

  // ---------------------------------------------------------------------------
  // Contiguity of a group
  // ---------------------------------------------------------------------------

  /** The registers a command covers: its start address and how many registers its type spans. */
  datatype Extent = Extent(address: int, span: int)

  function ExtentOf(c: BatchCommand): Extent
  {
    Extent(c.registerAddress, CommandBatcher.GetRegisterCount(c.dataType))
  }

  function Extents(cmds: seq<BatchCommand>): (e: seq<Extent>)
    ensures |e| == |cmds|
  {
    if cmds == [] then [] else [ExtentOf(cmds[0])] + Extents(cmds[1..])
  }

  lemma {:induction false} ExtentAt(cmds: seq<BatchCommand>, i: nat)
    requires i < |cmds|
    ensures Extents(cmds)[i] == ExtentOf(cmds[i])
  {
    if i > 0 {
      ExtentAt(cmds[1..], i - 1);
    }
  }

  /** The walk of `are_strictly_consecutive`: each extent starts where the previous one ended. */
  function Tiles(extents: seq<Extent>, expected: int): bool
  {
    if extents == [] then true
    else extents[0].address == expected && Tiles(extents[1..], expected + extents[0].span)
  }

  /** The walk stops at a command that is not where the walk expects it. */
  lemma WalkStops(sorted: seq<BatchCommand>, i: nat, expected: int)
    requires i < |sorted| && sorted[i].registerAddress != expected
    ensures !Tiles(Extents(sorted)[i..], expected)
  {
    ExtentAt(sorted, i);
    TilesStep(Extents(sorted), i, expected);
  }

  /** A command where the walk expects it moves the expected address past its registers. */
  lemma WalkAdvances(sorted: seq<BatchCommand>, i: nat, expected: int)
    requires i < |sorted| && sorted[i].registerAddress == expected
    ensures Tiles(Extents(sorted)[i..], expected)
         == Tiles(Extents(sorted)[i + 1..], expected + CommandBatcher.GetRegisterCount(sorted[i].dataType) as int)
  {
    ExtentAt(sorted, i);
    TilesStep(Extents(sorted), i, expected);
  }

  /** One step of the walk, at position `i`. */
  lemma TilesStep(extents: seq<Extent>, i: nat, expected: int)
    requires i < |extents|
    ensures Tiles(extents[i..], expected)
        == (extents[i].address == expected && Tiles(extents[i + 1..], expected + extents[i].span))
  {
    assert extents[i..][1..] == extents[i + 1..];
  }

  function SpanSum(extents: seq<Extent>): int
  {
    if extents == [] then 0 else extents[0].span + SpanSum(extents[1..])
  }

  /** The walk succeeds exactly when every extent starts at the first address plus the spans before it. */
  lemma {:induction false} TilesMeansContiguous(extents: seq<Extent>, expected: int)
    ensures Tiles(extents, expected)
        <==> forall i :: 0 <= i < |extents| ==> extents[i].address == expected + SpanSum(extents[..i])
  {
    if extents != [] {
      var rest := extents[1..];
      var next := expected + extents[0].span;
      TilesMeansContiguous(rest, next);
      forall i | 1 <= i < |extents|
        ensures SpanSum(extents[..i]) == extents[0].span + SpanSum(rest[..i - 1])
      {
        assert extents[..i][1..] == rest[..i - 1];
      }
      if Tiles(extents, expected) {
        forall i | 0 <= i < |extents|
          ensures extents[i].address == expected + SpanSum(extents[..i])
        {
          if i > 0 {
            assert rest[i - 1] == extents[i];
          }
        }
      }
      if forall i :: 0 <= i < |extents| ==> extents[i].address == expected + SpanSum(extents[..i]) {
        assert extents[..0] == [];
        forall i | 0 <= i < |rest|
          ensures rest[i].address == next + SpanSum(rest[..i])
        {
          assert rest[i] == extents[i + 1];
        }
      }
    }
  }

  // --- As written: a stable sort on the address alone ---

  predicate SortedByAddress(s: seq<BatchCommand>)
  {
    forall i, j :: 0 <= i < j < |s| ==> s[i].registerAddress <= s[j].registerAddress
  }

  /** Insert before the first command at the same or a higher address. */
  function InsertByAddress(c: BatchCommand, sorted: seq<BatchCommand>): (r: seq<BatchCommand>)
    ensures multiset(r) == multiset(sorted) + multiset{c} && |r| == |sorted| + 1
    ensures r[0] == c || (|sorted| > 0 && r[0] == sorted[0])
  {
    if sorted == [] || c.registerAddress <= sorted[0].registerAddress then [c] + sorted
    else
      assert sorted == [sorted[0]] + sorted[1..];
      [sorted[0]] + InsertByAddress(c, sorted[1..])
  }

  lemma {:induction false} InsertByAddressSorted(c: BatchCommand, sorted: seq<BatchCommand>)
    requires SortedByAddress(sorted)
    ensures SortedByAddress(InsertByAddress(c, sorted))
  {
    if sorted != [] && c.registerAddress > sorted[0].registerAddress {
      var tail := sorted[1..];
      var rest := InsertByAddress(c, tail);
      InsertByAddressSorted(c, tail);
      assert sorted[0].registerAddress <= rest[0].registerAddress;
      var r := [sorted[0]] + rest;
      assert r == InsertByAddress(c, sorted);
      forall i, j | 0 <= i < j < |r|
        ensures r[i].registerAddress <= r[j].registerAddress
      {
        assert r[j] == rest[j - 1];
        if i == 0 {
          assert rest[0].registerAddress <= rest[j - 1].registerAddress;
        } else {
          assert r[i] == rest[i - 1];
        }
      }
    }
  }

  /**
   * `sort_by_key` on the address: sorted and a permutation. It is stable (a
   * command stays ahead of later commands at the same address), as the
   * library's sort is.
   */
  function SortByAddress(cmds: seq<BatchCommand>): (r: seq<BatchCommand>)
    ensures multiset(r) == multiset(cmds) && |r| == |cmds|
    ensures SortedByAddress(r)
  {
    if cmds == [] then []
    else
      assert cmds == [cmds[0]] + cmds[1..];
      InsertByAddressSorted(cmds[0], SortByAddress(cmds[1..]));
      InsertByAddress(cmds[0], SortByAddress(cmds[1..]))
  }

  /** Each command starts at the first command's address plus the spans of the commands before it. */
  predicate StartsAfterSpans(s: seq<BatchCommand>)
  {
    forall i :: 0 <= i < |s| ==> s[i].registerAddress == s[0].registerAddress + SpanSum(Extents(s)[..i])
  }

  lemma WalkMeansStartsAfterSpans(s: seq<BatchCommand>)
    requires |s| > 0
    ensures Tiles(Extents(s), s[0].registerAddress) <==> StartsAfterSpans(s)
  {
    var e := Extents(s);
    TilesMeansContiguous(e, s[0].registerAddress);
    forall i | 0 <= i < |s|
      ensures e[i].address == s[i].registerAddress
    {
      ExtentAt(s, i);
    }
  }

  /** The check as written, in terms of the sorted commands: each starts where the spans before it end. */
  lemma ConsecutiveAsWrittenMeans(cmds: seq<BatchCommand>)
    ensures ConsecutiveAsWritten(cmds) <==> |cmds| >= 2 && StartsAfterSpans(SortByAddress(cmds))
  {
    if |cmds| >= 2 {
      WalkMeansStartsAfterSpans(SortByAddress(cmds));
    }
  }

  /** A uint16 write to `address`, as in the batcher tests. */
  function WordCommand(id: uint32, address: uint16): BatchCommand
  {
    BatchCommand(id, U16(0), 1, 6, address, "uint16", BigEndian)
  }

  /** The span of a uint16 write is one register. */
  lemma WordCommandExtent(id: uint32, address: uint16)
    ensures ExtentOf(WordCommand(id, address)) == Extent(address, 1)
  {
    Codec.RegistersForTypeExamples();
  }

  /** uint16 writes to 101 and 100, given in that order, are consecutive. */
  lemma ConsecutiveOutOfOrderExample(a: BatchCommand, b: BatchCommand)
    requires a == WordCommand(1, 100) && b == WordCommand(2, 101)
    ensures ConsecutiveAsWritten([b, a])
  {
    WordCommandExtent(1, 100);
    WordCommandExtent(2, 101);
    assert [b, a][1..] == [a];
    assert SortByAddress([b, a]) == [a, b];
    assert Extents([a, b]) == [Extent(100, 1), Extent(101, 1)];
  }

  /** uint16 writes to 100 and 105 leave a gap. */
  lemma GapExample(a: BatchCommand, c: BatchCommand)
    requires a == WordCommand(1, 100) && c == WordCommand(3, 105)
    ensures !ConsecutiveAsWritten([a, c])
  {
    WordCommandExtent(1, 100);
    WordCommandExtent(3, 105);
    assert [a, c][1..] == [c];
    assert SortByAddress([a, c]) == [a, c];
    assert Extents([a, c]) == [Extent(100, 1), Extent(105, 1)];
    assert [Extent(100, 1), Extent(105, 1)][1..] == [Extent(105, 1)];
    assert !Tiles([Extent(105, 1)], 101);
  }

  /** `are_strictly_consecutive` as the source computes it. */
  function ConsecutiveAsWritten(cmds: seq<BatchCommand>): bool
  {
    |cmds| >= 2 &&
    var sorted := SortByAddress(cmds);
    Tiles(Extents(sorted), sorted[0].registerAddress)
  }

  /**
   * Two commands at address 100, a uint16 and a bool (which spans no register):
   * in one order the walk succeeds, in the other it fails.
   */
  lemma ConsecutiveAsWrittenDependsOnOrder()
    ensures var a := BatchCommand(1, U16(0), 1, 6, 100, "uint16", BigEndian);
            var b := BatchCommand(2, Bool(true), 1, 6, 100, "bool", BigEndian);
            multiset([a, b]) == multiset([b, a])
            && !ConsecutiveAsWritten([a, b]) && ConsecutiveAsWritten([b, a])
  {
    var a := BatchCommand(1, U16(0), 1, 6, 100, "uint16", BigEndian);
    var b := BatchCommand(2, Bool(true), 1, 6, 100, "bool", BigEndian);
    SameAddressKeepsOrder(a, b);
    SameAddressKeepsOrder(b, a);
    ExtentsOfExample(a, b);
  }

  /** The stable sort leaves two commands at the same address in their input order. */
  lemma SameAddressKeepsOrder(a: BatchCommand, b: BatchCommand)
    requires a.registerAddress == b.registerAddress
    ensures SortByAddress([a, b]) == [a, b]
  {
    assert [a, b][1..] == [b];
    assert SortByAddress([b]) == [b];
  }

  lemma ExtentsOfExample(a: BatchCommand, b: BatchCommand)
    requires a == BatchCommand(1, U16(0), 1, 6, 100, "uint16", BigEndian)
    requires b == BatchCommand(2, Bool(true), 1, 6, 100, "bool", BigEndian)
    ensures Extents([a, b]) == [Extent(100, 1), Extent(100, 0)]
    ensures Extents([b, a]) == [Extent(100, 0), Extent(100, 1)]
  {
    Codec.RegistersForTypeExamples();
  }

  // --- Corrected: sort on (address, span) ---

  /** The lexicographic order on extents: by address, then by span. */
  predicate ExtentLe(x: Extent, y: Extent)
  {
    x.address < y.address || (x.address == y.address && x.span <= y.span)
  }

  predicate SortedExtents(s: seq<Extent>)
  {
    forall i, j :: 0 <= i < j < |s| ==> ExtentLe(s[i], s[j])
  }

  function InsertExtent(x: Extent, sorted: seq<Extent>): (r: seq<Extent>)
    ensures multiset(r) == multiset(sorted) + multiset{x} && |r| == |sorted| + 1
  {
    if sorted == [] || ExtentLe(x, sorted[0]) then [x] + sorted
    else
      assert sorted == [sorted[0]] + sorted[1..];
      [sorted[0]] + InsertExtent(x, sorted[1..])
  }

  lemma {:induction false} InsertExtentSorted(x: Extent, sorted: seq<Extent>)
    requires SortedExtents(sorted)
    ensures SortedExtents(InsertExtent(x, sorted))
  {
    if sorted != [] && !ExtentLe(x, sorted[0]) {
      var tail := sorted[1..];
      var rest := InsertExtent(x, tail);
      InsertExtentSorted(x, tail);
      forall j | 0 <= j < |rest|
        ensures ExtentLe(sorted[0], rest[j])
      {
        assert rest[j] in multiset(rest);
        if rest[j] != x {
          assert rest[j] in multiset(tail);
          var i :| 0 <= i < |tail| && tail[i] == rest[j];
          assert tail[i] == sorted[i + 1];
        }
      }
    }
  }

  /** Insertion sort in the extent order. */
  function SortExtents(s: seq<Extent>): (r: seq<Extent>)
    ensures multiset(r) == multiset(s) && |r| == |s|
    ensures SortedExtents(r)
  {
    if s == [] then []
    else
      assert s == [s[0]] + s[1..];
      InsertExtentSorted(s[0], SortExtents(s[1..]));
      InsertExtent(s[0], SortExtents(s[1..]))
  }

  /** The head of a sorted sequence is below every element of it. */
  lemma SortedHeadIsLeast(x: seq<Extent>, e: Extent)
    requires SortedExtents(x) && e in multiset(x)
    ensures ExtentLe(x[0], e)
  {
    var i :| 0 <= i < |x| && x[i] == e;
  }

  lemma SortedExtentsTail(x: seq<Extent>)
    requires SortedExtents(x) && x != []
    ensures SortedExtents(x[1..]) && multiset(x) == multiset(x[1..]) + multiset{x[0]}
  {
    assert x == [x[0]] + x[1..];
    assert multiset(x) == multiset{x[0]} + multiset(x[1..]);
  }

  lemma MultisetCancel<T>(a: multiset<T>, b: multiset<T>, e: T)
    requires a + multiset{e} == b + multiset{e}
    ensures a == b
  {
    forall o ensures a[o] == b[o] {
      assert (a + multiset{e})[o] == (b + multiset{e})[o];
    }
  }

  /** Two sorted sequences with the same elements are the same sequence. */
  lemma {:induction false} SortedExtentsUnique(x: seq<Extent>, y: seq<Extent>)
    requires SortedExtents(x) && SortedExtents(y) && multiset(x) == multiset(y)
    ensures x == y
    decreases |x|
  {
    assert |x| == |multiset(x)| == |multiset(y)| == |y|;
    if x != [] {
      assert x[0] in multiset(y) && y[0] in multiset(x);
      SortedHeadIsLeast(y, x[0]);
      SortedHeadIsLeast(x, y[0]);
      assert x[0] == y[0];
      SortedExtentsTail(x);
      SortedExtentsTail(y);
      MultisetCancel(multiset(x[1..]), multiset(y[1..]), x[0]);
      SortedExtentsUnique(x[1..], y[1..]);
      assert x == [x[0]] + x[1..] && y == [y[0]] + y[1..];
    }
  }

  /** The intended check: the same walk over the extents sorted by address and then by span. */
  function ConsecutiveCorrected(cmds: seq<BatchCommand>): bool
  {
    |cmds| >= 2 &&
    var sorted := SortExtents(Extents(cmds));
    Tiles(sorted, sorted[0].address)
  }

  /** `f` applied to every element, in order. */
  function Project<T, U>(f: T -> U, s: seq<T>): (r: seq<U>)
    ensures |r| == |s|
  {
    if s == [] then [] else [f(s[0])] + Project(f, s[1..])
  }

  lemma {:induction false} ProjectConcat<T, U>(f: T -> U, a: seq<T>, b: seq<T>)
    ensures Project(f, a + b) == Project(f, a) + Project(f, b)
  {
    if a != [] {
      assert (a + b)[0] == a[0] && (a + b)[1..] == a[1..] + b;
      ProjectConcat(f, a[1..], b);
      calc {
        Project(f, a + b);
        [f(a[0])] + Project(f, a[1..] + b);
        [f(a[0])] + (Project(f, a[1..]) + Project(f, b));
        ([f(a[0])] + Project(f, a[1..])) + Project(f, b);
      }
    } else {
      assert a + b == b;
    }
  }

  lemma SplitAt<T>(b: seq<T>, j: nat)
    requires j < |b|
    ensures b == b[..j] + ([b[j]] + b[j + 1..])
  {
    assert b == b[..j] + [b[j]] + b[j + 1..];
  }

  /** Taking element j out of a sequence takes it out of its multiset. */
  lemma MultisetRemove<T>(b: seq<T>, j: nat)
    requires j < |b|
    ensures multiset(b) == multiset(b[..j] + b[j + 1..]) + multiset{b[j]}
  {
    assert b == b[..j] + [b[j]] + b[j + 1..];
    assert multiset(b) == multiset(b[..j] + b[j + 1..]) + multiset{b[j]};
  }

  /** Taking element j out takes its image out of the images. */
  lemma ProjectRemove<T, U>(f: T -> U, b: seq<T>, j: nat)
    requires j < |b|
    ensures multiset(Project(f, b)) == multiset(Project(f, b[..j] + b[j + 1..])) + multiset{f(b[j])}
  {
    var x, front, back := b[j], b[..j], b[j + 1..];
    SplitAt(b, j);
    ProjectConcat(f, front, [x] + back);
    ProjectConcat(f, [x], back);
    ProjectConcat(f, front, back);
    assert Project(f, [x]) == [f(x)];
    calc {
      multiset(Project(f, b));
      multiset(Project(f, front) + ([f(x)] + Project(f, back)));
      multiset(Project(f, front)) + multiset{f(x)} + multiset(Project(f, back));
      multiset(Project(f, front) + Project(f, back)) + multiset{f(x)};
    }
  }

  /** Removing the same element from two permutations leaves permutations. */
  lemma PermutedTails<T>(a: seq<T>, b: seq<T>, j: nat)
    requires multiset(a) == multiset(b) && a != [] && j < |b| && b[j] == a[0]
    ensures multiset(a[1..]) == multiset(b[..j] + b[j + 1..])
  {
    var x, tail, rest := a[0], a[1..], b[..j] + b[j + 1..];
    assert a == [x] + tail;
    assert multiset(a) == multiset(tail) + multiset{x};
    MultisetRemove(b, j);
    MultisetCancel(multiset(tail), multiset(rest), x);
  }

  /** Permuting a sequence permutes its images. */
  lemma {:induction false} ProjectPermutation<T, U>(f: T -> U, a: seq<T>, b: seq<T>)
    requires multiset(a) == multiset(b)
    ensures multiset(Project(f, a)) == multiset(Project(f, b))
    decreases |a|
  {
    if a == [] {
      assert |b| == |multiset(b)| == 0;
    } else {
      assert a[0] in multiset(b);
      var j :| 0 <= j < |b| && b[j] == a[0];
      PermutedTails(a, b, j);
      ProjectPermutation(f, a[1..], b[..j] + b[j + 1..]);
      ProjectRemove(f, b, j);
      ProjectRemove(f, a, 0);
      assert a[..0] + a[1..] == a[1..];
    }
  }

  lemma {:induction false} ExtentsAreProjection(cmds: seq<BatchCommand>)
    ensures Extents(cmds) == Project(ExtentOf, cmds)
  {
    if cmds != [] {
      ExtentsAreProjection(cmds[1..]);
    }
  }

  /** Permuting the commands permutes their extents. */
  lemma ExtentsPermutation(a: seq<BatchCommand>, b: seq<BatchCommand>)
    requires multiset(a) == multiset(b)
    ensures multiset(Extents(a)) == multiset(Extents(b))
  {
    ExtentsAreProjection(a);
    ExtentsAreProjection(b);
    ProjectPermutation(ExtentOf, a, b);
  }

  /** The corrected check depends only on which commands there are, not on their order. */
  lemma ConsecutiveCorrectedIgnoresOrder(a: seq<BatchCommand>, b: seq<BatchCommand>)
    requires multiset(a) == multiset(b)
    ensures ConsecutiveCorrected(a) == ConsecutiveCorrected(b)
  {
    assert |a| == |multiset(a)| == |multiset(b)| == |b|;
    ExtentsPermutation(a, b);
    SortedExtentsUnique(SortExtents(Extents(a)), SortExtents(Extents(b)));
  }

  lemma GetRegisterCountExamples()
    ensures CommandBatcher.GetRegisterCount("uint16") == 1
    ensures CommandBatcher.GetRegisterCount("float64") == 4
  {
    Codec.RegistersForTypeExamples();
    Codec.RegistersForWideTypeExamples();
  }
}
