/**
 * Byte-order handling for multi-register values.
 *
 * A 32-bit value spans two 16-bit registers and a 64-bit value four. Devices
 * disagree on the order of the bytes across those registers; `ByteOrder` names
 * the six conventions and the conversions below rearrange bytes accordingly.
 * Every register→bytes conversion is paired with its bytes→register inverse.
 */
module Bytes {
  import opened Words
  import opened Errors

  /** ABCD, DCBA, CDAB, BADC for 32/64-bit values, AB and BA for a single register. */
  datatype ByteOrder =
    | BigEndian          // ABCD
    | LittleEndian       // DCBA
    | BigEndianSwap      // CDAB: big-endian words, low word first
    | LittleEndianSwap   // BADC: bytes swapped inside each word
    | BigEndian16        // AB
    | LittleEndian16     // BA
  {
    predicate Is16BitOnly() { this == BigEndian16 || this == LittleEndian16 }
    predicate IsBigEndian() { this == BigEndian || this == BigEndianSwap || this == BigEndian16 }
    predicate IsLittleEndian() { this == LittleEndian || this == LittleEndianSwap || this == LittleEndian16 }
    predicate HasWordSwap() { this == BigEndianSwap || this == LittleEndianSwap }
  }

  /** `ByteOrder::default()`. */
  function DefaultOrder(): (o: ByteOrder)
    ensures o.IsBigEndian() && !o.HasWordSwap() && !o.Is16BitOnly()
  {
    BigEndian
  }

  /** Every order is either big- or little-endian, never both; a word swap only exists for 32/64-bit orders. */
  lemma OrderPredicatesPartition(o: ByteOrder)
    ensures o.IsBigEndian() <==> !o.IsLittleEndian()
    ensures o.HasWordSwap() ==> !o.Is16BitOnly()
    ensures o.HasWordSwap() <==> o in {BigEndianSwap, LittleEndianSwap}
  {
  }

  // ---------------------------------------------------------------------------
  // Parsing order names
  // ---------------------------------------------------------------------------

  /** `char::to_ascii_uppercase`. */
  function AsciiUpper(c: char): char
  {
    if 'a' <= c <= 'z' then (c as int - 32) as char else c
  }

  /** `char::to_ascii_lowercase`. */
  function AsciiLower(c: char): char
  {
    if 'A' <= c <= 'Z' then (c as int + 32) as char else c
  }

  function LowerString(s: string): (r: string)
    ensures |r| == |s|
  {
    if s == [] then [] else [AsciiLower(s[0])] + LowerString(s[1..])
  }

  lemma {:induction false} LowerStringChars(s: string)
    ensures forall i :: 0 <= i < |s| ==> LowerString(s)[i] == AsciiLower(s[i])
  {
    if s != [] {
      LowerStringChars(s[1..]);
    }
  }

  /** A name without capital letters is its own lower-case form. */
  lemma {:induction false} LowerStringOfLower(s: string)
    requires forall i :: 0 <= i < |s| ==> !('A' <= s[i] <= 'Z')
    ensures LowerString(s) == s
  {
    if s != [] {
      LowerStringOfLower(s[1..]);
    }
  }

  predicate IsSeparator(c: char) { c == '-' || c == '_' }

  /** The name with '-' and '_' removed and ASCII letters upper-cased. */
  function NormalizeName(s: string): (r: string)
    ensures forall i :: 0 <= i < |r| ==> !IsSeparator(r[i]) && !('a' <= r[i] <= 'z')
  {
    if s == [] then []
    else (if IsSeparator(s[0]) then [] else [AsciiUpper(s[0])]) + NormalizeName(s[1..])
  }

  /**
   * The spellings each order is known by once a name is normalized: its byte
   * pattern, its short and long English names, and for the 32/64-bit orders
   * that have one the eight-letter pattern.
   */
  function Names(o: ByteOrder): set<string>
  {
    match o
    case BigEndian => {"ABCD", "BE", "BIGENDIAN", "ABCDEFGH"}
    case LittleEndian => {"DCBA", "LE", "LITTLEENDIAN", "HGFEDCBA"}
    case BigEndianSwap => {"CDAB", "BIGENDIANSWAP"}
    case LittleEndianSwap => {"BADC", "LITTLEENDIANSWAP"}
    case BigEndian16 => {"AB"}
    case LittleEndian16 => {"BA"}
  }

  /** `ByteOrder::from_str`: case-insensitive, separators ignored, None when unrecognised. */
  function FromStr(s: string): (r: Option<ByteOrder>)
    ensures forall o :: r == Some(o) <==> NormalizeName(s) in Names(o)
  {
    NamesMeaning(NormalizeName(s));
    OrderNamed(NormalizeName(s))
  }

  /**
   * The order a normalized name denotes. The arms spelled with '_' can never
   * match, since normalization has removed every '_'; they are kept as written.
   */
  function OrderNamed(n: string): Option<ByteOrder>
  {
    match n
    case "ABCD" | "BE" | "BIG_ENDIAN" | "BIGENDIAN" | "ABCDEFGH" => Some(BigEndian)
    case "DCBA" | "LE" | "LITTLE_ENDIAN" | "LITTLEENDIAN" | "HGFEDCBA" => Some(LittleEndian)
    case "CDAB" | "BIG_ENDIAN_SWAP" | "BIGENDIANSWAP" => Some(BigEndianSwap)
    case "BADC" | "LITTLE_ENDIAN_SWAP" | "LITTLEENDIANSWAP" => Some(LittleEndianSwap)
    case "AB" => Some(BigEndian16)
    case "BA" => Some(LittleEndian16)
    case _ => None
  }

  /** A name without separators is in an order's spellings exactly when it parses to that order. */
  lemma NamesMeaning(n: string)
    requires forall i :: 0 <= i < |n| ==> !IsSeparator(n[i])
    ensures forall o :: OrderNamed(n) == Some(o) <==> n in Names(o)
  {
    assert "BIG_ENDIAN"[3] == '_';
    assert "LITTLE_ENDIAN"[6] == '_';
    assert "BIG_ENDIAN_SWAP"[3] == '_';
    assert "LITTLE_ENDIAN_SWAP"[6] == '_';
  }

  /** The byte pattern that names each order. */
  function PatternName(o: ByteOrder): string
  {
    match o
    case BigEndian => "ABCD"
    case LittleEndian => "DCBA"
    case BigEndianSwap => "CDAB"
    case LittleEndianSwap => "BADC"
    case BigEndian16 => "AB"
    case LittleEndian16 => "BA"
  }

  lemma {:induction false} NormalizeConcat(s: string, t: string)
    ensures NormalizeName(s + t) == NormalizeName(s) + NormalizeName(t)
  {
    if s == [] {
      assert s + t == t;
    } else {
      assert (s + t)[0] == s[0];
      assert (s + t)[1..] == s[1..] + t;
      NormalizeConcat(s[1..], t);
    }
  }

  /** A name without separators normalizes character by character. */
  lemma {:induction false} NormalizeWithoutSeparators(s: string)
    requires forall i :: 0 <= i < |s| ==> !IsSeparator(s[i])
    ensures |NormalizeName(s)| == |s|
    ensures forall i :: 0 <= i < |s| ==> NormalizeName(s)[i] == AsciiUpper(s[i])
  {
    if s != [] {
      NormalizeWithoutSeparators(s[1..]);
    }
  }

  lemma {:induction false} NormalizeIgnoresCase(s: string)
    ensures NormalizeName(LowerString(s)) == NormalizeName(s)
  {
    if s != [] {
      assert LowerString(s)[1..] == LowerString(s[1..]);
      NormalizeIgnoresCase(s[1..]);
    }
  }

  /** Lower-casing a name does not change the order it denotes. */
  lemma FromStrIgnoresCase(s: string)
    ensures FromStr(LowerString(s)) == FromStr(s)
  {
    NormalizeIgnoresCase(s);
  }

  /** Inserting a '-' or '_' anywhere in a name does not change the order it denotes. */
  lemma FromStrIgnoresSeparator(s: string, t: string, sep: char)
    requires IsSeparator(sep)
    ensures FromStr(s + [sep] + t) == FromStr(s + t)
  {
    assert NormalizeName([sep]) == [] by {
      assert [sep][1..] == [];
    }
    NormalizeConcat(s + [sep], t);
    NormalizeConcat(s, [sep]);
    NormalizeConcat(s, t);
    assert NormalizeName(s + [sep] + t) == NormalizeName(s + t);
  }

  /** A name made of capital letters is already normal. */
  lemma {:induction false} NormalizeCapitals(s: string)
    requires forall i :: 0 <= i < |s| ==> 'A' <= s[i] <= 'Z'
    ensures NormalizeName(s) == s
  {
    if s != [] {
      NormalizeCapitals(s[1..]);
    }
  }

  lemma PatternNameIsNormal(o: ByteOrder)
    ensures NormalizeName(PatternName(o)) == PatternName(o)
  {
    NormalizeCapitals(PatternName(o));
  }

  /** Each order's pattern name parses back to that order. */
  lemma FromStrPatternName(o: ByteOrder)
    ensures FromStr(PatternName(o)) == Some(o)
  {
    PatternNameIsNormal(o);
    OrderNamedPatternName(o);
  }

  lemma OrderNamedPatternName(o: ByteOrder)
    ensures OrderNamed(PatternName(o)) == Some(o)
  {
  }

  /** The lower-case pattern names parse too. */
  lemma FromStrLowerPatternName(o: ByteOrder)
    ensures FromStr(LowerString(PatternName(o))) == Some(o)
  {
    FromStrPatternName(o);
    FromStrIgnoresCase(PatternName(o));
  }

  /** "big-endian", "big_endian" and "bigendian" all name big-endian order. */
  lemma FromStrSeparatedName(sep: char)
    requires IsSeparator(sep)
    ensures FromStr("big" + [sep] + "endian") == Some(BigEndian)
  {
    FromStrIgnoresSeparator("big", "endian", sep);
    LowerBigEndian();
    FromStrIgnoresCase("BIGENDIAN");
    FromStrBigEndian();
  }

  lemma FromStrBigEndian()
    ensures FromStr("BIGENDIAN") == Some(BigEndian)
  {
    FromStrCapitals("BIGENDIAN");
    OrderNamedBigEndian();
  }

  lemma OrderNamedBigEndian()
    ensures OrderNamed("BIGENDIAN") == Some(BigEndian)
  {
  }

  lemma LowerBigEndian()
    ensures "big" + "endian" == LowerString("BIGENDIAN")
  {
    LowerStringChars("BIGENDIAN");
  }

  lemma FromStrCapitals(s: string)
    requires forall i :: 0 <= i < |s| ==> 'A' <= s[i] <= 'Z'
    ensures FromStr(s) == OrderNamed(s)
  {
    NormalizeCapitals(s);
  }

  /** No accepted name has seven characters, so "invalid" is refused, and so is the empty name. */
  lemma FromStrRejects()
    ensures FromStr("") == None && FromStr("invalid") == None
  {
    FromStrSevenLetters("invalid");
  }

  lemma FromStrSevenLetters(s: string)
    requires |s| == 7 && forall i :: 0 <= i < 7 ==> !IsSeparator(s[i])
    ensures FromStr(s) == None
  {
    NormalizeWithoutSeparators(s);
  }

  // ---------------------------------------------------------------------------
  // Registers <-> bytes
  // ---------------------------------------------------------------------------

  type Regs2 = s: seq<uint16> | |s| == 2 witness [0, 0]
  type Regs4 = s: seq<uint16> | |s| == 4 witness [0, 0, 0, 0]
  type Bytes2 = s: seq<uint8> | |s| == 2 witness [0, 0]
  type Bytes4 = s: seq<uint8> | |s| == 4 witness [0, 0, 0, 0]
  type Bytes8 = s: seq<uint8> | |s| == 8 witness [0, 0, 0, 0, 0, 0, 0, 0]

  /** `bytes_4_to_regs`: group four bytes into two registers according to `order`. */
  function Bytes4ToRegs(b: Bytes4, order: ByteOrder): Regs2
  {
    match order
    case BigEndian | BigEndian16 => [Word(b[0], b[1]), Word(b[2], b[3])]
    case LittleEndian | LittleEndian16 => [Word(b[3], b[2]), Word(b[1], b[0])]
    case BigEndianSwap => [Word(b[2], b[3]), Word(b[0], b[1])]
    case LittleEndianSwap => [Word(b[1], b[0]), Word(b[3], b[2])]
  }

  /** `regs_to_bytes_4`: the four bytes of two registers, in the order's byte pattern. */
  function RegsToBytes4(regs: Regs2, order: ByteOrder): (b: Bytes4)
    ensures Bytes4ToRegs(b, order) == regs
  {
    var h0, h1 := regs[0], regs[1];
    match order
    case BigEndian | BigEndian16 => [Hi(h0), Lo(h0), Hi(h1), Lo(h1)]
    case LittleEndian | LittleEndian16 => [Lo(h1), Hi(h1), Lo(h0), Hi(h0)]
    case BigEndianSwap => [Hi(h1), Lo(h1), Hi(h0), Lo(h0)]
    case LittleEndianSwap => [Lo(h0), Hi(h0), Lo(h1), Hi(h1)]
  }

  /** Splitting registers back into bytes recovers the bytes they were built from. */
  lemma Bytes4RoundTrip(b: Bytes4, order: ByteOrder)
    ensures RegsToBytes4(Bytes4ToRegs(b, order), order) == b
  {
    WordOfBytes(b[0], b[1]);
    WordOfBytes(b[1], b[0]);
    WordOfBytes(b[2], b[3]);
    WordOfBytes(b[3], b[2]);
  }

  /** `bytes_8_to_regs`. */
  function Bytes8ToRegs(b: Bytes8, order: ByteOrder): Regs4
  {
    match order
    case BigEndian | BigEndian16 =>
      [Word(b[0], b[1]), Word(b[2], b[3]), Word(b[4], b[5]), Word(b[6], b[7])]
    case LittleEndian | LittleEndian16 =>
      [Word(b[7], b[6]), Word(b[5], b[4]), Word(b[3], b[2]), Word(b[1], b[0])]
    case BigEndianSwap =>
      [Word(b[6], b[7]), Word(b[4], b[5]), Word(b[2], b[3]), Word(b[0], b[1])]
    case LittleEndianSwap =>
      [Word(b[1], b[0]), Word(b[3], b[2]), Word(b[5], b[4]), Word(b[7], b[6])]
  }

  /** `regs_to_bytes_8`. */
  function RegsToBytes8(regs: Regs4, order: ByteOrder): (b: Bytes8)
    ensures Bytes8ToRegs(b, order) == regs
  {
    var h0, h1, h2, h3 := regs[0], regs[1], regs[2], regs[3];
    WordSplit(h0);
    WordSplit(h1);
    WordSplit(h2);
    WordSplit(h3);
    assert regs == [h0, h1, h2, h3];
    match order
    case BigEndian | BigEndian16 =>
      [Hi(h0), Lo(h0), Hi(h1), Lo(h1), Hi(h2), Lo(h2), Hi(h3), Lo(h3)]
    case LittleEndian | LittleEndian16 =>
      [Lo(h3), Hi(h3), Lo(h2), Hi(h2), Lo(h1), Hi(h1), Lo(h0), Hi(h0)]
    case BigEndianSwap =>
      [Hi(h3), Lo(h3), Hi(h2), Lo(h2), Hi(h1), Lo(h1), Hi(h0), Lo(h0)]
    case LittleEndianSwap =>
      [Lo(h0), Hi(h0), Lo(h1), Hi(h1), Lo(h2), Hi(h2), Lo(h3), Hi(h3)]
  }

  lemma Bytes8RoundTrip(b: Bytes8, order: ByteOrder)
    ensures RegsToBytes8(Bytes8ToRegs(b, order), order) == b
  {
    match order
    case BigEndian | BigEndian16 | BigEndianSwap =>
      WordOfBytes(b[0], b[1]);
      WordOfBytes(b[2], b[3]);
      WordOfBytes(b[4], b[5]);
      WordOfBytes(b[6], b[7]);
    case LittleEndian | LittleEndian16 | LittleEndianSwap =>
      WordOfBytes(b[1], b[0]);
      WordOfBytes(b[3], b[2]);
      WordOfBytes(b[5], b[4]);
      WordOfBytes(b[7], b[6]);
  }

  /** The 16-bit orders act as their 32-bit counterparts in every multi-register conversion. */
  lemma SixteenBitOrdersActAsWide(r2: Regs2, r4: Regs4, b4: Bytes4, b8: Bytes8)
    ensures RegsToBytes4(r2, BigEndian16) == RegsToBytes4(r2, BigEndian)
    ensures RegsToBytes4(r2, LittleEndian16) == RegsToBytes4(r2, LittleEndian)
    ensures RegsToBytes8(r4, BigEndian16) == RegsToBytes8(r4, BigEndian)
    ensures RegsToBytes8(r4, LittleEndian16) == RegsToBytes8(r4, LittleEndian)
    ensures Bytes4ToRegs(b4, BigEndian16) == Bytes4ToRegs(b4, BigEndian)
    ensures Bytes4ToRegs(b4, LittleEndian16) == Bytes4ToRegs(b4, LittleEndian)
    ensures Bytes8ToRegs(b8, BigEndian16) == Bytes8ToRegs(b8, BigEndian)
    ensures Bytes8ToRegs(b8, LittleEndian16) == Bytes8ToRegs(b8, LittleEndian)
  {
  }

  lemma RegsToBytes4Examples()
    ensures RegsToBytes4([0x1234, 0x5678], BigEndian) == [0x12, 0x34, 0x56, 0x78]
    ensures RegsToBytes4([0x1234, 0x5678], LittleEndian) == [0x78, 0x56, 0x34, 0x12]
    ensures RegsToBytes4([0x1234, 0x5678], BigEndianSwap) == [0x56, 0x78, 0x12, 0x34]
    ensures RegsToBytes4([0x1234, 0x5678], LittleEndianSwap) == [0x34, 0x12, 0x78, 0x56]
  {
  }

  // ---------------------------------------------------------------------------
  // Single register
  // ---------------------------------------------------------------------------

  /** `reg_to_bytes_2`: little-endian bytes for LittleEndian and LittleEndian16, big-endian otherwise. */
  function RegToBytes2(reg: uint16, order: ByteOrder): (b: Bytes2)
    ensures order in {LittleEndian, LittleEndian16} ==> Word(b[1], b[0]) == reg
    ensures order !in {LittleEndian, LittleEndian16} ==> Word(b[0], b[1]) == reg
  {
    match order
    case LittleEndian | LittleEndian16 => [Lo(reg), Hi(reg)]
    case _ => [Hi(reg), Lo(reg)]
  }

  /** `reg_to_u16`: swaps the two bytes for LittleEndian16 only. */
  function RegToU16(reg: uint16, order: ByteOrder): (v: uint16)
    ensures order != LittleEndian16 ==> v == reg
    ensures order == LittleEndian16 ==> Hi(v) == Lo(reg) && Lo(v) == Hi(reg)
  {
    if order == LittleEndian16 then SwapBytes(reg) else reg
  }

  /** Interpreting a register under an order twice gives the register back. */
  lemma RegToU16Involution(reg: uint16, order: ByteOrder)
    ensures RegToU16(RegToU16(reg, order), order) == reg
  {
    if order == LittleEndian16 {
      var v := SwapBytes(reg);
      assert Word(Hi(SwapBytes(v)), Lo(SwapBytes(v))) == reg;
    }
  }

  /** `reg_to_i16`. */
  function RegToI16(reg: uint16, order: ByteOrder): (v: int16)
    ensures ToUnsigned16(v) == RegToU16(reg, order)
  {
    ToSigned16(RegToU16(reg, order))
  }

  // ---------------------------------------------------------------------------
  // Integers <-> registers
  // ---------------------------------------------------------------------------

  /** `u32::from_be_bytes`. */
  function BeU32(b: Bytes4): uint32
  {
    Word(b[0], b[1]) * 0x1_0000 + Word(b[2], b[3])
  }

  /** `u32::to_be_bytes`. */
  function U32Be(v: uint32): (b: Bytes4)
    ensures BeU32(b) == v
  {
    var high, low := v / 0x1_0000, v % 0x1_0000;
    [Hi(high), Lo(high), Hi(low), Lo(low)]
  }

  /** Euclidean division by 2^16 undoes a split into high and low halves. */
  lemma Split16(high: nat, low: nat)
    requires low < 0x1_0000
    ensures (high * 0x1_0000 + low) / 0x1_0000 == high && (high * 0x1_0000 + low) % 0x1_0000 == low
  {
  }

  /** Euclidean division by 2^32 undoes a split into high and low halves. */
  lemma Split32(high: nat, low: nat)
    requires low < 0x1_0000_0000
    ensures (high * 0x1_0000_0000 + low) / 0x1_0000_0000 == high
    ensures (high * 0x1_0000_0000 + low) % 0x1_0000_0000 == low
  {
  }

  lemma BeU32Inverse(b: Bytes4)
    ensures U32Be(BeU32(b)) == b
  {
    var high, low := Word(b[0], b[1]), Word(b[2], b[3]);
    Split16(high, low);
    assert BeU32(b) / 0x1_0000 == high && BeU32(b) % 0x1_0000 == low;
    WordOfBytes(b[0], b[1]);
    WordOfBytes(b[2], b[3]);
  }

  /** `u64::from_be_bytes`. */
  function BeU64(b: Bytes8): uint64
  {
    BeU32(b[..4]) * 0x1_0000_0000 + BeU32(b[4..])
  }

  /** `u64::to_be_bytes`. */
  function U64Be(v: uint64): (b: Bytes8)
    ensures BeU64(b) == v
  {
    var b := U32Be(v / 0x1_0000_0000) + U32Be(v % 0x1_0000_0000);
    assert b[..4] == U32Be(v / 0x1_0000_0000) && b[4..] == U32Be(v % 0x1_0000_0000);
    b
  }

  lemma BeU64Inverse(b: Bytes8)
    ensures U64Be(BeU64(b)) == b
  {
    var high, low := BeU32(b[..4]), BeU32(b[4..]);
    Split32(high, low);
    assert BeU64(b) / 0x1_0000_0000 == high && BeU64(b) % 0x1_0000_0000 == low;
    BeU32Inverse(b[..4]);
    BeU32Inverse(b[4..]);
    assert b == b[..4] + b[4..];
  }

  /** `regs_to_u32`. */
  function RegsToU32(regs: Regs2, order: ByteOrder): uint32
  {
    BeU32(RegsToBytes4(regs, order))
  }

  /** `regs_to_i32`: the same bytes read as a two's-complement value. */
  function RegsToI32(regs: Regs2, order: ByteOrder): int32
  {
    ToSigned32(RegsToU32(regs, order))
  }

  /** `regs_to_u64`. */
  function RegsToU64(regs: Regs4, order: ByteOrder): uint64
  {
    BeU64(RegsToBytes8(regs, order))
  }

  /** `regs_to_i64`. */
  function RegsToI64(regs: Regs4, order: ByteOrder): int64
  {
    ToSigned64(RegsToU64(regs, order))
  }

  /** `u32_to_regs`: reading the registers back under the same order gives the value. */
  function U32ToRegs(v: uint32, order: ByteOrder): (regs: Regs2)
    ensures RegsToU32(regs, order) == v
  {
    Bytes4RoundTrip(U32Be(v), order);
    Bytes4ToRegs(U32Be(v), order)
  }

  /** `i32_to_regs`: through the unsigned path. */
  function I32ToRegs(v: int32, order: ByteOrder): (regs: Regs2)
    ensures RegsToI32(regs, order) == v
  {
    SignedRoundTrips(0, v, 0);
    U32ToRegs(ToUnsigned32(v), order)
  }

  /** `u64_to_regs`. */
  function U64ToRegs(v: uint64, order: ByteOrder): (regs: Regs4)
    ensures RegsToU64(regs, order) == v
  {
    Bytes8RoundTrip(U64Be(v), order);
    Bytes8ToRegs(U64Be(v), order)
  }

  /** `i64_to_regs`. */
  function I64ToRegs(v: int64, order: ByteOrder): (regs: Regs4)
    ensures RegsToI64(regs, order) == v
  {
    SignedRoundTrips(0, 0, v);
    U64ToRegs(ToUnsigned64(v), order)
  }

  /** Every register pair is the encoding of the value it decodes to. */
  lemma RegsToU32Inverse(regs: Regs2, order: ByteOrder)
    ensures U32ToRegs(RegsToU32(regs, order), order) == regs
  {
    BeU32Inverse(RegsToBytes4(regs, order));
  }

  lemma RegsToU64Inverse(regs: Regs4, order: ByteOrder)
    ensures U64ToRegs(RegsToU64(regs, order), order) == regs
  {
    BeU64Inverse(RegsToBytes8(regs, order));
  }
}
