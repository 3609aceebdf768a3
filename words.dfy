/**
 * Fixed-width integers and the byte/bit arithmetic every other module relies on.
 *
 * Rust's u8/u16/u32/u64 and i16/i32/i64 are modelled as subset types of `int`;
 * every narrowing the source performs (`as u8`, `as i16`, `saturating_add`,
 * `div_ceil`, `x >> k & 1`, `x |= 1 << k`) is written out as a function here.
 */
module Words {

  type uint8 = x: int | 0 <= x < 0x100
  type uint16 = x: int | 0 <= x < 0x1_0000
  type uint32 = x: int | 0 <= x < 0x1_0000_0000
  type uint64 = x: int | 0 <= x < 0x1_0000_0000_0000_0000
  type int16 = x: int | -0x8000 <= x < 0x8000
  type int32 = x: int | -0x8000_0000 <= x < 0x8000_0000
  type int64 = x: int | -0x8000_0000_0000_0000 <= x < 0x8000_0000_0000_0000

  const U16Max: uint16 := 0xFFFF
  const U64Max: uint64 := 0xFFFF_FFFF_FFFF_FFFF

  // ---------------------------------------------------------------------------
  // Bytes of a 16-bit register
  // ---------------------------------------------------------------------------

  /** `u16::from_be_bytes([hi, lo])`. */
  function Word(hi: uint8, lo: uint8): uint16
  {
    hi * 0x100 + lo
  }

  /** `(v >> 8) as u8`, the first byte of `v.to_be_bytes()`. */
  function Hi(v: uint16): uint8
  {
    v / 0x100
  }

  /** `(v & 0xFF) as u8`, the second byte of `v.to_be_bytes()`. */
  function Lo(v: uint16): uint8
  {
    v % 0x100
  }

  /** Joining the two bytes of a word gives the word back. */
  lemma WordSplit(v: uint16)
    ensures Word(Hi(v), Lo(v)) == v
  {
  }

  /** Splitting a word and joining its bytes again are inverse. */
  lemma WordOfBytes(hi: uint8, lo: uint8)
    ensures Hi(Word(hi, lo)) == hi && Lo(Word(hi, lo)) == lo
  {
  }

  /** `u16::swap_bytes`. */
  function SwapBytes(v: uint16): (r: uint16)
    ensures Hi(r) == Lo(v) && Lo(r) == Hi(v)
  {
    WordOfBytes(Lo(v), Hi(v));
    Word(Lo(v), Hi(v))
  }

  // ---------------------------------------------------------------------------
  // Ceiling division and saturation
  // ---------------------------------------------------------------------------

  /** `n.div_ceil(d)`: the least q with q * d >= n. */
  function DivCeil(n: nat, d: nat): (q: nat)
    requires d > 0
    ensures q * d >= n
    ensures q == 0 || (q - 1) * d < n
  {
    var q := (n + d - 1) / d;
    assert (n + d - 1) == q * d + (n + d - 1) % d;
    q
  }

  /** `a.saturating_add(b)` on u16: the sum, stuck at 65535 instead of wrapping. */
  function SatAdd16(a: uint16, b: uint16): (r: uint16)
    ensures a + b <= U16Max ==> r == a + b
    ensures a + b > U16Max ==> r == U16Max
  {
    if a + b <= U16Max then a + b else U16Max
  }

  /** `b & 0x80 != 0` on a byte: the top bit is set. */
  predicate HighBitSet(b: uint8)
  {
    b >= 0x80
  }

  /** `b & 0x7F` on a byte: the byte with its top bit cleared. */
  function Low7(b: uint8): (r: uint8)
    ensures r < 0x80 && (HighBitSet(b) ==> r == b - 0x80) && (!HighBitSet(b) ==> r == b)
  {
    b % 0x80
  }

  function Min(a: int, b: int): int
  {
    if a <= b then a else b
  }

  // ---------------------------------------------------------------------------
  // Two's complement reinterpretation (`as` between signed and unsigned)
  // ---------------------------------------------------------------------------

  /** `u as i16`. */
  function ToSigned16(u: uint16): (i: int16)
    ensures ToUnsigned16(i) == u
  {
    if u < 0x8000 then u else u - 0x1_0000
  }

  /** `i as u16`. */
  function ToUnsigned16(i: int16): uint16
  {
    if i < 0 then i + 0x1_0000 else i
  }

  /** `u as i32`. */
  function ToSigned32(u: uint32): (i: int32)
    ensures ToUnsigned32(i) == u
  {
    if u < 0x8000_0000 then u else u - 0x1_0000_0000
  }

  /** `i as u32`. */
  function ToUnsigned32(i: int32): uint32
  {
    if i < 0 then i + 0x1_0000_0000 else i
  }

  /** `u as i64`. */
  function ToSigned64(u: uint64): (i: int64)
    ensures ToUnsigned64(i) == u
  {
    if u < 0x8000_0000_0000_0000 then u else u - 0x1_0000_0000_0000_0000
  }

  /** `i as u64`. */
  function ToUnsigned64(i: int64): uint64
  {
    if i < 0 then i + 0x1_0000_0000_0000_0000 else i
  }

  /** Reinterpreting a signed value as unsigned and back is the identity. */
  lemma SignedRoundTrips(a: int16, b: int32, c: int64)
    ensures ToSigned16(ToUnsigned16(a)) == a
    ensures ToSigned32(ToUnsigned32(b)) == b
    ensures ToSigned64(ToUnsigned64(c)) == c
  {
  }

  // ---------------------------------------------------------------------------
  // Bits, LSB first
  // ---------------------------------------------------------------------------

  function Pow2(k: nat): (p: nat)
    ensures p >= 1
  {
    if k == 0 then 1 else 2 * Pow2(k - 1)
  }

  /** `(x >> k) & 1 != 0`: bit k of x, bit 0 being the least significant. */
  function Bit(x: nat, k: nat): bool
  {
    if k == 0 then x % 2 == 1 else Bit(x / 2, k - 1)
  }

  /** `x | (1 << k)`: x when bit k is already set, otherwise x plus 2^k. */
  function SetBit(x: nat, k: nat): nat
  {
    if Bit(x, k) then x else x + Pow2(k)
  }

  /** The number whose bit i is bits[i] (the first flag is the least significant bit). */
  function PackBits(bits: seq<bool>): (x: nat)
    ensures x < Pow2(|bits|)
  {
    if bits == [] then 0 else (if bits[0] then 1 else 0) + 2 * PackBits(bits[1..])
  }

  /** A bit beyond the width of x is clear. */
  lemma {:induction false} BitAboveWidth(x: nat, k: nat)
    requires x < Pow2(k)
    ensures !Bit(x, k)
  {
    if k > 0 {
      BitAboveWidth(x / 2, k - 1);
    }
  }

  /** Reading bit k of a packed flag list gives back flag k. */
  lemma {:induction false} BitOfPackBits(bits: seq<bool>, k: nat)
    requires k < |bits|
    ensures Bit(PackBits(bits), k) == bits[k]
  {
    if k > 0 {
      var x := PackBits(bits);
      assert x / 2 == PackBits(bits[1..]);
      BitOfPackBits(bits[1..], k - 1);
    }
  }

  /** Appending one flag sets the next bit: this is what `byte |= 1 << i` does in a packing loop. */
  lemma {:induction false} PackBitsSnoc(bits: seq<bool>, b: bool)
    ensures PackBits(bits + [b]) == if b then SetBit(PackBits(bits), |bits|) else PackBits(bits)
  {
    BitAboveWidth(PackBits(bits), |bits|);
    if bits != [] {
      assert (bits + [b])[1..] == bits[1..] + [b];
      PackBitsSnoc(bits[1..], b);
    }
  }

  lemma {:induction false} Pow2Monotone(j: nat, k: nat)
    requires j <= k
    ensures Pow2(j) <= Pow2(k)
  {
    if j < k {
      Pow2Monotone(j, k - 1);
    }
  }

  /** At most eight flags, packed LSB first into one byte. */
  function PackByte(bits: seq<bool>): (b: uint8)
    requires |bits| <= 8
    ensures forall k :: 0 <= k < |bits| ==> Bit(b, k) == bits[k]
  {
    Pow2Monotone(|bits|, 8);
    assert Pow2(8) == 256;
    forall k | 0 <= k < |bits| ensures Bit(PackBits(bits), k) == bits[k] {
      BitOfPackBits(bits, k);
    }
    PackBits(bits)
  }
}
