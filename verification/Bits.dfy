/** The bit tricks of my_bit.h, on 32-bit words. */
module Bits {
  predicate IsPow(p: bv32) { p != 0 && p & (p - 1) == 0 }

  /** 2^k modulo 2^32. */
  function TwoTo(k: nat): bv32 {
    if k == 0 then 1 else TwoTo(k - 1) << 1
  }

  // ---------- my_bit_log2 ----------

  /** The place of the highest bit: 2^k <= v < 2^(k+1), for the power q = 2^k. */
  predicate IsTopBit(v: bv32, q: bv32) {
    IsPow(q) && q <= v && v >> 1 < q
  }

  function Log2(v: bv32): nat
    decreases v
  {
    if v <= 1 then 0 else Log2(v >> 1) + 1
  }

  method BitLog2(value: bv32) returns (bit: nat)
    ensures bit == Log2(value)
  {
    var v := value;
    bit := 0;
    while v > 1
      invariant bit + Log2(v) == Log2(value)
      decreases v
    {
      v := v >> 1;
      bit := bit + 1;
    }
  }

  lemma TopBitDoubles(v: bv32, q: bv32)
    requires v > 1 && IsTopBit(v >> 1, q)
    ensures IsTopBit(v, q << 1)
  {
  }

  lemma TopBitStep(v: bv32, k: nat)
    requires v > 1 && IsTopBit(v >> 1, TwoTo(k))
    ensures IsTopBit(v, TwoTo(k + 1))
  {
    TopBitDoubles(v, TwoTo(k));
  }

  /** The loop computes the floor of the logarithm: 2^k <= v < 2^(k+1). */
  lemma {:induction false} LogIsFloor(v: bv32)
    requires v != 0
    ensures IsTopBit(v, TwoTo(Log2(v)))
    decreases v
  {
    if v > 1 {
      LogIsFloor(v >> 1);
      TopBitStep(v, Log2(v >> 1));
    }
  }

  lemma {:induction false} BelowLog(v: bv32, y: nat)
    requires y < Log2(v)
    ensures TwoTo(y) < v
    decreases y
  {
    if y > 0 {
      BelowLog(v >> 1, y - 1);
    }
  }

  lemma PowAtTop(v: bv32, q: bv32)
    requires IsTopBit(v, q)
    ensures v <= q <==> v & (v - 1) == 0
  {
  }

  /** x is the smallest exponent with 2^x >= v. */
  ghost predicate IsCeilingLog(v: bv32, x: nat) {
    TwoTo(x) >= v && forall y: nat :: y < x ==> TwoTo(y) < v
  }

  /** The floor is the smallest x with 2^x >= v exactly for 0 and the powers of two. */
  lemma LogIsCeilingExactly(v: bv32)
    ensures IsCeilingLog(v, Log2(v)) <==> v & (v - 1) == 0
  {
    if v != 0 {
      LogIsFloor(v);
      PowAtTop(v, TwoTo(Log2(v)));
    }
    forall y: nat | y < Log2(v) ensures TwoTo(y) < v {
      BelowLog(v, y);
    }
  }

  /** For 3 the loop gives 1, and 2^1 < 3. */
  lemma LogOfThree()
    ensures Log2(3) == 1 && !IsCeilingLog(3, Log2(3))
  {
  }

  // ---------- my_round_up_to_next_power ----------

  /** v |= v >> 1, 2, 4, 8, 16: sets every bit below the highest one. */
  function Smear(v: bv32): bv32 {
    var v1 := v | (v >> 1);
    var v2 := v1 | (v1 >> 2);
    var v3 := v2 | (v2 >> 4);
    var v4 := v3 | (v3 >> 8);
    v4 | (v4 >> 16)
  }

  /** s has the form 2^j - 1 and the same highest bit as v. */
  predicate IsSmear(v: bv32, s: bv32) {
    s & (s + 1) == 0 && v <= s && (v != 0 ==> s >> 1 < v) && (v == 0 ==> s == 0)
  }

  lemma SmearIsSmear(v: bv32)
    ensures IsSmear(v, Smear(v))
  {
  }

  /** The first power of two above v is one more than its smear. */
  lemma PowAbove(v: bv32, s: bv32, p: bv32)
    requires IsSmear(v, s) && IsPow(p) && p > v
    ensures p > s
  {
  }

  function RoundUp(v: bv32): bv32 { Smear(v - 1) + 1 }

  /** The result is a power of two at least v, and no power of two in between is; when
      there is none in 32 bits, and for 0, it is 0. */
  lemma RoundUpIsLeast(v: bv32)
    ensures 1 <= v <= 0x8000_0000 ==> IsPow(RoundUp(v)) && v <= RoundUp(v)
    ensures v == 0 || v > 0x8000_0000 ==> RoundUp(v) == 0
  {
  }

  lemma RoundUpBelow(v: bv32, p: bv32)
    requires 1 <= v <= 0x8000_0000 && IsPow(p) && v <= p
    ensures RoundUp(v) <= p
  {
    SmearIsSmear(v - 1);
    SmallSmear(v - 1, Smear(v - 1));
    PowAbove(v - 1, Smear(v - 1), p);
  }

  /** The least power of two that is at least v0, or 0 when there is none in 32 bits and
      for 0. */
  method RoundUpToNextPower(v0: bv32) returns (r: bv32)
    ensures 1 <= v0 <= 0x8000_0000 ==> IsPow(r) && v0 <= r && forall p :: IsPow(p) && v0 <= p ==> r <= p
    ensures v0 == 0 || v0 > 0x8000_0000 ==> r == 0
    ensures r == RoundUp(v0)
  {
    var v := v0 - 1;
    v := v | (v >> 1);
    v := v | (v >> 2);
    v := v | (v >> 4);
    v := v | (v >> 8);
    v := v | (v >> 16);
    RoundUpIsLeastPower(v0);
    return v + 1;
  }

  lemma RoundUpIsLeastPower(v: bv32)
    ensures var r := RoundUp(v);
            && (1 <= v <= 0x8000_0000 ==> IsPow(r) && v <= r && forall p :: IsPow(p) && v <= p ==> r <= p)
            && (v == 0 || v > 0x8000_0000 ==> r == 0)
  {
    RoundUpIsLeast(v);
    forall p | IsPow(p) && v <= p && 1 <= v <= 0x8000_0000 ensures RoundUp(v) <= p {
      RoundUpBelow(v, p);
    }
  }

  lemma SmallSmear(v: bv32, s: bv32)
    requires IsSmear(v, s) && v < 0x8000_0000
    ensures IsPow(s + 1) && v < s + 1
  {
  }

  /** Rounding up and the logarithm agree. */
  lemma RoundUpIsLog(v: bv32)
    requires 2 <= v <= 0x8000_0000
    ensures RoundUp(v) == TwoTo(Log2(v - 1) + 1)
  {
    LogIsFloor(v - 1);
    SmearIsSmear(v - 1);
    SmearOfLog(v - 1, Smear(v - 1), TwoTo(Log2(v - 1)));
  }

  /** The smear of v is 2^(k+1) - 1 when its highest bit is 2^k. */
  lemma SmearOfLog(v: bv32, s: bv32, q: bv32)
    requires IsSmear(v, s) && IsTopBit(v, q)
    ensures s + 1 == q << 1
  {
  }

  // ---------- my_clear_highest_bit ----------

  function ClearHighest(v: bv32): bv32 { v & Smear(v >> 1) }

  lemma ClearedIsTopBit(v: bv32, q: bv32)
    requires IsTopBit(v, q)
    ensures ClearHighest(v) == v ^ q == v - q && v & q == q
  {
    var s := Smear(v >> 1);
    assert v & s == v ^ q == v - q && v & q == q by {
      SmearIsSmear(v >> 1);
      MaskSubtracts(v, s, q);
    }
  }

  /** The bit that is cleared. */
  lemma ClearedBit(v: bv32) returns (q: bv32)
    requires v != 0
    ensures q == TwoTo(Log2(v)) && IsPow(q) && v & q == q && ClearHighest(v) == v ^ q == v - q
  {
    q := TwoTo(Log2(v));
    LogIsFloor(v);
    ClearedIsTopBit(v, q);
  }

  /** Clearing the highest bit subtracts 2^log2(v). */
  lemma ClearHighestSubtracts(v: bv32)
    requires v != 0
    ensures ClearHighest(v) == v - TwoTo(Log2(v))
  {
    var q := ClearedBit(v);
  }

  /** Takes away the highest bit, 2^log2(v). */
  method ClearHighestBit(v: bv32) returns (r: bv32)
    ensures r == if v == 0 then 0 else v - TwoTo(Log2(v))
    ensures r == ClearHighest(v)
  {
    var w := v >> 1;
    w := w | (w >> 1);
    w := w | (w >> 2);
    w := w | (w >> 4);
    w := w | (w >> 8);
    w := w | (w >> 16);
    ghost var cleared := Cleared(v);
    return v & w;
  }

  lemma Cleared(v: bv32) returns (r: bv32)
    ensures r == ClearHighest(v) == if v == 0 then 0 else v - TwoTo(Log2(v))
  {
    r := ClearHighest(v);
    if v != 0 {
      ClearHighestSubtracts(v);
    }
  }

  lemma MaskSubtracts(v: bv32, s: bv32, q: bv32)
    requires IsSmear(v >> 1, s) && IsTopBit(v, q)
    ensures v & s == v - q == v ^ q && v & q == q
  {
    HalfSmear(v, s, q);
    NoBitAbove(v, q);
    MaskIsXor(v, q, s);
    XorIsMinus(v, q);
  }

  lemma HalfSmear(v: bv32, s: bv32, q: bv32)
    requires IsSmear(v >> 1, s) && IsTopBit(v, q)
    ensures s == q - 1
  {
  }

  lemma NoBitAbove(v: bv32, q: bv32)
    requires IsTopBit(v, q)
    ensures v & q == q && q & (q - 1) == 0 && v & !(q | (q - 1)) == 0
  {
  }

  lemma MaskIsXor(v: bv32, q: bv32, m: bv32)
    requires v & q == q && q & m == 0 && v & !(q | m) == 0
    ensures v & m == v ^ q
  {
  }

  lemma XorIsMinus(v: bv32, q: bv32)
    requires v & q == q
    ensures v ^ q == v - q
  {
  }

  // ---------- my_count_bits ----------

  function One(b: bv8, mask: bv8): nat { if b & mask == 0 then 0 else 1 }

  /** _my_bits_nbits: the number of bits set in a byte. */
  function NBits(b: bv8): (r: nat)
    ensures r <= 8
  {
    One(b, 1) + One(b, 2) + One(b, 4) + One(b, 8) + One(b, 16) + One(b, 32) + One(b, 64) + One(b, 128)
  }

  function ByteOf(v: bv32): bv8 { (v & 0xFF) as bv8 }

  /** The sum of a table over the four bytes of a word. */
  function SumBytes(table: bv8 -> nat, v: bv32): nat {
    table(ByteOf(v)) + table(ByteOf(v >> 8)) + table(ByteOf(v >> 16)) + table(ByteOf(v >> 24))
  }

  function Low(v: bv64): bv32 { (v & 0xFFFF_FFFF) as bv32 }

  function High(v: bv64): bv32 { (v >> 32) as bv32 }

  function CountBits(v: bv64): nat {
    ByteSum(NBits, Low(v), High(v))
  }

  /** The sum over both halves, cast to a byte. */
  function ByteSum(table: bv8 -> nat, low: bv32, high: bv32): nat {
    (SumBytes(table, low) + SumBytes(table, high)) % 256
  }

  lemma Halves(v: bv32)
    ensures Low(v as bv64) == v && High(v as bv64) == 0
  {
  }

  /** The cast drops nothing. */
  lemma ByteSumExact(table: bv8 -> nat, low: bv32, high: bv32)
    requires forall b :: table(b) <= 8
    ensures ByteSum(table, low, high) == SumBytes(table, low) + SumBytes(table, high)
  {
  }

  predicate IsPow8(c: bv8) { c != 0 && c & (c - 1) == 0 }

  /** Removing a bit that is set lowers the table by one. */
  predicate Drops(table: bv8 -> nat, b: bv8, c: bv8) {
    IsPow8(c) && b & c == c ==> table(b ^ c) == table(b) - 1
  }

  lemma NBitsDrops(b: bv8, c: bv8)
    ensures Drops(NBits, b, c)
  {
  }

  lemma XorShifts(v: bv32, q: bv32)
    ensures (v ^ q) >> 8 == (v >> 8) ^ (q >> 8)
    ensures (v ^ q) >> 16 == (v >> 16) ^ (q >> 16)
    ensures (v ^ q) >> 24 == (v >> 24) ^ (q >> 24)
  {
  }

  lemma XorByte(v: bv32, q: bv32)
    ensures ByteOf(v ^ q) == ByteOf(v) ^ ByteOf(q)
    ensures ByteOf(q) == 0 ==> ByteOf(v ^ q) == ByteOf(v)
  {
  }

  lemma AndShift8(v: bv32, q: bv32)
    ensures (v & q) >> 8 == (v >> 8) & (q >> 8)
  {
  }

  lemma AndShift16(v: bv32, q: bv32)
    ensures (v & q) >> 16 == (v >> 16) & (q >> 16)
  {
  }

  lemma AndShift24(v: bv32, q: bv32)
    ensures (v & q) >> 24 == (v >> 24) & (q >> 24)
  {
  }

  lemma AndByte(v: bv32, q: bv32)
    ensures ByteOf(v & q) == ByteOf(v) & ByteOf(q)
  {
  }

  /** The only bit of a power of two lies in one of the four bytes. */
  lemma PowBytes(q: bv32)
    requires IsPow(q)
    ensures var c0, c1, c2, c3 := ByteOf(q), ByteOf(q >> 8), ByteOf(q >> 16), ByteOf(q >> 24);
            || (IsPow8(c0) && c1 == c2 == c3 == 0)
            || (IsPow8(c1) && c0 == c2 == c3 == 0)
            || (IsPow8(c2) && c0 == c1 == c3 == 0)
            || (IsPow8(c3) && c0 == c1 == c2 == 0)
  {
  }

  lemma ByteDrops(table: bv8 -> nat, v: bv32, q: bv32)
    requires forall b, c :: Drops(table, b, c)
    requires v & q == q && (ByteOf(q) == 0 || IsPow8(ByteOf(q)))
    ensures table(ByteOf(v ^ q)) == table(ByteOf(v)) - if ByteOf(q) == 0 then 0 else 1
  {
    AndByte(v, q);
    XorByte(v, q);
    assert Drops(table, ByteOf(v), ByteOf(q));
  }

  /** Removing a bit that is set lowers the sum by one. */
  lemma SumDrops(table: bv8 -> nat, v: bv32, q: bv32)
    requires forall b, c :: Drops(table, b, c)
    requires IsPow(q) && v & q == q
    ensures SumBytes(table, v ^ q) == SumBytes(table, v) - 1
  {
    PowBytes(q);
    XorShifts(v, q);
    AndShift8(v, q);
    AndShift16(v, q);
    AndShift24(v, q);
    ByteDrops(table, v, q);
    ByteDrops(table, v >> 8, q >> 8);
    ByteDrops(table, v >> 16, q >> 16);
    ByteDrops(table, v >> 24, q >> 24);
  }

  /** Clearing the highest bit removes one bit. */
  lemma ClearHighestCount(table: bv8 -> nat, v: bv32)
    requires forall b, c :: Drops(table, b, c)
    requires v != 0
    ensures SumBytes(table, ClearHighest(v)) == SumBytes(table, v) - 1
  {
    var q := ClearedBit(v);
    SumDrops(table, v, q);
  }

  /** How often the highest bit can be cleared before v is 0. */
  function Clearings(v: bv32): nat
    decreases v
  {
    if v == 0 then 0
    else
      ClearHighestLess(v);
      1 + Clearings(ClearHighest(v))
  }

  lemma ClearHighestLess(v: bv32)
    requires v != 0
    ensures ClearHighest(v) < v
  {
  }

  lemma {:induction false} SumIsClearings(table: bv8 -> nat, v: bv32)
    requires forall b, c :: Drops(table, b, c)
    requires table(0) == 0
    ensures SumBytes(table, v) == Clearings(v)
    decreases v
  {
    if v == 0 {
      assert ByteOf(0) == 0;
    } else {
      ClearHighestLess(v);
      ClearHighestCount(table, v);
      SumIsClearings(table, ClearHighest(v));
    }
  }

  /** my_count_bits is the number of times my_clear_highest_bit takes to bring both halves
      of the word to 0. */
  lemma CountIsClearings(v: bv64)
    ensures CountBits(v) == Clearings(Low(v)) + Clearings(High(v))
  {
    forall b, c ensures Drops(NBits, b, c) {
      NBitsDrops(b, c);
    }
    ByteSumExact(NBits, Low(v), High(v));
    SumIsClearings(NBits, Low(v));
    SumIsClearings(NBits, High(v));
  }

  lemma Count32IsClearings(v: bv32)
    ensures CountBits(v as bv64) == Clearings(v)
  {
    Halves(v);
    CountIsClearings(v as bv64);
  }

  /** Between them the halves hold the word. */
  lemma HalvesOfWord(v: bv64)
    ensures ((High(v) as bv64) << 32) | (Low(v) as bv64) == v
  {
  }

  predicate IsPow64(q: bv64) { q != 0 && q & (q - 1) == 0 }

  lemma LowestBit(v: bv64) returns (q: bv64)
    requires v != 0
    ensures IsPow64(q) && v & q == q && v & (v - 1) == v ^ q
  {
    q := v & !(v - 1);
  }

  lemma PowInHalves(q: bv64)
    requires IsPow64(q)
    ensures (Low(q) == 0 && IsPow(High(q))) || (High(q) == 0 && IsPow(Low(q)))
  {
  }

  lemma LowXor(v: bv64, q: bv64)
    ensures Low(v ^ q) == Low(v) ^ Low(q)
  {
  }

  lemma HighXor(v: bv64, q: bv64)
    ensures High(v ^ q) == High(v) ^ High(q)
  {
  }

  lemma LowAnd(v: bv64, q: bv64)
    ensures Low(v & q) == Low(v) & Low(q)
  {
  }

  lemma HighAnd(v: bv64, q: bv64)
    ensures High(v & q) == High(v) & High(q)
  {
  }

  lemma HalfDrops(table: bv8 -> nat, v: bv32, q: bv32)
    requires forall b, c :: Drops(table, b, c)
    requires v & q == q && (q == 0 || IsPow(q))
    ensures SumBytes(table, v ^ q) == SumBytes(table, v) - if q == 0 then 0 else 1
  {
    if q == 0 {
      assert v ^ 0 == v;
    } else {
      SumDrops(table, v, q);
    }
  }

  lemma WordDrops(table: bv8 -> nat, v: bv64, q: bv64)
    requires forall b, c :: Drops(table, b, c)
    requires v & q == q && IsPow64(q)
    ensures SumBytes(table, Low(v ^ q)) + SumBytes(table, High(v ^ q))
            == SumBytes(table, Low(v)) + SumBytes(table, High(v)) - 1
  {
    PowInHalves(q);
    LowXor(v, q);
    HighXor(v, q);
    LowAnd(v, q);
    HighAnd(v, q);
    PowIsNotZero(Low(q));
    PowIsNotZero(High(q));
    HalfDrops(table, Low(v), Low(q));
    HalfDrops(table, High(v), High(q));
  }

  lemma PowIsNotZero(p: bv32)
    ensures IsPow(p) ==> p != 0
  {
  }

  lemma ByteSumDrops(table: bv8 -> nat, v: bv64)
    requires forall b, c :: Drops(table, b, c)
    requires (forall b :: table(b) <= 8) && v != 0
    ensures ByteSum(table, Low(v & (v - 1)), High(v & (v - 1))) == ByteSum(table, Low(v), High(v)) - 1
  {
    var q := LowestBit(v);
    WordDrops(table, v, q);
    ByteSumExact(table, Low(v), High(v));
    ByteSumExact(table, Low(v ^ q), High(v ^ q));
  }

  /** my_count_bits is 0 for 0, and taking away the lowest bit that is set lowers it by one:
      so it is the number of bits of all 64 that are set. */
  lemma CountDropsLowestBit(v: bv64)
    ensures CountBits(0) == 0
    ensures v != 0 ==> CountBits(v & (v - 1)) == CountBits(v) - 1
  {
    CountOfZero();
    forall b, c ensures Drops(NBits, b, c) {
      NBitsDrops(b, c);
    }
    if v != 0 {
      ByteSumDrops(NBits, v);
    }
  }

  lemma CountOfZero()
    ensures CountBits(0) == 0
  {
    assert Low(0) == 0 && High(0) == 0 && ByteOf(0) == 0 && NBits(0) == 0;
  }

  // ---------- my_reverse_bits ----------

  /** _my_bits_reverse_table: the bits of a byte in reverse order. */
  function Reverse8(b: bv8): bv8 {
    ((b & 1) << 7) | ((b & 2) << 5) | ((b & 4) << 3) | ((b & 8) << 1)
    | ((b & 16) >> 1) | ((b & 32) >> 3) | ((b & 64) >> 5) | ((b & 128) >> 7)
  }

  function ReverseBits(key: bv32): bv32 {
    ((Reverse8(ByteOf(key)) as bv32) << 24) | ((Reverse8(ByteOf(key >> 8)) as bv32) << 16)
    | ((Reverse8(ByteOf(key >> 16)) as bv32) << 8) | (Reverse8((key >> 24) as bv8) as bv32)
  }

  /** Bit k goes to bit 31 - k. */
  lemma ReverseMovesBit(v: bv32, k: bv32)
    requires k < 32
    ensures (ReverseBits(v) >> (31 - k)) & 1 == (v >> k) & 1
  {
  }

  lemma ReverseInvolution(v: bv32)
    ensures ReverseBits(ReverseBits(v)) == v
  {
  }

  /** Seen in the mirror, clearing the highest bit clears the lowest one. */
  lemma ReverseClear(v: bv32)
    ensures ReverseBits(ClearHighest(ReverseBits(v))) == v & (v - 1)
  {
  }
}
