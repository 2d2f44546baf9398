/** The machine-independent byte formats of my_global.h, low byte first. */
module Codec {
  type Byte = b: int | 0 <= b < 256
  type Memory = seq<Byte>

  function Power(n: nat): (p: nat)
    ensures p > 0
  {
    if n == 0 then 1 else 256 * Power(n - 1)
  }

  /** A word of n bytes at `k`, as a little-endian machine loads it. */
  function LoadWord(m: Memory, k: nat, n: nat): nat
    requires k + n <= |m|
    decreases n
  {
    if n == 0 then 0 else m[k] + 256 * LoadWord(m, k + 1, n - 1)
  }

  /** The memory after a little-endian machine stored the n low bytes of `x` at `k`. */
  function StoreWord(m: Memory, k: nat, x: int, n: nat): (r: Memory)
    requires k + n <= |m|
    ensures |r| == |m|
    decreases n
  {
    if n == 0 then m else StoreWord(m[k := x % 256], k + 1, x / 256, n - 1)
  }

  /** Only the n bytes at `k` change. */
  lemma {:induction false} StoreFrame(m: Memory, k: nat, x: int, n: nat, j: nat)
    requires k + n <= |m| && j < |m| && !(k <= j < k + n)
    ensures StoreWord(m, k, x, n)[j] == m[j]
    decreases n
  {
    if n > 0 {
      StoreFrame(m[k := x % 256], k + 1, x / 256, n - 1, j);
    }
  }

  /** Byte i of the word holds the bits of weight 256^i. */
  lemma {:induction false} StoredBytes(m: Memory, k: nat, x: int, n: nat, i: nat)
    requires k + n <= |m| && i < n
    ensures StoreWord(m, k, x, n)[k + i] == x / Power(i) % 256
    decreases n
  {
    if i == 0 {
      StoreFrame(m[k := x % 256], k + 1, x / 256, n - 1, k);
    } else {
      StoredBytes(m[k := x % 256], k + 1, x / 256, n - 1, i - 1);
      SplitByte(x, Power(i - 1));
    }
  }

  lemma SplitByte(x: int, p: int)
    requires p > 0
    ensures x % (256 * p) == x % 256 + 256 * (x / 256 % p)
    ensures x / (256 * p) == x / 256 / p
  {
    var q, r := x / 256 / p, x % 256 + 256 * (x / 256 % p);
    assert x / 256 == p * q + x / 256 % p;
    assert x == (256 * p) * q + r by {
      assert 256 * (p * q) == (256 * p) * q;
    }
    assert 0 <= r < 256 * p;
    ModUnique(x, 256 * p, q, r);
  }

  lemma Multiple(d: int, e: int)
    requires d > 0
    ensures e > 0 ==> d * e >= d
    ensures e < 0 ==> d * e <= -d
  {
  }

  lemma ModUnique(x: int, d: int, q: int, r: int)
    requires d > 0 && x == d * q + r && 0 <= r < d
    ensures x % d == r && x / d == q
  {
    var e := x / d - q;
    assert d * e == r - x % d by {
      assert d * (x / d) - d * q == d * e;
    }
    Multiple(d, e);
  }

  /** Loading what was stored gives the value modulo 2^(8n). */
  lemma {:induction false} LoadStore(m: Memory, k: nat, x: int, n: nat)
    requires k + n <= |m|
    ensures LoadWord(StoreWord(m, k, x, n), k, n) == x % Power(n)
    decreases n
  {
    if n > 0 {
      var m' := m[k := x % 256];
      LoadStore(m', k + 1, x / 256, n - 1);
      StoreFrame(m', k + 1, x / 256, n - 1, k);
      SplitByte(x, Power(n - 1));
    }
  }

  /** Storing what was loaded changes nothing. */
  lemma {:induction false} StoreLoad(m: Memory, k: nat, n: nat)
    requires k + n <= |m|
    ensures StoreWord(m, k, LoadWord(m, k, n), n) == m
    decreases n
  {
    if n > 0 {
      var x := LoadWord(m, k, n);
      assert x % 256 == m[k] && x / 256 == LoadWord(m, k + 1, n - 1);
      assert m[k := m[k]] == m;
      StoreLoad(m, k + 1, n - 1);
    }
  }

  /** A word can be stored in two parts. */
  lemma {:induction false} StoreSplit(m: Memory, k: nat, x: int, a: nat, b: nat)
    requires k + a + b <= |m|
    ensures StoreWord(m, k, x, a + b) == StoreWord(StoreWord(m, k, x, a), k + a, x / Power(a), b)
    decreases a
  {
    if a > 0 {
      StoreSplit(m[k := x % 256], k + 1, x / 256, a - 1, b);
      SplitByte(x, Power(a - 1));
    }
  }

  /** The last byte of a word can be stored by itself. */
  lemma StoreByte(m: Memory, k: nat, x: int, n: nat)
    requires k + n < |m|
    ensures StoreWord(m, k, x, n + 1) == StoreWord(m, k, x, n)[k + n := x / Power(n) % 256]
  {
    StoreSplit(m, k, x, n, 1);
  }

  /** Only the 8n low bits of the value matter. */
  lemma {:induction false} StoreLow(m: Memory, k: nat, x: int, n: nat)
    requires k + n <= |m|
    ensures StoreWord(m, k, x % Power(n), n) == StoreWord(m, k, x, n)
    decreases n
  {
    if n > 0 {
      SplitByte(x, Power(n - 1));
      var low := x % Power(n);
      assert low % 256 == x % 256 && low / 256 == x / 256 % Power(n - 1);
      StoreLow(m[k := x % 256], k + 1, x / 256, n - 1);
    }
  }

  lemma Powers()
    ensures Power(0) == 1 && Power(1) == 0x100 && Power(2) == 0x1_0000 && Power(3) == 0x100_0000
    ensures Power(4) == 0x1_0000_0000 && Power(5) == 0x100_0000_0000
    ensures Power(6) == 0x1_0000_0000_0000 && Power(8) == 0x1_0000_0000_0000_0000
  {
  }

  lemma StoreBytes(m: Memory, k: nat, x: int, n: nat)
    requires 2 <= n <= 6 && k + n <= |m|
    ensures StoreWord(m, k, x, 2) == m[k := x % 256][k + 1 := x / 0x100 % 256]
    ensures n >= 3 ==> StoreWord(m, k, x, 3) == StoreWord(m, k, x, 2)[k + 2 := x / 0x1_0000 % 256]
    ensures n >= 4 ==> StoreWord(m, k, x, 4) == StoreWord(m, k, x, 3)[k + 3 := x / 0x100_0000 % 256]
    ensures n >= 5 ==> StoreWord(m, k, x, 5) == StoreWord(m, k, x, 4)[k + 4 := x / 0x1_0000_0000 % 256]
    ensures n >= 6 ==> StoreWord(m, k, x, 6) == StoreWord(m, k, x, 5)[k + 5 := x / 0x100_0000_0000 % 256]
  {
    Powers();
    StoreByte(m, k, x, 0);
    StoreByte(m, k, x, 1);
    if n >= 3 { StoreByte(m, k, x, 2); }
    if n >= 4 { StoreByte(m, k, x, 3); }
    if n >= 5 { StoreByte(m, k, x, 4); }
    if n >= 6 { StoreByte(m, k, x, 5); }
  }

  // ---------- the stores byte by byte ----------

  method Int2Store(t: array<Byte>, k: nat, a: int)
    requires k + 2 <= t.Length
    modifies t
    ensures t[..] == StoreWord(old(t[..]), k, a, 2)
  {
    StoreBytes(t[..], k, a, 2);
    t[k] := a % 256;
    t[k + 1] := a / 0x100 % 256;
  }

  method Int3Store(t: array<Byte>, k: nat, a: int)
    requires k + 3 <= t.Length
    modifies t
    ensures t[..] == StoreWord(old(t[..]), k, a, 3)
  {
    StoreBytes(t[..], k, a, 3);
    t[k] := a % 256;
    t[k + 1] := a / 0x100 % 256;
    t[k + 2] := a / 0x1_0000 % 256;
  }

  method Int4Store(t: array<Byte>, k: nat, a: int)
    requires k + 4 <= t.Length
    modifies t
    ensures t[..] == StoreWord(old(t[..]), k, a, 4)
  {
    StoreBytes(t[..], k, a, 4);
    t[k] := a % 256;
    t[k + 1] := a / 0x100 % 256;
    t[k + 2] := a / 0x1_0000 % 256;
    t[k + 3] := a / 0x100_0000 % 256;
  }

  method Int5Store(t: array<Byte>, k: nat, a: int)
    requires k + 5 <= t.Length
    modifies t
    ensures t[..] == StoreWord(old(t[..]), k, a, 5)
  {
    StoreBytes(t[..], k, a, 5);
    t[k] := a % 256;
    t[k + 1] := a / 0x100 % 256;
    t[k + 2] := a / 0x1_0000 % 256;
    t[k + 3] := a / 0x100_0000 % 256;
    t[k + 4] := a / 0x1_0000_0000 % 256;
  }

  method Int6Store(t: array<Byte>, k: nat, a: int)
    requires k + 6 <= t.Length
    modifies t
    ensures t[..] == StoreWord(old(t[..]), k, a, 6)
  {
    StoreBytes(t[..], k, a, 6);
    t[k] := a % 256;
    t[k + 1] := a / 0x100 % 256;
    t[k + 2] := a / 0x1_0000 % 256;
    t[k + 3] := a / 0x100_0000 % 256;
    t[k + 4] := a / 0x1_0000_0000 % 256;
    t[k + 5] := a / 0x100_0000_0000 % 256;
  }

  /** Two stores of four bytes, one for each half of the value. */
  method Int8Store(t: array<Byte>, k: nat, a: int)
    requires k + 8 <= t.Length
    modifies t
    ensures t[..] == StoreWord(old(t[..]), k, a, 8)
  {
    Powers();
    StoreLow(t[..], k, a, 4);
    StoreLow(StoreWord(t[..], k, a, 4), k + 4, a / 0x1_0000_0000, 4);
    StoreSplit(t[..], k, a, 4, 4);
    var temp, temp2 := a % 0x1_0000_0000, a / 0x1_0000_0000 % 0x1_0000_0000;
    Int4Store(t, k, temp);
    Int4Store(t, k + 4, temp2);
  }

  // ---------- the reads byte by byte ----------

  /** The cast of a byte to a wider integer. */
  function Wide(b: Byte): nat { b }

  function Uint2Korr(m: Memory, k: nat): nat
    requires k + 2 <= |m|
  {
    (Wide(m[k]) + 0x100 * Wide(m[k + 1])) % 0x1_0000
  }

  function Uint3Korr(m: Memory, k: nat): nat
    requires k + 3 <= |m|
  {
    (Wide(m[k]) + 0x100 * Wide(m[k + 1]) + 0x1_0000 * Wide(m[k + 2])) % 0x1_0000_0000
  }

  /** The x86 form loads four bytes and drops the last. */
  function Uint3KorrX86(m: Memory, k: nat): nat
    requires k + 4 <= |m|
  {
    LoadWord(m, k, 4) % 0x100_0000
  }

  /** Four bytes put together, the lowest first. */
  function FourBytes(b0: Byte, b1: Byte, b2: Byte, b3: Byte): (r: nat)
    ensures r < 0x1_0000_0000
  {
    Wide(b0) + 0x100 * Wide(b1) + 0x1_0000 * Wide(b2) + 0x100_0000 * Wide(b3)
  }

  function Uint4Korr(m: Memory, k: nat): nat
    requires k + 4 <= |m|
  {
    FourBytes(m[k], m[k + 1], m[k + 2], m[k + 3])
  }

  function Uint5Korr(m: Memory, k: nat): nat
    requires k + 5 <= |m|
  {
    Uint4Korr(m, k) + 0x1_0000_0000 * Wide(m[k + 4])
  }

  function Uint6Korr(m: Memory, k: nat): nat
    requires k + 6 <= |m|
  {
    Uint4Korr(m, k) + 0x1_0000_0000 * Wide(m[k + 4]) + 0x100_0000_0000 * Wide(m[k + 5])
  }

  function Uint8Korr(m: Memory, k: nat): nat
    requires k + 8 <= |m|
  {
    Uint4Korr(m, k) + 0x1_0000_0000 * Uint4Korr(m, k + 4)
  }

  lemma MulAssoc(a: int, b: int, c: int)
    ensures a * (b * c) == (a * b) * c
  {
  }

  lemma {:induction false} LoadSplit(m: Memory, k: nat, a: nat, b: nat)
    requires k + a + b <= |m|
    ensures LoadWord(m, k, a + b) == LoadWord(m, k, a) + Power(a) * LoadWord(m, k + a, b)
    decreases a
  {
    if a > 0 {
      LoadSplit(m, k + 1, a - 1, b);
      MulAssoc(256, Power(a - 1), LoadWord(m, k + a, b));
    }
  }

  /** The portable reads are the word loads of the x86 forms. */
  lemma ShortReads(m: Memory, k: nat)
    ensures k + 2 <= |m| ==> Uint2Korr(m, k) == LoadWord(m, k, 2)
    ensures k + 3 <= |m| ==> Uint3Korr(m, k) == LoadWord(m, k, 3)
    ensures k + 4 <= |m| ==> Uint4Korr(m, k) == LoadWord(m, k, 4)
  {
  }

  lemma LongReads(m: Memory, k: nat)
    ensures k + 5 <= |m| ==> Uint5Korr(m, k) == LoadWord(m, k, 5)
    ensures k + 6 <= |m| ==> Uint6Korr(m, k) == LoadWord(m, k, 6)
    ensures k + 8 <= |m| ==> Uint8Korr(m, k) == LoadWord(m, k, 8)
  {
    ShortReads(m, k);
    ShortReads(m, k + 4);
    Powers();
    if k + 5 <= |m| { LoadSplit(m, k, 4, 1); }
    if k + 6 <= |m| { LoadSplit(m, k, 4, 2); }
    if k + 8 <= |m| { LoadSplit(m, k, 4, 4); }
  }

  /** The x86 read of three bytes does not depend on the fourth one it touches. */
  lemma FourthByteIsDropped(m: Memory, k: nat)
    requires k + 4 <= |m|
    ensures Uint3KorrX86(m, k) == Uint3Korr(m, k)
  {
  }

  // ---------- signed reads ----------

  /** The cast of an unsigned value below 2 * half to the signed type of the same width. */
  function Signed(x: int, half: int): int {
    if x < half then x else x - 2 * half
  }

  /** The byte 255 is put on top when the sign bit of the third byte is set. */
  function Sint3Korr(m: Memory, k: nat): int
    requires k + 3 <= |m|
  {
    Signed((if m[k + 2] >= 128 then 255 * 0x100_0000 else 0)
           + 0x1_0000 * Wide(m[k + 2]) + 0x100 * Wide(m[k + 1]) + Wide(m[k]), 0x8000_0000)
  }

  lemma SignedOfLow(x: int, half: int)
    requires -half <= x < half
    ensures Signed(x % (2 * half), half) == x
  {
    if x >= 0 {
      ModUnique(x, 2 * half, 0, x);
    } else {
      ModUnique(x, 2 * half, -1, x + 2 * half);
    }
  }

  /** A signed read of n bytes restores every value of its range. */
  lemma SignedRoundTrip(m: Memory, k: nat, x: int, n: nat, half: int)
    requires k + n <= |m| && 2 * half == Power(n) && -half <= x < half
    ensures Signed(LoadWord(StoreWord(m, k, x, n), k, n), half) == x
  {
    LoadStore(m, k, x, n);
    SignedOfLow(x, half);
  }

  /** The cast of a wider value to the signed type of 2 * half values. */
  function Cast(x: int, half: int): int
    requires half > 0
  {
    Signed(x % (2 * half), half)
  }

  function Sint2Korr(m: Memory, k: nat): int
    requires k + 2 <= |m|
  {
    Cast(Wide(m[k]) + 0x100 * Wide(m[k + 1]), 0x8000)
  }

  /** The highest byte is moved into the sign bit before it is added. */
  function Sint4Korr(m: Memory, k: nat): int
    requires k + 4 <= |m|
  {
    Cast(Wide(m[k]) + 0x100 * Wide(m[k + 1]) + 0x1_0000 * Wide(m[k + 2])
         + Cast(0x100_0000 * Wide(m[k + 3]), 0x8000_0000), 0x8000_0000)
  }

  function Sint8Korr(m: Memory, k: nat): int
    requires k + 8 <= |m|
  {
    Cast(Uint8Korr(m, k), 0x8000_0000_0000_0000)
  }

  lemma CastOfUnsigned(x: int, half: int)
    requires 0 <= x < 2 * half
    ensures Cast(x, half) == Signed(x, half)
    ensures Cast(x - 2 * half, half) == Signed(x, half)
  {
    ModUnique(x, 2 * half, 0, x);
    ModUnique(x - 2 * half, 2 * half, -1, x);
  }

  lemma {:induction false} LoadBelow(m: Memory, k: nat, n: nat)
    requires k + n <= |m|
    ensures LoadWord(m, k, n) < Power(n)
    decreases n
  {
    if n > 0 {
      LoadBelow(m, k + 1, n - 1);
    }
  }

  /** The portable signed reads are the signed word loads of the x86 forms. */
  lemma SignedReads(m: Memory, k: nat)
    ensures k + 2 <= |m| ==> Sint2Korr(m, k) == Signed(LoadWord(m, k, 2), 0x8000)
    ensures k + 4 <= |m| ==> Sint4Korr(m, k) == Signed(LoadWord(m, k, 4), 0x8000_0000)
    ensures k + 8 <= |m| ==> Sint8Korr(m, k) == Signed(LoadWord(m, k, 8), 0x8000_0000_0000_0000)
  {
    ShortReads(m, k);
    LongReads(m, k);
    Powers();
    if k + 4 <= |m| {
      Sint4IsCast(m, k);
      CastOfUnsigned(Uint4Korr(m, k), 0x8000_0000);
    }
    if k + 8 <= |m| {
      LoadBelow(m, k, 8);
      CastOfUnsigned(Uint8Korr(m, k), 0x8000_0000_0000_0000);
    }
  }

  lemma Sint4IsCast(m: Memory, k: nat)
    requires k + 4 <= |m|
    ensures Sint4Korr(m, k) == Cast(Uint4Korr(m, k), 0x8000_0000)
         || Sint4Korr(m, k) == Cast(Uint4Korr(m, k) - 0x1_0000_0000, 0x8000_0000)
  {
    CastOfUnsigned(0x100_0000 * Wide(m[k + 3]), 0x8000_0000);
  }

  lemma Sint3RoundTrip(m: Memory, k: nat, x: int)
    requires k + 3 <= |m| && -0x80_0000 <= x < 0x80_0000
    ensures Sint3Korr(StoreWord(m, k, x, 3), k) == x
  {
  }

  /** sint2korr, sint4korr and sint8korr restore every value of their types. */
  lemma SignedRoundTrips(m: Memory, k: nat, x: int)
    ensures k + 2 <= |m| && -0x8000 <= x < 0x8000 ==> Sint2Korr(StoreWord(m, k, x, 2), k) == x
    ensures k + 4 <= |m| && -0x8000_0000 <= x < 0x8000_0000 ==> Sint4Korr(StoreWord(m, k, x, 4), k) == x
    ensures k + 8 <= |m| && -0x8000_0000_0000_0000 <= x < 0x8000_0000_0000_0000
            ==> Sint8Korr(StoreWord(m, k, x, 8), k) == x
  {
    Powers();
    if k + 2 <= |m| && -0x8000 <= x < 0x8000 {
      SignedRoundTrip(m, k, x, 2, 0x8000);
      SignedReads(StoreWord(m, k, x, 2), k);
    }
    if k + 4 <= |m| && -0x8000_0000 <= x < 0x8000_0000 {
      SignedRoundTrip(m, k, x, 4, 0x8000_0000);
      SignedReads(StoreWord(m, k, x, 4), k);
    }
    if k + 8 <= |m| && -0x8000_0000_0000_0000 <= x < 0x8000_0000_0000_0000 {
      SignedRoundTrip(m, k, x, 8, 0x8000_0000_0000_0000);
      SignedReads(StoreWord(m, k, x, 8), k);
    }
  }

  // ---------- network byte order ----------

  /** Disjoint bytes put together with `|`. */
  function Int4Net(m: Memory, k: nat): int
    requires k + 4 <= |m|
  {
    Signed(FourBytes(m[k + 3], m[k + 2], m[k + 1], m[k]), 0x8000_0000)
  }

  function Reversed(m: Memory): (r: Memory)
    ensures |r| == |m|
  {
    if m == [] then [] else Reversed(m[1..]) + [m[0]]
  }

  lemma ReversedFour(m: Memory)
    requires |m| == 4
    ensures Reversed(m) == [m[3], m[2], m[1], m[0]]
  {
    assert m[2..][1..] == m[3..] && m[1..][1..] == m[2..];
    assert Reversed(m[3..]) == [m[3]];
    assert Reversed(m[1..]) == [m[3], m[2], m[1]];
  }

  /** int4net reads the reversed bytes of what uint4korr reads, as a signed value. */
  lemma NetIsReversed(m: Memory)
    requires |m| == 4
    ensures Int4Net(Reversed(m), 0) == Signed(Uint4Korr(m, 0), 0x8000_0000)
  {
    ReversedFour(m);
  }
}
