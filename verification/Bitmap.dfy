/** MY_BITMAP of my_bitmap.h: an array of bytes that stands for a set of indices. */
module Bitmap {
  /** 1 << k, for a bit of a byte. */
  function BitMask(k: int): bv8
    requires 0 <= k < 8
  {
    if k == 0 then 1 else if k == 1 then 2 else if k == 2 then 4 else if k == 3 then 8
    else if k == 4 then 16 else if k == 5 then 32 else if k == 6 then 64 else 128
  }

  predicate Bit(b: bv8, k: int)
    requires 0 <= k < 8
  {
    b & BitMask(k) != 0
  }

  /** Bit k is the one of weight 2^k. */
  lemma BitIsShifted(b: bv8, k: int)
    requires 0 <= k < 8
    ensures Bit(b, k) <==> (b >> k) & 1 == 1
  {
  }

  /** A byte is its eight bits. */
  lemma ByteExtensional(a: bv8, b: bv8)
    requires forall k :: 0 <= k < 8 ==> Bit(a, k) == Bit(b, k)
    ensures a == b
  {
    assert Bit(a, 0) == Bit(b, 0) && Bit(a, 1) == Bit(b, 1) && Bit(a, 2) == Bit(b, 2) && Bit(a, 3) == Bit(b, 3);
    assert Bit(a, 4) == Bit(b, 4) && Bit(a, 5) == Bit(b, 5) && Bit(a, 6) == Bit(b, 6) && Bit(a, 7) == Bit(b, 7);
  }

  lemma BitSet(a: bv8, k: int, j: int)
    requires 0 <= k < 8 && 0 <= j < 8
    ensures Bit(a | BitMask(k), j) == (j == k || Bit(a, j))
  {
  }

  lemma BitFlipped(a: bv8, k: int, j: int)
    requires 0 <= k < 8 && 0 <= j < 8
    ensures Bit(a ^ BitMask(k), j) == (Bit(a, j) != (j == k))
  {
    if j == k {
    } else {
      assert BitMask(k) & BitMask(j) == 0;
    }
  }

  lemma BitCleared(a: bv8, k: int, j: int)
    requires 0 <= k < 8 && 0 <= j < 8
    ensures Bit(a & !BitMask(k), j) == (j != k && Bit(a, j))
  {
  }

  lemma BitOr(a: bv8, m: bv8, j: int)
    requires 0 <= j < 8
    ensures Bit(a | m, j) == (Bit(a, j) || Bit(m, j))
  {
  }

  predicate BitAt(bytes: seq<bv8>, i: nat)
    requires i < 8 * |bytes|
  {
    Bit(bytes[i / 8], i % 8)
  }

  function Words(bits: nat): nat { (bits + 31) / 32 }   // no_words_in_map

  /** The words are just enough for the bits. */
  lemma WordsHoldBits(bits: nat)
    ensures 32 * Words(bits) >= bits && (bits > 0 ==> 32 * (Words(bits) - 1) < bits)
  {
  }

  /** The indices below `bits` whose bit is set. */
  function Members(bytes: seq<bv8>, bits: nat): set<nat>
    requires bits <= 8 * |bytes|
  {
    set i: nat | i < bits && BitAt(bytes, i)
  }

  /** The bytes of last_word_mask cover exactly the unused bits of the last word. */
  ghost predicate MaskOk(mask: seq<bv8>, bits: nat) {
    && bits > 0 && |mask| == 4
    && forall i :: 0 <= i < 32 ==> (BitAt(mask, i) <==> 32 * (Words(bits) - 1) + i >= bits)
  }

  lemma MaskUnique(a: seq<bv8>, b: seq<bv8>, bits: nat)
    requires MaskOk(a, bits) && MaskOk(b, bits)
    ensures a == b
  {
    forall n | 0 <= n < 4 ensures a[n] == b[n] {
      forall k | 0 <= k < 8 ensures Bit(a[n], k) == Bit(b[n], k) {
        var i := 8 * n + k;
        assert i / 8 == n && i % 8 == k;
        assert BitAt(a, i) == BitAt(b, i);
      }
      ByteExtensional(a[n], b[n]);
    }
  }

  class MyBitmap {
    const bitmap: array<bv8>       // the words, as bytes in memory order
    const nBits: nat
    const lastWordMask: seq<bv8>   // the bytes of last_word_mask in memory order

    ghost predicate Valid()
      reads this
    {
      bitmap.Length == 4 * Words(nBits) && MaskOk(lastWordMask, nBits)
    }

    function Set(): set<nat>
      requires Valid()
      reads this, bitmap
    {
      Members(bitmap[..], nBits)
    }

    constructor (bitmap: array<bv8>, nBits: nat, mask: seq<bv8>)
      requires bitmap.Length == 4 * Words(nBits) && MaskOk(mask, nBits)
      ensures Valid() && this.bitmap == bitmap && this.nBits == nBits && lastWordMask == mask
    {
      this.bitmap, this.nBits, lastWordMask := bitmap, nBits, mask;
    }

    method SetBit(bit: nat)
      requires Valid() && bit < nBits
      modifies bitmap
      ensures Set() == old(Set()) + {bit}
    {
      ghost var was := bitmap[..];
      bitmap[bit / 8] := bitmap[bit / 8] | BitMask(bit % 8);
      MembersSet(was, nBits, bit);
      assert bitmap[..] == was[bit / 8 := was[bit / 8] | BitMask(bit % 8)];
    }

    method FlipBit(bit: nat)
      requires Valid() && bit < nBits
      modifies bitmap
      ensures Set() == if bit in old(Set()) then old(Set()) - {bit} else old(Set()) + {bit}
    {
      ghost var was := bitmap[..];
      bitmap[bit / 8] := bitmap[bit / 8] ^ BitMask(bit % 8);
      MembersFlipped(was, nBits, bit);
      assert bitmap[..] == was[bit / 8 := was[bit / 8] ^ BitMask(bit % 8)];
    }

    method ClearBit(bit: nat)
      requires Valid() && bit < nBits
      modifies bitmap
      ensures Set() == old(Set()) - {bit}
    {
      ghost var was := bitmap[..];
      bitmap[bit / 8] := bitmap[bit / 8] & !BitMask(bit % 8);
      MembersCleared(was, nBits, bit, bitmap[bit / 8]);
      assert bitmap[..] == was[bit / 8 := bitmap[bit / 8]];
    }

    method IsSet(bit: nat) returns (r: bv8)
      requires Valid() && bit < nBits
      ensures r != 0 <==> bit in Set()
      ensures r != 0 <==> (bitmap[bit / 8] >> bit % 8) & 1 == 1
    {
      r := bitmap[bit / 8] & BitMask(bit % 8);
      BitIsShifted(bitmap[bit / 8], bit % 8);
    }

    /** *last_word_ptr |= last_word_mask */
    method FillLastWord()
      requires Valid()
      modifies bitmap
      ensures bitmap[..] == Filled(old(bitmap[..]), lastWordMask)
    {
      ghost var was := bitmap[..];
      var n := bitmap.Length;
      for k := 0 to 4
        invariant forall i :: 0 <= i < n ==>
          bitmap[i] == if n - 4 <= i < n - 4 + k then was[i] | lastWordMask[i - (n - 4)] else was[i]
      {
        bitmap[n - 4 + k] := bitmap[n - 4 + k] | lastWordMask[k];
      }
    }
  }

  /** The bytes after the mask is or-ed into the last word. */
  function Filled(bytes: seq<bv8>, mask: seq<bv8>): seq<bv8>
    requires |bytes| >= 4 && |mask| == 4
  {
    seq(|bytes|, i requires 0 <= i < |bytes| =>
      if i < |bytes| - 4 then bytes[i] else bytes[i] | mask[i - (|bytes| - 4)])
  }

  /** A new byte that differs from the old one at most in the bit named changes at most
      the membership of that index. */
  lemma MembersUpdate(bytes: seq<bv8>, bits: nat, bit: nat, b: bv8)
    requires bit < bits <= 8 * |bytes|
    requires forall k :: 0 <= k < 8 && k != bit % 8 ==> Bit(b, k) == Bit(bytes[bit / 8], k)
    ensures Members(bytes[bit / 8 := b], bits)
            == if Bit(b, bit % 8) then Members(bytes, bits) + {bit} else Members(bytes, bits) - {bit}
  {
  }

  lemma MembersSet(bytes: seq<bv8>, bits: nat, bit: nat)
    requires bit < bits <= 8 * |bytes|
    ensures var b, m := bytes[bit / 8], BitMask(bit % 8);
            Members(bytes[bit / 8 := b | m], bits) == Members(bytes, bits) + {bit}
  {
    var b, m := bytes[bit / 8], BitMask(bit % 8);
    forall k | 0 <= k < 8 ensures Bit(b | m, k) == if k == bit % 8 then true else Bit(b, k) {
      BitSet(b, bit % 8, k);
    }
    MembersUpdate(bytes, bits, bit, b | m);
  }

  lemma MembersFlipped(bytes: seq<bv8>, bits: nat, bit: nat)
    requires bit < bits <= 8 * |bytes|
    ensures var b, m := bytes[bit / 8], BitMask(bit % 8);
            Members(bytes[bit / 8 := b ^ m], bits) == 
              if BitAt(bytes, bit) then Members(bytes, bits) - {bit} else Members(bytes, bits) + {bit}
  {
    var b, m := bytes[bit / 8], BitMask(bit % 8);
    forall k | 0 <= k < 8 ensures Bit(b ^ m, k) == if k == bit % 8 then !Bit(b, k) else Bit(b, k) {
      BitFlipped(b, bit % 8, k);
    }
    MembersUpdate(bytes, bits, bit, b ^ m);
  }

  lemma MembersCleared(bytes: seq<bv8>, bits: nat, bit: nat, c: bv8)
    requires bit < bits <= 8 * |bytes| && c == bytes[bit / 8] & !BitMask(bit % 8)
    ensures Members(bytes[bit / 8 := c], bits) == Members(bytes, bits) - {bit}
  {
    ClearedBits(bytes[bit / 8], bit % 8, c);
    MembersUpdate(bytes, bits, bit, c);
  }

  lemma ClearedBits(b: bv8, k: int, c: bv8)
    requires 0 <= k < 8 && c == b & !BitMask(k)
    ensures forall j :: 0 <= j < 8 ==> Bit(c, j) == (j != k && Bit(b, j))
  {
    forall j | 0 <= j < 8 ensures Bit(c, j) == (j != k && Bit(b, j)) {
      BitCleared(b, k, j);
    }
  }

  /** Filling the last word sets the unused bits and no other. */
  lemma FilledBits(bytes: seq<bv8>, mask: seq<bv8>, bits: nat, i: nat)
    requires MaskOk(mask, bits) && |bytes| == 4 * Words(bits) && i < 8 * |bytes|
    ensures BitAt(Filled(bytes, mask), i) == (i >= bits || BitAt(bytes, i))
  {
    var n := |bytes| - 4;
    if i / 8 >= n {
      BitOr(bytes[i / 8], mask[i / 8 - n], i % 8);
      var k := i - 8 * n;
      assert k / 8 == i / 8 - n && k % 8 == i % 8;
      assert BitAt(mask, k) <==> 32 * (Words(bits) - 1) + k >= bits;
    }
  }

  /** Filled bytes are equal exactly when the sets are. */
  lemma FilledEqual(a: seq<bv8>, b: seq<bv8>, maskA: seq<bv8>, maskB: seq<bv8>, bits: nat)
    requires MaskOk(maskA, bits) && MaskOk(maskB, bits)
    requires |a| == |b| == 4 * Words(bits)
    ensures Members(Filled(a, maskA), bits) == Members(a, bits)
    ensures Filled(a, maskA) == Filled(b, maskB) <==> Members(a, bits) == Members(b, bits)
  {
    var fa, fb := Filled(a, maskA), Filled(b, maskB);
    forall i: nat | i < 8 * |a|
      ensures BitAt(fa, i) == (i >= bits || BitAt(a, i)) && BitAt(fb, i) == (i >= bits || BitAt(b, i))
    {
      FilledBits(a, maskA, bits, i);
      FilledBits(b, maskB, bits, i);
    }
    if fa == fb {
      forall i: nat | i < bits ensures i in Members(a, bits) <==> i in Members(b, bits) {
        assert BitAt(fa, i) == BitAt(fb, i);
      }
    }
    if Members(a, bits) == Members(b, bits) {
      forall n | 0 <= n < |a| ensures fa[n] == fb[n] {
        forall k | 0 <= k < 8 ensures Bit(fa[n], k) == Bit(fb[n], k) {
          var i := 8 * n + k;
          assert i / 8 == n && i % 8 == k;
          assert i < bits ==> (i in Members(a, bits) <==> i in Members(b, bits));
          assert BitAt(fa, i) == BitAt(fb, i);
        }
        ByteExtensional(fa[n], fb[n]);
      }
    }
  }

  /** bitmap_cmp writes the last words of both maps, yet changes neither set. */
  method BitmapCmp(map1: MyBitmap, map2: MyBitmap) returns (equal: bool)
    requires map1.Valid() && map2.Valid() && map1.nBits == map2.nBits
    modifies map1.bitmap, map2.bitmap
    ensures equal <==> old(map1.Set()) == old(map2.Set())
    ensures map1.Set() == old(map1.Set()) && map2.Set() == old(map2.Set())
  {
    ghost var a, b := map1.bitmap[..], map2.bitmap[..];
    FilledEqual(a, b, map1.lastWordMask, map2.lastWordMask, map1.nBits);
    MaskUnique(map1.lastWordMask, map2.lastWordMask, map1.nBits);
    FilledEqual(b, a, map2.lastWordMask, map1.lastWordMask, map1.nBits);
    FilledEqual(Filled(a, map1.lastWordMask), b, map1.lastWordMask, map2.lastWordMask, map1.nBits);
    map1.FillLastWord();
    map2.FillLastWord();
    equal := map1.bitmap[..4 * Words(map1.nBits)] == map2.bitmap[..4 * Words(map1.nBits)];
    assert map1.bitmap[..4 * Words(map1.nBits)] == map1.bitmap[..];
    assert map2.bitmap[..4 * Words(map1.nBits)] == map2.bitmap[..];
  }
}
