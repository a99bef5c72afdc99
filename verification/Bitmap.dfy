/** The free-block bitmap of kern/lib/bitmap.c: bits packed eight to a byte. */
module Bitmaps {
  import opened Basics
  import opened Bytes

  datatype Found = Found(index: nat) | NoSpace

  // ---- one byte, low bit first ----

  /** (w & (1 << off)) != 0 */
  predicate BitOf(w: nat, off: nat)
    decreases off
  {
    if off == 0 then w % 2 == 1 else BitOf(w / 2, off - 1)
  }

  /** w with bit off forced to x: w | (1 << off), or w & ~(1 << off). */
  function PutBit(w: nat, off: nat, x: bool): nat
    decreases off
  {
    if off == 0 then w - w % 2 + (if x then 1 else 0)
    else 2 * PutBit(w / 2, off - 1, x) + w % 2
  }

  lemma PutBitEffect(w: nat, off: nat, x: bool, p: nat)
    ensures BitOf(PutBit(w, off, x), p) == if p == off then x else BitOf(w, p)
    decreases off
  {
    if off > 0 && p > 0 {
      assert PutBit(w, off, x) / 2 == PutBit(w / 2, off - 1, x);
      PutBitEffect(w / 2, off - 1, x, p - 1);
    } else if p > 0 {
      assert PutBit(w, off, x) / 2 == w / 2;
    }
  }

  lemma PutBitBound(w: nat, off: nat, x: bool, n: nat)
    requires off < n && w < Pow2(n)
    ensures PutBit(w, off, x) < Pow2(n)
    decreases off
  {
    var k := Pow2(n - 1);
    var h, y := w / 2, w % 2;
    assert w == 2 * h + y && h < k;
    if off > 0 {
      PutBitBound(h, off - 1, x, n - 1);
    }
  }

  predicate Bit(w: Byte, off: nat)
    requires off < 8
  {
    BitOf(w, off)
  }

  function Weight(off: nat): int
    requires off < 8
  {
    [1, 2, 4, 8, 16, 32, 64, 128][off]
  }

  lemma Halved(n: nat, off: nat)
    requires 0 < off < 8
    ensures n / 2 / Weight(off - 1) == n / Weight(off)
  {
  }

  /** Bit off of a byte is the one that counts 2 to the power of off. */
  lemma {:induction false} BitCounts(n: nat, off: nat)
    requires off < 8
    ensures BitOf(n, off) <==> n / Weight(off) % 2 == 1
    decreases off
  {
    if off > 0 {
      BitCounts(n / 2, off - 1);
      Halved(n, off);
      hide Weight;
    }
  }

  function WithBit(w: Byte, off: nat, x: bool): (r: Byte)
    requires off < 8
    ensures forall p :: 0 <= p < 8 ==> Bit(r, p) == if p == off then x else Bit(w, p)
  {
    assert Pow2(8) == 256;
    PutBitBound(w, off, x, 8);
    var r: nat := PutBit(w, off, x);
    assert forall p :: 0 <= p < 8 ==> BitOf(r, p) == if p == off then x else BitOf(w, p) by {
      forall p | 0 <= p < 8 ensures BitOf(r, p) == if p == off then x else BitOf(w, p) {
        PutBitEffect(w, off, x, p);
      }
    }
    r
  }

  lemma FullWordBit(w: nat, n: nat, p: nat)
    requires w == Pow2(n) - 1 && p < n
    ensures BitOf(w, p)
  {
    var h := Pow2(n - 1) - 1;
    assert w == 2 * h + 1;
    if p > 0 {
      FullWordBit(h, n - 1, p - 1);
    }
  }

  lemma ClearBitIn(w: nat, n: nat) returns (p: nat)
    requires w < Pow2(n) - 1
    ensures p < n && !BitOf(w, p)
  {
    if w % 2 == 0 {
      p := 0;
    } else {
      p := ClearBitIn(w / 2, n - 1);
      p := p + 1;
    }
  }

  /** A byte has a clear bit exactly when it is not 0xff. */
  lemma FullByte(w: Byte)
    ensures w == 255 <==> forall p :: 0 <= p < 8 ==> Bit(w, p)
  {
    assert Pow2(8) == 256;
    if w == 255 {
      forall p | 0 <= p < 8 ensures Bit(w, p) {
        FullWordBit(w, 8, p);
      }
    } else {
      var p := ClearBitIn(w, 8);
      assert !Bit(w, p);
    }
  }

  // ---- a string of bytes ----

  function Bits(v: seq<Byte>): (bs: seq<bool>)
    ensures |bs| == 8 * |v|
  {
    seq(8 * |v|, k requires 0 <= k < 8 * |v| => Bit(v[k / 8], k % 8))
  }

  /** Rewriting one byte of the string through WithBit rewrites one bit. */
  lemma BitsPut(v: seq<Byte>, k: nat, x: bool)
    requires k < 8 * |v|
    ensures Bits(v[k / 8 := WithBit(v[k / 8], k % 8, x)]) == Bits(v)[k := x]
  {
    var v' := v[k / 8 := WithBit(v[k / 8], k % 8, x)];
    forall p | 0 <= p < 8 * |v|
      ensures Bits(v')[p] == Bits(v)[k := x][p]
    {
      if p / 8 == k / 8 && p != k {
        assert p % 8 != k % 8;
      }
    }
  }

  lemma ZeroBit(off: nat)
    ensures !BitOf(0, off)
  {
  }

  class Bitmap {
    const nbits: nat
    var v: seq<Byte>

    /** The bits past nbits in the last byte are always in use. */
    ghost predicate Valid()
      reads this
    {
      && |v| == (nbits + 7) / 8
      && forall k :: nbits <= k < 8 * |v| ==> Bits(v)[k]
    }

    constructor (n: nat)
      ensures Valid() && nbits == n
      ensures forall k :: 0 <= k < n ==> !Bits(v)[k]
    {
      var words := (n + 7) / 8;
      nbits := n;
      v := Zeros(words);
      new;
      assert forall k :: 0 <= k < 8 * words ==> !Bits(v)[k] by {
        forall k | 0 <= k < 8 * words ensures !Bits(v)[k] {
          ZeroBit(k % 8);
        }
      }
      if n / 8 < words {
        var ix := words - 1;
        var overbits := n - 8 * ix;
        for j := overbits to 8
          invariant |v| == words
          invariant forall k :: 0 <= k < 8 * words ==> Bits(v)[k] == (n <= k < 8 * ix + j)
        {
          BitsPut(v, 8 * ix + j, true);
          assert (8 * ix + j) / 8 == ix && (8 * ix + j) % 8 == j;
          v := v[ix := WithBit(v[ix], j, true)];
        }
      }
    }

    method Alloc() returns (r: Found)
      requires Valid()
      modifies this
      ensures Valid()
      ensures r.NoSpace? ==> v == old(v) && forall k :: 0 <= k < |Bits(v)| ==> Bits(v)[k]
      ensures r.Found? ==> r.index < nbits && !old(Bits(v))[r.index]
      ensures r.Found? ==> Bits(v) == old(Bits(v))[r.index := true]
      ensures r.Found? ==> forall k :: 0 <= k < r.index ==> old(Bits(v))[k]
    {
      var maxix := (nbits + 7) / 8;
      for ix := 0 to maxix
        invariant v == old(v)
        invariant forall k :: 0 <= k < 8 * ix ==> Bits(v)[k]
      {
        FullByte(v[ix]);
        if v[ix] != 255 {
          r := AllocIn(ix);
          return;
        }
      }
      r := NoSpace;
    }

    /** The inner loop of bitmap_alloc, entered at the first byte with a clear bit. */
    method AllocIn(ix: nat) returns (r: Found)
      requires Valid() && ix < |v|
      requires forall k :: 0 <= k < 8 * ix ==> Bits(v)[k]
      requires exists p :: 0 <= p < 8 && !Bit(v[ix], p)
      modifies this
      ensures Valid()
      ensures r.Found? && r.index < nbits && !old(Bits(v))[r.index]
      ensures Bits(v) == old(Bits(v))[r.index := true]
      ensures forall k :: 0 <= k < r.index ==> old(Bits(v))[k]
    {
      var offset := 0;
      while Bit(v[ix], offset)
        invariant offset < 8
        invariant forall p :: 0 <= p < offset ==> Bit(v[ix], p)
        decreases 8 - offset
      {
        offset := offset + 1;
        if offset == 8 {
          assert false;
        }
      }
      var index := 8 * ix + offset;
      assert index / 8 == ix && index % 8 == offset;
      assert !Bits(v)[index];
      BitsPut(v, index, true);
      v := v[ix := WithBit(v[ix], offset, true)];
      r := Found(index);
    }

    method Mark(index: nat)
      requires Valid() && index < nbits && !Bits(v)[index]
      modifies this
      ensures Valid() && Bits(v) == old(Bits(v))[index := true]
    {
      assert !Bit(v[index / 8], index % 8);
      BitsPut(v, index, true);
      v := v[index / 8 := WithBit(v[index / 8], index % 8, true)];
    }

    method Unmark(index: nat)
      requires Valid() && index < nbits && Bits(v)[index]
      modifies this
      ensures Valid() && Bits(v) == old(Bits(v))[index := false]
    {
      assert Bit(v[index / 8], index % 8);
      BitsPut(v, index, false);
      v := v[index / 8 := WithBit(v[index / 8], index % 8, false)];
    }

    method IsSet(index: nat) returns (r: bool)
      requires Valid() && index < nbits
      ensures r == Bits(v)[index]
    {
      r := Bit(v[index / 8], index % 8);
    }
  }
}
