// The byte-packed bitmap of lib/ds/bitmap.c, which records used page frames.

module Bitmaps {
  // GET_BIT on one byte.
  function BitOf(x: bv8, b: bv8): bool
    requires b < 8
  {
    (x >> b) & 1 == 1
  }

  // SET_BIT and CLEAR_BIT change the addressed bit and no other one.
  lemma SetBitOnly(x: bv8, b: bv8, c: bv8)
    requires b < 8 && c < 8
    ensures BitOf(x | (1 << b), c) == (c == b || BitOf(x, c))
  {
  }

  lemma ClearBitOnly(x: bv8, b: bv8, c: bv8)
    requires b < 8 && c < 8
    ensures BitOf(x & !(1 << b), c) == (c != b && BitOf(x, c))
  {
  }

  // bit % 8 as a shift count.
  function Shift(bit: nat): (b: bv8)
    ensures b < 8
  {
    var k := bit % 8;
    if k == 0 then 0 else if k == 1 then 1 else if k == 2 then 2 else if k == 3 then 3
    else if k == 4 then 4 else if k == 5 then 5 else if k == 6 then 6 else 7
  }

  predicate IsSet(bytes: seq<bv8>, bit: nat)
    requires bit / 8 < |bytes|
  {
    BitOf(bytes[bit / 8], Shift(bit))
  }

  // Number n is bit n % 8 of byte n / 8, counted from the lowest.
  lemma IsSetSays(bytes: seq<bv8>, n: nat)
    requires n / 8 < |bytes|
    ensures var x, k := bytes[n / 8], n % 8;
            IsSet(bytes, n) <==>
            (if k == 0 then x & 0x01 else if k == 1 then x & 0x02 else if k == 2 then x & 0x04
             else if k == 3 then x & 0x08 else if k == 4 then x & 0x10 else if k == 5 then x & 0x20
             else if k == 6 then x & 0x40 else x & 0x80) != 0
  {
  }

  // Only one number below the limit names a given bit of a given byte.
  lemma SameBit(f: nat, g: nat)
    requires f / 8 == g / 8 && Shift(f) == Shift(g)
    ensures f == g
  {
  }

  // Writing one byte that differs in one bit changes membership of one number.
  lemma ByteUpdate(bytes: seq<bv8>, bit: nat, x: bv8, set_: bool, f: nat)
    requires bit / 8 < |bytes| && f / 8 < |bytes|
    requires x == if set_ then bytes[bit / 8] | (1 << Shift(bit)) else bytes[bit / 8] & !(1 << Shift(bit))
    ensures IsSet(bytes[bit / 8 := x], f) == if f == bit then set_ else IsSet(bytes, f)
  {
    hide BitOf, Shift;
    if f / 8 == bit / 8 {
      if set_ {
        SetBitOnly(bytes[bit / 8], Shift(bit), Shift(f));
      } else {
        ClearBitOnly(bytes[bit / 8], Shift(bit), Shift(f));
      }
      if Shift(f) == Shift(bit) {
        SameBit(f, bit);
      }
    }
  }

  class Bitmap {
    const base: array<bv8>
    const limit: nat

    ghost predicate Valid() {
      base.Length == (limit + 7) / 8
    }

    // The numbers recorded in the bitmap.
    ghost function Elements(): set<nat>
      reads base
      requires Valid()
    {
      set f: nat | f < limit && IsSet(base[..], f)
    }

    // bitmap_init
    constructor (base: array<bv8>, limit: nat)
      requires base.Length == (limit + 7) / 8
      modifies base
      ensures Valid() && this.base == base && this.limit == limit && Elements() == {}
    {
      this.base, this.limit := base, limit;
      new;
      var bytes := limit / 8;
      if limit % 8 != 0 {
        bytes := bytes + 1;
      }
      var i := 0;
      while i < bytes
        invariant i <= bytes == base.Length
        invariant forall k | 0 <= k < i :: base[k] == 0
      {
        base[i] := 0;
        i := i + 1;
      }
      forall f: nat | f < limit ensures !IsSet(base[..], f) {
        assert base[..][f / 8] == 0;
        ZeroByte(Shift(f));
      }
    }

    // bitmap_bitset; false stands for the -1 of the source.
    method BitSet(bit: nat) returns (ok: bool)
      requires Valid()
      modifies base
      ensures ok == (bit < limit)
      ensures Elements() == if ok then old(Elements()) + {bit} else old(Elements())
    {
      if bit >= limit {
        return false;
      }
      ghost var bytes := base[..];
      base[bit / 8] := base[bit / 8] | (1 << Shift(bit));
      Stored(bytes, bit, true);
      return true;
    }

    // bitmap_bitclear
    method BitClear(bit: nat) returns (ok: bool)
      requires Valid()
      modifies base
      ensures ok == (bit < limit)
      ensures Elements() == old(Elements()) - {bit}
    {
      if bit >= limit {
        return false;
      }
      ghost var bytes := base[..];
      base[bit / 8] := base[bit / 8] & !(1 << Shift(bit));
      Stored(bytes, bit, false);
      return true;
    }

    lemma Stored(bytes: seq<bv8>, bit: nat, set_: bool)
      requires Valid() && bit < limit && |bytes| == base.Length
      requires base[..] ==
               bytes[bit / 8 := if set_ then bytes[bit / 8] | (1 << Shift(bit))
                                else bytes[bit / 8] & !(1 << Shift(bit))]
      ensures forall f: nat | f < limit :: IsSet(base[..], f) == if f == bit then set_ else IsSet(bytes, f)
    {
      forall f: nat | f < limit ensures IsSet(base[..], f) == if f == bit then set_ else IsSet(bytes, f) {
        ByteUpdate(bytes, bit, base[..][bit / 8], set_, f);
      }
    }

    // bitmap_bitget below the limit; above it the source answers -1, which a
    // caller that tests for zero takes for a set bit.
    method BitGet(bit: nat) returns (isSet: bool)
      requires Valid()
      ensures isSet == (bit in Elements() || bit >= limit)
    {
      if bit >= limit {
        return true;
      }
      isSet := BitOf(base[bit / 8], Shift(bit));
      assert base[..][bit / 8] == base[bit / 8];
    }
  }

  lemma ZeroByte(b: bv8)
    requires b < 8
    ensures !BitOf(0, b)
  {
  }
}
