/**
 The buffer allocator: 19 pools of power-of-two capacities from 1 byte to 256 KiB,
 chosen by a de Bruijn lookup of the most significant bit (allocator.go).
 */
module Allocator {
  import opened Bytes

  const MaxAllocSize := 262144
  const Pools := 19

  const DeBruijnPos: seq<nat> :=
    [0, 9, 1, 10, 13, 21, 2, 29, 11, 14, 16, 18, 22, 25, 3, 30, 8, 12, 20, 28, 15, 17, 24, 7, 19, 27, 23, 6, 26, 5, 4,
      31]

  function Pow2(k: nat): (r: nat)
    ensures 1 <= r
  {
    if k == 0 then 1 else 2 * Pow2(k - 1)
  }

  /** The lowest binary digit. */
  function Bit(n: nat): (b: bv32)
    ensures b <= 1
  {
    if n % 2 == 0 then 0 else 1
  }

  /** A word with one more digit at its end. */
  function Append(x: bv32, b: bv32): bv32 {
    (x << 1) | b
  }

  /** The 32-bit word of a number: its binary digits, those above the width dropped. */
  function Word(n: nat): bv32 {
    if n == 0 then 0 else Append(Word(n / 2), Bit(n))
  }

  /** Every bit below the most significant one set. */
  function Smear(v: bv32): bv32 {
    var a := v | (v >> 1);
    var b := a | (a >> 2);
    var c := b | (b >> 4);
    var d := c | (c >> 8);
    d | (d >> 16)
  }

  /** The top five bits. */
  function Top5(x: bv32): (i: nat)
    ensures i < 32
  {
    (x >> 27) as nat
  }

  function Lookup(m: bv32): nat {
    DeBruijnPos[Top5(m * 0x07C4ACDD)]
  }

  /** The position of the most significant bit, as the program computes it. */
  function Msb(size: nat): nat {
    Lookup(Smear(Word(size)))
  }

  /** The word whose `k` low bits are set. */
  function Mask(k: nat): bv32 {
    if k == 0 then 0 else Append(Mask(k - 1), 1)
  }

  /** Smearing gives the smallest mask of low bits that covers the word. */
  lemma SmearIsMask(v: bv32)
    requires 0 < v <= 0x7ffff
    ensures var m := Smear(v); m & (m + 1) == 0 && m >> 1 < v <= m
  {
  }

  lemma SmallestMaskIsUnique(a: bv32, b: bv32, v: bv32)
    requires 0 < v <= 0x7ffff
    requires a & (a + 1) == 0 && a >> 1 < v <= a
    requires b & (b + 1) == 0 && b >> 1 < v <= b
    ensures a == b
  {
  }

  lemma {:induction false} MaskIsMask(k: nat)
    requires k <= Pools
    ensures Mask(k) & (Mask(k) + 1) == 0 && Mask(k) <= 0x7ffff
    ensures 0 < k ==> Mask(k) >> 1 == Mask(k - 1)
  {
    MasksAre();
  }

  lemma ShiftFits(m: bv32, x: bv32, b: bv32)
    requires x <= m <= 0x7ffff && b <= 1
    ensures Append(x, b) <= Append(m, 1)
  {
  }

  lemma ShiftExceeds(m: bv32, x: bv32, b: bv32)
    requires m < x <= 0x7ffff && b <= 1
    ensures Append(m, 1) < Append(x, b) && 0 < Append(x, b)
  {
  }

  /** Words order as their numbers do, measured against the masks. */
  lemma {:induction false} WordFits(n: nat, k: nat)
    requires n < Pow2(k) && k <= Pools
    ensures Word(n) <= Mask(k)
  {
    hide Append, Bit;
    if n != 0 {
      WordFits(n / 2, k - 1);
      MaskIsMask(k - 1);
      ShiftFits(Mask(k - 1), Word(n / 2), Bit(n));
    }
  }

  lemma {:induction false} WordExceeds(n: nat, k: nat, top: nat)
    requires Pow2(k) <= n < Pow2(top) && top <= Pools
    ensures Mask(k) < Word(n)
    decreases n, 1
  {
    if n == 1 {
      assert Word(1) == Append(Word(0), 1) && Append(0, 1) == 1;
      assert k == 0;
    } else {
      WordExceedsMore(n, k, top);
    }
  }

  lemma {:induction false} WordExceedsMore(n: nat, k: nat, top: nat)
    requires Pow2(k) <= n < Pow2(top) && top <= Pools && n > 1
    ensures Mask(k) < Word(n)
    decreases n, 0
  {
    hide Append, Bit;
    assert Pow2(top) == 2 * Pow2(top - 1);
    var below := if k > 0 then k - 1 else 0;
    WordExceeds(n / 2, below, top - 1);
    WordFits(n / 2, top - 1);
    MaskIsMask(top - 1);
    ShiftExceeds(Mask(below), Word(n / 2), Bit(n));
  }

  /** The table is right for every mask. */
  lemma LookupOfLowMask(k: nat)
    requires k < 10
    ensures Lookup(Mask(k + 1)) == k
  {
    hide Mask;
    MasksAre();
    if k == 0 { assert Lookup(0x1) == 0; }
    else if k == 1 { assert Lookup(0x3) == 1; }
    else if k == 2 { assert Lookup(0x7) == 2; }
    else if k == 3 { assert Lookup(0xf) == 3; }
    else if k == 4 { assert Lookup(0x1f) == 4; }
    else if k == 5 { assert Lookup(0x3f) == 5; }
    else if k == 6 { assert Lookup(0x7f) == 6; }
    else if k == 7 { assert Lookup(0xff) == 7; }
    else if k == 8 { assert Lookup(0x1ff) == 8; }
    else if k == 9 { assert Lookup(0x3ff) == 9; }
  }

  lemma LookupOfHighMask(k: nat)
    requires 10 <= k < Pools
    ensures Lookup(Mask(k + 1)) == k
  {
    hide Mask;
    MasksAre();
    if k == 10 { assert Lookup(0x7ff) == 10; }
    else if k == 11 { assert Lookup(0xfff) == 11; }
    else if k == 12 { assert Lookup(0x1fff) == 12; }
    else if k == 13 { assert Lookup(0x3fff) == 13; }
    else if k == 14 { assert Lookup(0x7fff) == 14; }
    else if k == 15 { assert Lookup(0xffff) == 15; }
    else if k == 16 { assert Lookup(0x1ffff) == 16; }
    else if k == 17 { assert Lookup(0x3ffff) == 17; }
    else if k == 18 { assert Lookup(0x7ffff) == 18; }
  }

  lemma MasksAre()
    ensures Mask(0) == 0x0 && Mask(1) == 0x1 && Mask(2) == 0x3 && Mask(3) == 0x7 && Mask(4) == 0xf
    ensures Mask(5) == 0x1f && Mask(6) == 0x3f && Mask(7) == 0x7f && Mask(8) == 0xff && Mask(9) == 0x1ff
    ensures Mask(10) == 0x3ff && Mask(11) == 0x7ff && Mask(12) == 0xfff && Mask(13) == 0x1fff && Mask(14) == 0x3fff
    ensures Mask(15) == 0x7fff && Mask(16) == 0xffff && Mask(17) == 0x1ffff && Mask(18) == 0x3ffff &&
      Mask(19) == 0x7ffff
  {
  }

  lemma LookupOfMask(k: nat)
    requires k < Pools
    ensures Lookup(Mask(k + 1)) == k
  {
    if k < 10 {
      LookupOfLowMask(k);
    } else {
      LookupOfHighMask(k);
    }
  }

  lemma {:induction false} TopBit(n: nat) returns (k: nat)
    requires 1 <= n
    ensures Pow2(k) <= n < Pow2(k + 1)
  {
    if n == 1 {
      k := 0;
    } else {
      k := TopBit(n / 2);
      k := k + 1;
    }
  }

  lemma {:induction false} Pow2Grows(i: nat, j: nat)
    requires i <= j
    ensures Pow2(i) <= Pow2(j)
  {
    if i < j {
      Pow2Grows(i, j - 1);
    }
  }

  lemma LargestPool()
    ensures Pow2(Pools - 1) == MaxAllocSize
  {
    assert Pow2(9) == 512;
    assert Pow2(18) == 262144;
  }

  /** The lookup finds the true most significant bit of every size the pools serve. */
  lemma MsbIsTopBit(size: nat)
    requires 1 <= size <= MaxAllocSize
    ensures Msb(size) < Pools && Pow2(Msb(size)) <= size < Pow2(Msb(size) + 1)
  {
    hide Smear, Lookup, Word, Mask;
    var k := TopBit(size);
    LargestPool();
    if k >= Pools {
      Pow2Grows(Pools, k);
    }
    WordFits(size, k + 1);
    WordExceeds(size, k, k + 1);
    MaskIsMask(k + 1);
    MaskIsMask(k);
    SmearIsMask(Word(size));
    SmallestMaskIsUnique(Smear(Word(size)), Mask(k + 1), Word(size));
    LookupOfMask(k);
  }

  /** A slice header: a backing array, whose length is the capacity, and a length. */
  class Slice {
    const data: array<byte>
    var len: nat

    constructor (cap: nat)
      ensures data.Length == cap && len == cap && fresh(data)
    {
      data := new byte[cap];
      len := cap;
    }
  }

  ghost predicate Smallest(cap: nat, size: nat) {
    && size <= cap
    && (forall j: nat :: size <= Pow2(j) ==> cap <= Pow2(j))
  }

  /** The pool a size is served from. */
  function PoolFor(size: nat): nat {
    var bits := Msb(size);
    if size == Pow2(bits) then bits else bits + 1
  }

  /** The chosen pool's capacity is the smallest power of two that fits, and wastes less than half. */
  lemma PoolForIsBest(size: nat)
    requires 1 <= size <= MaxAllocSize
    ensures PoolFor(size) < Pools
    ensures Smallest(Pow2(PoolFor(size)), size) && Pow2(PoolFor(size)) < 2 * size
  {
    hide Msb;
    MsbIsTopBit(size);
    LargestPool();
    var k := PoolFor(size);
    forall j: nat | size <= Pow2(j) ensures Pow2(k) <= Pow2(j) {
      if j < k {
        Pow2Grows(j, k - 1);
      } else {
        Pow2Grows(k, j);
      }
    }
  }

  lemma Pow2Apart(j: nat, k: nat)
    requires j != k
    ensures Pow2(j) != Pow2(k)
  {
    if j < k {
      Pow2Grows(j + 1, k);
    } else {
      Pow2Grows(k + 1, j);
    }
  }

  ghost predicate Pooled(cap: nat) {
    exists k: nat :: k < Pools && cap == Pow2(k)
  }

  lemma PooledInRange(cap: nat)
    requires Pooled(cap)
    ensures 1 <= cap <= MaxAllocSize
  {
    var k: nat :| k < Pools && cap == Pow2(k);
    Pow2Grows(k, Pools - 1);
    LargestPool();
  }

  /** A capacity is a power of two exactly when it is the power its top bit names. */
  lemma PooledIffTopBit(cap: nat)
    requires 1 <= cap <= MaxAllocSize
    ensures Msb(cap) < Pools
    ensures Pooled(cap) <==> cap == Pow2(Msb(cap))
  {
    hide Msb;
    MsbIsTopBit(cap);
    forall k: nat | k < Pools && cap == Pow2(k) ensures k == Msb(cap) {
      if k < Msb(cap) {
        Pow2Grows(k + 1, Msb(cap));
      } else if Msb(cap) < k {
        Pow2Grows(Msb(cap) + 1, k);
      }
    }
  }

  class Allocator {
    var pools: seq<seq<Slice>>

    ghost predicate Valid()
      reads this
    {
      && |pools| == Pools
      && forall k, i :: 0 <= k < Pools && 0 <= i < |pools[k]| ==> pools[k][i].data.Length == Pow2(k)
    }

    constructor ()
      ensures Valid() && forall k :: 0 <= k < Pools ==> pools[k] == []
    {
      pools := seq(Pools, _ => []);
    }

    /** One pool's own Get: a pooled slice, whichever it likes, or a new one. */
    method Take(k: nat, choice: nat) returns (p: Slice)
      requires Valid() && k < Pools
      modifies this
      ensures Valid() && p.data.Length == Pow2(k)
      ensures choice < |old(pools)[k]| ==> p == old(pools)[k][choice]
      ensures choice >= |old(pools)[k]| ==> fresh(p) && pools == old(pools)
      ensures forall j :: 0 <= j < Pools && j != k ==> pools[j] == old(pools)[j]
      ensures multiset(old(pools)[k]) == multiset(pools[k]) + (if fresh(p) then multiset{} else multiset{p})
    {
      if choice < |pools[k]| {
        p := pools[k][choice];
        assert pools[k] == pools[k][..choice] + [p] + pools[k][choice + 1..];
        pools := pools[k := pools[k][..choice] + pools[k][choice + 1..]];
      } else {
        p := new Slice(Pow2(k));
      }
    }

    /** Go's Get: nil outside 1 .. 256 KiB, otherwise the tightest pooled capacity cut to the size. */
    method Get(size: int, choice: nat) returns (p: Slice?)
      requires Valid()
      modifies this, set k, i | 0 <= k < |pools| && 0 <= i < |pools[k]| :: pools[k][i]`len
      ensures Valid()
      ensures p == null <==> size <= 0 || size > MaxAllocSize
      ensures p == null ==> pools == old(pools)
      ensures p != null ==> p.len == size && Pooled(p.data.Length)
      ensures p != null ==> Smallest(p.data.Length, size) && p.data.Length < 2 * size
      ensures p != null && !fresh(p) ==> exists k :: 0 <= k < Pools && p in old(pools)[k]
      ensures p != null ==>
        forall k :: 0 <= k < Pools ==>
          multiset(old(pools)[k]) == multiset(pools[k]) ||
          (!fresh(p) && multiset(old(pools)[k]) == multiset(pools[k]) + multiset{p})
      ensures p != null ==>
        forall k :: 0 <= k < Pools && p.data.Length == Pow2(k) && choice < |old(pools)[k]| ==>
          p == old(pools)[k][choice] && multiset(old(pools)[k]) == multiset(pools[k]) + multiset{p}
      ensures forall k, i :: 0 <= k < Pools && 0 <= i < |old(pools)[k]| && old(pools)[k][i] != p ==>
        old(pools)[k][i].len == old(pools[k][i].len)
    {
      hide Msb, Pow2, Smallest;
      if size <= 0 || size > MaxAllocSize {
        return null;
      }
      PoolForIsBest(size);
      var bits := Msb(size);
      ghost var at := if size == Pow2(bits) then bits else bits + 1;
      forall k | 0 <= k < Pools && k != at ensures Pow2(k) != Pow2(at) {
        Pow2Apart(k, at);
      }
      if size == Pow2(bits) {
        p := Take(bits, choice);
      } else {
        p := Take(bits + 1, choice);
      }
      p.len := size;
    }

    /** Go's Put: takes exactly the slices whose capacity is one of the pools' powers of two. */
    method Put(p: Slice?) returns (ok: bool)
      requires Valid()
      modifies this
      ensures Valid()
      ensures ok <==> p != null && Pooled(p.data.Length)
      ensures !ok ==> pools == old(pools)
      ensures ok ==>
        exists k: nat :: k < Pools && p.data.Length == Pow2(k) && pools == old(pools)[k := old(pools)[k] + [p]]
    {
      hide Msb, Pow2;
      if p == null || p.data.Length == 0 || p.data.Length > MaxAllocSize {
        if p != null && Pooled(p.data.Length) {
          PooledInRange(p.data.Length);
        }
        return false;
      }
      var bits := Msb(p.data.Length);
      PooledIffTopBit(p.data.Length);
      if p.data.Length != Pow2(bits) {
        return false;
      }
      pools := pools[bits := pools[bits] + [p]];
      ok := true;
    }
  }
}
