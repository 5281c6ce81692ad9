/** Bit masks of command ids, kept in 64-bit words. */
module Bits {

  /** (u64)1 << i */
  function OneHot(i: nat): bv64
    requires i < 64
  {
    if i == 0 then 1 else OneHot(i - 1) << 1
  }

  lemma OneHotTop()
    ensures OneHot(63) == 0x8000_0000_0000_0000
  {
    assert OneHot(9) == 0x200;
    assert OneHot(18) == 0x4_0000;
    assert OneHot(27) == 0x800_0000;
    assert OneHot(36) == 0x10_0000_0000;
    assert OneHot(45) == 0x2000_0000_0000;
    assert OneHot(54) == 0x40_0000_0000_0000;
  }

  lemma {:induction false} OneHotNonZero(i: nat)
    requires i < 64
    ensures OneHot(i) != 0
    decreases 64 - i
  {
    if i == 63 { OneHotTop(); } else { OneHotNonZero(i + 1); }
  }

  lemma {:induction false} OneHotDisjoint(i: nat, j: nat)
    requires i < j < 64
    ensures OneHot(i) & OneHot(j) == 0
  {
    if i == 0 {
      LowBit(OneHot(j - 1));
    } else {
      OneHotDisjoint(i - 1, j - 1);
      ShiftedApart(OneHot(i - 1), OneHot(j - 1));
    }
  }

  lemma LowBit(x: bv64)
    ensures 1 & (x << 1) == 0
  {
  }

  lemma ShiftedApart(x: bv64, y: bv64)
    requires x & y == 0
    ensures (x << 1) & (y << 1) == 0
  {
  }

  // The word operations by name, so that proofs can treat them as black boxes.

  function And(x: bv64, y: bv64): bv64 { x & y }

  function Or(x: bv64, y: bv64): bv64 { x | y }

  function AndNot(x: bv64, y: bv64): bv64 { x & !y }

  lemma SameBit(w: bv64, m: bv64)
    ensures And(Or(w, m), m) == m
    ensures And(AndNot(w, m), m) == 0
  {
  }

  lemma OrOther(w: bv64, m: bv64, n: bv64)
    requires And(m, n) == 0
    ensures And(Or(w, m), n) == And(w, n)
  {
  }

  lemma AndNotOther(w: bv64, m: bv64, n: bv64)
    requires And(m, n) == 0
    ensures And(AndNot(w, m), n) == And(w, n)
  {
  }

  predicate Test(w: bv64, i: nat)
    requires i < 64
  {
    And(w, OneHot(i)) != 0
  }

  function Set(w: bv64, i: nat): bv64
    requires i < 64
  {
    Or(w, OneHot(i))
  }

  function Clear(w: bv64, i: nat): bv64
    requires i < 64
  {
    AndNot(w, OneHot(i))
  }

  lemma TestAfter(w: bv64, i: nat, j: nat)
    requires i < 64 && j < 64
    ensures Test(Set(w, i), j) <==> i == j || Test(w, j)
    ensures Test(Clear(w, i), j) <==> i != j && Test(w, j)
  {
    hide OneHot, And, Or, AndNot;
    OneHotNonZero(i);
    SameBit(w, OneHot(i));
    if i != j {
      OneHotApart(i, j);
      OrOther(w, OneHot(i), OneHot(j));
      AndNotOther(w, OneHot(i), OneHot(j));
    }
  }

  lemma OneHotApart(i: nat, j: nat)
    requires i < 64 && j < 64 && i != j
    ensures And(OneHot(i), OneHot(j)) == 0
  {
    if i < j {
      OneHotDisjoint(i, j);
    } else {
      OneHotDisjoint(j, i);
      Commute(OneHot(i), OneHot(j));
    }
  }

  lemma Commute(x: bv64, y: bv64)
    ensures x & y == y & x
  {
  }

  /** The bit test of the code, mask[cid >> 6] & (1 << (cid & 63)). */
  predicate Has(mask: seq<bv64>, c: nat)
    requires c < 64 * |mask|
  {
    Test(mask[c / 64], c % 64)
  }

  function With(mask: seq<bv64>, c: nat): (r: seq<bv64>)
    requires c < 64 * |mask|
    ensures |r| == |mask|
  {
    mask[c / 64 := Set(mask[c / 64], c % 64)]
  }

  function Without(mask: seq<bv64>, c: nat): (r: seq<bv64>)
    requires c < 64 * |mask|
    ensures |r| == |mask|
  {
    mask[c / 64 := Clear(mask[c / 64], c % 64)]
  }

  function Zeros(n: nat): seq<bv64> {
    seq(n, i => 0)
  }

  /** The command ids a mask holds. */
  ghost function Cids(mask: seq<bv64>): set<nat> {
    set c: nat | c < 64 * |mask| && Has(mask, c)
  }

  lemma OneBit(mask: seq<bv64>, c: nat, d: nat)
    requires c < 64 * |mask| && d < 64 * |mask|
    ensures Has(With(mask, c), d) <==> d == c || Has(mask, d)
    ensures Has(Without(mask, c), d) <==> d != c && Has(mask, d)
  {
    hide Test, Set, Clear;
    TestAfter(mask[c / 64], c % 64, d % 64);
  }

  lemma MaskSets(mask: seq<bv64>, c: nat)
    requires c < 64 * |mask|
    ensures Cids(With(mask, c)) == Cids(mask) + {c}
    ensures Cids(Without(mask, c)) == Cids(mask) - {c}
    ensures Has(mask, c) <==> c in Cids(mask)
  {
    forall d: nat | d < 64 * |mask|
      ensures d in Cids(With(mask, c)) <==> d == c || d in Cids(mask)
      ensures d in Cids(Without(mask, c)) <==> d != c && d in Cids(mask)
    {
      OneBit(mask, c, d);
    }
  }

  lemma NoBits(n: nat)
    ensures Cids(Zeros(n)) == {}
  {
  }
}
