/** The arena of the buddy allocator as a labelled partition.

    Addresses are offsets from the start of the arena in units of 512 bytes, the smallest
    block size.  A level k stands for blocks of 512 * 2^k bytes, level 12 for 2 MB chunks.
    A partition labels every unit with the block that contains it, so that disjointness and
    coverage hold by construction; what has to be proved is that labels stay consistent. */
module BuddyTiling {
  import Ring

  const TOP: nat := 12

  /** Size of a block of level k in units of 512 bytes. */
  function Units(k: nat): (n: nat)
    ensures n >= 1
  {
    if k == 0 then 1 else 2 * Units(k - 1)
  }

  lemma UnitsDouble(k: nat)
    ensures Units(k + 1) == 2 * Units(k)
  {
  }

  /** Address a is a multiple of the size of a block of level k (see AlignedIsMultiple). */
  ghost predicate Aligned(a: int, k: nat)
    decreases k
  {
    k == 0 || (a % 2 == 0 && Aligned(a / 2, k - 1))
  }

  /** Who holds a block: the program, the free lists of one thread, or the global list. */
  datatype Place = Live | Local(thread: nat) | Global

  datatype Block = Block(addr: int, lvl: nat, place: Place)

  type Partition = seq<Block>

  ghost predicate Inside(b: Block, u: int) {
    b.addr <= u < b.addr + Units(b.lvl)
  }

  ghost predicate Fits(b: Block, n: nat) {
    0 <= b.addr && b.lvl <= TOP && b.addr + Units(b.lvl) <= n && Aligned(b.addr, b.lvl)
  }

  /** Every label is an aligned block of the arena that contains the unit it labels, and all
      units of that block carry the same label. */
  ghost predicate Tiled(own: Partition) {
    && Aligned(|own|, TOP)
    && (forall u :: 0 <= u < |own| ==> Fits(own[u], |own|) && Inside(own[u], u))
    && (forall u, v :: 0 <= u < |own| && 0 <= v < |own| && Inside(own[u], v) ==> own[v] == own[u])
  }

  /** Only 2 MB chunks are on the global list. */
  ghost predicate GlobalTop(own: Partition) {
    forall u :: 0 <= u < |own| && own[u].place.Global? ==> own[u].lvl == TOP
  }

  ghost predicate IsBlock(own: Partition, b: Block) {
    0 <= b.addr < |own| && own[b.addr] == b
  }

  ghost predicate IsFree(own: Partition, a: int, k: nat, t: nat) {
    IsBlock(own, Block(a, k, Local(t)))
  }

  /** No thread holds both halves of a block smaller than 2 MB on its free lists. */
  ghost predicate Coalesced(own: Partition) {
    forall a: int, k: nat, t: nat {:trigger IsFree(own, a, k, t)} ::
      k < TOP && Aligned(a, k + 1) && IsFree(own, a, k, t) ==> !IsBlock(own, Block(a + Units(k), k, Local(t)))
  }

  ghost predicate Invariant(own: Partition) {
    Tiled(own) && GlobalTop(own) && Coalesced(own)
  }

  /** Free memory that thread t can reach: its own lists and the global list. */
  ghost predicate Usable(b: Block, t: nat) {
    b.place == Local(t) || b.place == Global
  }

  /** A size-aligned region of the arena, all of whose units thread t could be given. */
  ghost predicate RegionUsable(own: Partition, t: nat, a: int, k: nat) {
    && 0 <= a && Aligned(a, k) && a + Units(k) <= |own|
    && forall u :: a <= u < a + Units(k) ==> Usable(own[u], t)
  }

  // ----- alignment

  lemma {:induction false} AlignedIsMultiple(a: int, k: nat)
    ensures Aligned(a, k) <==> a % Units(k) == 0
    decreases k
  {
    if k > 0 {
      var u := Units(k - 1);
      AlignedIsMultiple(a / 2, k - 1);
      var q, r := a / 2 / u, a / 2 % u;
      Doubled(u, q);
      Ring.DivideUnique(a, 2 * u, q, 2 * r + a % 2);
    }
  }

  lemma Doubled(u: int, q: int)
    ensures 2 * u * q == 2 * (u * q)
  {
  }

  /** An aligned address below an aligned bound is at least a block below it. */
  lemma {:induction k} AlignedGap(a: int, b: int, k: nat)
    requires Aligned(a, k) && Aligned(b, k) && a < b
    ensures a + Units(k) <= b
    decreases k
  {
    if k > 0 { AlignedGap(a / 2, b / 2, k - 1); }
  }

  lemma AlignedSum(a: int, b: int, k: nat)
    requires Aligned(a, k) && Aligned(b, k)
    ensures Aligned(a + b, k) && Aligned(a - b, k)
    decreases k
  {
    if k > 0 {
      AlignedSum(a / 2, b / 2, k - 1);
      assert (a + b) / 2 == a / 2 + b / 2 && (a - b) / 2 == a / 2 - b / 2;
    }
  }

  lemma AlignedZero(k: nat)
    ensures Aligned(0, k)
  {
  }

  lemma UnitsAligned(k: nat, m: nat)
    requires k <= m
    ensures Aligned(Units(m), k) && Units(k) <= Units(m)
  {
  }

  lemma AlignedDown(a: int, k: nat, m: nat)
    requires k <= m && Aligned(a, m)
    ensures Aligned(a, k)
    decreases k
  {
    if k > 0 { AlignedDown(a / 2, k - 1, m - 1); }
  }

  /** An aligned block that starts inside a larger aligned block lies inside it. */
  lemma Nested(a: int, k: nat, b: int, m: nat)
    requires k <= m && Aligned(a, k) && Aligned(b, m)
    requires b < a + Units(k) && a < b + Units(m)
    ensures b <= a && a + Units(k) <= b + Units(m)
  {
    hide Units, Aligned;
    AlignedDown(b, k, m);
    UnitsAligned(k, m);
    AlignedSum(b, Units(m), k);
    if a < b { AlignedGap(a, b, k); }
    AlignedGap(a, b + Units(m), k);
  }

  /** The two halves of a block, and which half an address is. */
  lemma {:induction false} Halves(a: int, k: nat)
    requires Aligned(a, k)
    ensures Units(k + 1) == 2 * Units(k)
    ensures Aligned(a + Units(k), k) && Aligned(a - Units(k), k)
    ensures Aligned(a, k + 1) <==> !Aligned(a - Units(k), k + 1)
    ensures Aligned(a, k + 1) <==> !Aligned(a + Units(k), k + 1)
    decreases k
  {
    if k > 0 {
      Halves(a / 2, k - 1);
      assert (a + Units(k)) / 2 == a / 2 + Units(k - 1) && (a - Units(k)) / 2 == a / 2 - Units(k - 1);
    }
  }

  // ----- what a coalesced partition says about free regions

  /** A block of at least the level of an aligned region that meets the region covers it. */
  lemma CoveredByOne(own: Partition, a: int, k: nat, u: int)
    requires Tiled(own) && 0 <= a && Aligned(a, k) && a + Units(k) <= |own|
    requires a <= u < a + Units(k)
    ensures own[u].lvl >= k ==> forall v :: a <= v < a + Units(k) ==> own[v] == own[u]
  {
    hide Units, Aligned;
    if own[u].lvl >= k {
      Nested(a, k, own[u].addr, own[u].lvl);
    }
  }

  /** A block of level k that contains an address aligned to k starts there. */
  lemma OnlyStart(own: Partition, a: int, k: nat)
    requires Tiled(own) && 0 <= a < |own| && Aligned(a, k)
    ensures own[a].lvl == k ==> own[a].addr == a
  {
    hide Units, Aligned;
    if own[a].lvl == k && own[a].addr < a {
      AlignedGap(own[a].addr, a, k);
    }
  }

  /** The heart of the allocator: once buddies are always merged, a usable aligned region is
      never scattered over several smaller free blocks. */
  lemma {:induction false} RegionCovered(own: Partition, t: nat, a: int, k: nat)
    requires Invariant(own) && k <= TOP && RegionUsable(own, t, a, k)
    ensures own[a].lvl >= k
    ensures forall u :: a <= u < a + Units(k) ==> own[u] == own[a]
    decreases k
  {
    hide Units, Aligned;
    if k > 0 {
      var j: nat := k - 1;
      var h := a + Units(j);
      AlignedDown(a, j, k);
      Halves(a, j);
      RegionCovered(own, t, a, j);
      RegionCovered(own, t, h, j);
      OnlyStart(own, a, j);
      OnlyStart(own, h, j);
      CoveredByOne(own, a, k, h);
      assert IsFree(own, a, j, t) ==> !IsBlock(own, Block(h, j, Local(t)));
    }
    CoveredByOne(own, a, k, a);
  }

  /** Below 2 MB a block is on a list of thread t exactly when all of it is usable by t and
      its parent is not: the list contents are a function of which units are usable. */
  lemma CanonicalFree(own: Partition, t: nat, a: int, k: nat)
    requires Invariant(own) && k < TOP && 0 <= a && Aligned(a, k) && a + Units(k) <= |own|
    ensures IsFree(own, a, k, t) <==>
            RegionUsable(own, t, a, k) && !RegionUsable(own, t, Parent(a, k), k + 1)
  {
    hide Units, Aligned;
    var p := Parent(a, k);
    Halves(a, k);
    CoveredByOne(own, a, k, a);
    if RegionUsable(own, t, p, k + 1) {
      RegionCovered(own, t, p, k + 1);
    } else if RegionUsable(own, t, a, k) {
      RegionCovered(own, t, a, k);
      OnlyStart(own, a, k);
      ParentBounds(a, k, |own|);
      CoveredByOne(own, p, k + 1, a);
    }
  }

  lemma ParentBounds(a: int, k: nat, n: nat)
    requires k < TOP && 0 <= a && Aligned(a, k) && a + Units(k) <= n && Aligned(n, TOP)
    ensures 0 <= Parent(a, k) <= a && Parent(a, k) + Units(k + 1) <= n
    ensures Aligned(Parent(a, k), k + 1)
  {
    Halves(a, k);
    AlignedDown(n, k + 1, TOP);
    AlignedZero(k + 1);
    AlignedGap(Parent(a, k), n, k + 1);
    if Parent(a, k) < 0 { AlignedGap(Parent(a, k), 0, k + 1); }
  }

  ghost function Parent(a: int, k: nat): (p: int)
  {
    if Aligned(a, k + 1) then a else a - Units(k)
  }

  /** Two partitions in which the same units are usable by t cut them into the same blocks,
      whatever history led to either of them. */
  lemma SameUsableSameBlocks(own: Partition, other: Partition, t: nat)
    requires Invariant(own) && Invariant(other) && |own| == |other|
    requires forall u :: 0 <= u < |own| ==> (Usable(own[u], t) <==> Usable(other[u], t))
    ensures forall u :: 0 <= u < |own| && Usable(own[u], t) ==>
                          own[u].addr == other[u].addr && own[u].lvl == other[u].lvl
  {
    hide Units, Aligned;
    forall u | 0 <= u < |own| && Usable(own[u], t)
      ensures own[u].addr == other[u].addr && own[u].lvl == other[u].lvl
    {
      AtLeastAsCoarse(own, other, t, u);
      AtLeastAsCoarse(other, own, t, u);
      Nested(own[u].addr, own[u].lvl, other[u].addr, other[u].lvl);
    }
  }

  lemma AtLeastAsCoarse(own: Partition, other: Partition, t: nat, u: int)
    requires Invariant(own) && Invariant(other) && |own| == |other|
    requires forall v :: 0 <= v < |own| ==> (Usable(own[v], t) <==> Usable(other[v], t))
    requires 0 <= u < |own| && Usable(other[u], t)
    ensures own[u].lvl >= other[u].lvl
  {
    hide Units, Aligned;
    var b := other[u];
    forall v | b.addr <= v < b.addr + Units(b.lvl)
      ensures Usable(own[v], t)
    {
      assert other[v] == b;
    }
    RegionCovered(own, t, b.addr, b.lvl);
  }

  /** Once everything is usable by t again only whole 2 MB chunks are left. */
  lemma AllUsableAllWhole(own: Partition, t: nat, u: int)
    requires Invariant(own) && 0 <= u < |own|
    requires forall v :: 0 <= v < |own| ==> Usable(own[v], t)
    ensures own[u].lvl == TOP
  {
    hide Units, Aligned;
    var b := own[u];
    var a := Floor(b.addr, TOP);
    AlignedGap(a, |own|, TOP);
    AlignedZero(TOP);
    if a < 0 { AlignedGap(a, 0, TOP); }
    RegionCovered(own, t, a, TOP);
    assert own[b.addr] == b;
  }

  ghost function Floor(a: int, k: nat): (f: int)
    ensures Aligned(f, k) && f <= a < f + Units(k)
    decreases k
  {
    if k == 0 then a
    else
      var f := Floor(a / 2, k - 1);
      assert 2 * f / 2 == f;
      2 * f
  }

  // ----- the partition as a set of blocks

  ghost function Blocks(own: Partition): set<Block> {
    set u | 0 <= u < |own| :: own[u]
  }

  /** In set form: the blocks are pairwise disjoint, aligned, and cover the arena. */
  lemma BlocksTile(own: Partition)
    requires Tiled(own)
    ensures forall b :: b in Blocks(own) ==> Fits(b, |own|)
    ensures forall b, c, u :: b in Blocks(own) && c in Blocks(own) && Inside(b, u) && Inside(c, u) ==> b == c
    ensures forall u :: 0 <= u < |own| ==> own[u] in Blocks(own) && Inside(own[u], u)
  {
    hide Units, Aligned;
    forall b, c, u | b in Blocks(own) && c in Blocks(own) && Inside(b, u) && Inside(c, u)
      ensures b == c
    {
      assert own[u] == b && own[u] == c;
    }
  }

  // ----- repainting part of a partition

  /** Give all units of b the label b. */
  ghost function Paint(own: Partition, b: Block): (r: Partition)
    ensures |r| == |own|
    ensures forall u :: 0 <= u < |own| ==> r[u] == if Inside(b, u) then b else own[u]
  {
    seq(|own|, u requires 0 <= u < |own| => if Inside(b, u) then b else own[u])
  }

  /** Painting a block over whole blocks keeps the tiling. */
  lemma PaintTiled(own: Partition, b: Block)
    requires Tiled(own) && Fits(b, |own|)
    requires forall u :: 0 <= u < |own| && Inside(b, u) ==> own[u].lvl <= b.lvl
    ensures Tiled(Paint(own, b))
  {
    hide Units, Aligned;
    var r := Paint(own, b);
    forall u, v | 0 <= u < |own| && 0 <= v < |own| && Inside(r[u], v)
      ensures r[v] == r[u]
    {
      if !Inside(b, u) && Inside(b, v) {
        assert own[v] == own[u];
        Nested(own[u].addr, own[u].lvl, b.addr, b.lvl);
      }
    }
  }

  /** Painting a live or global block, or a chunk, over whole blocks keeps the invariant. */
  lemma PaintInvariant(own: Partition, b: Block)
    requires Invariant(own) && Fits(b, |own|)
    requires b.place.Live? || b.lvl == TOP
    requires forall u :: 0 <= u < |own| && Inside(b, u) ==> own[u].lvl <= b.lvl
    ensures Invariant(Paint(own, b))
  {
    hide Units, Aligned;
    PaintTiled(own, b);
    var r := Paint(own, b);
    forall a: int, k: nat, t: nat | k < TOP && Aligned(a, k + 1) && IsFree(r, a, k, t)
      ensures !IsBlock(r, Block(a + Units(k), k, Local(t)))
    {
      assert IsFree(own, a, k, t);
      assert !IsBlock(own, Block(a + Units(k), k, Local(t)));
    }
  }
}
