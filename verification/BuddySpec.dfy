/** What the calls of the allocator mean: which block an allocation hands out and what is left
    of its source, which block a free creates, and the laws both obey together. */
module BuddySpec {
  import opened BuddyTiling
  import opened BuddyArena

  /** The lowest level from k up whose list is not empty, or the top level. */
  ghost function FitLevel(row: seq<seq<int>>, k: nat): (m: nat)
    requires |row| == ENTRY_MAX && k <= TOP
    ensures k <= m <= TOP
    ensures forall j :: k <= j < m ==> row[j] == []
    ensures m < TOP ==> row[m] != []
    decreases TOP - k
  {
    if row[k] != [] || k == TOP then k else FitLevel(row, k + 1)
  }

  /** The lists after a call for level k returned a: the source list loses its first block, the
      levels passed on the way down get the right halves, nothing else changes. */
  ghost predicate HandedLists(ar: Arena, br: Arena, t: nat, k: nat, a: int)
    requires Shape(ar.chain) && Shape(br.chain) && t < THREADS_MAX && k <= TOP
  {
    var row, after := ar.chain[t], br.chain[t];
    var m := FitLevel(row, k);
    && (forall i :: 0 <= i < THREADS_MAX && i != t ==> br.chain[i] == ar.chain[i])
    && (forall j :: 0 <= j <= TOP && (j < k || m < j) ==> after[j] == row[j])
    && (forall j: nat :: k <= j < m ==> after[j] == [a + Units(j)])
    && if row[m] != []
       then a == row[m][0] && after[m] == row[m][1..] && br.glob == ar.glob
       else ar.glob != [] && a == ar.glob[0] &&
            (var c := Min(|ar.glob|, 1 + BATCH); after[m] == ar.glob[1..c] && br.glob == ar.glob[c..])
  }

  /** The units after a call for level k returned a: the block is live, the rest of the block it
      was cut from is free for the caller, and elsewhere only the refill changes labels. */
  ghost predicate HandedUnits(own: Partition, other: Partition, t: nat, k: nat, m: nat, a: int, moved: seq<int>)
    requires |own| == |other|
  {
    && k <= m && 0 <= a < |own|
    && own[a] in {Block(a, m, Local(t)), Block(a, TOP, Global)}
    && IsBlock(other, Block(a, k, Live))
    && (forall u :: a + Units(k) <= u < a + Units(m) && u < |own| ==> other[u].place == Local(t))
    && forall u :: 0 <= u < |own| && !(a <= u < a + Units(m)) ==> other[u] == Refilled(own[u], a, moved, t)
  }

  ghost function Moved(ar: Arena, t: nat, k: nat): seq<int>
    requires Shape(ar.chain) && t < THREADS_MAX && k <= TOP
  {
    if ar.chain[t][FitLevel(ar.chain[t], k)] == [] && ar.glob != []
    then ar.glob[1..Min(|ar.glob|, 1 + BATCH)]
    else []
  }

  /** What a call for level k by thread t that returns a does to the arena. */
  ghost predicate Handed(ar: Arena, br: Arena, t: nat, k: nat, a: int)
    requires Shape(ar.chain) && t < THREADS_MAX && k <= TOP
  {
    && Shape(br.chain) && |ar.own| == |br.own|
    && HandedLists(ar, br, t, k, a)
    && HandedUnits(ar.own, br.own, t, k, FitLevel(ar.chain[t], k), a, Moved(ar, t, k))
  }

  /** Nothing to hand out: every list of thread t from level k up and the global list are empty. */
  ghost predicate Exhausted(ar: Arena, t: nat, k: nat)
    requires Shape(ar.chain) && t < THREADS_MAX && k <= TOP
  {
    ar.glob == [] && forall j :: k <= j <= TOP ==> ar.chain[t][j] == []
  }

  lemma HandedByPop(ar: Arena, t: nat, k: nat)
    requires Consistent(ar) && t < THREADS_MAX && k <= TOP && ar.chain[t][k] != []
    ensures Handed(ar, Pop(ar, t, k), t, k, ar.chain[t][k][0])
  {
    hide Units, Aligned;
    var a := ar.chain[t][k][0];
    Elements(ar);
    assert ar.own[a] == Block(a, k, Local(t));
  }

  lemma HandedByRefill(ar: Arena, t: nat)
    requires Consistent(ar) && t < THREADS_MAX && ar.chain[t][TOP] == [] && ar.glob != []
    ensures Handed(ar, Refill(ar, t), t, TOP, ar.glob[0])
  {
    hide Units, Aligned, Invariant;
    Elements(ar);
    assert ar.own[ar.glob[0]] == Block(ar.glob[0], TOP, Global);
  }

  lemma HandedBySplit(ar: Arena, br: Arena, t: nat, k: nat, a: int)
    requires Consistent(ar) && Consistent(br) && t < THREADS_MAX && k < TOP && ar.chain[t][k] == []
    requires Handed(ar, br, t, k + 1, a)
    ensures br.chain[t][k] == [] && IsBlock(br.own, Block(a, k + 1, Live))
    ensures Handed(ar, Split(br, t, a, k), t, k, a)
  {
    hide *;
    ShapeOf(ar);
    HandedHas(ar, br, t, k + 1, a);
    ListsBySplit(ar, br, t, k, a);
    UnitsBySplit(ar, br, t, k, a);
    IsHanded(ar, Split(br, t, a, k), t, k, a);
  }

  lemma HandedHas(ar: Arena, br: Arena, t: nat, k: nat, a: int)
    requires Shape(ar.chain) && t < THREADS_MAX && k <= TOP && Handed(ar, br, t, k, a)
    ensures Shape(br.chain) && |ar.own| == |br.own| && HandedLists(ar, br, t, k, a)
    ensures HandedUnits(ar.own, br.own, t, k, FitLevel(ar.chain[t], k), a, Moved(ar, t, k))
    ensures IsBlock(br.own, Block(a, k, Live)) && forall j :: 0 <= j < k ==> br.chain[t][j] == ar.chain[t][j]
  {
  }

  lemma IsHanded(ar: Arena, br: Arena, t: nat, k: nat, a: int)
    requires Shape(ar.chain) && t < THREADS_MAX && k <= TOP && Shape(br.chain) && |ar.own| == |br.own|
    requires HandedLists(ar, br, t, k, a)
    requires HandedUnits(ar.own, br.own, t, k, FitLevel(ar.chain[t], k), a, Moved(ar, t, k))
    ensures Handed(ar, br, t, k, a)
  {
  }

  lemma ListsBySplit(ar: Arena, br: Arena, t: nat, k: nat, a: int)
    requires Shape(ar.chain) && Shape(br.chain) && t < THREADS_MAX && k < TOP && ar.chain[t][k] == []
    requires HandedLists(ar, br, t, k + 1, a)
    ensures Shape(Split(br, t, a, k).chain) && HandedLists(ar, Split(br, t, a, k), t, k, a)
  {
    hide Units;
  }

  lemma UnitsBySplit(ar: Arena, br: Arena, t: nat, k: nat, a: int)
    requires Shape(ar.chain) && Shape(br.chain) && t < THREADS_MAX && k < TOP && ar.chain[t][k] == [] && |ar.own| == |br.own|
    requires HandedUnits(ar.own, br.own, t, k + 1, FitLevel(ar.chain[t], k + 1), a, Moved(ar, t, k + 1))
    ensures |Split(br, t, a, k).own| == |ar.own|
    ensures HandedUnits(ar.own, Split(br, t, a, k).own, t, k, FitLevel(ar.chain[t], k), a, Moved(ar, t, k))
  {
    hide Units;
    UnitsAligned(k + 1, FitLevel(ar.chain[t], k + 1));
    UnitsDouble(k);
    assert IsBlock(Split(br, t, a, k).own, Block(a, k, Live));
  }

  lemma ExhaustedMeansNoRegion(ar: Arena, t: nat, k: nat)
    requires Consistent(ar) && t < THREADS_MAX && k <= TOP
    ensures Exhausted(ar, t, k) <==> forall a :: !RegionUsable(ar.own, t, a, k)
  {
    hide Units, Aligned, Coalesced;
    if a: int :| RegionUsable(ar.own, t, a, k) {
      RegionCovered(ar.own, t, a, k);
      var b := ar.own[a];
      assert IsBlock(ar.own, Block(b.addr, b.lvl, b.place));
      assert b.addr in if b.place.Global? then ar.glob else ar.chain[t][b.lvl];
    }
    if Exhausted(ar, t, k) {
    } else if ar.glob != [] {
      assert IsBlock(ar.own, Block(ar.glob[0], TOP, Global));
      BlockHasRegion(ar.own, t, ar.own[ar.glob[0]], k);
    } else {
      var j: nat :| k <= j <= TOP && ar.chain[t][j] != [];
      assert Lists(ar.own, ar.chain[t][j], j, Local(t));
      assert IsBlock(ar.own, Block(ar.chain[t][j][0], j, Local(t)));
      BlockHasRegion(ar.own, t, ar.own[ar.chain[t][j][0]], k);
    }
  }

  lemma BlockHasRegion(own: Partition, t: nat, b: Block, k: nat)
    requires Tiled(own) && IsBlock(own, b) && Usable(b, t) && k <= b.lvl
    ensures RegionUsable(own, t, b.addr, k)
  {
    hide Units, Aligned;
    AlignedDown(b.addr, k, b.lvl);
    UnitsAligned(k, b.lvl);
  }

  lemma HandedNotExhausted(ar: Arena, br: Arena, t: nat, k: nat, a: int)
    requires Shape(ar.chain) && t < THREADS_MAX && k <= TOP && Handed(ar, br, t, k, a)
    ensures !Exhausted(ar, t, k)
  {
  }

  // ----- what freeing does

  ghost function BuddyOf(a: int, k: nat): int {
    if Aligned(a, k + 1) then a + Units(k) else a - Units(k)
  }

  /** The free block that results when thread t frees the block a of level k: as long as its
      buddy is a free block of t, the two become one. */
  ghost function Coalesce(own: Partition, t: nat, a: int, k: nat): (b: Block)
    requires k <= TOP
    ensures k <= b.lvl <= TOP && b.place == Local(t)
    decreases TOP - k
  {
    if k < TOP && IsBlock(own, Block(BuddyOf(a, k), k, Local(t)))
    then Coalesce(own, t, Parent(a, k), k + 1)
    else Block(a, k, Local(t))
  }

  /** Merging with the buddy found on the list is one step of Coalesce. */
  lemma AbsorbStep(ar: Arena, t: nat, k: nat, a: int, j: nat)
    requires Consistent(ar) && t < THREADS_MAX && k < TOP && j < |ar.chain[t][k]|
    requires IsBlock(ar.own, Block(a, k, Live)) && Buddies(a, ar.chain[t][k][j], k)
    ensures var p, m := Min(a, ar.chain[t][k][j]), Merge(ar, t, k, a, j);
            var c := Coalesce(ar.own, t, a, k);
            IsBlock(m.own, Block(p, k + 1, Live)) &&
            c == Coalesce(m.own, t, p, k + 1) && Paint(m.own, c) == Paint(ar.own, c) &&
            (forall u :: 0 <= u < |ar.own| && !Inside(c, u) ==> m.own[u] == ar.own[u]) &&
            m.glob == ar.glob && forall i :: 0 <= i < THREADS_MAX && i != t ==> m.chain[i] == ar.chain[i]
  {
    hide Units, Aligned, Coalesced;
    var b := ar.chain[t][k][j];
    var p := Min(a, b);
    SortedRow(ar, t, k);
    assert IsBlock(ar.own, Block(b, k, Local(t))) by { assert Lists(ar.own, ar.chain[t][k], k, Local(t)); }
    Halves(a, k);
    Halves(b, k);
    assert b == BuddyOf(a, k) && p == Parent(a, k);
    var merged := Block(p, k + 1, Live);
    MergeConsistent(ar, t, k, a, j);
    CoalesceAfter(ar.own, merged, t, p, k + 1);
    CoalesceInside(ar.own, t, p, k + 1);
    PaintOver(ar.own, merged, Coalesce(ar.own, t, p, k + 1));
  }

  lemma PaintOver(own: Partition, b: Block, c: Block)
    requires forall u :: Inside(b, u) ==> Inside(c, u)
    ensures Paint(Paint(own, b), c) == Paint(own, c)
    ensures forall u :: 0 <= u < |own| && !Inside(c, u) ==> Paint(own, b)[u] == own[u]
  {
    hide Inside;
  }

  /** Coalescing depends only on units outside the block it starts from. */
  lemma {:induction false} CoalesceAfter(own: Partition, b: Block, t: nat, a: int, k: nat)
    requires k <= TOP && Aligned(a, k) && b.place.Live? && 0 <= b.addr < |own|
    requires forall u :: Inside(b, u) ==> a <= u < a + Units(k)
    ensures Coalesce(Paint(own, b), t, a, k) == Coalesce(own, t, a, k)
    decreases TOP - k
  {
    hide Aligned, Units;
    if k < TOP {
      Halves(a, k);
      assert IsBlock(Paint(own, b), Block(BuddyOf(a, k), k, Local(t))) <==> IsBlock(own, Block(BuddyOf(a, k), k, Local(t)));
      CoalesceAfter(own, b, t, Parent(a, k), k + 1);
    }
  }

  lemma {:induction false} CoalesceInside(own: Partition, t: nat, a: int, k: nat)
    requires k <= TOP && Aligned(a, k)
    ensures var c := Coalesce(own, t, a, k);
            Aligned(c.addr, c.lvl) && forall u :: a <= u < a + Units(k) ==> Inside(c, u)
    decreases TOP - k
  {
    hide Aligned, Units;
    if k < TOP {
      Halves(a, k);
      CoalesceInside(own, t, Parent(a, k), k + 1);
    }
  }

  /** No buddy was met before position j and none is at it: there is none on the list. */
  lemma InsertStep(ar: Arena, t: nat, k: nat, a: int, j: nat)
    requires Consistent(ar) && t < THREADS_MAX && k <= TOP && j <= |ar.chain[t][k]|
    requires IsBlock(ar.own, Block(a, k, Live))
    requires j < |ar.chain[t][k]| ==> a < ar.chain[t][k][j]
    requires k < TOP ==> forall x :: 0 <= x < j ==> !Buddies(a, ar.chain[t][k][x], k)
    requires k < TOP && j < |ar.chain[t][k]| ==> !Buddies(a, ar.chain[t][k][j], k)
    ensures forall i :: j <= i < |ar.chain[t][k]| ==> a < ar.chain[t][k][i]
    ensures k < TOP ==> forall b :: b in ar.chain[t][k] ==> !Buddies(a, b, k)
    ensures var r := Insert(ar, t, k, a, j);
            r.own == Paint(ar.own, Coalesce(ar.own, t, a, k)) && r.glob == ar.glob &&
            forall i :: 0 <= i < THREADS_MAX && i != t ==> r.chain[i] == ar.chain[i]
  {
    hide Units, Aligned, Coalesced;
    var s := ar.chain[t][k];
    assert Lists(ar.own, s, k, Local(t));
    if k < TOP {
      Halves(a, k);
      forall x | j < x < |s| ensures !Buddies(a, s[x], k) {
        assert IsBlock(ar.own, Block(s[j], k, Local(t)));
        AlignedGap(a, s[j], k);
      }
      assert IsBlock(ar.own, Block(BuddyOf(a, k), k, Local(t))) ==> BuddyOf(a, k) in s;
      assert Buddies(a, BuddyOf(a, k), k);
    }
  }

  // ----- laws of the calls together

  /** Everything a free merges was free memory of the calling thread. */
  lemma {:induction false} CoalesceTakesOwn(own: Partition, t: nat, a: int, k: nat)
    requires Tiled(own) && k <= TOP && Fits(Block(a, k, Live), |own|)
    ensures var c := Coalesce(own, t, a, k);
            Fits(c, |own|) &&
            forall u :: Inside(c, u) && !(a <= u < a + Units(k)) ==> 0 <= u < |own| && own[u].place == Local(t)
    decreases TOP - k
  {
    hide Aligned, Units;
    if k < TOP && IsBlock(own, Block(BuddyOf(a, k), k, Local(t))) {
      Halves(a, k);
      ParentBounds(a, k, |own|);
      CoalesceTakesOwn(own, t, Parent(a, k), k + 1);
      assert forall u :: Parent(a, k) <= u < Parent(a, k) + Units(k + 1) ==>
        (a <= u < a + Units(k)) || Inside(Block(BuddyOf(a, k), k, Local(t)), u);
    }
  }

  /** Round trip: freeing a block just obtained gives every unit back to whoever could use it,
      and cuts the memory the thread can use into exactly the blocks there were before. */
  lemma FreeUndoesAllocation(ar: Arena, br: Arena, cr: Arena, t: nat, k: nat, a: int)
    requires Consistent(ar) && Consistent(br) && Consistent(cr) && t < THREADS_MAX && k <= TOP
    requires Handed(ar, br, t, k, a)
    requires cr.own == Paint(br.own, Coalesce(br.own, t, a, k))
    ensures |cr.own| == |ar.own|
    ensures forall u :: 0 <= u < |ar.own| ==> (Usable(cr.own[u], t) <==> Usable(ar.own[u], t))
    ensures forall u :: 0 <= u < |ar.own| && !Usable(ar.own[u], t) ==> cr.own[u] == ar.own[u]
    ensures forall u :: 0 <= u < |ar.own| && Usable(ar.own[u], t) ==>
                          cr.own[u].addr == ar.own[u].addr && cr.own[u].lvl == ar.own[u].lvl
  {
    hide Aligned, Units, Coalesced;
    var m := FitLevel(ar.chain[t], k);
    UnitsAligned(k, m);
    CoalesceTakesOwn(br.own, t, a, k);
    forall u | 0 <= u < |ar.own|
      ensures Usable(cr.own[u], t) <==> Usable(ar.own[u], t)
      ensures !Usable(ar.own[u], t) ==> cr.own[u] == ar.own[u]
    {
      if a <= u < a + Units(m) {
        assert ar.own[u] == ar.own[a];
        assert a <= u < a + Units(k) ==> br.own[u] == Block(a, k, Live);
        CoalesceInside(br.own, t, a, k);
      } else {
        assert br.own[u] == Refilled(ar.own[u], a, Moved(ar, t, k), t);
      }
    }
    SameUsableSameBlocks(ar.own, cr.own, t);
  }

  // ----- runs of a single thread

  /** All memory is live or can be used by t, as in every run in which only t calls. */
  ghost predicate OneThread(own: Partition, t: nat) {
    forall u :: 0 <= u < |own| ==> own[u].place.Live? || Usable(own[u], t)
  }

  lemma OneThreadKept(ar: Arena, br: Arena, t: nat, k: nat, a: int)
    requires Consistent(ar) && Consistent(br) && t < THREADS_MAX && k <= TOP && Handed(ar, br, t, k, a)
    requires OneThread(ar.own, t)
    ensures OneThread(br.own, t)
  {
    hide Aligned, Units, Coalesced;
    var m := FitLevel(ar.chain[t], k);
    forall u | 0 <= u < |ar.own| ensures br.own[u].place.Live? || Usable(br.own[u], t) {
      if a <= u < a + Units(k) {
        assert br.own[u] == Block(a, k, Live);
      } else if !(a <= u < a + Units(m)) {
        assert br.own[u] == Refilled(ar.own[u], a, Moved(ar, t, k), t);
      }
    }
  }

  lemma OneThreadFreed(own: Partition, t: nat, a: int, k: nat)
    requires OneThread(own, t) && k <= TOP
    ensures OneThread(Paint(own, Coalesce(own, t, a, k)), t)
  {
  }

  /** The only new live block after an allocation is the one handed out. */
  lemma OnlyNewByMalloc(ar: Arena, br: Arena, t: nat, k: nat, a: int, b: Block)
    requires Consistent(ar) && Consistent(br) && t < THREADS_MAX && k <= TOP && Handed(ar, br, t, k, a)
    requires b.place.Live? && IsBlock(br.own, b)
    ensures IsBlock(ar.own, b) || b == Block(a, k, Live)
  {
    hide Aligned, Units, Coalesced;
    var m := FitLevel(ar.chain[t], k);
    if a <= b.addr < a + Units(k) {
      assert br.own[b.addr] == br.own[a];
    } else if !(a <= b.addr < a + Units(m)) {
      assert br.own[b.addr] == Refilled(ar.own[b.addr], a, Moved(ar, t, k), t);
    }
  }

  /** A free makes no block live, and the block freed is live no more. */
  lemma NoneNewByFree(own: Partition, t: nat, a: int, k: nat, b: Block)
    requires Tiled(own) && k <= TOP && IsBlock(own, Block(a, k, Live))
    requires b.place.Live? && IsBlock(Paint(own, Coalesce(own, t, a, k)), b)
    ensures IsBlock(own, b) && b.addr != a
  {
    hide Aligned, Units;
    CoalesceInside(own, t, a, k);
  }

  /** An allocation takes memory that was free and keeps every live block. */
  lemma LiveKeptByMalloc(ar: Arena, br: Arena, t: nat, k: nat, a: int)
    requires Consistent(ar) && t < THREADS_MAX && k <= TOP && Handed(ar, br, t, k, a)
    ensures !ar.own[a].place.Live? && IsBlock(br.own, Block(a, k, Live))
    ensures forall b: Block :: b.place.Live? && IsBlock(ar.own, b) ==> IsBlock(br.own, b) && b.addr != a
  {
    hide Aligned, Units, Coalesced;
    var m := FitLevel(ar.chain[t], k);
    forall b: Block | b.place.Live? && IsBlock(ar.own, b) ensures IsBlock(br.own, b) && b.addr != a {
      assert !(a <= b.addr < a + Units(m));
      assert br.own[b.addr] == Refilled(ar.own[b.addr], a, Moved(ar, t, k), t);
    }
  }

  /** A free keeps every other live block. */
  lemma LiveKeptByFree(own: Partition, t: nat, a: int, k: nat)
    requires Tiled(own) && k <= TOP && IsBlock(own, Block(a, k, Live))
    ensures forall b: Block :: b.place.Live? && b.addr != a && IsBlock(own, b) ==>
                                 IsBlock(Paint(own, Coalesce(own, t, a, k)), b)
  {
    hide Aligned, Units;
    CoalesceTakesOwn(own, t, a, k);
    forall b: Block | b.place.Live? && b.addr != a && IsBlock(own, b) ensures !Inside(Coalesce(own, t, a, k), b.addr) {
      assert !Inside(own[a], b.addr);
    }
  }

  ghost predicate WhollyFree(own: Partition, a: int, k: nat) {
    && 0 <= a && Aligned(a, k) && a + Units(k) <= |own|
    && forall u :: a <= u < a + Units(k) ==> !own[u].place.Live?
  }

  lemma OneThreadRegions(own: Partition, t: nat, a: int, k: nat)
    requires OneThread(own, t)
    ensures RegionUsable(own, t, a, k) <==> WhollyFree(own, a, k)
  {
  }

  /** Canonical form: below 2 MB a block is on its list exactly when it is wholly free and its
      parent is not; and equal live units mean equal free blocks, whatever the history. */
  lemma OneThreadCanonical(own: Partition, t: nat, a: int, k: nat)
    requires Invariant(own) && OneThread(own, t)
    requires k < TOP && 0 <= a && Aligned(a, k) && a + Units(k) <= |own|
    ensures IsFree(own, a, k, t) <==> WhollyFree(own, a, k) && !WhollyFree(own, Parent(a, k), k + 1)
  {
    CanonicalFree(own, t, a, k);
    OneThreadRegions(own, t, a, k);
    OneThreadRegions(own, t, Parent(a, k), k + 1);
  }

  /** Every block below 2 MB is on its list exactly when it is wholly free and its parent is not. */
  ghost predicate CanonicalLists(own: Partition, t: nat) {
    forall a: int, k: nat {:trigger IsFree(own, a, k, t)} ::
      k < TOP && 0 <= a && Aligned(a, k) && a + Units(k) <= |own| ==>
        (IsFree(own, a, k, t) <==> WhollyFree(own, a, k) && !WhollyFree(own, Parent(a, k), k + 1))
  }

  lemma OneThreadCanonicalLists(own: Partition, t: nat)
    requires Invariant(own) && OneThread(own, t)
    ensures CanonicalLists(own, t)
  {
    hide Aligned, Units, IsFree, WhollyFree, Parent, Invariant;
    forall a: int, k: nat | k < TOP && 0 <= a && Aligned(a, k) && a + Units(k) <= |own|
      ensures IsFree(own, a, k, t) <==> WhollyFree(own, a, k) && !WhollyFree(own, Parent(a, k), k + 1)
    {
      OneThreadCanonical(own, t, a, k);
    }
  }

  lemma LiveUnitsDecideFreeBlocks(own: Partition, other: Partition, t: nat)
    requires Invariant(own) && Invariant(other) && |own| == |other|
    requires OneThread(own, t) && OneThread(other, t)
    requires forall u :: 0 <= u < |own| ==> own[u].place.Live? == other[u].place.Live?
    ensures forall u :: 0 <= u < |own| && !own[u].place.Live? ==>
                          own[u].addr == other[u].addr && own[u].lvl == other[u].lvl
  {
    SameUsableSameBlocks(own, other, t);
  }

  /** Freeing everything leaves whole 2 MB chunks only. */
  lemma AllFreeAllWhole(own: Partition, t: nat, u: int)
    requires Invariant(own) && OneThread(own, t) && 0 <= u < |own|
    requires forall v :: 0 <= v < |own| ==> !own[v].place.Live?
    ensures own[u].lvl == TOP
  {
    AllUsableAllWhole(own, t, u);
  }

  /** Allocation is complete: there is nothing to hand out exactly when no aligned region of
      the size is wholly free. */
  lemma OneThreadComplete(ar: Arena, t: nat, k: nat)
    requires Consistent(ar) && OneThread(ar.own, t) && t < THREADS_MAX && k <= TOP
    ensures Exhausted(ar, t, k) <==> forall a :: !WhollyFree(ar.own, a, k)
  {
    ExhaustedMeansNoRegion(ar, t, k);
    forall a ensures RegionUsable(ar.own, t, a, k) <==> WhollyFree(ar.own, a, k) {
      OneThreadRegions(ar.own, t, a, k);
    }
  }
}
