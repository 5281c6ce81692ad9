/** The abstract state of the buddy allocator, partition and free lists together, and the
    five transitions its code is made of: pop, refill, split, merge and insert. */
module BuddyArena {
  import opened BuddyTiling

  const ENTRY_MAX := TOP + 1
  const THREADS_MAX := 16
  /** A refill returns one chunk and moves at most this many more to the thread's list. */
  const BATCH := 65

  datatype Arena = Arena(own: Partition, chain: seq<seq<seq<int>>>, glob: seq<int>)

  ghost predicate Sorted(s: seq<int>) {
    forall i, j :: 0 <= i < j < |s| ==> s[i] < s[j]
  }

  /** s lists, in address order, exactly the blocks of level k held at a place. */
  ghost predicate Lists(own: Partition, s: seq<int>, k: nat, p: Place) {
    && Sorted(s)
    && (forall j :: 0 <= j < |s| ==> IsBlock(own, Block(s[j], k, p)))
    && (forall a :: IsBlock(own, Block(a, k, p)) ==> a in s)
  }

  ghost predicate Shape(chain: seq<seq<seq<int>>>) {
    |chain| == THREADS_MAX && forall t :: 0 <= t < THREADS_MAX ==> |chain[t]| == ENTRY_MAX
  }

  ghost predicate Consistent(ar: Arena) {
    && Invariant(ar.own)
    && Shape(ar.chain)
    && (forall t: nat, k: nat :: t < THREADS_MAX && k <= TOP ==> Lists(ar.own, ar.chain[t][k], k, Local(t)))
    && Lists(ar.own, ar.glob, TOP, Global)
    && (forall u :: 0 <= u < |ar.own| && ar.own[u].place.Local? ==> ar.own[u].place.thread < THREADS_MAX)
  }

  ghost function SetRow(chain: seq<seq<seq<int>>>, t: nat, k: nat, s: seq<int>): (r: seq<seq<seq<int>>>)
    requires Shape(chain) && t < THREADS_MAX && k <= TOP
    ensures Shape(r) && r[t][k] == s
    ensures forall i, j :: 0 <= i < THREADS_MAX && 0 <= j <= TOP && (i != t || j != k) ==> r[i][j] == chain[i][j]
  {
    chain[t := chain[t][k := s]]
  }

  function Min(x: int, y: int): int {
    if x < y then x else y
  }

  // ----- the arena at start-up

  const CHUNK := 4096

  ghost function Chunks(c: nat): seq<int> {
    seq(c, i => i * CHUNK)
  }

  /** Every unit belongs to its 2 MB chunk, and every chunk is on the global list. */
  ghost function Fresh(c: nat): (ar: Arena)
    ensures Shape(ar.chain) && |ar.own| == c * CHUNK
  {
    Arena(seq(c * CHUNK, u => Block(u / CHUNK * CHUNK, TOP, Global)),
          seq(THREADS_MAX, t => seq(ENTRY_MAX, k => [])), Chunks(c))
  }

  lemma FreshConsistent(c: nat)
    ensures Consistent(Fresh(c)) && Fresh(c).glob == Chunks(c)
    ensures forall t: nat, k: nat :: t < THREADS_MAX && k <= TOP ==> Fresh(c).chain[t][k] == []
  {
    hide Units, Aligned, Fits, Inside;
    var own := Fresh(c).own;
    FreshTiled(c);
    forall u | 0 <= u < |own| ensures own[u].addr in Chunks(c) {
      assert Chunks(c)[u / CHUNK] == own[u].addr;
    }
    forall j | 0 <= j < c ensures IsBlock(own, Block(Chunks(c)[j], TOP, Global)) {
      assert Chunks(c)[j] / CHUNK == j;
    }
  }

  lemma FreshTiled(c: nat)
    ensures Tiled(Fresh(c).own)
  {
    hide Units, Aligned;
    TopUnits();
    ChunkAligned(c);
    forall u | 0 <= u < c * CHUNK ensures Fits(Fresh(c).own[u], c * CHUNK) && Inside(Fresh(c).own[u], u) {
      ChunkAligned(u / CHUNK);
    }
  }

  /** All memory is on the global list. */
  lemma AllGlobal(c: nat)
    ensures forall u :: 0 <= u < |Fresh(c).own| ==> Fresh(c).own[u].place.Global?
  {
  }

  lemma TopUnits()
    ensures Units(TOP) == CHUNK
  {
  }

  lemma ChunkAligned(i: int)
    ensures Aligned(i * CHUNK, TOP)
  {
    TopUnits();
    AlignedIsMultiple(i * CHUNK, TOP);
  }

  // ----- taking a block off a thread's list

  ghost function Pop(ar: Arena, t: nat, k: nat): Arena
    requires Shape(ar.chain) && t < THREADS_MAX && k <= TOP && ar.chain[t][k] != []
  {
    var s := ar.chain[t][k];
    Arena(Paint(ar.own, Block(s[0], k, Live)), SetRow(ar.chain, t, k, s[1..]), ar.glob)
  }

  lemma PopConsistent(ar: Arena, t: nat, k: nat)
    requires Consistent(ar) && t < THREADS_MAX && k <= TOP && ar.chain[t][k] != []
    ensures Consistent(Pop(ar, t, k))
  {
    hide Units, Aligned;
    var s := ar.chain[t][k];
    var r := Pop(ar, t, k);
    var b := Block(s[0], k, Live);
    assert IsBlock(ar.own, Block(s[0], k, Local(t)));
    PaintInvariant(ar.own, b);
    PaintBlocks(ar.own, b);
    assert forall c :: IsBlock(ar.own, c) && Inside(b, c.addr) ==> c == Block(s[0], k, Local(t));
    assert Lists(r.own, s[1..], k, Local(t)) by {
      assert s == [s[0]] + s[1..];
    }
    forall i: nat, j: nat | i < THREADS_MAX && j <= TOP && (i != t || j != k)
      ensures Lists(r.own, r.chain[i][j], j, Local(i))
    {
      ListKept(ar.own, r.own, ar.chain[i][j], j, Local(i));
    }
    ListKept(ar.own, r.own, ar.glob, TOP, Global);
  }

  lemma PaintBlocks(own: Partition, b: Block)
    requires 0 <= b.addr < |own|
    ensures forall c :: IsBlock(Paint(own, b), c) <==> c == b || (IsBlock(own, c) && !Inside(b, c.addr))
  {
  }

  lemma ListKept(own: Partition, other: Partition, s: seq<int>, k: nat, p: Place)
    requires Lists(own, s, k, p)
    requires forall a :: IsBlock(own, Block(a, k, p)) <==> IsBlock(other, Block(a, k, p))
    ensures Lists(other, s, k, p)
  {
  }

  lemma ListWithout(own: Partition, other: Partition, s: seq<int>, j: nat, k: nat, p: Place)
    requires Lists(own, s, k, p) && j < |s|
    requires forall a :: IsBlock(other, Block(a, k, p)) <==> IsBlock(own, Block(a, k, p)) && a != s[j]
    ensures Lists(other, s[..j] + s[j + 1..], k, p)
  {
  }

  lemma ListWith(own: Partition, other: Partition, s: seq<int>, x: int, j: nat, k: nat, p: Place)
    requires Lists(own, s, k, p) && j <= |s|
    requires forall i :: 0 <= i < j ==> s[i] < x
    requires forall i :: j <= i < |s| ==> x < s[i]
    requires forall a :: IsBlock(other, Block(a, k, p)) <==> IsBlock(own, Block(a, k, p)) || a == x
    ensures Lists(other, s[..j] + [x] + s[j..], k, p)
  {
  }

  /** What a transition has to show that changes only the list of thread t at level k, and
      perhaps the global list. */
  lemma Assemble(ar: Arena, r: Arena, t: nat, k: nat)
    requires Consistent(ar) && Invariant(r.own) && t < THREADS_MAX && k <= TOP && Shape(r.chain)
    requires r.chain == SetRow(ar.chain, t, k, r.chain[t][k])
    requires Lists(r.own, r.chain[t][k], k, Local(t)) && Lists(r.own, r.glob, TOP, Global)
    requires forall a, l: nat, i: nat :: (l != k || i != t) ==>
               (IsBlock(r.own, Block(a, l, Local(i))) <==> IsBlock(ar.own, Block(a, l, Local(i))))
    requires forall u :: 0 <= u < |r.own| && r.own[u].place.Local? ==> r.own[u].place.thread < THREADS_MAX
    ensures Consistent(r)
  {
  }

  // ----- refilling a thread's list from the global list

  /** The label of a unit after the chunk `first` is handed out and `moved` go to thread t. */
  ghost function Refilled(b: Block, first: int, moved: seq<int>, t: nat): Block {
    if !b.place.Global? then b
    else if b.addr == first then b.(place := Live)
    else if b.addr in moved then b.(place := Local(t))
    else b
  }

  ghost function Refill(ar: Arena, t: nat): Arena
    requires Shape(ar.chain) && t < THREADS_MAX && ar.glob != []
  {
    var c := Min(|ar.glob|, 1 + BATCH);
    var moved := ar.glob[1..c];
    Arena(seq(|ar.own|, u requires 0 <= u < |ar.own| => Refilled(ar.own[u], ar.glob[0], moved, t)),
          SetRow(ar.chain, t, TOP, moved), ar.glob[c..])
  }

  /** What a refill changes, list by list; the chunks moved are on no other list and not live. */
  lemma RefillParts(ar: Arena, t: nat)
    requires Consistent(ar) && t < THREADS_MAX && ar.glob != [] && ar.chain[t][TOP] == []
    ensures var r, moved := Refill(ar, t), ar.glob[1..Min(|ar.glob|, 1 + BATCH)];
            && Shape(r.chain) && |r.own| == |ar.own|
            && r.glob == ar.glob[Min(|ar.glob|, 1 + BATCH)..] && r.chain[t][TOP] == moved
            && (forall i: nat, j: nat :: i < THREADS_MAX && j <= TOP && (i != t || j != TOP) ==> r.chain[i][j] == ar.chain[i][j])
            && (forall i: nat, j: nat, x: nat :: i < THREADS_MAX && j <= TOP && x < |ar.chain[i][j]| ==> ar.chain[i][j][x] !in moved)
            && (forall u :: 0 <= u < |r.own| && r.own[u].place.Live? ==> u !in moved)
  {
    hide Units, Aligned, Tiled, Coalesced;
    Elements(ar);
    var moved := ar.glob[1..Min(|ar.glob|, 1 + BATCH)];
    forall u | u in moved ensures 0 <= u < |ar.own| && ar.own[u] == Block(u, TOP, Global) && u != ar.glob[0] {
      var j :| 0 <= j < |moved| && moved[j] == u;
      assert u == ar.glob[j + 1];
    }
  }

  lemma RefillConsistent(ar: Arena, t: nat)
    requires Consistent(ar) && t < THREADS_MAX && ar.glob != [] && ar.chain[t][TOP] == []
    ensures Consistent(Refill(ar, t))
    ensures IsBlock(Refill(ar, t).own, Block(ar.glob[0], TOP, Live))
  {
    hide Units, Aligned;
    var r := Refill(ar, t);
    var c := Min(|ar.glob|, 1 + BATCH);
    assert IsBlock(ar.own, Block(ar.glob[0], TOP, Global));
    RefillInvariant(ar.own, r.own, ar.glob[0], ar.glob[1..c], t);
    assert Lists(ar.own, [], TOP, Local(t));
    RefillLists(ar.own, r.own, ar.glob, c, t);
    assert r.chain == SetRow(ar.chain, t, TOP, r.chain[t][TOP]);
    Assemble(ar, r, t, TOP);
  }

  lemma RefillLists(own: Partition, other: Partition, glob: seq<int>, c: int, t: nat)
    requires GlobalTop(own) && |own| == |other| && 1 <= c <= |glob|
    requires forall u :: 0 <= u < |own| ==> other[u] == Refilled(own[u], glob[0], glob[1..c], t)
    requires Lists(own, glob, TOP, Global)
    requires Lists(own, [], TOP, Local(t))
    ensures Lists(other, glob[1..c], TOP, Local(t))
    ensures Lists(other, glob[c..], TOP, Global)
    ensures forall a, l: nat, i: nat :: (l != TOP || i != t) ==>
              (IsBlock(other, Block(a, l, Local(i))) <==> IsBlock(own, Block(a, l, Local(i))))
  {
    hide Units, Aligned;
    var moved, rest := glob[1..c], glob[c..];
    SortedParts(glob, c);
    forall b ensures IsBlock(other, b) <==> RefilledBlock(own, glob[0], moved, t, b) {
      assert 0 <= b.addr < |own| ==> other[b.addr] == Refilled(own[b.addr], glob[0], moved, t);
    }
    forall a ensures IsBlock(own, Block(a, TOP, Global)) <==> a in glob {}
    assert Lists(other, moved, TOP, Local(t)) by {
      forall a ensures IsBlock(other, Block(a, TOP, Local(t))) <==> a in moved {
        assert IsBlock(other, Block(a, TOP, Local(t))) <==> RefilledBlock(own, glob[0], moved, t, Block(a, TOP, Local(t)));
      }
    }
    assert Lists(other, rest, TOP, Global) by {
      forall a ensures IsBlock(other, Block(a, TOP, Global)) <==> a in rest {
        assert IsBlock(other, Block(a, TOP, Global)) <==> RefilledBlock(own, glob[0], moved, t, Block(a, TOP, Global));
      }
    }
    forall a, l: nat, i: nat | l != TOP || i != t
      ensures IsBlock(other, Block(a, l, Local(i))) <==> IsBlock(own, Block(a, l, Local(i)))
    {
      assert IsBlock(other, Block(a, l, Local(i))) <==> RefilledBlock(own, glob[0], moved, t, Block(a, l, Local(i)));
    }
  }

  ghost predicate RefilledBlock(own: Partition, first: int, moved: seq<int>, t: nat, b: Block) {
    match b.place
    case Global => IsBlock(own, b) && b.addr != first && b.addr !in moved
    case Local(i) => IsBlock(own, b) || (i == t && b.addr != first && b.addr in moved && IsBlock(own, b.(place := Global)))
    case Live => IsBlock(own, b) || (b.addr == first && IsBlock(own, b.(place := Global)))
  }

  lemma SortedParts(s: seq<int>, c: int)
    requires Sorted(s) && 1 <= c <= |s|
    ensures Sorted(s[1..c]) && Sorted(s[c..])
    ensures forall a :: a in s <==> a == s[0] || a in s[1..c] || a in s[c..]
    ensures forall a :: a in s[1..c] ==> a != s[0] && a !in s[c..]
    ensures forall a :: a in s[c..] ==> a != s[0]
  {
  }

  lemma RefillInvariant(own: Partition, other: Partition, first: int, moved: seq<int>, t: nat)
    requires Invariant(own) && |own| == |other|
    requires forall u :: 0 <= u < |own| ==> other[u] == Refilled(own[u], first, moved, t)
    ensures Invariant(other)
  {
    hide Units, Aligned;
    assert forall u :: 0 <= u < |own| ==> other[u].addr == own[u].addr && other[u].lvl == own[u].lvl;
    assert Tiled(other);
    forall a: int, k: nat, i: nat | k < TOP && Aligned(a, k + 1) && IsFree(other, a, k, i)
      ensures !IsBlock(other, Block(a + Units(k), k, Local(i)))
    {
      assert IsFree(own, a, k, i) && !IsBlock(own, Block(a + Units(k), k, Local(i)));
    }
  }

  // ----- splitting a block

  ghost function Split(ar: Arena, t: nat, a: int, k: nat): Arena
    requires Shape(ar.chain) && t < THREADS_MAX && k <= TOP
  {
    var h := a + Units(k);
    Arena(Paint(Paint(ar.own, Block(a, k, Live)), Block(h, k, Local(t))), SetRow(ar.chain, t, k, [h]), ar.glob)
  }

  lemma SplitConsistent(ar: Arena, t: nat, a: int, k: nat)
    requires Consistent(ar) && t < THREADS_MAX && k < TOP
    requires IsBlock(ar.own, Block(a, k + 1, Live)) && ar.chain[t][k] == []
    ensures Consistent(Split(ar, t, a, k))
  {
    hide Units, Aligned;
    var r := Split(ar, t, a, k);
    assert Lists(ar.own, [], k, Local(t));
    assert Invariant(r.own) by { SplitInvariant(ar.own, t, a, k); }
    SplitLists(ar.own, r.own, ar.glob, a, k, t) by { SplitBlocks(ar.own, a, k, Local(t)); }
    assert r.chain == SetRow(ar.chain, t, k, r.chain[t][k]);
    Assemble(ar, r, t, k);
  }

  ghost predicate SplitOf(own: Partition, b: Block, a: int, k: nat, p: Place) {
    b == Block(a, k, Live) || b == Block(a + Units(k), k, p) || (IsBlock(own, b) && b != Block(a, k + 1, Live))
  }

  lemma SplitLists(own: Partition, other: Partition, glob: seq<int>, a: int, k: nat, t: nat)
    requires forall b :: IsBlock(other, b) <==> SplitOf(own, b, a, k, Local(t))
    requires Lists(own, [], k, Local(t)) && Lists(own, glob, TOP, Global)
    ensures Lists(other, [a + Units(k)], k, Local(t)) && Lists(other, glob, TOP, Global)
    ensures forall x, l: nat, i: nat :: (l != k || i != t) ==>
              (IsBlock(other, Block(x, l, Local(i))) <==> IsBlock(own, Block(x, l, Local(i))))
  {
  }

  lemma SplitBlocks(own: Partition, a: int, k: nat, p: Place)
    requires Tiled(own) && k < TOP && IsBlock(own, Block(a, k + 1, Live))
    ensures var r := Paint(Paint(own, Block(a, k, Live)), Block(a + Units(k), k, p));
            Tiled(r) &&
            forall b :: IsBlock(r, b) <==> SplitOf(own, b, a, k, p)
  {
    hide Units, Aligned;
    var whole, left, right := Block(a, k + 1, Live), Block(a, k, Live), Block(a + Units(k), k, p);
    AlignedDown(a, k, k + 1);
    Halves(a, k);
    var r := Paint(Paint(own, left), right);
    assert forall u :: Inside(whole, u) <==> Inside(left, u) || Inside(right, u);
    assert forall u :: 0 <= u < |own| ==> (Inside(whole, u) <==> own[u] == whole);
    assert forall u :: 0 <= u < |own| ==>
      r[u] == if Inside(right, u) then right else if Inside(left, u) then left else own[u];
  }

  lemma SplitInvariant(own: Partition, t: nat, a: int, k: nat)
    requires Invariant(own) && k < TOP && IsBlock(own, Block(a, k + 1, Live))
    requires forall x :: !IsFree(own, x, k, t)
    ensures Invariant(Paint(Paint(own, Block(a, k, Live)), Block(a + Units(k), k, Local(t))))
  {
    hide Units, Aligned;
    var r := Paint(Paint(own, Block(a, k, Live)), Block(a + Units(k), k, Local(t)));
    SplitBlocks(own, a, k, Local(t));
    AlignedDown(a, k, k + 1);
    Halves(a, k);
    forall x: int, l: nat, i: nat | l < TOP && Aligned(x, l + 1) && IsFree(r, x, l, i)
      ensures !IsBlock(r, Block(x + Units(l), l, Local(i)))
    {
      assert IsFree(own, x, l, i) ==> !IsBlock(own, Block(x + Units(l), l, Local(i)));
    }
  }

  // ----- merging a freed block with its buddy

  ghost predicate Buddies(a: int, b: int, k: nat) {
    (b == a + Units(k) && Aligned(a, k + 1)) || (a == b + Units(k) && Aligned(b, k + 1))
  }

  ghost function Merge(ar: Arena, t: nat, k: nat, a: int, j: nat): Arena
    requires Shape(ar.chain) && t < THREADS_MAX && k <= TOP && j < |ar.chain[t][k]|
  {
    var s := ar.chain[t][k];
    Arena(Paint(ar.own, Block(Min(a, s[j]), k + 1, Live)), SetRow(ar.chain, t, k, s[..j] + s[j + 1..]), ar.glob)
  }

  lemma MergeConsistent(ar: Arena, t: nat, k: nat, a: int, j: nat)
    requires Consistent(ar) && t < THREADS_MAX && k < TOP && j < |ar.chain[t][k]|
    requires IsBlock(ar.own, Block(a, k, Live)) && Buddies(a, ar.chain[t][k][j], k)
    ensures Consistent(Merge(ar, t, k, a, j))
    ensures IsBlock(Merge(ar, t, k, a, j).own, Block(Min(a, ar.chain[t][k][j]), k + 1, Live))
  {
    hide Units, Aligned;
    var s := ar.chain[t][k];
    var r := Merge(ar, t, k, a, j);
    assert IsBlock(ar.own, Block(s[j], k, Local(t)));
    MergeBlocks(ar.own, a, s[j], k, t);
    ListWithout(ar.own, r.own, s, j, k, Local(t));
    ListKept(ar.own, r.own, ar.glob, TOP, Global);
    assert r.chain == SetRow(ar.chain, t, k, r.chain[t][k]);
    Assemble(ar, r, t, k);
  }

  lemma MergeBlocks(own: Partition, a: int, b: int, k: nat, t: nat)
    requires Invariant(own) && k < TOP && Buddies(a, b, k)
    requires IsBlock(own, Block(a, k, Live)) && IsBlock(own, Block(b, k, Local(t)))
    ensures var r := Paint(own, Block(Min(a, b), k + 1, Live));
            Invariant(r) &&
            forall c ::
              IsBlock(r, c) <==>
              c == Block(Min(a, b), k + 1, Live) ||
              (IsBlock(own, c) && c != Block(a, k, Live) && c != Block(b, k, Local(t)))
  {
    hide Units, Aligned;
    var mine, other, both := Block(a, k, Live), Block(b, k, Local(t)), Block(Min(a, b), k + 1, Live);
    Halves(Min(a, b), k);
    assert forall u :: Inside(both, u) <==> Inside(mine, u) || Inside(other, u);
    assert Inside(both, a) && Inside(both, b);
    PaintInvariant(own, both);
    PaintBlocks(own, both);
  }

  // ----- putting a block on a thread's list

  ghost function Insert(ar: Arena, t: nat, k: nat, a: int, j: nat): Arena
    requires Shape(ar.chain) && t < THREADS_MAX && k <= TOP && j <= |ar.chain[t][k]|
  {
    var s := ar.chain[t][k];
    Arena(Paint(ar.own, Block(a, k, Local(t))), SetRow(ar.chain, t, k, s[..j] + [a] + s[j..]), ar.glob)
  }

  lemma InsertConsistent(ar: Arena, t: nat, k: nat, a: int, j: nat)
    requires Consistent(ar) && t < THREADS_MAX && k <= TOP && j <= |ar.chain[t][k]|
    requires IsBlock(ar.own, Block(a, k, Live))
    requires forall i :: 0 <= i < j ==> ar.chain[t][k][i] < a
    requires forall i :: j <= i < |ar.chain[t][k]| ==> a < ar.chain[t][k][i]
    requires k < TOP ==> forall b :: b in ar.chain[t][k] ==> !Buddies(a, b, k)
    ensures Consistent(Insert(ar, t, k, a, j))
  {
    hide Units, Aligned;
    var s := ar.chain[t][k];
    var r := Insert(ar, t, k, a, j);
    forall b | k < TOP && IsFree(ar.own, b, k, t) ensures !Buddies(a, b, k) { assert b in s; }
    InsertBlocks(ar.own, a, k, t);
    ListWith(ar.own, r.own, s, a, j, k, Local(t));
    ListKept(ar.own, r.own, ar.glob, TOP, Global);
    assert r.chain == SetRow(ar.chain, t, k, r.chain[t][k]);
    Assemble(ar, r, t, k);
  }

  lemma InsertBlocks(own: Partition, a: int, k: nat, t: nat)
    requires Invariant(own) && k <= TOP && IsBlock(own, Block(a, k, Live))
    requires k < TOP ==> forall b :: IsFree(own, b, k, t) ==> !Buddies(a, b, k)
    ensures var r := Paint(own, Block(a, k, Local(t)));
            Invariant(r) &&
            forall c :: IsBlock(r, c) <==> c == Block(a, k, Local(t)) || (IsBlock(own, c) && c != Block(a, k, Live))
  {
    hide Units, Aligned;
    var b := Block(a, k, Local(t));
    var r := Paint(own, b);
    PaintTiled(own, b);
    PaintBlocks(own, b);
    assert forall u :: 0 <= u < |own| ==> (Inside(b, u) <==> own[u] == Block(a, k, Live));
    forall x: int, l: nat, i: nat | l < TOP && Aligned(x, l + 1) && IsFree(r, x, l, i)
      ensures !IsBlock(r, Block(x + Units(l), l, Local(i)))
    {
      assert IsFree(own, x, l, i) ==> !IsBlock(own, Block(x + Units(l), l, Local(i)));
      assert l == k && i == t && IsFree(own, x, l, i) ==> !Buddies(a, x, k);
      assert l == k && i == t && IsFree(own, x + Units(l), l, i) ==> !Buddies(a, x + Units(l), k);
    }
  }

  // ----- what consistency says about single words

  lemma Elements(ar: Arena)
    requires Consistent(ar)
    ensures Shape(ar.chain) && Tiled(ar.own)
    ensures forall t: nat, k: nat, j: nat :: t < THREADS_MAX && k <= TOP && j < |ar.chain[t][k]| ==>
              var a := ar.chain[t][k][j]; 0 <= a < |ar.own| && ar.own[a] == Block(a, k, Local(t))
    ensures forall j: nat :: j < |ar.glob| ==>
              var a := ar.glob[j]; 0 <= a < |ar.own| && ar.own[a] == Block(a, TOP, Global)
    ensures Sorted(ar.glob)
  {
  }

  lemma ShapeOf(ar: Arena)
    requires Consistent(ar)
    ensures Shape(ar.chain) && Tiled(ar.own)
  {
  }

  lemma ElementOf(ar: Arena, t: nat, k: nat, i: int)
    requires Consistent(ar) && t < THREADS_MAX && k <= TOP && 0 <= i < |ar.chain[t][k]|
    ensures var a := ar.chain[t][k][i]; 0 <= a < |ar.own| && ar.own[a] == Block(a, k, Local(t))
  {
  }

  /** A word whose unit is live belongs to no list. */
  lemma NotListed(ar: Arena, x: int)
    requires Consistent(ar) && 0 <= x < |ar.own| && ar.own[x].place.Live?
    ensures x !in ar.glob && forall i: nat, l: nat :: i < THREADS_MAX && l <= TOP ==> x !in ar.chain[i][l]
  {
  }

  /** A word on one list belongs to no other. */
  lemma ListedOnce(ar: Arena, x: int, t: nat, k: nat)
    requires Consistent(ar) && IsFree(ar.own, x, k, t)
    ensures x !in ar.glob
    ensures forall i: nat, l: nat :: i < THREADS_MAX && l <= TOP && (i != t || l != k) ==> x !in ar.chain[i][l]
  {
  }

  lemma SortedRow(ar: Arena, t: nat, k: nat)
    requires Consistent(ar) && t < THREADS_MAX && k <= TOP
    ensures Sorted(ar.chain[t][k])
  {
  }
}
