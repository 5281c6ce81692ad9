/** The buddy allocator of the DMA arena: per-thread size-class lists threaded through the
    free blocks themselves, and a global list of 2 MB chunks under a spin lock. */
module BuddyAllocator {
  import Ring
  import Prp
  import opened BuddyTiling
  import opened BuddyArena
  import opened BuddySpec

  const MAX_BYTES := 2097152
  const NULL := -1

  function Bytes(k: nat): int {
    512 * Units(k)
  }

  lemma BytesGrow(j: nat, k: nat)
    requires j < k
    ensures Bytes(j) < Bytes(k)
  {
    UnitsAligned(j, k - 1);
  }

  /** Level of a legal block size, -1 for any other size. */
  ghost function Level(size: int): (k: int)
    ensures k == -1 || (0 <= k <= TOP && size == Bytes(k))
    ensures k == -1 <==> forall j: nat :: j <= TOP ==> size != Bytes(j)
  {
    if exists j: nat :: j <= TOP && size == Bytes(j)
    then var j: nat :| j <= TOP && size == Bytes(j); j
    else -1
  }

  lemma LevelOfBytes(k: nat)
    requires k <= TOP
    ensures Level(Bytes(k)) == k
  {
    var j := Level(Bytes(k));
    if j < k { BytesGrow(j, k); }
    if k < j { BytesGrow(k, j); }
  }

  lemma BytesBound(k: nat)
    ensures k <= TOP <==> Bytes(k) <= MAX_BYTES
    ensures k == TOP <==> Bytes(k) == MAX_BYTES
  {
    assert Units(4) == 16;
    assert Units(8) == 256;
    assert Units(12) == 4096;
    if k < TOP { BytesGrow(k, TOP); }
    if TOP < k { BytesGrow(TOP, k); }
  }

  /** Index of the size class of a block size, -1 for a size the allocator does not serve. */
  method GetIndexFromSize(size: int) returns (r: int)
    ensures r == Level(size)
  {
    r := 0;
    var i := 512;
    while i <= MAX_BYTES
      invariant r >= 0 && i == Bytes(r)
      invariant forall j: nat :: j < r ==> size != Bytes(j)
      decreases MAX_BYTES - i
    {
      BytesBound(r);
      if i == size {
        LevelOfBytes(r);
        return;
      }
      i := i * 2;
      r := r + 1;
    }
    BytesBound(r);
    return -1;
  }

  /** The result of a call to the allocator; Abort where the code calls abort(). */
  datatype Reply = Ptr(addr: int) | Null | Abort

  /** The j-th element of a list, NULL past its end: what a link to that position holds. */
  ghost function At(s: seq<int>, j: int): int {
    if 0 <= j < |s| then s[j] else NULL
  }

  ghost predicate Linked(next: array<int>, head: int, s: seq<int>)
    reads next
  {
    && head == At(s, 0)
    && (forall j :: 0 <= j < |s| ==> 0 <= s[j] < next.Length)
    && (forall j {:trigger next[s[j]]} :: 0 <= j < |s| ==> next[s[j]] == At(s, j + 1))
  }

  lemma SmallerThanTop(k: nat)
    requires k <= TOP
    ensures Bytes(k) >= 512 && (Bytes(k) == MAX_BYTES <==> k == TOP)
    ensures k < TOP ==> Level(Bytes(k) * 2) == k + 1 && Bytes(k) < MAX_BYTES && Bytes(k) * 2 <= MAX_BYTES
  {
    BytesBound(k);
    BytesBound(k + 1);
    UnitsDouble(k);
    if k < TOP { LevelOfBytes(k + 1); }
  }

  lemma RightHalf(own: Partition, a: int, k: nat)
    requires Tiled(own) && k < TOP && IsBlock(own, Block(a, k + 1, Live))
    ensures Bytes(k) / 512 == Units(k) && 0 <= a + Units(k) < |own|
    ensures own[a + Units(k)] == Block(a, k + 1, Live)
  {
  }

  lemma SplitLive(own: Partition, a: int, k: nat, t: nat)
    requires Tiled(own) && k < TOP && IsBlock(own, Block(a, k + 1, Live))
    ensures var r := Paint(Paint(own, Block(a, k, Live)), Block(a + Units(k), k, Local(t)));
            forall u :: 0 <= u < |own| && r[u].place.Live? ==> u != a + Units(k) && own[u].place.Live?
  {
  }

  function IsLeft(p: int, size: int): bool
    requires size > 0
  {
    (p * 512) % (size * 2) == 0
  }

  lemma LeftIsAligned(p: int, k: nat)
    ensures Bytes(k) > 0 && (IsLeft(p, Bytes(k)) <==> Aligned(p, k + 1))
  {
    AlignedIsMultiple(p, k + 1);
    var u := Units(k + 1);
    assert Bytes(k) * 2 == 512 * u;
    var q, r := p / u, p % u;
    assert p * 512 == 512 * u * q + 512 * r;
    Ring.DivideUnique(p * 512, 512 * u, q, 512 * r);
  }

  /** Linked, in an earlier state of the link words. */
  ghost predicate WasLinked(was: seq<int>, head: int, s: seq<int>) {
    && head == At(s, 0)
    && (forall j :: 0 <= j < |s| ==> 0 <= s[j] < |was|)
    && (forall j {:trigger was[s[j]]} :: 0 <= j < |s| ==> was[s[j]] == At(s, j + 1))
  }

  lemma WithoutLinked(next: array<int>, was: seq<int>, head: int, head': int, s: seq<int>, j: nat)
    requires WasLinked(was, head, s) && |was| == next.Length && j < |s| && Sorted(s)
    requires if j == 0 then head' == At(s, 1) else head' == head && next[s[j - 1]] == At(s, j + 1)
    requires forall u :: 0 <= u < next.Length && u != At(s, j - 1) ==> next[u] == was[u]
    ensures Linked(next, head', s[..j] + s[j + 1..])
  {
  }

  lemma CutLinked(next: array<int>, was: seq<int>, head: int, s: seq<int>, c: nat)
    requires WasLinked(was, head, s) && |was| == next.Length && 1 < c <= |s| && Sorted(s)
    requires next[s[c - 1]] == NULL
    requires forall u :: 0 <= u < next.Length && u != s[c - 1] ==> next[u] == was[u]
    ensures Linked(next, s[1], s[1..c]) && Linked(next, At(s, c), s[c..])
  {
  }

  lemma WithLinked(next: array<int>, was: seq<int>, head: int, head': int, s: seq<int>, a: int, j: nat)
    requires WasLinked(was, head, s) && |was| == next.Length && j <= |s| && Sorted(s)
    requires a !in s && 0 <= a < next.Length && next[a] == At(s, j)
    requires if j == 0 then head' == a else head' == head && next[s[j - 1]] == a
    requires forall u :: 0 <= u < next.Length && u != a && u != At(s, j - 1) ==> next[u] == was[u]
    ensures Linked(next, head', s[..j] + [a] + s[j..])
  {
    var r := s[..j] + [a] + s[j..];
    forall i | 0 <= i < |r| ensures 0 <= r[i] < next.Length && next[r[i]] == At(r, i + 1) {
      if i != j { assert r[i] == s[if i < j then i else i - 1]; }
    }
  }

  /** A program's calls: a thread gets a block of a level, or puts back the i-th block that the
      program holds, whichever thread got it. */
  datatype Call = Get(th: nat, lvl: nat) | Put(th: nat, index: nat)

  datatype Held = Held(addr: int, lvl: nat)

  function BlockOf(h: Held): Block {
    Block(h.addr, h.lvl, Live)
  }

  /** The blocks in held are live and distinct; all others live were so in `before`. */
  ghost predicate HoldingIn(own: Partition, held: seq<Held>, before: Partition) {
    && (forall i :: 0 <= i < |held| ==> held[i].lvl <= TOP && IsBlock(own, BlockOf(held[i])))
    && (forall i, j :: 0 <= i < j < |held| ==> held[i].addr != held[j].addr)
    && (forall b: Block :: b.place.Live? && IsBlock(own, b) ==>
          IsBlock(before, b) || exists i :: 0 <= i < |held| && BlockOf(held[i]) == b)
  }

  /** A call with a legal size, or for a block that is held: the others do nothing. */
  predicate Acts(call: Call, held: seq<Held>) {
    match call
    case Get(th, k) => k <= TOP
    case Put(th, i) => i < |held|
  }

  ghost predicate JoiningIn(now: map<nat, nat>, rows: nat, idx: map<nat, nat>, cur: nat, calls: seq<Call>) {
    && idx.Keys <= now.Keys <= idx.Keys + ThreadsOf(calls)
    && rows - |now| == cur - |idx|
  }

  lemma JoinOne(now: map<nat, nat>, rows: nat, idx: map<nat, nat>, cur: nat, calls: seq<Call>, th: nat)
    requires JoiningIn(now, rows, idx, cur, calls) && th !in now && th in ThreadsOf(calls)
    ensures JoiningIn(now[th := rows], rows + 1, idx, cur, calls)
  {
    hide ThreadsOf;
    assert now[th := rows].Keys == now.Keys + {th};
  }

  lemma ThreadIn(calls: seq<Call>, n: nat)
    requires n < |calls|
    ensures calls[n].th in ThreadsOf(calls)
  {
  }

  lemma Cardinality(a: set<nat>, b: set<nat>)
    requires a <= b
    ensures |a| <= |b|
  {
    assert b == a + (b - a);
  }

  ghost function ThreadsOf(calls: seq<Call>): set<nat> {
    set i | 0 <= i < |calls| :: calls[i].th
  }

  /** A legal size was refused. */
  predicate Refused(call: Call, reply: Reply) {
    call.Get? && call.lvl <= TOP && reply == Null
  }

  /** An allocation for level k with reply r kept all live blocks and added the one returned. */
  ghost predicate Grown(own: Partition, other: Partition, r: Reply, k: int) {
    && (forall b: Block :: b.place.Live? && IsBlock(own, b) ==> IsBlock(other, b) && r != Ptr(b.addr))
    && (forall b: Block :: b.place.Live? && IsBlock(other, b) ==> IsBlock(own, b) || (r == Ptr(b.addr) && b.lvl == k))
    && (r.Ptr? ==> 0 <= k <= TOP && IsBlock(other, Block(r.addr, k, Live)))
  }

  lemma GrownByMalloc(ar: Arena, br: Arena, t: nat, k: nat, a: int)
    requires Consistent(ar) && Consistent(br) && t < THREADS_MAX && k <= TOP && Handed(ar, br, t, k, a)
    ensures Grown(ar.own, br.own, Ptr(a), k)
  {
    hide Consistent, Handed, IsBlock;
    LiveKeptByMalloc(ar, br, t, k, a);
    forall b: Block | b.place.Live? && IsBlock(br.own, b) ensures IsBlock(ar.own, b) || b == Block(a, k, Live) {
      OnlyNewByMalloc(ar, br, t, k, a, b);
    }
  }

  lemma NotGrown(own: Partition, k: int)
    ensures Grown(own, own, Null, k) && Grown(own, own, Abort, k)
  {
  }

  /** A free of the block at buf kept all other live blocks, and that one is live no more. */
  ghost predicate Shrunk(own: Partition, other: Partition, buf: int) {
    && (forall b: Block :: b.place.Live? && b.addr != buf && IsBlock(own, b) ==> IsBlock(other, b))
    && (forall b: Block :: b.place.Live? && IsBlock(other, b) ==> IsBlock(own, b) && b.addr != buf)
  }

  lemma ShrunkByFree(own: Partition, t: nat, a: int, k: nat)
    requires Tiled(own) && k <= TOP && IsBlock(own, Block(a, k, Live))
    ensures Shrunk(own, Paint(own, Coalesce(own, t, a, k)), a)
  {
    hide Tiled, IsBlock, Paint, Coalesce;
    LiveKeptByFree(own, t, a, k);
    forall b: Block | b.place.Live? && IsBlock(Paint(own, Coalesce(own, t, a, k)), b) ensures IsBlock(own, b) && b.addr != a {
      NoneNewByFree(own, t, a, k, b);
    }
  }

  /** What a program holds after its calls, given the replies. */
  function HeldAfter(calls: seq<Call>, replies: seq<Reply>): seq<Held>
    requires |calls| == |replies|
  {
    if calls == [] then []
    else
      var n := |calls| - 1;
      After(HeldAfter(calls[..n], replies[..n]), calls[n], replies[n])
  }

  function After(held: seq<Held>, call: Call, reply: Reply): seq<Held> {
    match call
    case Get(th, k) => if reply.Ptr? then held + [Held(reply.addr, k)] else held
    case Put(th, i) => if i < |held| && reply != Abort then held[..i] + held[i + 1..] else held
  }

  ghost predicate By(calls: seq<Call>, th: nat) {
    forall i :: 0 <= i < |calls| ==> calls[i].th == th
  }

  class Allocator {
    /** First word of every 512-byte unit: the link word of a free block that starts there. */
    var next: array<int>
    /** One row of list heads per registered thread; a row holds garbage until registration. */
    var freelist: array2<int>
    var globalFreelist: int
    /** Number of threads that asked for a list, counted past the limit as in the code. */
    var current: nat
    /** The thread-local list index of every thread that has one. */
    var index: map<nat, nat>
    var lock: nat
    ghost var arena: Arena

    ghost predicate Valid()
      reads this, next, freelist
    {
      && next.Length == |arena.own|
      && freelist.Length0 == THREADS_MAX && freelist.Length1 == ENTRY_MAX
      && Consistent(arena)
      && Linked(next, globalFreelist, arena.glob)
      && Rows() && Threads()
    }

    /** The lists of every registered thread. */
    ghost predicate Rows()
      requires freelist.Length0 == THREADS_MAX && freelist.Length1 == ENTRY_MAX && Shape(arena.chain)
      reads this`next, this`freelist, this`arena, this`current, next, freelist
    {
      forall t: nat, k: nat :: t < THREADS_MAX && k <= TOP && t < current ==>
                                 Linked(next, freelist[t, k], arena.chain[t][k])
    }

    /** Rows belong to one thread each; those not given out yet have no lists. */
    ghost predicate Threads()
      requires Shape(arena.chain)
      reads this`arena, this`current, this`index
    {
      && (forall t: nat, k: nat :: t < THREADS_MAX && k <= TOP && t >= current ==> arena.chain[t][k] == [])
      && Registered()
    }

    ghost predicate Registered()
      reads this`current, this`index
    {
      && (forall th :: th in index ==> index[th] < THREADS_MAX && index[th] < current)
      && (forall th, th' :: th in index && th' in index && index[th] == index[th'] ==> th == th')
    }

    /** An arena of c chunks of 2 MB, before any thread has called. */
    constructor (c: nat)
      ensures Valid() && arena == Fresh(c) && lock == 0 && current == 0 && index == map[]
      ensures forall th :: Alone(th)
      ensures fresh(next) && fresh(freelist)
    {
      next := new int[c * CHUNK];
      freelist := new int[THREADS_MAX, ENTRY_MAX];
      current := 0;
      index := map[];
      lock := 0;
      new;
      BuddyInit(c);
    }

    /** Start again: threads keep their rows, all lists are emptied, and every chunk goes to the
        global list in address order. */
    method BuddyInit(c: nat)
      requires next.Length == c * CHUNK && freelist.Length0 == THREADS_MAX && freelist.Length1 == ENTRY_MAX
      requires current <= THREADS_MAX && Registered()
      modifies this`globalFreelist, this`arena, next, freelist
      ensures Valid() && arena == Fresh(c) && forall th :: Alone(th)
    {
      hide *;
      ClearRows();
      LinkChunks(c);
      arena := Fresh(c);
      StartsValid(c);
    }

    method ClearRows()
      requires freelist.Length0 == THREADS_MAX && freelist.Length1 == ENTRY_MAX && current <= THREADS_MAX
      modifies freelist
      ensures forall t, k :: 0 <= t < current && 0 <= k < ENTRY_MAX ==> freelist[t, k] == NULL
    {
      for i := 0 to current
        invariant forall t, k :: 0 <= t < i && 0 <= k < ENTRY_MAX ==> freelist[t, k] == NULL
      {
        for j := 0 to ENTRY_MAX
          invariant forall t, k :: 0 <= t < i && 0 <= k < ENTRY_MAX ==> freelist[t, k] == NULL
          invariant forall k :: 0 <= k < j ==> freelist[i, k] == NULL
        {
          freelist[i, j] := NULL;
        }
      }
    }

    lemma StartsValid(c: nat)
      requires next.Length == c * CHUNK && freelist.Length0 == THREADS_MAX && freelist.Length1 == ENTRY_MAX
      requires Linked(next, globalFreelist, Chunks(c)) && arena == Fresh(c) && current <= THREADS_MAX && Registered()
      requires forall t, k :: 0 <= t < current && 0 <= k < ENTRY_MAX ==> freelist[t, k] == NULL
      ensures Valid() && forall th :: Alone(th)
    {
      hide Consistent, Chunks, Fresh;
      FreshConsistent(c);
      AllGlobal(c);
    }

    method LinkChunks(c: nat)
      requires next.Length == c * CHUNK
      modifies this`globalFreelist, next
      ensures Linked(next, globalFreelist, Chunks(c))
    {
      var offset := 0;
      ghost var i := 0;
      var fle := NULL;
      while offset < next.Length
        invariant 0 <= i <= c && offset == i * CHUNK
        invariant if i == 0 then fle == NULL else fle == (i - 1) * CHUNK && globalFreelist == 0
        invariant forall j :: 0 <= j < i - 1 ==> j * CHUNK < next.Length && next[j * CHUNK] == (j + 1) * CHUNK
      {
        if fle == NULL {
          globalFreelist := offset;
        } else {
          next[fle] := offset;
        }
        fle := offset;
        offset := offset + CHUNK;
        i := i + 1;
      }
      if fle == NULL {
        globalFreelist := NULL;
      } else {
        next[fle] := NULL;
      }
    }

    /** The list row of the calling thread, registering it on its first call. */
    method GetFreelist(th: nat) returns (t: int)
      requires Valid()
      modifies this`current, this`index, freelist
      ensures Valid()
      ensures t == -1 <==> th !in old(index) && old(current) >= 16
      ensures t != -1 ==> 0 <= t < 16 && t < current && index == old(index)[th := t]
      ensures t == -1 ==> index == old(index)
      ensures th in old(index) ==> current == old(current) && t == old(index)[th]
      ensures th !in old(index) ==> current == old(current) + 1 && (t != -1 ==> t == old(current))
    {
      hide Consistent, Units, Aligned;
      if th in index {
        assert index == index[th := index[th]];
        return index[th];
      }
      t := current;
      current := current + 1;
      if t >= THREADS_MAX {
        return -1;
      }
      index := index[th := t];
      var i := 0;
      while i < ENTRY_MAX
        invariant 0 <= i <= ENTRY_MAX
        invariant forall j :: 0 <= j < i ==> freelist[t, j] == NULL
        invariant forall s, j :: 0 <= s < THREADS_MAX && s != t && 0 <= j < ENTRY_MAX ==>
                    freelist[s, j] == old(freelist[s, j])
        modifies freelist
      {
        freelist[t, i] := NULL;
        i := i + 1;
      }
    }

    /** Cut a batch off the front of the global list: the chunk returned and at most 65 more, which stay linked from `rest`. */
    method CutBatch(ghost glob: seq<int>) returns (r: int, rest: int)
      requires Linked(next, globalFreelist, glob) && glob != [] && Sorted(glob)
      modifies this`globalFreelist, next
      ensures var c := Min(|glob|, 66);
              r == glob[0] && Linked(next, rest, glob[1..c]) && Linked(next, globalFreelist, glob[c..]) &&
              forall u :: 0 <= u < next.Length && u !in glob[1..c] ==> next[u] == old(next[u])
    {
      var fle := globalFreelist;
      r := fle;
      fle := next[fle];
      rest := fle;
      var n := 0;
      while n < 64 && fle != NULL
        invariant 0 <= n <= 64 && n < |glob| && fle == At(glob, n + 1)
      {
        fle := next[fle];
        n := n + 1;
      }
      if fle == NULL {
        globalFreelist := NULL;
      } else {
        assert fle == glob[65] && glob[1..66][64] == fle;
        ghost var was := next[..];
        globalFreelist := next[fle];
        next[fle] := NULL;
        CutLinked(next, was, r, glob, 66);
      }
    }

    /** The critical section: hand out the first global chunk and move the next 65, or all if there
        are fewer, to the empty top list of row t.  When there is none the lock stays taken. */
    method TakeBatch(t: nat) returns (r: int)
      requires Valid() && lock == 0 && t < THREADS_MAX && t < current && arena.chain[t][TOP] == []
      modifies this`lock, this`globalFreelist, this`arena, freelist, next
      ensures Valid()
      ensures old(arena).glob == [] ==> r == NULL && lock == 1 && arena == old(arena)
      ensures old(arena).glob != [] ==> r == old(arena).glob[0] && lock == 0 && arena == Refill(old(arena), t)
      ensures old(arena).glob != [] ==>
                var glob, c := old(arena).glob, Min(|old(arena).glob|, 66);
                Shape(arena.chain) && arena.chain[t][TOP] == glob[1..c] && arena.glob == glob[c..]
      ensures forall u :: 0 <= u < next.Length && (old(arena).glob == [] || arena.own[u].place.Live?) ==>
                next[u] == old(next[u])
    {
      hide Consistent, Units, Aligned, Lists, Tiled, Refill;
      Elements(arena);
      lock := 1;
      if globalFreelist == NULL {
        return NULL;
      }
      RefillParts(arena, t);
      var rest;
      r, rest := CutBatch(arena.glob);
      KeepBatch(t, rest);
    }

    /** Make the batch the thread's list and leave the critical section. */
    method KeepBatch(t: nat, rest: int)
      requires next.Length == |arena.own| && freelist.Length0 == THREADS_MAX && freelist.Length1 == ENTRY_MAX
      requires Consistent(arena) && t < THREADS_MAX && t < current && arena.chain[t][TOP] == [] && arena.glob != []
      requires Rows() && Threads()
      requires var c := Min(|arena.glob|, 1 + BATCH);
               Linked(next, rest, arena.glob[1..c]) && Linked(next, globalFreelist, arena.glob[c..])
      modifies this`lock, this`arena, freelist
      ensures Valid() && lock == 0 && arena == Refill(old(arena), t)
    {
      hide Consistent, Units, Aligned, Lists, Tiled, Refill, Linked;
      ShapeOf(arena);
      RefillParts(arena, t);
      freelist[t, TOP] := rest;
      lock := 0;
      RefillConsistent(arena, t);
      arena := Refill(arena, t);
    }

    /** Unlink the first block of a non-empty list. */
    method PopBlock(t: nat, k: nat) returns (r: int)
      requires Valid() && t < THREADS_MAX && t < current && k <= TOP && arena.chain[t][k] != []
      modifies this`arena, freelist
      ensures Valid() && r == old(arena).chain[t][k][0] && arena == Pop(old(arena), t, k)
    {
      hide Consistent, Units, Aligned, Lists, Tiled;
      Elements(arena);
      r := freelist[t, k];
      freelist[t, k] := next[r];
      PopConsistent(arena, t, k);
      arena := Pop(arena, t, k);
    }

    /** Make the right half of a block just obtained the only block of its empty list. */
    method KeepRightHalf(t: nat, k: nat, a: int, size: int)
      requires Valid() && t < THREADS_MAX && t < current && k < TOP && size == Bytes(k)
      requires arena.chain[t][k] == [] && IsBlock(arena.own, Block(a, k + 1, Live))
      modifies this`arena, freelist, next
      ensures Valid() && arena == Split(old(arena), t, a, k)
      ensures forall u :: 0 <= u < next.Length && arena.own[u].place.Live? ==>
                next[u] == old(next[u]) && old(arena).own[u].place.Live?
    {
      hide Consistent, Units, Aligned, Paint, Tiled;
      var h := a + size / 512;
      ShapeOf(arena);
      RightHalf(arena.own, a, k);
      NotListed(arena, h);
      SplitLive(arena.own, a, k, t);
      freelist[t, k] := h;
      next[h] := NULL;
      SplitConsistent(arena, t, a, k);
      arena := Split(arena, t, a, k);
    }

    method Malloc(th: nat, size: int) returns (r: Reply)
      requires Valid() && lock == 0
      modifies this`current, this`index, this`lock, this`globalFreelist, this`arena, freelist, next
      ensures Valid()
      ensures Level(size) == -1 ==> r == Null && unchanged(this) && unchanged(next) && unchanged(freelist)
      ensures Level(size) != -1 ==>
                (r == Abort <==> th !in old(index) && old(current) >= THREADS_MAX)
      ensures r == Abort ==> arena == old(arena) && lock == 0 && index == old(index) && current == old(current) + 1
      ensures Level(size) != -1 && r != Abort ==>
                index == (if th in old(index) then old(index) else old(index)[th := old(current)]) &&
                current == (if th in old(index) then old(current) else old(current) + 1) &&
                (r == Null ==> arena == old(arena) && lock == 1 && Exhausted(arena, index[th], Level(size))) &&
                (r.Ptr? ==> lock == 0 && Handed(old(arena), arena, index[th], Level(size), r.addr)) &&
                (r == Null <==> forall a :: !RegionUsable(old(arena).own, index[th], a, Level(size)))
      ensures forall u :: 0 <= u < next.Length && arena.own[u].place.Live? ==> next[u] == old(next[u])
      decreases MAX_BYTES - size
    {
      hide Allocator.Valid, Bytes, FitLevel, Consistent, Units, Aligned, Lists, Linked, Handed, Pop, Split, Refill;
      var i := GetIndexFromSize(size);
      if i == -1 {
        return Null;
      }
      SmallerThanTop(i);
      var t := GetFreelist(th);
      if t == -1 {
        return Abort;
      }
      HeadOf(t, i);
      ExhaustedMeansNoRegion(arena, t, i);
      var rval := freelist[t, i];
      if rval != NULL {
        HandedByPop(arena, t, i);
        rval := PopBlock(t, i);
      } else if size == MAX_BYTES {
        if arena.glob != [] { HandedByRefill(arena, t); }
        rval := TakeBatch(t);
        if rval == NULL {
          return Null;
        }
      } else {
        r := Malloc(th, size * 2);
        if !r.Ptr? {
          return;
        }
        rval := r.addr;
        HeadOf(t, i);
        HandedBySplit(old(arena), arena, t, i, rval);
        KeepRightHalf(t, i, rval, size);
      }
      HandedNotExhausted(old(arena), arena, t, i, rval);
      return Ptr(rval);
    }

    /** Store v in the link that precedes position j of a list: the list head or, when there is
        an element before it, that element's first word. */
    method SetLink(t: nat, k: nat, prev: int, v: int)
      requires t < freelist.Length0 && k < freelist.Length1 && (prev == NULL || 0 <= prev < next.Length)
      modifies freelist, next
      ensures prev == NULL ==> unchanged(next) && freelist[t, k] == v
      ensures prev != NULL ==> unchanged(freelist) && next[prev] == v
      ensures forall u :: 0 <= u < next.Length && u != prev ==> next[u] == old(next[u])
      ensures forall i, j :: 0 <= i < freelist.Length0 && 0 <= j < freelist.Length1 && (i != t || j != k) ==>
                freelist[i, j] == old(freelist[i, j])
    {
      if prev == NULL {
        freelist[t, k] := v;
      } else {
        next[prev] := v;
      }
    }

    /** Take the buddy at position j off its list and treat it and the block a as one. */
    method Absorb(t: nat, k: nat, a: int, ghost j: nat, prev: int)
      requires Valid() && t < THREADS_MAX && t < current && k < TOP && j < |arena.chain[t][k]|
      requires prev == At(arena.chain[t][k], j - 1)
      requires IsBlock(arena.own, Block(a, k, Live)) && Buddies(a, arena.chain[t][k][j], k)
      modifies this`arena, freelist, next
      ensures Valid() && arena == Merge(old(arena), t, k, a, j)
      ensures forall u :: 0 <= u < next.Length && arena.own[u].place.Live? ==> next[u] == old(next[u])
    {
      hide Consistent, Units, Aligned, Paint, Tiled, Buddies, Sorted;
      ShapeOf(arena);
      if j > 0 {
        ElementOf(arena, t, k, j - 1);
        ListedOnce(arena, prev, t, k);
      }
      ghost var was, head := next[..], freelist[t, k];
      var cur := if prev == NULL then freelist[t, k] else next[prev];
      SetLink(t, k, prev, next[cur]);
      ghost var rest := arena.chain[t][k][..j] + arena.chain[t][k][j + 1..];
      assert Linked(next, freelist[t, k], rest) by {
        SortedRow(arena, t, k);
        WithoutLinked(next, was, head, freelist[t, k], arena.chain[t][k], j);
      }
      MergeConsistent(arena, t, k, a, j);
      arena := Merge(arena, t, k, a, j);
      assert j > 0 ==> !arena.own[prev].place.Live? by {
        if j > 0 { ElementOf(arena, t, k, j - 1); }
      }
    }

    /** Put a live block on a list at position j. */
    method LinkIn(t: nat, k: nat, a: int, ghost j: nat, prev: int)
      requires Valid() && t < THREADS_MAX && t < current && k <= TOP && j <= |arena.chain[t][k]|
      requires prev == At(arena.chain[t][k], j - 1)
      requires IsBlock(arena.own, Block(a, k, Live))
      requires forall i :: 0 <= i < j ==> arena.chain[t][k][i] < a
      requires forall i :: j <= i < |arena.chain[t][k]| ==> a < arena.chain[t][k][i]
      requires k < TOP ==> forall b :: b in arena.chain[t][k] ==> !Buddies(a, b, k)
      modifies this`arena, freelist, next
      ensures Valid() && arena == Insert(old(arena), t, k, a, j)
      ensures forall u :: 0 <= u < next.Length && arena.own[u].place.Live? ==> next[u] == old(next[u])
    {
      hide Consistent, Units, Aligned, Paint, Tiled, Buddies, Linked;
      ShapeOf(arena);
      WriteLink(t, k, a, j, prev);
      InsertConsistent(arena, t, k, a, j);
      arena := Insert(arena, t, k, a, j);
      assert !arena.own[a].place.Live? && (j > 0 ==> !arena.own[prev].place.Live?) by {
        ElementOf(arena, t, k, j);
        if j > 0 { ElementOf(arena, t, k, j - 1); }
      }
    }

    /** The two stores that link a block in: no other list is touched. */
    method WriteLink(t: nat, k: nat, a: int, ghost j: nat, prev: int)
      requires Valid() && t < THREADS_MAX && t < current && k <= TOP && j <= |arena.chain[t][k]|
      requires prev == At(arena.chain[t][k], j - 1)
      requires IsBlock(arena.own, Block(a, k, Live))
      modifies freelist, next
      ensures Linked(next, freelist[t, k], arena.chain[t][k][..j] + [a] + arena.chain[t][k][j..])
      ensures Linked(next, globalFreelist, arena.glob)
      ensures forall i: nat, m: nat :: i < THREADS_MAX && m <= TOP && i < current && (i != t || m != k) ==>
                Linked(next, freelist[i, m], arena.chain[i][m])
      ensures forall u :: 0 <= u < next.Length && u != a && u != prev ==> next[u] == old(next[u])
    {
      hide Consistent, Units, Aligned, Tiled, Sorted;
      ShapeOf(arena);
      NotListed(arena, a);
      if j > 0 {
        ElementOf(arena, t, k, j - 1);
        ListedOnce(arena, prev, t, k);
      }
      ghost var was, head := next[..], freelist[t, k];
      next[a] := if prev == NULL then freelist[t, k] else next[prev];
      SetLink(t, k, prev, a);
      assert Linked(next, freelist[t, k], arena.chain[t][k][..j] + [a] + arena.chain[t][k][j..]) by {
        SortedRow(arena, t, k);
        WithLinked(next, was, head, freelist[t, k], arena.chain[t][k], a, j);
      }
    }

    /** Walk a list up to the place of a block in address order, or to its left buddy. */
    method Locate(t: nat, k: nat, buf: int, size: int) returns (prev: int, cur: int, ghost j: nat)
      requires Valid() && t < THREADS_MAX && t < current && k <= TOP && size == Bytes(k)
      requires IsBlock(arena.own, Block(buf, k, Live))
      ensures j <= |arena.chain[t][k]| && prev == At(arena.chain[t][k], j - 1)
      ensures cur == NULL <==> j == |arena.chain[t][k]|
      ensures cur != NULL ==> cur == arena.chain[t][k][j] && cur >= 0
      ensures forall x :: 0 <= x < j ==> arena.chain[t][k][x] < buf
      ensures k < TOP ==> forall x :: 0 <= x < j ==> !Buddies(buf, arena.chain[t][k][x], k)
      ensures cur == NULL || buf < cur || (k < TOP && Buddies(buf, cur, k))
      ensures k < TOP && cur != NULL && buf < cur ==>
                (Buddies(buf, cur, k) <==> buf + size / 512 == cur && IsLeft(buf, size))
    {
      hide Allocator.Valid, Bytes, Consistent, Units, Aligned, Lists, Linked, Buddies, IsLeft;
      SmallerThanTop(k);
      HeadOf(t, k);
      ghost var s := arena.chain[t][k];
      var doCompaction := size != MAX_BYTES;
      j := 0;
      prev := NULL;
      while true
        invariant j <= |s| && prev == At(s, j - 1)
        invariant forall x :: 0 <= x < j ==> s[x] < buf
        invariant k < TOP ==> forall x :: 0 <= x < j ==> !Buddies(buf, s[x], k)
        decreases |s| - j
      {
        Cursor(t, k, j, prev, buf);
        cur := if prev == NULL then freelist[t, k] else next[prev];
        if cur == NULL || buf < cur {
          return;
        }
        if doCompaction && cur + size / 512 == buf && IsLeft(cur, size) {
          return;
        }
        prev := cur;
        j := j + 1;
      }
    }

    method Free(th: nat, buf: int, size: int) returns (ok: bool)
      requires Valid()
      requires Level(size) != -1 ==> IsBlock(arena.own, Block(buf, Level(size), Live))
      modifies this`current, this`index, this`arena, freelist, next
      ensures Valid()
      ensures Level(size) == -1 ==> ok && unchanged(this) && unchanged(next) && unchanged(freelist)
      ensures Level(size) != -1 ==> (!ok <==> th !in old(index) && old(current) >= THREADS_MAX)
      ensures !ok ==> arena == old(arena) && index == old(index) && current == old(current) + 1 && unchanged(next)
      ensures Level(size) != -1 && ok ==>
                index == (if th in old(index) then old(index) else old(index)[th := old(current)]) &&
                current == (if th in old(index) then old(current) else old(current) + 1) &&
                arena.own == Paint(old(arena).own, Coalesce(old(arena).own, index[th], buf, Level(size))) &&
                arena.glob == old(arena).glob &&
                forall i :: 0 <= i < THREADS_MAX && i != index[th] ==> arena.chain[i] == old(arena).chain[i]
      ensures forall u :: 0 <= u < next.Length && arena.own[u].place.Live? ==> next[u] == old(next[u])
      decreases MAX_BYTES - size
    {
      hide Allocator.Valid, Bytes, Consistent, Units, Aligned, Lists, Linked, Paint, Merge, Insert, Coalesce, Buddies;
      var i := GetIndexFromSize(size);
      if i == -1 {
        return true;
      }
      SmallerThanTop(i);
      var doCompaction := size != MAX_BYTES;
      var t := GetFreelist(th);
      if t == -1 {
        return false;
      }
      HeadOf(t, i);
      var prev, cur;
      ghost var j;
      prev, cur, j := Locate(t, i, buf, size);
      if cur == NULL || buf < cur {
        if doCompaction && buf + size / 512 == cur && IsLeft(buf, size) {
          AbsorbStep(arena, t, i, buf, j);
          Absorb(t, i, buf, j, prev);
          ok := Free(th, buf, size * 2);
          return;
        }
        InsertStep(arena, t, i, buf, j);
        LinkIn(t, i, buf, j, prev);
        return true;
      }
      AbsorbStep(arena, t, i, buf, j);
      Absorb(t, i, buf, j, prev);
      ok := Free(th, cur, size * 2);
    }

    /** What one look at the list from position j tells. */
    lemma Cursor(t: nat, k: nat, j: nat, prev: int, buf: int)
      requires Valid() && t < THREADS_MAX && t < current && k <= TOP && j <= |arena.chain[t][k]|
      requires prev == At(arena.chain[t][k], j - 1) && IsBlock(arena.own, Block(buf, k, Live))
      ensures prev == NULL || 0 <= prev < next.Length
      ensures prev == NULL ==> j == 0
      ensures var cur := if prev == NULL then freelist[t, k] else next[prev];
              var size := Bytes(k);
              && (cur == NULL <==> j == |arena.chain[t][k]|)
              && (cur != NULL ==> cur == arena.chain[t][k][j] && cur >= 0 && cur != buf)
              && (Buddies(buf, cur, k) <==>
                   (buf + size / 512 == cur && IsLeft(buf, size)) || (cur + size / 512 == buf && IsLeft(cur, size)))
    {
      hide Units, Aligned, Invariant;
      Elements(arena);
      assert Linked(next, freelist[t, k], arena.chain[t][k]);
      LeftIsAligned(buf, k);
      LeftIsAligned(if prev == NULL then freelist[t, k] else next[prev], k);
    }

    lemma StateFacts()
      requires Valid()
      ensures Consistent(arena) && Shape(arena.chain) && next.Length == |arena.own|
      ensures forall th :: th in index ==> index[th] < THREADS_MAX && index[th] < current
    {
    }

    lemma HeadOf(t: nat, k: nat)
      requires Valid() && t < THREADS_MAX && t < current && k <= TOP
      ensures Consistent(arena) && Shape(arena.chain) && next.Length == |arena.own|
      ensures freelist.Length0 == THREADS_MAX && freelist.Length1 == ENTRY_MAX
      ensures freelist[t, k] == NULL <==> arena.chain[t][k] == []
      ensures arena.glob != [] ==> arena.glob[0] >= 0
    {
    }

    /** Allocation for the callers of the library, with the arena mapped at `vemva` and registered at
        `pci`: the size is rounded up to a power of two of at least one 4096-byte page, and failure
        aborts.  The bus address stored for the block is the one its buffer resolves to, and so for
        every byte of it. */
    method AuroraMemAlloc(th: nat, size: int, vemva: int, pci: int) returns (r: Reply, bus: int, tsize: int)
      requires Valid() && lock == 0
      modifies this`current, this`index, this`lock, this`globalFreelist, this`arena, freelist, next
      ensures Valid() && r != Null
      ensures tsize >= size && tsize >= 4096 && (tsize == 4096 || tsize / 2 < size) && exists k: nat :: tsize == Bytes(k)
      ensures size > MAX_BYTES <==> Level(tsize) == -1
      ensures r == Abort <==>
                || size > MAX_BYTES
                || (th !in old(index) && old(current) >= THREADS_MAX)
                || forall a :: !RegionUsable(old(arena).own, RowOf(th, old(index), old(current)), a, Level(tsize))
      ensures r == Abort ==> arena == old(arena)
      ensures r.Ptr? ==>
                var k := Level(tsize);
                3 <= k && Aligned(r.addr, k) && th in index && index[th] == RowOf(th, old(index), old(current)) && lock == 0 &&
                index[th] < THREADS_MAX && Handed(old(arena), arena, index[th], k, r.addr)
      ensures r.Ptr? ==>
                var p := vemva + 512 * r.addr;
                forall q :: p <= q < p + tsize ==> AuroraResolveAddr(vemva, pci, 512 * next.Length, q) == Dma(bus + (q - p))
      ensures forall u :: 0 <= u < next.Length && arena.own[u].place.Live? ==> next[u] == old(next[u])
    {
      hide Allocator.Valid, Bytes, Consistent, Aligned, Units, Handed, RegionUsable, Linked;
      bus := 0;
      tsize := RoundUp(size);
      StateFacts();
      r := Malloc(th, tsize);
      StateFacts();
      assert Level(tsize) != -1 && r != Abort ==> index[th] == RowOf(th, old(index), old(current));
      if r == Null {
        return Abort, 0, tsize;
      }
      if r.Ptr? {
        HandedAligned(old(arena), arena, index[th], Level(tsize), r.addr);
        var p := vemva + 512 * r.addr;
        bus := pci + (p - vemva);
        Resolves(arena.own, r.addr, Level(tsize), vemva, pci);
      }
    }

    /** The row of lists that a call of th uses. */
    ghost function RowOf(th: nat, idx: map<nat, nat>, cur: nat): nat {
      if th in idx then idx[th] else cur
    }

    method AuroraMemFree(th: nat, buf: int, size: int) returns (ok: bool)
      requires Valid() && Level(size) != -1 && IsBlock(arena.own, Block(buf, Level(size), Live))
      modifies this`current, this`index, this`arena, freelist, next
      ensures Valid()
      ensures !ok <==> th !in old(index) && old(current) >= THREADS_MAX
      ensures !ok ==> arena == old(arena) && index == old(index) && current == old(current) + 1 && unchanged(next)
      ensures ok ==>
                th in index && index[th] == RowOf(th, old(index), old(current)) < THREADS_MAX &&
                arena.own == Paint(old(arena).own, Coalesce(old(arena).own, index[th], buf, Level(size))) &&
                arena.glob == old(arena).glob &&
                forall i :: 0 <= i < THREADS_MAX && i != index[th] ==> arena.chain[i] == old(arena).chain[i]
      ensures forall u :: 0 <= u < next.Length && arena.own[u].place.Live? ==> next[u] == old(next[u])
    {
      hide Consistent, Linked, Paint, Coalesce;
      ok := Free(th, buf, size);
      StateFacts();
    }

    /** Allocate and free at once: the round trip on the concrete heap. */
    method AllocateAndFree(th: nat, size: int) returns (r: Reply, ghost mid: Arena)
      requires Valid() && lock == 0
      modifies this`current, this`index, this`lock, this`globalFreelist, this`arena, freelist, next
      ensures Valid()
      ensures r == Abort <==> Level(size) != -1 && th !in old(index) && old(current) >= 16
      ensures r == Null <==>
                Level(size) == -1 ||
                (r != Abort && forall a :: !RegionUsable(old(arena).own, RowOf(th, old(index), old(current)), a, Level(size)))
      ensures r.Ptr? ==> th in index && |arena.own| == |old(arena).own|
      ensures r.Ptr? ==>
                var t, k := index[th], Level(size);
                t < 16 && Handed(old(arena), mid, t, k, r.addr) && arena.own == Paint(mid.own, Coalesce(mid.own, t, r.addr, k))
      ensures r.Ptr? ==>
                forall u :: 0 <= u < |arena.own| ==>
                  (Usable(arena.own[u], index[th]) <==> Usable(old(arena).own[u], index[th])) &&
                  (if Usable(arena.own[u], index[th])
                   then arena.own[u].addr == old(arena).own[u].addr && arena.own[u].lvl == old(arena).own[u].lvl
                   else arena.own[u] == old(arena).own[u])
    {
      hide Aligned, Units, Linked, Paint, Coalesce, Lists, Invariant, RegionUsable;
      r := Malloc(th, size);
      assert Level(size) != -1 && r != Abort ==> index[th] == RowOf(th, old(index), old(current));
      mid := arena;
      if r.Ptr? {
        var ok := Free(th, r.addr, size);
        FreeUndoesAllocation(old(arena), mid, arena, index[th], Level(size), r.addr);
      }
    }

    // ----- runs

    /** No thread but th has ever called. */
    ghost predicate Alone(th: nat)
      reads this`arena, this`index
    {
      if th in index then OneThread(arena.own, index[th])
      else forall u :: 0 <= u < |arena.own| ==> arena.own[u].place.Live? || arena.own[u].place.Global?
    }

    /** One allocation in a run: every live block stays, and the only new one is that returned.
        With one thread allocation is complete: a legal size is refused exactly when no aligned
        region of that size is wholly free. */
    method MallocInRun(th: nat, size: int) returns (r: Reply)
      requires Valid() && lock == 0
      modifies this`current, this`index, this`lock, this`globalFreelist, this`arena, freelist, next
      ensures Valid() && (old(Alone(th)) ==> Alone(th))
      ensures lock != 0 <==> r == Null && Level(size) != -1
      ensures lock != 0 ==> OutOfMemory(th, Level(size))
      ensures old(Alone(th)) && Level(size) != -1 && r != Abort ==>
                (r == Null <==> forall a :: !WhollyFree(old(arena).own, a, Level(size)))
      ensures if Level(size) == -1 then r == Null && index == old(index) && current == old(current)
              else Joined(th, r == Abort, old(index), old(current))
      ensures !r.Ptr? ==> arena == old(arena)
      ensures Grown(old(arena).own, arena.own, r, Level(size))
      ensures r.Ptr? ==> th in index && index[th] < 16 && Handed(old(arena), arena, index[th], Level(size), r.addr)
    {
      hide Allocator.Valid, Consistent, Handed, Aligned, Units, Linked, WhollyFree, RegionUsable, OneThread, Exhausted, Grown;
      StateFacts();
      GoesAlone(th);
      NotGrown(arena.own, Level(size));
      r := Malloc(th, size);
      StateFacts();
      if Level(size) != -1 && r != Abort {
        ghost var t, k := index[th], Level(size);
        if old(Alone(th)) {
          forall a ensures RegionUsable(old(arena).own, t, a, k) <==> WhollyFree(old(arena).own, a, k) {
            OneThreadRegions(old(arena).own, t, a, k);
          }
          if r.Ptr? { OneThreadKept(old(arena), arena, t, k, r.addr); }
        }
        if r.Ptr? { GrownByMalloc(old(arena), arena, t, k, r.addr); }
      }
    }

    /** A call of th got its row: the one it had, or the next one.  It aborts exactly if it has none
        and all rows are given out. */
    ghost predicate Joined(th: nat, aborted: bool, idx: map<nat, nat>, cur: nat)
      reads this`index, this`current
    {
      && (aborted <==> th !in idx && cur >= THREADS_MAX)
      && index == (if th in idx || aborted then idx else idx[th := cur])
      && current == (if th in idx then cur else cur + 1)
    }

    /** The lists of the thread from level k up and the global list are empty. */
    ghost predicate OutOfMemory(th: nat, k: nat)
      reads this`arena, this`index
    {
      && th in index && index[th] < THREADS_MAX && Shape(arena.chain) && k <= TOP
      && Exhausted(arena, index[th], k)
    }

    /** The row a thread alone has, or would get. */
    lemma GoesAlone(th: nat)
      ensures Alone(th) && th in index ==> OneThread(arena.own, index[th])
      ensures Alone(th) && th !in index ==> forall t :: OneThread(arena.own, t)
    {
    }

    /** One free in a run: every other live block stays. */
    method FreeInRun(th: nat, buf: int, k: nat) returns (ok: bool)
      requires Valid() && k <= TOP && IsBlock(arena.own, Block(buf, k, Live))
      modifies this`current, this`index, this`arena, freelist, next
      ensures Valid() && lock == old(lock) && (old(Alone(th)) ==> Alone(th))
      ensures Joined(th, !ok, old(index), old(current))
      ensures !ok ==> arena == old(arena)
      ensures ok ==> Shrunk(old(arena).own, arena.own, buf)
      ensures ok ==> th in index && arena.own == Paint(old(arena).own, Coalesce(old(arena).own, index[th], buf, k))
    {
      hide Aligned, Units, Linked, Coalesce, Bytes, Paint, OneThread, Shrunk;
      LevelOfBytes(k);
      StateFacts();
      GoesAlone(th);
      ok := Free(th, buf, Bytes(k));
      if ok {
        if old(Alone(th)) { OneThreadFreed(old(arena).own, index[th], buf, k); }
        ShrunkByFree(old(arena).own, index[th], buf, k);
      }
    }

    /** The blocks a program holds are live and distinct; all others live were so before it ran. */
    ghost predicate Holding(held: seq<Held>, before: Partition)
      reads this`arena
    {
      HoldingIn(arena.own, held, before)
    }

    /** One call of a run. */
    method Perform(call: Call, held: seq<Held>, ghost before: Partition) returns (reply: Reply)
      requires Valid() && lock == 0 && Holding(held, before)
      modifies this`current, this`index, this`lock, this`globalFreelist, this`arena, freelist, next
      ensures Valid() && Holding(After(held, call, reply), before) && (old(Alone(call.th)) ==> Alone(call.th))
      ensures Refused(call, reply) <==> lock != 0
      ensures lock != 0 ==> call.Get? && OutOfMemory(call.th, call.lvl)
      ensures if Acts(call, held) then Joined(call.th, reply == Abort, old(index), old(current))
              else reply == Null && index == old(index) && current == old(current)
    {
      hide Allocator.Valid, Allocator.Alone, Allocator.OutOfMemory, Allocator.Joined, HoldingIn, IsBlock, Bytes, Grown, Shrunk;
      ghost var own := arena.own;
      match call {
        case Get(th, k) =>
          BytesLevel(k);
          reply := MallocInRun(th, Bytes(k));
          HeldGrown(held, own, reply, k, before);
        case Put(th, i) =>
          reply := Null;
          if i < |held| {
            HeldLive(held, i, before);
            var ok := FreeInRun(th, held[i].addr, held[i].lvl);
            reply := if ok then Null else Abort;
            if ok { HeldShrunk(held, own, i, before); }
          }
      }
    }

    lemma HeldLive(held: seq<Held>, i: nat, before: Partition)
      requires i < |held| && Holding(held, before)
      ensures held[i].lvl <= TOP && IsBlock(arena.own, BlockOf(held[i]))
    {
    }

    lemma HeldGrown(held: seq<Held>, was: Partition, r: Reply, k: nat, before: Partition)
      requires HoldingIn(was, held, before) && Grown(was, arena.own, r, if k <= TOP then k else -1)
      ensures Holding(if r.Ptr? then held + [Held(r.addr, k)] else held, before)
    {
      hide IsBlock;
      if r.Ptr? {
        var more := held + [Held(r.addr, k)];
        forall b: Block | b.place.Live? && IsBlock(arena.own, b)
          ensures IsBlock(before, b) || exists i :: 0 <= i < |more| && BlockOf(more[i]) == b
        {
          if !IsBlock(was, b) {
            assert BlockOf(more[|held|]) == b;
          } else if i :| 0 <= i < |held| && BlockOf(held[i]) == b {
            assert more[i] == held[i];
          }
        }
      }
    }

    lemma HeldShrunk(held: seq<Held>, was: Partition, k: nat, before: Partition)
      requires k < |held| && HoldingIn(was, held, before) && Shrunk(was, arena.own, held[k].addr)
      ensures Holding(held[..k] + held[k + 1..], before)
    {
      hide IsBlock;
      var less := held[..k] + held[k + 1..];
      assert forall i :: 0 <= i < |less| ==> less[i] == held[if i < k then i else i + 1];
      forall b: Block | b.place.Live? && IsBlock(arena.own, b)
        ensures IsBlock(before, b) || exists i :: 0 <= i < |less| && BlockOf(less[i]) == b
      {
        if i :| 0 <= i < |held| && BlockOf(held[i]) == b {
          assert less[if i < k then i else i - 1] == held[i];
        }
      }
    }

    /** A whole run of any threads, call by call.  It carries out every call, unless a thread finds
        no memory for a legal size, or a thread more than the 16 rows allow aborts; with at most 16
        threads no call aborts.  The blocks held are those the replies say; they are live, no two of
        them overlap, and nothing else has become live.  With one thread the lists are canonical
        afterwards. */
    method Run(calls: seq<Call>) returns (replies: seq<Reply>, held: seq<Held>)
      requires Valid() && lock == 0
      modifies this`current, this`index, this`lock, this`globalFreelist, this`arena, freelist, next
      ensures Valid() && |replies| <= |calls| && held == HeldAfter(calls[..|replies|], replies)
      ensures Holding(held, old(arena).own)
      ensures forall i, j, u :: 0 <= i < j < |held| ==> !(Inside(BlockOf(held[i]), u) && Inside(BlockOf(held[j]), u))
      ensures forall i :: 0 <= i < |replies| && Refused(calls[i], replies[i]) ==> i == |replies| - 1 && lock != 0
      ensures lock != 0 ==>
                && replies != [] && Refused(calls[|replies| - 1], replies[|replies| - 1])
                && calls[|replies| - 1].Get? && OutOfMemory(calls[|replies| - 1].th, calls[|replies| - 1].lvl)
      ensures |replies| < |calls| ==> lock != 0 || (replies != [] && replies[|replies| - 1] == Abort)
      ensures forall i :: 0 <= i < |replies| && replies[i] == Abort ==>
                i == |replies| - 1 && calls[i].th !in index && current > THREADS_MAX
      ensures RowsNeeded(old(index), old(current), calls) <= THREADS_MAX ==> Abort !in replies
      ensures forall th :: old(Alone(th)) && By(calls, th) && th in index ==> CanonicalLists(arena.own, index[th])
    {
      hide *;
      replies, held := [], [];
      ghost var before := arena.own;
      NothingHeld();
      NobodyJoined(calls);
      var stop := false;
      while |replies| < |calls| && lock == 0 && !stop
        invariant |replies| <= |calls| && Valid() && Holding(held, before) && held == HeldAfter(calls[..|replies|], replies)
        invariant stop ==> replies != [] && replies[|replies| - 1] == Abort
        invariant forall i :: 0 <= i < |replies| && replies[i] == Abort ==>
                    stop && i == |replies| - 1 && calls[i].th !in index && current > THREADS_MAX
        invariant !stop ==> Joining(old(index), old(current), calls)
        invariant RowsNeeded(old(index), old(current), calls) <= THREADS_MAX ==> !stop
        invariant forall i :: 0 <= i < |replies| && Refused(calls[i], replies[i]) ==> i == |replies| - 1 && lock != 0
        invariant lock != 0 ==>
                    && replies != [] && Refused(calls[|replies| - 1], replies[|replies| - 1])
                    && calls[|replies| - 1].Get? && OutOfMemory(calls[|replies| - 1].th, calls[|replies| - 1].lvl)
        invariant forall th :: old(Alone(th)) && By(calls, th) ==> Alone(th)
        decreases |calls| - |replies|
      {
        var call := calls[|replies|];
        ghost var idx, cur := index, current;
        RowsLeft(old(index), old(current), calls, |replies|);
        var reply := Perform(call, held, before);
        JoinStep(old(index), old(current), idx, cur, calls, |replies|, held, reply);
        HeldStep(calls, replies, reply);
        SomeoneElse(calls, |replies|);
        held := After(held, call, reply);
        replies := replies + [reply];
        stop := reply == Abort;
      }
      HeldApart(held, before);
      forall th | old(Alone(th)) && By(calls, th) && th in index ensures CanonicalLists(arena.own, index[th]) {
        Canonical(th);
      }
    }

    /** The rows given out when all threads of the calls have one, counting as the code does. */
    ghost function RowsNeeded(idx: map<nat, nat>, cur: nat, calls: seq<Call>): int {
      cur - |idx| + |idx.Keys + ThreadsOf(calls)|
    }

    /** Rows were given out to threads of the calls only, one each. */
    ghost predicate Joining(idx: map<nat, nat>, cur: nat, calls: seq<Call>)
      reads this`index, this`current
    {
      JoiningIn(index, current, idx, cur, calls)
    }

    lemma NobodyJoined(calls: seq<Call>)
      ensures Joining(index, current, calls)
    {
    }

    lemma RowsLeft(idx: map<nat, nat>, cur: nat, calls: seq<Call>, n: nat)
      requires n < |calls| && Joining(idx, cur, calls)
      ensures JoiningIn(index, current, idx, cur, calls)
      ensures RowsNeeded(idx, cur, calls) <= THREADS_MAX && calls[n].th !in index ==> current < THREADS_MAX
    {
      hide ThreadsOf;
      ThreadIn(calls, n);
      if calls[n].th !in index {
        Cardinality(index.Keys + {calls[n].th}, idx.Keys + ThreadsOf(calls));
      }
    }

    lemma JoinStep(idx: map<nat, nat>, cur: nat, was: map<nat, nat>, before: nat, calls: seq<Call>, n: nat, held: seq<Held>, reply: Reply)
      requires n < |calls| && JoiningIn(was, before, idx, cur, calls)
      requires if Acts(calls[n], held) then Joined(calls[n].th, reply == Abort, was, before)
               else reply == Null && index == was && current == before
      ensures reply != Abort ==> Joining(idx, cur, calls)
      ensures reply == Abort ==> calls[n].th !in index && current > THREADS_MAX && calls[n].th !in was && before >= THREADS_MAX
    {
      hide ThreadsOf, JoiningIn;
      ThreadIn(calls, n);
      if calls[n].th !in was { JoinOne(was, before, idx, cur, calls, calls[n].th); }
    }

    lemma NothingHeld()
      ensures Holding([], arena.own) && HeldAfter([], []) == []
    {
    }

    lemma HeldStep(calls: seq<Call>, replies: seq<Reply>, reply: Reply)
      requires |replies| < |calls|
      ensures HeldAfter(calls[..|replies| + 1], replies + [reply]) ==
              After(HeldAfter(calls[..|replies|], replies), calls[|replies|], reply)
    {
      assert calls[..|replies| + 1][..|replies|] == calls[..|replies|];
      assert (replies + [reply])[..|replies|] == replies;
    }

    lemma SomeoneElse(calls: seq<Call>, n: nat)
      requires n < |calls|
      ensures forall th :: By(calls, th) ==> calls[n].th == th
    {
    }

    lemma HeldApart(held: seq<Held>, before: Partition)
      requires Valid() && Holding(held, before)
      ensures forall i, j, u :: 0 <= i < j < |held| ==> !(Inside(BlockOf(held[i]), u) && Inside(BlockOf(held[j]), u))
    {
      hide Linked, Units, Aligned, Coalesced, Lists, Inside;
      forall i, j, u | 0 <= i < j < |held| && Inside(BlockOf(held[i]), u) ensures !Inside(BlockOf(held[j]), u) {
        ApartAt(arena.own, BlockOf(held[i]), BlockOf(held[j]), u);
      }
    }

    lemma Canonical(th: nat)
      requires Valid() && Alone(th)
      ensures th in index ==> CanonicalLists(arena.own, index[th])
    {
      hide Invariant, Linked, Lists, CanonicalLists;
      if th in index { OneThreadCanonicalLists(arena.own, index[th]); }
    }
  }

  lemma BytesLevel(k: nat)
    ensures Level(Bytes(k)) == if k <= TOP then k else -1
  {
    if k <= TOP {
      LevelOfBytes(k);
    } else {
      forall j: nat | j <= TOP ensures Bytes(k) != Bytes(j) { BytesGrow(j, k); }
    }
  }

  lemma ApartAt(own: Partition, b: Block, c: Block, u: int)
    requires Tiled(own) && IsBlock(own, b) && IsBlock(own, c) && b.addr != c.addr && Inside(b, u)
    ensures !Inside(c, u)
  {
    hide Units, Aligned;
    assert 0 <= u < |own| && own[u] == b;
  }

  /** The smallest power of two that holds size bytes and a 4096-byte page; the allocator serves it
      exactly if size is at most 2 MB. */
  method RoundUp(size: int) returns (tsize: int)
    ensures tsize >= size && tsize >= 4096 && (tsize == 4096 || tsize / 2 < size) && exists k: nat :: tsize == Bytes(k)
    ensures size > MAX_BYTES <==> Level(tsize) == -1
    ensures Level(tsize) != -1 ==> Level(tsize) >= 3
  {
    tsize := 4096;
    ghost var k := 3;
    while tsize < size
      invariant k >= 3 && tsize == Bytes(k) && tsize >= 4096 && (tsize == 4096 || tsize / 2 < size)
      decreases size - tsize
    {
      tsize := tsize * 2;
      k := k + 1;
    }
    BytesBound(k);
    BytesLevel(k);
    if k > TOP { BytesBound(k - 1); }
  }

  /** Blocks start at a multiple of their size. */
  lemma HandedAligned(ar: Arena, br: Arena, t: nat, k: nat, a: int)
    requires Shape(ar.chain) && t < THREADS_MAX && k <= TOP && Handed(ar, br, t, k, a) && Consistent(br)
    ensures Aligned(a, k) && Tiled(br.own) && IsBlock(br.own, Block(a, k, Live))
  {
    hide Aligned, Units;
  }

  /** All bytes of a block resolve, with their distances from its start. */
  lemma Resolves(own: Partition, a: int, k: nat, vemva: int, pci: int)
    requires Tiled(own) && IsBlock(own, Block(a, k, Live))
    ensures forall q :: vemva + 512 * a <= q < vemva + 512 * a + Bytes(k) ==>
              AuroraResolveAddr(vemva, pci, 512 * |own|, q) == Dma(pci + (q - vemva))
  {
    hide Aligned, Units;
  }

  /** A block of the allocator, used from its start, is a buffer that PRP entries describe
      correctly, whether pages are larger or smaller than the block: it starts on a page boundary
      or lies in one page. */
  lemma BlockDescribable(g: Prp.Geometry, base: int, a: int, k: nat, p: nat, len: nat)
    requires g.wpp > 0 && g.PageSize() == Bytes(p) && base % g.PageSize() == 0
    requires Aligned(a, k) && len <= Bytes(k)
    ensures Prp.Describable(g, base + 512 * a, len)
  {
    hide Aligned, Units, Prp.Geometry.PageSize;
    var q, r := UnitInPage(a, k, p);
    PageOffset(base, a, Units(p), q, r);
  }

  /** With pages of 4 KB or more the entries for any block of the allocator fit one list page. */
  lemma BlockFitsListPage(g: Prp.Geometry, k: nat, len: nat)
    requires g.wpp >= 512 && k <= TOP && len <= Bytes(k)
    ensures Prp.FitsListPage(g, len)
  {
    hide Units, Prp.Pages;
    BytesBound(k);
    var s, n := g.PageSize(), Prp.Pages(g.PageSize(), len);
    Prp.PagesBounds(s, len);
    if n > 512 { FewPages(s, n - 1); }
  }

  lemma FewPages(page: nat, n: int)
    requires page >= 4096 && n >= 512
    ensures page * n >= MAX_BYTES
  {
    assert page * n == 4096 * n + (page - 4096) * n;
  }

  /** Where a block of level k starts in its page of level p. */
  lemma UnitInPage(a: int, k: nat, p: nat) returns (q: int, r: nat)
    requires Aligned(a, k)
    ensures a == Units(p) * q + r && r < Units(p)
    ensures if p <= k then r == 0 else r + Units(k) <= Units(p)
  {
    hide Aligned, Units;
    var f := Floor(a, p);
    AlignedIsMultiple(f, p);
    q, r := f / Units(p), a - f;
    if p <= k {
      AlignedDown(a, p, k);
      if f < a { AlignedGap(f, a, p); }
    } else {
      AlignedDown(f, k, p);
      UnitsAligned(k, p);
      AlignedSum(f, Units(p), k);
      AlignedGap(a, f + Units(p), k);
    }
  }

  lemma PageOffset(base: int, a: int, units: nat, q: int, r: nat)
    requires units > 0 && base % (512 * units) == 0 && a == units * q + r && r < units
    ensures (base + 512 * a) % (512 * units) == 512 * r
  {
    var b := base / (512 * units);
    assert base + 512 * a == 512 * units * (b + q) + 512 * r;
    Ring.DivideUnique(base + 512 * a, 512 * units, b + q, 512 * r);
  }

  datatype Resolved = Dma(addr: int) | NotIoRegion

  /** Bus address of a buffer, for an arena mapped at `vemva` and registered at `pci`. */
  function AuroraResolveAddr(vemva: int, pci: int, max: int, buf: int): (r: Resolved)
  {
    if vemva > buf || buf - vemva > max then NotIoRegion else Dma(pci + (buf - vemva))
  }

  /** The arena starts at bus address pci, and the check keeps distances.  For an arena of n units it admits the addresses that lie in a
      unit, and one more just past the arena, which lies in none. */
  lemma ResolveAddr(vemva: int, pci: int, n: nat, buf: int, other: int)
    ensures AuroraResolveAddr(vemva, pci, 512 * n, buf).Dma? <==> InArena(vemva, n, buf) || buf == vemva + 512 * n
    ensures !InArena(vemva, n, vemva + 512 * n)
    ensures AuroraResolveAddr(vemva, pci, 512 * n, vemva) == Dma(pci)
    ensures var r := AuroraResolveAddr(vemva, pci, 512 * n, buf); r.Dma? ==> pci <= r.addr <= pci + 512 * n
    ensures var r, s := AuroraResolveAddr(vemva, pci, 512 * n, buf), AuroraResolveAddr(vemva, pci, 512 * n, other);
            r.Dma? && s.Dma? ==> s.addr - r.addr == other - buf
  {
    if 0 <= buf - vemva < 512 * n { assert InUnit(vemva, (buf - vemva) / 512, buf); }
  }

  ghost predicate InUnit(vemva: int, u: int, buf: int) {
    vemva + 512 * u <= buf < vemva + 512 * (u + 1)
  }

  ghost predicate InArena(vemva: int, n: nat, buf: int) {
    exists u :: 0 <= u < n && InUnit(vemva, u, buf)
  }
}
