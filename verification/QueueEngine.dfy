/** The I/O queue of the driver: descriptors that own sets of command ids, the full-queue rule,
    and the submission and completion of commands on a ring pair. */
module QueueEngine {
  import opened Ring
  import opened Bits
  import opened DescLists
  import opened Prp
  import opened Transfers
  import opened NvmeQueues
  import opened Pending

  /** The ids a descriptor owns. */
  ghost function IdsOf(owner: map<nat, Desc>, d: Desc): set<nat> {
    set c <- owner | owner[c] == d
  }

  lemma IdsLess(owner: map<nat, Desc>, d: Desc, c: nat)
    requires c in owner
    ensures IdsOf(Forget(owner, c), d) == IdsOf(owner, d) - {c}
    ensures c in IdsOf(owner, d) <==> d == owner[c]
  {
  }

  /** A mask and a count of the ids in use, which are submitted or held. */
  ghost predicate CountsOf(mask: seq<bv64>, count: int, owner: map<nat, Desc>, who: map<nat, nat>, held: set<nat>, size: nat) {
    && Cids(mask) == owner.Keys && count == |owner|
    && (forall c <- owner :: c < size)
    && forall c :: c in owner <==> (c in who) != (c in held)
  }

  lemma CountLess(mask: seq<bv64>, count: int, owner: map<nat, Desc>, who: map<nat, nat>, held: set<nat>, size: nat, c: nat)
    requires CountsOf(mask, count, owner, who, held, size) && c in owner && c in who && c < 64 * |mask|
    ensures CountsOf(Without(mask, c), count - 1, Forget(owner, c), Forget(who, c), held, size)
  {
    hide Cids, Forget;
    MaskSets(mask, c);
    Forgotten(owner, c);
    Forgotten(who, c);
  }

  lemma CountMore(mask: seq<bv64>, count: int, owner: map<nat, Desc>, who: map<nat, nat>, size: nat, c: nat, d: Desc)
    requires CountsOf(mask, count, owner, who, {}, size) && c !in owner && c < size && c < 64 * |mask|
    ensures CountsOf(With(mask, c), count + 1, owner[c := d], who, {c}, size)
  {
    hide Cids;
    MaskSets(mask, c);
    assert owner[c := d].Keys == owner.Keys + {c};
  }

  lemma CountSubmit(mask: seq<bv64>, count: int, owner: map<nat, Desc>, who: map<nat, nat>, size: nat, c: nat, n: nat)
    requires CountsOf(mask, count, owner, who, {c}, size) && c !in who
    ensures CountsOf(mask, count, owner, who[c := n], {}, size)
  {
  }

  lemma IdsMore(owner: map<nat, Desc>, x: Desc, c: nat, d: Desc)
    requires c !in owner
    ensures IdsOf(owner[c := d], x) == IdsOf(owner, x) + if x == d then {c} else {}
    ensures c !in IdsOf(owner, x)
  {
  }

  lemma OwnersMore(owner: map<nat, Desc>, s: seq<Desc>, c: nat, d: Desc)
    requires OwnersIn(owner, s) && d in s
    ensures OwnersIn(owner[c := d], s)
  {
  }

  lemma OwnerNotEmpty(owner: map<nat, Desc>, d: Desc)
    requires IdsOf(owner, d) != {}
    ensures |owner| > 0
  {
    var c :| c in IdsOf(owner, d);
    assert c in owner;
  }

  /** A set smaller than n misses a number below n. */
  lemma {:induction false} SomeFree(used: set<nat>, n: nat) returns (f: nat)
    requires |used| < n
    ensures f < n && f !in used
  {
    if n - 1 in used {
      f := SomeFree(used - {n - 1}, n - 1);
    } else {
      f := n - 1;
    }
  }

  ghost predicate OwnersIn(owner: map<nat, Desc>, s: seq<Desc>) {
    forall c <- owner :: owner[c] in s
  }

  lemma OwnersLess(owner: map<nat, Desc>, s: seq<Desc>, c: nat)
    requires OwnersIn(owner, s)
    ensures OwnersIn(Forget(owner, c), s)
  {
  }

  lemma PageBelow(w: nat, c: nat, size: nat)
    requires c < size
    ensures c * w + w <= size * w
  {
    assert size * w == c * w + w * (size - c);
    if w > 0 { Scaled(w, size - c); }
  }

  /** Statuses of the completions consumed since position `from`, as a poll returning err sees
      them: all were successes, but for the last one if err is its status. */
  ghost predicate Polled(from: nat, log: Log, err: int) {
    && from <= log.consumed <= |log.posted|
    && (err == 0 || err == -1 ==> Successes(log, from, log.consumed))
    && (err != 0 && err != -1 ==>
          && from < log.consumed && log.posted[log.consumed - 1].stat == err
          && Successes(log, from, log.consumed - 1))
  }

  /** No completion is posted that has not been consumed. */
  ghost predicate NothingPosted(log: Log) {
    log.consumed == |log.posted|
  }

  /** If a completion was consumed since position `from`, cs is the result of the last one. */
  ghost predicate LastResult(from: nat, log: Log, cs: int) {
    from < log.consumed ==> log.consumed <= |log.posted| && cs == log.posted[log.consumed - 1].cs
  }

  /** If a completion was consumed since position `from`, the last one is of a submission in mine. */
  ghost predicate LastOf(from: nat, log: Log, mine: set<nat>) {
    from < log.consumed ==> log.consumed <= |log.posted| && log.posted[log.consumed - 1].idx in mine
  }

  ghost predicate Successes(log: Log, lo: nat, hi: nat)
    requires hi <= |log.posted|
  {
    forall k :: lo <= k < hi ==> log.posted[k].stat == 0
  }

  /** The descriptor after position k, going round; none if there is no other. */
  ghost function After(s: seq<Desc>, k: nat): Desc?
    requires k < |s|
  {
    if |s| == 1 then null else if k + 1 < |s| then s[k + 1] else s[0]
  }

  /** c is the first id not in use, going round from start. */
  ghost predicate FirstFree(owner: map<nat, Desc>, start: nat, size: nat, c: nat) {
    && c < size && c !in owner
    && forall x: nat :: (if start <= c then start <= x < c else start <= x < size || x < c) ==> x in owner
  }

  const UNVME_TIMEOUT: nat := 60

  class Queue {
    const nvmeq: NvmeQueue
    const size: nat
    const masksize: nat
    var cid: nat
    var cidcount: int
    var desccount: int
    var cidmask: seq<bv64>
    var desclist: Desc?
    var descfree: Desc?
    var descpend: Desc?
    /** The descriptors in use and the free ones in list order, and the position of descpend. */
    ghost var used: seq<Desc>
    ghost var free: seq<Desc>
    ghost var pend: nat
    /** The descriptor of every command id in use. */
    ghost var owner: map<nat, Desc>
    /** The submission of every command id in use, but for ids handed out and not submitted yet. */
    ghost var who: map<nat, nat>
    ghost var held: set<nat>
    /** The buffer of every submission. */
    ghost var bufs: seq<Buf>

    function Words(): nat {
      masksize / 8
    }

    ghost predicate Sizes() {
      size >= 2 && masksize == (size + 63) / 64 * 8 && nvmeq.size == size
    }

    /** Two disjoint circles, and the length of the one in use. */
    ghost predicate Lists(s: seq<Desc>, f: seq<Desc>)
      reads this`desclist, this`descfree, this`desccount
      reads s`next, s`prev, f`next, f`prev, f`cidmask
    {
      && IsList(desclist, s) && IsList(descfree, f)
      && (forall i :: 0 <= i < |s| ==> s[i] !in f)
      && desccount == |s|
      && (forall d <- f :: |d.cidmask| == Words())
    }

    ghost predicate MaskOf(d: Desc)
      reads d`cidmask, d`cidcount, d`own
    {
      && |d.cidmask| == Words()
      && Cids(d.cidmask) == d.own && d.cidcount == |d.own|
    }

    /** The queue's own mask holds the command ids in use: those submitted and those held. */
    ghost predicate Counts()
      reads this`cidmask, this`cidcount, this`cid, this`owner, this`who, this`held
    {
      CountsOf(cidmask, cidcount, owner, who, held, size) && |cidmask| == Words() && cid < size
    }

    /** The masks of the descriptors in s partition the command ids in use. */
    ghost predicate Masks(s: seq<Desc>)
      reads this`cidmask, this`cidcount, this`cid, this`owner, this`who, this`held
      reads s`cidmask, s`cidcount, s`own
    {
      && Counts()
      && OwnersIn(owner, s)
      && (forall d <- s :: MaskOf(d) && d.own == IdsOf(owner, d))
    }

    /** descpend is at position p, and before it no descriptor has a pending command. */
    ghost predicate Pends(s: seq<Desc>, p: nat)
      reads this`descpend, s`own
    {
      s != [] ==>
        && p < |s| && descpend == s[p]
        && forall j :: 0 <= j < p ==> s[j].own == {}
    }

    /** Pending commands and the error field of every descriptor, against the log. */
    ghost predicate Commands(s: seq<Desc>, log: Log)
      reads this`who, this`owner, s`mine, s`own, s`error
    {
      && Tracks(who, log)
      && (forall c <- who :: c in owner && owner[c] in s && who[c] in owner[c].mine)
      && forall d <- s :: Accounts(log, d.mine, d.own, d.error)
    }

    /** The list pages of all pending commands, and what was executed so far. */
    ghost predicate Wire(w: map<nat, nat>, log: Log, words: seq<int>)
      reads this`bufs
    {
      WireWith(bufs, w, log, words)
    }

    ghost predicate WireWith(bufs: seq<Buf>, w: map<nat, nat>, log: Log, words: seq<int>) {
      && nvmeq.g.wpp > 0 && |words| == nvmeq.g.ListStart(size)
      && Prepared(nvmeq.g, nvmeq.l, words, w, log.sub, bufs)
      && Described(nvmeq.g, nvmeq.l, log.order, bufs)
    }

    ghost predicate Valid()
      reads this, used, free, nvmeq, nvmeq.sq, nvmeq.cq, nvmeq.list
    {
      && nvmeq.Valid() && Sizes()
      && Lists(used, free) && Masks(used) && Pends(used, pend)
      && Commands(used, nvmeq.log) && Wire(who, nvmeq.log, nvmeq.list[..])
    }

    /** A queue on a new ring pair, with sixteen free descriptors. */
    constructor (nvmeq: NvmeQueue)
      requires nvmeq.Valid() && nvmeq.log == Log([], [], [], [], 0)
      requires nvmeq.list.Length == nvmeq.g.ListStart(nvmeq.size)
      ensures Valid() && this.nvmeq == nvmeq && used == [] && |free| == 16
      ensures fresh(free) && held == {} && who == map[] && bufs == []
      ensures cid == 0 && cidcount == 0 && owner == map[]
    {
      hide *;
      this.nvmeq := nvmeq;
      size := nvmeq.size;
      masksize := (nvmeq.size + 63) / 64 * 8;
      cid, cidcount, desccount := 0, 0, 0;
      cidmask := Zeros((nvmeq.size + 63) / 64);
      desclist, descfree, descpend := null, null, null;
      used, free, pend, owner, who, held, bufs := [], [], 0, map[], map[], {}, [];
      new;
      EmptyCircle();
      nvmeq.Window();
      WordsAre();
      StartsValid();
      for i := 0 to 16
        invariant Valid() && unchanged(nvmeq) && this.nvmeq == nvmeq
        invariant fresh(used) && |used| == i && free == []
        invariant held == {} && who == map[] && bufs == [] && owner == map[]
        invariant cidmask == Zeros(Words()) && cid == 0 && cidcount == 0
      {
        var d := DescGet();
      }
      AllUsed();
      descfree := desclist;
      desclist := null;
      desccount := 0;
      used, free := [], used;
      EmptyCircle();
      StartsValid();
    }

    lemma EmptyCircle()
      ensures IsList(null, [])
    {
    }

    lemma WordsAre()
      requires masksize == (size + 63) / 64 * 8
      ensures Words() == (size + 63) / 64
    {
    }

    lemma AllUsed()
      requires Valid()
      ensures nvmeq.Valid() && Sizes() && IsList(desclist, used)
      ensures forall d <- used :: |d.cidmask| == Words()
    {
    }

    lemma StartsValid()
      requires nvmeq.Valid() && nvmeq.log == Log([], [], [], [], 0)
      requires nvmeq.list.Length == nvmeq.g.ListStart(nvmeq.size)
      requires Sizes() && cid == 0 && cidcount == 0 && desccount == 0 && cidmask == Zeros(Words())
      requires desclist == null && used == [] && IsList(descfree, free)
      requires forall d <- free :: |d.cidmask| == Words()
      requires owner == map[] && who == map[] && held == {} && bufs == []
      ensures Valid()
    {
    }

    // ----- descriptors

    /** Move a descriptor from the free list to the list in use; there it comes last. */
    method DescGet() returns (desc: Desc)
      requires Valid()
      modifies this`desclist, this`descfree, this`descpend, this`desccount, this`used, this`free, this`pend
      modifies used`next, used`prev, free
      ensures Valid() && used == old(used) + [desc]
      ensures desc.own == {} && desc.mine == {} && desc.error == 0
      ensures if old(free) != [] then desc == old(free)[0] && free == old(free)[1..]
              else fresh(desc) && free == []
      ensures descpend == if old(used) == [] then desc else old(descpend)
    {
      hide *;
      Unpack();
      Apart(used, free);
      desc := TakeDesc();
      CleanIs(desc);
      AppendMasks(used, desc);
      AppendCommands(used, desc, nvmeq.log);
      UseDesc(desc);
      Pack();
    }

    lemma Apart(s: seq<Desc>, f: seq<Desc>)
      requires Lists(s, f)
      ensures NoDuplicates(s) && forall i :: 0 <= i < |s| ==> s[i] !in f
    {
    }

    method TakeDesc() returns (desc: Desc)
      requires Lists(used, free)
      modifies this`descfree, this`free, free
      ensures Lists(used, free) && desc !in used && desc !in free && Clean(desc)
      ensures if old(free) != [] then desc == old(free)[0] && free == old(free)[1..]
              else fresh(desc) && free == []
    {
      hide Circle, Queue.Clean;
      if descfree != null {
        desc := descfree;
        NotAfter(free);
        assert Removed(free, 0) == free[1..];
        descfree := ListDel(descfree, desc, free, 0);
        free := free[1..];
        Reset(desc);
      } else {
        desc := new Desc(Words());
        Fresh(desc);
      }
    }

    method Reset(desc: Desc)
      modifies desc`error, desc`cidcount, desc`cidmask, desc`own, desc`mine
      ensures Clean(desc)
    {
      NoBits(Words());
      desc.error := 0;
      desc.cidcount := 0;
      desc.cidmask := Zeros(Words());
      desc.own, desc.mine := {}, {};
    }

    lemma Fresh(d: Desc)
      requires d.cidmask == Zeros(Words()) && d.cidcount == 0 && d.error == 0 && d.own == {} && d.mine == {}
      ensures Clean(d)
    {
    }

    lemma NotAfter(s: seq<Desc>)
      requires Circle(s) && s != []
      ensures s[0] !in s[1..]
    {
    }

    ghost predicate Clean(d: Desc)
      reads d
    {
      MaskOf(d) && d.own == {} && d.mine == {} && d.error == 0
    }

    lemma CleanIs(d: Desc)
      requires Clean(d)
      ensures MaskOf(d) && d.own == {} && d.mine == {} && d.error == 0
    {
    }

    method UseDesc(desc: Desc)
      requires Lists(used, free) && Pends(used, pend) && desc !in used && desc !in free
      modifies this`desclist, this`descpend, this`desccount, this`used, this`pend
      modifies used`next, used`prev, desc`next, desc`prev
      ensures used == old(used) + [desc] && Lists(used, free) && Pends(used, pend)
      ensures descpend == if old(used) == [] then desc else old(descpend)
    {
      hide Circle;
      ghost var s := used + [desc];
      desclist := ListAdd(desclist, desc, used);
      Alone(s);
      used := s;
      if desc == desc.next {
        descpend := desc;
        pend := 0;
      }
      desccount := desccount + 1;
    }

    lemma Alone(s: seq<Desc>)
      requires Circle(s) && s != []
      ensures s[|s| - 1].next == s[|s| - 1] <==> |s| == 1
    {
    }

    lemma AppendMasks(s: seq<Desc>, d: Desc)
      requires Masks(s) && MaskOf(d) && d.own == {} && d !in s
      ensures Masks(s + [d])
    {
    }

    lemma AppendCommands(s: seq<Desc>, d: Desc, log: Log)
      requires Commands(s, log) && d.mine == {} && d.error == 0 && d !in s
      ensures Commands(s + [d], log)
    {
    }

    /** Move a descriptor without pending commands from the list in use to the end of the free
        list; descpend moves on when it was there. */
    method DescPut(desc: Desc, ghost k: nat)
      requires Valid() && k < |used| && used[k] == desc && desc.own == {}
      modifies this`desclist, this`descfree, this`descpend, this`desccount, this`used, this`free, this`pend
      modifies used`next, used`prev, free`next, free`prev
      ensures Valid() && used == Removed(old(used), k) && free == old(free) + [desc]
      ensures descpend == if old(descpend) == desc then After(old(used), k) else old(descpend)
    {
      hide NvmeQueue.Valid, Queue.Wire, Queue.Masks, Queue.Commands, Queue.Lists, Queue.Pends, Queue.Sizes;
      Apart(used, free);
      RemoveMasks(used, k);
      RemoveCommands(used, k, nvmeq.log);
      UnlinkDesc(desc, k);
    }

    method UnlinkDesc(desc: Desc, ghost k: nat)
      requires Lists(used, free) && Pends(used, pend) && k < |used| && used[k] == desc && desc.own == {}
      requires |desc.cidmask| == Words()
      modifies this`desclist, this`descfree, this`descpend, this`desccount, this`used, this`free, this`pend
      modifies used`next, used`prev, free`next, free`prev
      ensures used == Removed(old(used), k) && free == old(free) + [desc]
      ensures Lists(used, free) && Pends(used, pend)
      ensures descpend == if old(descpend) == desc then After(old(used), k) else old(descpend)
    {
      hide Queue.Lists, Queue.Pends;
      Apart(used, free);
      PassPend(desc, k);
      TakeOut(desc, k);
      AddFree(desc);
    }

    method TakeOut(desc: Desc, ghost k: nat)
      requires Lists(used, free) && k < |used| && used[k] == desc
      modifies this`desclist, this`desccount, this`used, used`next, used`prev
      ensures used == Removed(old(used), k) && Lists(used, free) && desc !in used && desc !in free
    {
      hide Circle;
      Neighbours(used, k);
      desclist := ListDel(desclist, desc, used, k);
      used := Removed(used, k);
      desccount := desccount - 1;
    }

    method AddFree(desc: Desc)
      requires Lists(used, free) && desc !in used && desc !in free && |desc.cidmask| == Words()
      modifies this`descfree, this`free, free`next, free`prev, desc`next, desc`prev
      ensures free == old(free) + [desc] && Lists(used, free)
    {
      hide Circle;
      descfree := ListAdd(descfree, desc, free);
      free := free + [desc];
    }

    method PassPend(desc: Desc, ghost k: nat)
      requires Lists(used, free) && Pends(used, pend) && k < |used| && used[k] == desc && desc.own == {}
      modifies this`descpend, this`pend
      ensures Pends(Removed(used, k), pend)
      ensures descpend == if old(descpend) == desc then After(used, k) else old(descpend)
    {
      hide Circle;
      Neighbours(used, k);
      if desc == descpend {
        if desc != desc.next {
          descpend := desc.next;
        } else {
          descpend := null;
        }
        pend := if k + 1 < |used| then k else 0;
      } else if k < pend {
        pend := pend - 1;
      }
    }

    lemma Neighbours(s: seq<Desc>, k: nat)
      requires Circle(s) && k < |s|
      ensures s[k].next == if k + 1 < |s| then s[k + 1] else s[0]
      ensures s[k] !in Removed(s, k)
      ensures s[k].next == s[k] <==> |s| == 1
      ensures forall i :: 0 <= i < |s| && s[i] == s[k] ==> i == k
    {
    }

    lemma RemovedHas(s: seq<Desc>, k: nat, d: Desc)
      requires k < |s| && NoDuplicates(s)
      ensures d in Removed(s, k) <==> d in s && d != s[k]
    {
    }

    lemma RemoveMasks(s: seq<Desc>, k: nat)
      requires Masks(s) && NoDuplicates(s) && k < |s| && s[k].own == {}
      ensures Masks(Removed(s, k)) && MaskOf(s[k])
    {
      hide MaskOf, Cids, NoDuplicates;
      forall d ensures d in Removed(s, k) <==> d in s && d != s[k] {
        RemovedHas(s, k, d);
      }
      assert forall c <- owner :: c in IdsOf(owner, owner[c]);
    }

    lemma RemoveCommands(s: seq<Desc>, k: nat, log: Log)
      requires Masks(s) && Commands(s, log) && NoDuplicates(s) && k < |s| && s[k].own == {}
      ensures Commands(Removed(s, k), log)
    {
    }

    // ----- what the invariant says

    /** The masks of the descriptors in use partition the queue's mask, and the counts are the
        sizes of the masks; every id is below the queue size and within the masks. */
    lemma CidPartition()
      requires Valid()
      ensures forall i, j :: 0 <= i < j < |used| ==> Cids(used[i].cidmask) !! Cids(used[j].cidmask)
      ensures forall c :: c in Cids(cidmask) <==> exists i :: 0 <= i < |used| && c in Cids(used[i].cidmask)
      ensures forall d <- used :: d.cidcount == |Cids(d.cidmask)|
      ensures cidcount == |Cids(cidmask)| && forall c <- Cids(cidmask) :: c < size
    {
      hide NvmeQueue.Valid, Queue.Commands, Queue.Wire, Queue.Pends, Cids, Queue.Sizes;
      assert NoDuplicates(used);
      forall i | 0 <= i < |used| ensures Cids(used[i].cidmask) == IdsOf(owner, used[i]) {
        assert used[i] in used;
      }
      forall i, j | 0 <= i < j < |used| ensures Cids(used[i].cidmask) !! Cids(used[j].cidmask) {
        assert IdsOf(owner, used[i]) !! IdsOf(owner, used[j]);
      }
      forall c | c in owner ensures exists i :: 0 <= i < |used| && c in Cids(used[i].cidmask) {
        var i :| 0 <= i < |used| && used[i] == owner[c];
        assert c in Cids(used[i].cidmask);
      }
      assert |owner| == |owner.Keys|;
    }

    /** descpend is in the list in use, and no descriptor before it has a pending command. */
    lemma PendingPointer() returns (p: nat)
      requires Valid() && used != []
      ensures p < |used| && descpend == used[p]
      ensures forall j :: 0 <= j < p ==> used[j].cidcount == 0 && Cids(used[j].cidmask) == {}
    {
      hide NvmeQueue.Valid, Queue.Commands, Queue.Wire, Queue.Lists, Cids, Queue.Sizes;
      p := pend;
      assert forall j :: 0 <= j < p ==> used[j] in used;
    }

    /** The ids of the pending commands are exactly the ids in the mask, each used once. */
    lemma PendingIds()
      requires Valid() && held == {}
      ensures nvmeq.log.consumed <= |nvmeq.log.posted|
      ensures forall n: nat :: Outstanding(nvmeq.log, n) ==> nvmeq.log.sub[n].cid in Cids(cidmask)
      ensures forall c <- Cids(cidmask) :: exists n: nat :: Outstanding(nvmeq.log, n) && nvmeq.log.sub[n].cid == c
      ensures forall m: nat, n: nat :: Outstanding(nvmeq.log, m) && Outstanding(nvmeq.log, n) && m != n ==>
                                         nvmeq.log.sub[m].cid != nvmeq.log.sub[n].cid
    {
      hide NvmeQueue.Valid, Queue.Pends, Queue.Wire, Queue.Lists, Cids, Queue.Sizes, Accounts;
      forall c | c in Cids(cidmask) ensures exists n: nat :: Outstanding(nvmeq.log, n) && nvmeq.log.sub[n].cid == c {
        assert c in who && Outstanding(nvmeq.log, who[c]);
      }
    }

    // ----- completions

    /** Ask the ring for a completion until there is one or the time is up. */
    method Await(timeout: nat) returns (c: int, stat: nat, cs: int)
      requires nvmeq.Valid()
      modifies nvmeq, nvmeq.cq
      ensures nvmeq.Valid() && Positive(nvmeq.g, nvmeq.l) && nvmeq.log.sub == old(nvmeq.log).sub
      ensures nvmeq.looks > old(nvmeq.looks) && (timeout == 0 ==> nvmeq.looks == old(nvmeq.looks) + 1)
      ensures Ran(nvmeq.g, nvmeq.l, nvmeq.list[..], old(nvmeq.log), old(nvmeq.machine), nvmeq.log, nvmeq.machine)
      ensures c == -1 ==> nvmeq.log.consumed == old(nvmeq.log).consumed && NothingPosted(nvmeq.log)
      ensures c != -1 ==> nvmeq.log.consumed == old(nvmeq.log).consumed + 1 && nvmeq.Accepted(c, stat, cs)
    {
      hide NvmeQueue.Valid, Ran;
      ghost var a, m, before := nvmeq.log, nvmeq.machine, nvmeq.looks;
      var ticks: nat := *;
      c, stat, cs := nvmeq.CheckCompletion();
      while !(timeout == 0 || c >= 0) && ticks > 0
        invariant nvmeq.Valid() && Positive(nvmeq.g, nvmeq.l) && nvmeq.log.sub == a.sub
        invariant nvmeq.looks > before && (timeout == 0 ==> nvmeq.looks == before + 1)
        invariant Ran(nvmeq.g, nvmeq.l, nvmeq.list[..], a, m, nvmeq.log, nvmeq.machine)
        invariant c == -1 ==> nvmeq.log.consumed == a.consumed && NothingPosted(nvmeq.log)
        invariant c != -1 ==> nvmeq.log.consumed == a.consumed + 1 && nvmeq.Accepted(c, stat, cs)
        decreases ticks
      {
        ghost var b, n := nvmeq.log, nvmeq.machine;
        c, stat, cs := nvmeq.CheckCompletion();
        RanTwice(nvmeq.g, nvmeq.l, nvmeq.list[..], a, m, b, n, nvmeq.log, nvmeq.machine);
        ticks := ticks - 1;
      }
    }

    lemma OwnerAt(c: nat) returns (o: nat)
      requires Masks(used) && Pends(used, pend) && c in owner
      ensures pend <= o < |used| && used[o] == owner[c] && descpend == used[pend]
      ensures used[o].cidcount != 0
    {
      hide Cids;
      assert c in IdsOf(owner, owner[c]);
      o :| o < |used| && used[o] == owner[c];
    }

    lemma OnlyOwnerHas(d: Desc, c: nat)
      requires Sizes() && Masks(used) && d in used && c in owner
      ensures c < 64 * |d.cidmask| && (Has(d.cidmask, c) <==> d == owner[c])
    {
      hide Has;
      MaskSets(d.cidmask, c);
    }

    lemma NextIn(s: seq<Desc>, k: nat)
      requires Circle(s) && k + 1 < |s|
      ensures s[k].next == s[k + 1] && forall j :: 0 <= j <= k ==> s[j] != s[k + 1]
    {
    }

    /** Follow the list from descpend to the descriptor that owns a pending id: the search meets
        it before it comes round. */
    method FindDesc(c: nat) returns (desc: Desc)
      requires Sizes() && Lists(used, free) && Masks(used) && Pends(used, pend) && c in owner
      ensures desc == owner[c] && desc in used && desc !in free
    {
      hide Has, Circle, Queue.Masks, Queue.Sizes;
      ghost var o := OwnerAt(c);
      desc := descpend;
      ghost var k := pend;
      OnlyOwnerHas(desc, c);
      while !Has(desc.cidmask, c)
        invariant pend <= k <= o && desc == used[k]
        invariant c < 64 * |desc.cidmask| && (Has(desc.cidmask, c) <==> desc == owner[c])
        decreases o - k
      {
        NextIn(used, k);
        desc := desc.next;
        k := k + 1;
        if desc == descpend {
          assert false;
        }
        OnlyOwnerHas(desc, c);
      }
    }

    /** Take a completed id off the masks and settle the account of its descriptor. */
    method ClearCid(desc: Desc, c: nat, err: nat, ghost a: Log, ghost b: Log)
      requires Sizes() && Masks(used) && Pends(used, pend) && Commands(used, a) && c in owner && owner[c] == desc
      requires LogOk(b) && Progress(a, b) && b.sub == a.sub && b.consumed == a.consumed + 1
      requires c == b.posted[a.consumed].cmd.cid && err == b.posted[a.consumed].stat
      modifies this`cidcount, this`cid, this`cidmask, this`owner, this`who
      modifies desc`error, desc`cidcount, desc`cidmask, desc`own
      ensures Masks(used) && Pends(used, pend) && Commands(used, b)
      ensures cid == c && owner == Forget(old(owner), c) && who == Forget(old(who), c)
      ensures desc.own == old(desc.own) - {c} && desc.error == if err != 0 then err else old(desc.error)
    {
      hide Cids, Tracks, LogOk, Accounts, IsConsumed, Queue.Commands, Queue.Masks;
      ClearFacts(desc, c, a, b);
      if err != 0 {
        desc.error := err;
      }
      ClearBit(desc, c);
      assert Masks(used);
      Consumable(b);
      forall d | d in used ensures Accounts(b, d.mine, d.own, d.error) {
        AccountsConsume(old(who), a, b, d.mine, old(d.own), old(d.error));
        assert d != desc ==> old(d.own) - {c} == d.own;
      }
      Books(b);
    }

    lemma Books(log: Log)
      requires Tracks(who, log)
      requires forall c <- who :: c in owner && owner[c] in used && who[c] in owner[c].mine
      requires forall d <- used :: Accounts(log, d.mine, d.own, d.error)
      ensures Commands(used, log)
    {
    }

    method ClearBit(desc: Desc, c: nat)
      requires Sizes() && Masks(used) && c in who && c in owner && owner[c] == desc
      modifies this`cidcount, this`cid, this`cidmask, this`owner, this`who
      modifies desc`cidcount, desc`cidmask, desc`own
      ensures Masks(used)
      ensures cid == c && owner == Forget(old(owner), c) && who == Forget(old(who), c)
      ensures desc.own == old(desc.own) - {c}
    {
      hide Forget, OwnersIn, Queue.MaskOf, IdsOf, Queue.Counts, Queue.Sizes;
      WithinMask(c);
      OwnersLess(owner, used, c);
      Holder(c);
      forall d | d in used
        ensures IdsOf(Forget(owner, c), d) == IdsOf(owner, d) - {c}
        ensures c in IdsOf(owner, d) <==> d == desc
      {
        IdsLess(owner, d, c);
      }
      ClearDesc(desc, c);
      Uncount(c);
    }

    lemma Holder(c: nat)
      requires Masks(used) && c in owner
      ensures owner[c] in used && c in owner[c].own && MaskOf(owner[c])
    {
      assert c in IdsOf(owner, owner[c]);
    }

    lemma WithinMask(c: nat)
      requires Sizes() && Counts() && c in owner
      ensures c < 64 * Words() && c < size
    {
    }

    method Uncount(c: nat)
      requires Sizes() && Counts() && c in who && c in owner
      modifies this`cidcount, this`cid, this`cidmask, this`owner, this`who
      ensures Counts() && cid == c && owner == Forget(old(owner), c) && who == Forget(old(who), c)
    {
      hide Without, Forget, CountsOf, Queue.Sizes, Queue.Words;
      WithinMask(c);
      CountLess(cidmask, cidcount, owner, who, held, size, c);
      cidmask := Without(cidmask, c);
      cidcount := cidcount - 1;
      cid := c;
      owner, who := Forget(owner, c), Forget(who, c);
    }

    method ClearDesc(desc: Desc, c: nat)
      requires MaskOf(desc) && c in desc.own && c < 64 * Words()
      modifies desc`cidcount, desc`cidmask, desc`own
      ensures MaskOf(desc) && desc.own == old(desc.own) - {c}
    {
      MaskSets(desc.cidmask, c);
      desc.cidmask := Without(desc.cidmask, c);
      desc.cidcount := desc.cidcount - 1;
      desc.own := desc.own - {c};
    }

    lemma ClearFacts(desc: Desc, c: nat, a: Log, b: Log)
      requires Masks(used) && Commands(used, a) && c in owner && owner[c] == desc
      requires LogOk(b) && Progress(a, b) && b.sub == a.sub && b.consumed == a.consumed + 1
      requires c == b.posted[a.consumed].cmd.cid
      ensures c in who && Tracks(Forget(who, c), b) && Tracks(who, a)
      ensures forall d <- used :: Accounts(a, d.mine, d.own, d.error)
      ensures forall d <- used :: c in d.own <==> d == desc
      ensures b.posted[a.consumed].idx in desc.mine
      ensures forall x <- who :: x in owner && owner[x] in used && who[x] in owner[x].mine
    {
      hide Cids, Tracks, Accounts, Queue.MaskOf;
      Consumable(b);
      TracksConsume(who, a, b);
    }

    /** Move descpend on to the first descriptor with a pending command. */
    method AdvancePend()
      requires Lists(used, free) && Masks(used) && Pends(used, pend) && cidcount != 0
      modifies this`descpend, this`pend
      ensures Pends(used, pend) && descpend != null && descpend.cidcount != 0
    {
      hide Queue.Masks, Circle;
      ghost var c := SomeOwned();
      ghost var o := OwnerAt(c);
      while descpend.cidcount == 0
        invariant pend <= o < |used| && descpend == used[pend] && Pends(used, pend)
        invariant Masks(used)
        decreases o - pend
      {
        NoneOwned(descpend);
        NextIn(used, pend);
        descpend := descpend.next;
        pend := pend + 1;
      }
    }

    lemma SomeOwned() returns (c: nat)
      requires Masks(used) && cidcount != 0
      ensures c in owner
    {
      c :| c in owner;
    }

    lemma NoneOwned(d: Desc)
      requires Masks(used) && d in used && d.cidcount == 0
      ensures d.own == {}
    {
    }

    /** The completion just consumed belongs to a pending command. */
    lemma KnownCid(a: Log, b: Log)
      requires Commands(used, a) && LogOk(b) && Progress(a, b) && b.sub == a.sub && b.consumed == a.consumed + 1
      ensures var e := b.posted[a.consumed]; e.cmd.cid in who && e.cmd.cid in owner && who[e.cmd.cid] == e.idx
    {
    }

    lemma CommandsDevice(a: Log, b: Log)
      requires Commands(used, a) && LogOk(b) && DeviceProgress(a, b)
      ensures Commands(used, b)
    {
      hide Accounts;
      TracksDevice(who, a, b);
      forall d | d in used ensures Accounts(b, d.mine, d.own, d.error) {
        AccountsDevice(a, b, d.mine, d.own, d.error);
      }
    }

    lemma WireRun(words: seq<int>, a: Log, m: Machine, b: Log, n: Machine)
      requires nvmeq.g.Valid() && Positive(nvmeq.g, nvmeq.l) && Ran(nvmeq.g, nvmeq.l, words, a, m, b, n)
      requires Commands(used, a) && Wire(who, a, words) && LogOk(a) && LogOk(b) && b.sub == a.sub
      ensures Wire(who, b, words) && Led(nvmeq.l, a, m, b, n) && Progress(a, b)
    {
      hide Tracks, Prepared, Described, Accounts;
      DescribedRun(nvmeq.g, nvmeq.l, words, who, bufs, a, m, b, n);
    }

    lemma WireLess(w: map<nat, nat>, c: nat, log: Log, words: seq<int>)
      requires Wire(w, log, words) && c in w
      ensures Wire(Forget(w, c), log, words)
    {
    }

    /** One completion was consumed, with the given status and result, and its id is free. */
    ghost predicate Settled(a: Log, b: Log, err: int, cs: int, owned: map<nat, Desc>, was: map<nat, nat>)
      reads this`cid, this`owner, this`who
    {
      && b.consumed == a.consumed + 1 <= |b.posted|
      && (var e := b.posted[a.consumed]; err == e.stat && cs == e.cs && cid == e.cmd.cid)
      && cid in owned && owner == Forget(owned, cid)
      && cid in was && who == Forget(was, cid) && was[cid] == b.posted[a.consumed].idx
    }

    /** Wait for one completion and settle it: its id is taken off the masks and becomes the next
        one to try, a non-zero status goes to the descriptor the id belongs to, and descpend moves
        on.  The result is the status, or -1 if the time is up and nothing was consumed. */
    method CheckCompletion(timeout: nat) returns (err: int, cs: int)
      requires Valid()
      modifies this`cidcount, this`cid, this`cidmask, this`owner, this`who, this`descpend, this`pend
      modifies used`error, used`cidcount, used`cidmask, used`own, nvmeq, nvmeq.cq
      ensures Valid() && nvmeq.l.page > 0 && nvmeq.log.sub == old(nvmeq.log).sub
      ensures Led(nvmeq.l, old(nvmeq.log), old(nvmeq.machine), nvmeq.log, nvmeq.machine)
      ensures nvmeq.looks > old(nvmeq.looks) && (timeout == 0 ==> nvmeq.looks == old(nvmeq.looks) + 1)
      ensures err == -1 ==> NothingPosted(nvmeq.log) && nvmeq.log.consumed == old(nvmeq.log).consumed
      ensures err == -1 ==> owner == old(owner) && who == old(who) && cid == old(cid) && descpend == old(descpend)
      ensures err != -1 ==> Settled(old(nvmeq.log), nvmeq.log, err, cs, old(owner), old(who))
      ensures err != -1 ==> if cidcount == 0 then descpend == old(descpend) else descpend != null && descpend.cidcount != 0
      ensures forall d <- old(used) :: d.error == if err > 0 && d == old(owner)[cid] then err else old(d.error)
    {
      hide NvmeQueue.Valid, Queue.Wire, Queue.Masks, Queue.Commands, Queue.Lists, Queue.Pends, Queue.Sizes;
      hide Ran, LogOk, Forget;
      var a, m := nvmeq.log, nvmeq.machine;
      nvmeq.Window();
      var c, stat;
      c, stat, cs := Await(timeout);
      nvmeq.Window();
      WireRun(nvmeq.list[..], a, m, nvmeq.log, nvmeq.machine);
      if c < 0 {
        CommandsDevice(a, nvmeq.log);
        return -1, cs;
      }
      KnownCid(a, nvmeq.log);
      WireLess(who, c, nvmeq.log, nvmeq.list[..]);
      Settle(c, stat, a, nvmeq.log);
      return stat, cs;
    }

    /** Find the descriptor of a completed command, take the id off the masks, move descpend on. */
    method Settle(c: nat, stat: nat, ghost a: Log, ghost b: Log)
      requires Sizes() && Lists(used, free) && Masks(used) && Pends(used, pend) && Commands(used, a) && c in owner
      requires LogOk(b) && Progress(a, b) && b.sub == a.sub && b.consumed == a.consumed + 1
      requires c == b.posted[a.consumed].cmd.cid && stat == b.posted[a.consumed].stat
      modifies this`cidcount, this`cid, this`cidmask, this`owner, this`who, this`descpend, this`pend
      modifies used`error, used`cidcount, used`cidmask, used`own
      ensures Lists(used, free) && Masks(used) && Pends(used, pend) && Commands(used, b)
      ensures cid == c && owner == Forget(old(owner), c) && who == Forget(old(who), c)
      ensures if cidcount == 0 then descpend == old(descpend) else descpend != null && descpend.cidcount != 0
      ensures forall d <- old(used) :: d.error == if stat > 0 && d == old(owner)[c] then stat else old(d.error)
    {
      hide *;
      var desc := FindDesc(c);
      ClearCid(desc, c, stat, a, b);
      if cidcount != 0 {
        AdvancePend();
      }
    }

    // ----- submission

    lemma QueueHas(c: nat)
      requires Sizes() && Counts() && c < size
      ensures c < 64 * |cidmask| && (Has(cidmask, c) <==> c in owner)
    {
    }

    /** Between commands as many ids are in use as commands are pending; at most size - 1. */
    lemma PendingCount()
      requires Valid() && held == {}
      ensures cidcount == |owner| == |who| == |nvmeq.log.sub| - nvmeq.log.consumed < size
      ensures owner.Keys == who.Keys
    {
      hide Queue.Lists, Queue.Pends, Queue.Wire, LogOk, Cids;
      assert owner.Keys == who.Keys;
    }

    /** The scan for a free id. */
    method ScanCid() returns (c: nat)
      requires Sizes() && Counts() && |owner| < size
      ensures FirstFree(owner, cid, size, c)
    {
      hide Has, Queue.Sizes, Queue.Counts;
      CidBelow();
      ghost var f := SomeFree(owner.Keys, size);
      c := cid;
      QueueHas(c);
      while Has(cidmask, c)
        invariant c < size && c < 64 * |cidmask| && (Has(cidmask, c) <==> c in owner)
        invariant forall x: nat :: (if cid <= c then cid <= x < c else cid <= x < size || x < c) ==> x in owner
        decreases if c <= f then f - c else f + size - c
      {
        c := c + 1;
        if c >= size {
          c := 0;
        }
        QueueHas(c);
      }
    }

    lemma CidBelow()
      requires Counts()
      ensures cid < size
    {
    }

    method HoldDesc(desc: Desc, c: nat)
      requires MaskOf(desc) && c !in desc.own && c < 64 * Words()
      modifies desc`cidcount, desc`cidmask, desc`own
      ensures MaskOf(desc) && desc.own == old(desc.own) + {c}
    {
      MaskSets(desc.cidmask, c);
      desc.cidmask := With(desc.cidmask, c);
      desc.cidcount := desc.cidcount + 1;
      desc.own := desc.own + {c};
    }

    method Count(c: nat, ghost d: Desc)
      requires Sizes() && Counts() && held == {} && c !in owner && c < size
      modifies this`cidcount, this`cid, this`cidmask, this`owner, this`held
      ensures Counts() && owner == old(owner)[c := d] && held == {c} && cid == if c + 1 == size then 0 else c + 1
    {
      hide With, CountsOf, Queue.Sizes;
      QueueHas(c);
      CountMore(cidmask, cidcount, owner, who, size, c, d);
      cidmask := With(cidmask, c);
      cidcount := cidcount + 1;
      cid := c;
      cid := cid + 1;
      if cid >= size {
        cid := 0;
      }
      owner, held := owner[c := d], {c};
    }

    /** Hand an id that is not in use to a descriptor. */
    method HoldCid(desc: Desc, c: nat)
      requires Sizes() && Masks(used) && held == {} && c !in owner && c < size && desc in used
      modifies this`cidcount, this`cid, this`cidmask, this`owner, this`held
      modifies desc`cidcount, desc`cidmask, desc`own
      ensures Masks(used) && owner == old(owner)[c := desc] && held == {c} && desc.own == old(desc.own) + {c}
      ensures cid == if c + 1 == size then 0 else c + 1
    {
      hide OwnersIn, Queue.MaskOf, IdsOf, Queue.Counts, Queue.Sizes;
      QueueHas(c);
      OwnersMore(owner, used, c, desc);
      forall d | d in used
        ensures IdsOf(owner[c := desc], d) == IdsOf(owner, d) + if d == desc then {c} else {}
        ensures c !in IdsOf(owner, d)
      {
        IdsMore(owner, d, c, desc);
      }
      WordsHold(c);
      HoldDesc(desc, c);
      Count(c, desc);
    }

    lemma WordsHold(c: nat)
      requires Sizes() && c < size
      ensures c < 64 * Words()
    {
    }

    ghost predicate IsLast(desc: Desc)
      reads this`used
    {
      used != [] && used[|used| - 1] == desc
    }

    /** No pending command has this id. */
    ghost predicate FreeId(log: Log, c: nat)
      requires log.consumed <= |log.posted|
    {
      forall n: nat :: Outstanding(log, n) ==> log.sub[n].cid != c
    }

    lemma HeldIsFree(log: Log, c: nat)
      requires Commands(used, log) && c !in who
      ensures log.consumed <= |log.posted| && FreeId(log, c)
    {
    }

    /** Get an id for the descriptor last in the list.  With size - 1 commands pending one
        completion is waited for first; if that times out, with nothing consumed and none posted, the
        process is aborted (not ok). */
    method GetCid(desc: Desc) returns (ok: bool, c: nat)
      requires Valid() && held == {} && IsLast(desc)
      modifies this`cidcount, this`cid, this`cidmask, this`owner, this`who, this`held, this`descpend, this`pend
      modifies used`error, used`cidcount, used`cidmask, used`own, nvmeq, nvmeq.cq
      ensures nvmeq.l.page > 0 && Led(nvmeq.l, old(nvmeq.log), old(nvmeq.machine), nvmeq.log, nvmeq.machine)
      ensures nvmeq.log.sub == old(nvmeq.log).sub
      ensures Valid()
      ensures !ok ==> old(cidcount) + 1 == size && NothingPosted(nvmeq.log) && nvmeq.log.consumed == old(nvmeq.log).consumed
      ensures !ok ==> held == {} && owner == old(owner) && who == old(who) && cid == old(cid)
      ensures ok ==> held == {c} && c < size && c !in who && c in desc.own && |who| + 1 < size
      ensures ok ==> owner == old(owner)[c := desc] && cid == if c + 1 == size then 0 else c + 1
      ensures ok ==> nvmeq.log.consumed <= |nvmeq.log.posted| && FreeId(nvmeq.log, c)
      ensures ok ==> nvmeq.log.consumed == old(nvmeq.log).consumed + if old(cidcount) + 1 == size then 1 else 0
      ensures ok ==> if old(cidcount) + 1 == size then LastConsumed(nvmeq.log, c)
                     else FirstFree(old(owner), old(cid), size, c)
    {
      hide *;
      ok := MakeRoom();
      c := 0;
      if ok {
        c := FreeCid();
        OnlyFree(c);
        Reused(old(owner), cid, desc);
        AssignCid(desc, c);
      }
    }

    /** The id of the completion consumed last. */
    ghost predicate LastConsumed(log: Log, c: nat) {
      0 < log.consumed <= |log.posted| && log.posted[log.consumed - 1].cmd.cid == c
    }

    lemma Reused(owned: map<nat, Desc>, c: nat, desc: Desc)
      ensures c !in Forget(owned, c) && (c in owned ==> Forget(owned, c)[c := desc] == owned[c := desc])
    {
    }

    lemma OnlyFree(c: nat)
      requires FirstFree(owner, cid, size, c)
      ensures cid < size && cid !in owner ==> c == cid
    {
    }

    method MakeRoom() returns (ok: bool)
      requires Valid() && held == {}
      modifies this`cidcount, this`cid, this`cidmask, this`owner, this`who, this`descpend, this`pend
      modifies used`error, used`cidcount, used`cidmask, used`own, nvmeq, nvmeq.cq
      ensures nvmeq.l.page > 0 && Led(nvmeq.l, old(nvmeq.log), old(nvmeq.machine), nvmeq.log, nvmeq.machine)
      ensures nvmeq.log.sub == old(nvmeq.log).sub
      ensures Valid()
      ensures !ok ==> old(cidcount) + 1 == size && NothingPosted(nvmeq.log) && nvmeq.log.consumed == old(nvmeq.log).consumed
      ensures !ok ==> owner == old(owner) && who == old(who) && cid == old(cid)
      ensures ok ==> |who| + 1 < size
      ensures ok ==> nvmeq.log.consumed == old(nvmeq.log).consumed + if old(cidcount) + 1 == size then 1 else 0
      ensures ok ==> if old(cidcount) + 1 == size
                     then LastConsumed(nvmeq.log, cid) && cid < size && cid in old(owner) && owner == Forget(old(owner), cid)
                     else owner == old(owner) && cid == old(cid)
    {
      hide *;
      PendingCount();
      StartLed();
      ok := true;
      if cidcount + 1 == size {
        ghost var a, owned, was := nvmeq.log, owner, who;
        var err, cs := CheckCompletion(UNVME_TIMEOUT);
        if err == -1 {
          return false;
        }
        PendingCount();
        SettledRoom(a, err, cs, owned, was);
      }
    }

    lemma SettledRoom(a: Log, err: int, cs: int, owned: map<nat, Desc>, was: map<nat, nat>)
      requires Valid() && Settled(a, nvmeq.log, err, cs, owned, was)
      ensures nvmeq.log.consumed == a.consumed + 1 && LastConsumed(nvmeq.log, cid) && cid < size
      ensures cid in owned && owner == Forget(owned, cid)
    {
      hide Queue.Valid;
      CidIn();
    }

    lemma CidIn()
      requires Valid()
      ensures cid < size
    {
      hide *;
      Unpack();
      CidBelow();
    }

    method FreeCid() returns (c: nat)
      requires Valid() && held == {} && |who| + 1 < size
      ensures c < size && c !in who && c !in owner && FirstFree(owner, cid, size, c)
      ensures nvmeq.log.consumed <= |nvmeq.log.posted| && FreeId(nvmeq.log, c)
    {
      hide *;
      PendingCount();
      Unpack();
      c := ScanCid();
      assert c < size && c !in owner by { FreeIs(c); }
      HeldIsFree(nvmeq.log, c);
    }

    lemma FreeIs(c: nat)
      requires FirstFree(owner, cid, size, c)
      ensures c < size && c !in owner
    {
    }

    method AssignCid(desc: Desc, c: nat)
      requires Valid() && held == {} && IsLast(desc) && c !in owner && c < size
      modifies this`cidcount, this`cid, this`cidmask, this`owner, this`held
      modifies used`cidcount, used`cidmask, used`own
      ensures Valid() && held == {c} && desc.own == old(desc.own) + {c} && owner == old(owner)[c := desc] && cid == if c + 1 == size then 0 else c + 1
    {
      hide *;
      Unpack();
      PendsLast(desc);
      GiveCid(desc, c, nvmeq.log);
      Pack();
    }

    lemma StartLed()
      requires Valid()
      ensures nvmeq.l.page > 0 && Led(nvmeq.l, nvmeq.log, nvmeq.machine, nvmeq.log, nvmeq.machine)
    {
      nvmeq.StartsEmpty();
    }

    lemma Unpack()
      requires Valid()
      ensures nvmeq.Valid() && Sizes() && Counts() && Masks(used) && Lists(used, free) && Pends(used, pend)
      ensures Commands(used, nvmeq.log) && Wire(who, nvmeq.log, nvmeq.list[..])
    {
    }

    lemma Pack()
      requires var parts :=
                 && nvmeq.Valid() && Sizes() && Masks(used) && Lists(used, free) && Pends(used, pend)
                 && Commands(used, nvmeq.log) && Wire(who, nvmeq.log, nvmeq.list[..]);
               parts
      ensures Valid()
    {
    }

    lemma PendsLast(desc: Desc)
      requires Lists(used, free) && Pends(used, pend) && IsLast(desc)
      ensures desc !in free && desc in used && forall j :: 0 <= j < pend ==> used[j] != desc
    {
    }

    method GiveCid(desc: Desc, c: nat, ghost log: Log)
      requires Sizes() && Masks(used) && Pends(used, pend) && Commands(used, log)
      requires held == {} && c !in owner && c < size && desc in used
      requires forall j :: 0 <= j < pend ==> used[j] != desc
      modifies this`cidcount, this`cid, this`cidmask, this`owner, this`held
      modifies desc`cidcount, desc`cidmask, desc`own
      ensures Masks(used) && Pends(used, pend) && Commands(used, log)
      ensures held == {c} && desc.own == old(desc.own) + {c} && owner == old(owner)[c := desc] && cid == if c + 1 == size then 0 else c + 1
    {
      hide Tracks, Accounts, Queue.Masks, Queue.Sizes;
      assert log.consumed <= |log.posted| by { HeldLog(log); }
      HoldCid(desc, c);
      forall d | d in used ensures Accounts(log, d.mine, d.own, d.error) {
        AccountsHold(log, d.mine, old(d.own), d.error, c);
      }
    }

    lemma HeldLog(log: Log)
      requires Commands(used, log)
      ensures log.consumed <= |log.posted|
    {
    }

    /** Describe a buffer in the list page of an id that is not pending.  A list that is longer than
        the page damages what the next pages describe; one that fits damages nothing. */
    method MapBuf(c: nat, addr: int, len: nat) returns (p: Prps)
      requires Valid() && c < size && c !in who && nvmeq.g.wpp > 0
      requires Pages(nvmeq.g.PageSize(), len) > 2 ==>
                 nvmeq.g.ListStart(c) + Pages(nvmeq.g.PageSize(), len) - 1 <= nvmeq.list.Length
      modifies nvmeq.list
      ensures Mapped(nvmeq.g, c, addr, len, p, nvmeq.list[..])
      ensures forall w :: 0 <= w < nvmeq.list.Length && !Writes(nvmeq.g, c, len, w) ==> nvmeq.list[w] == old(nvmeq.list[w])
      ensures FitsListPage(nvmeq.g, len) ==> Valid()
    {
      hide *;
      Unpack();
      ghost var was := nvmeq.list[..];
      p := MapPrps(nvmeq.g, nvmeq.list, c, addr, len);
      if FitsListPage(nvmeq.g, len) {
        WireMapped(nvmeq.log, was, nvmeq.list[..], c, len);
        Pack();
      }
    }

    lemma ListFits(c: nat, len: nat)
      requires Valid() && c < size && FitsListPage(nvmeq.g, len)
      ensures nvmeq.g.wpp > 0 && nvmeq.list[..] == nvmeq.list[..nvmeq.list.Length]
      ensures Pages(nvmeq.g.PageSize(), len) > 2 ==>
                nvmeq.g.ListStart(c) + Pages(nvmeq.g.PageSize(), len) - 1 <= nvmeq.list.Length
    {
      hide Queue.Lists, Queue.Masks, Queue.Pends, Queue.Commands, Queue.Sizes, Pages, Prepared, Described, NvmeQueue.Valid;
      PageBelow(nvmeq.g.wpp, c, size);
    }

    lemma WireMapped(log: Log, was: seq<int>, words: seq<int>, c: nat, len: nat)
      requires Wire(who, log, was) && c !in who && |was| == |words| && nvmeq.g.wpp > 0 && FitsListPage(nvmeq.g, len)
      requires forall w :: 0 <= w < |words| && !Writes(nvmeq.g, c, len, w) ==> words[w] == was[w]
      ensures Wire(who, log, words)
    {
      hide Writes, FitsListPage, Prepared, Described;
      PreparedMapped(nvmeq.g, nvmeq.l, was, words, who, log.sub, bufs, c, len);
    }

    /** The controller may run at any time: nothing the queue keeps is disturbed. */
    method Run()
      requires Valid()
      modifies nvmeq`devHead, nvmeq`devTail, nvmeq`devPhase, nvmeq`log, nvmeq`machine, nvmeq.cq
      ensures Valid() && nvmeq.l.page > 0 && nvmeq.log.sub == old(nvmeq.log).sub
      ensures nvmeq.log.consumed == old(nvmeq.log).consumed
      ensures Led(nvmeq.l, old(nvmeq.log), old(nvmeq.machine), nvmeq.log, nvmeq.machine)
    {
      hide *;
      Unpack();
      ghost var a, m := nvmeq.log, nvmeq.machine;
      nvmeq.StartsEmpty();
      nvmeq.Window();
      nvmeq.DeviceRuns(a, m);
      nvmeq.Window();
      SameCommands(a, nvmeq.log);
      WireRun(nvmeq.list[..], a, m, nvmeq.log, nvmeq.machine);
      CommandsDevice(a, nvmeq.log);
      Pack();
    }

    lemma SameCommands(a: Log, b: Log)
      requires DeviceProgress(a, b)
      ensures b.sub == a.sub && b.consumed == a.consumed
    {
    }

    method PutEntry(cmd: Command)
      requires Valid()
      modifies nvmeq.sq
      ensures Valid() && nvmeq.sqTail < nvmeq.sq.Length && nvmeq.sq[nvmeq.sqTail] == cmd
    {
      hide *;
      Unpack();
      nvmeq.WriteEntry(cmd);
      Pack();
    }

    /** Put a prepared command on the submission ring and account for it; meanwhile the controller
        may run, before and after the entry is written. */
    method Send(desc: Desc, cmd: Command, ghost b: Buf)
      requires Valid() && held == {cmd.cid} && cmd.cid !in who && |who| + 1 < size
      requires desc in used && cmd.cid in desc.own
      requires nvmeq.g.wpp > 0 && PreparedOne(nvmeq.g, nvmeq.l, nvmeq.list[..], cmd.cid, cmd, b)
      modifies this`who, this`held, this`bufs, desc`mine, nvmeq, nvmeq.sq, nvmeq.cq
      ensures Valid() && held == {} && nvmeq.l.page > 0
      ensures Led(nvmeq.l, old(nvmeq.log), old(nvmeq.machine), nvmeq.log, nvmeq.machine)
      ensures nvmeq.log.sub == old(nvmeq.log).sub + [cmd] && nvmeq.log.consumed == old(nvmeq.log).consumed
      ensures bufs == old(bufs) + [b] && desc.mine == old(desc.mine) + {|old(nvmeq.log).sub|}
    {
      hide *;
      ghost var a, m := nvmeq.log, nvmeq.machine;
      Run();
      ghost var c, n := nvmeq.log, nvmeq.machine;
      PutEntry(cmd);
      Run();
      LedTwice(nvmeq.l, a, m, c, n, nvmeq.log, nvmeq.machine);
      c, n := nvmeq.log, nvmeq.machine;
      Issue(desc, cmd, b);
      LedSubmit(nvmeq.l, a, m, c, n, cmd);
    }

    method Issue(desc: Desc, cmd: Command, ghost b: Buf)
      requires Valid() && nvmeq.sqTail < nvmeq.sq.Length && nvmeq.sq[nvmeq.sqTail] == cmd
      requires held == {cmd.cid} && cmd.cid !in who && |who| + 1 < size
      requires desc in used && cmd.cid in desc.own
      requires nvmeq.g.wpp > 0 && PreparedOne(nvmeq.g, nvmeq.l, nvmeq.list[..], cmd.cid, cmd, b)
      modifies this`who, this`held, this`bufs, desc`mine, nvmeq
      ensures Valid() && held == {}
      ensures nvmeq.log == old(nvmeq.log).(sub := old(nvmeq.log).sub + [cmd]) && nvmeq.machine == old(nvmeq.machine)
      ensures bufs == old(bufs) + [b] && desc.mine == old(desc.mine) + {|old(nvmeq.log).sub|}
    {
      hide *;
      Unpack();
      ghost var a := nvmeq.log;
      WindowHere();
      var r := nvmeq.SubmitCmd();
      WireSubmit(a, nvmeq.list[..], cmd, b);
      Account(desc, cmd, a);
      bufs := bufs + [b];
      WireIs(nvmeq.log, nvmeq.list[..]);
      Pack();
    }

    lemma WindowHere()
      requires Valid()
      ensures |nvmeq.log.sub| - nvmeq.log.consumed == |who| && nvmeq.log.consumed <= |nvmeq.log.posted| && LogOk(nvmeq.log) && size == nvmeq.size
    {
      hide LogOk, Queue.Masks, Queue.Lists, Queue.Pends, Queue.Wire;
    }

    ghost method Account(desc: Desc, cmd: Command, a: Log)
      requires Masks(used) && Commands(used, a) && LogOk(a) && held == {cmd.cid} && cmd.cid !in who
      requires desc in used && cmd.cid in desc.own
      modifies this`who, this`held, desc`mine
      ensures who == old(who)[cmd.cid := |a.sub|] && held == {} && desc.mine == old(desc.mine) + {|a.sub|}
      ensures Masks(used) && Commands(used, a.(sub := a.sub + [cmd]))
    {
      hide Tracks, Accounts, LogOk, CountsOf;
      var b := a.(sub := a.sub + [cmd]);
      Consumable(a);
      assert owner[cmd.cid] == desc;
      TracksSubmit(who, a, cmd);
      CountSubmit(cidmask, cidcount, owner, who, size, cmd.cid, |a.sub|);
      who, held := who[cmd.cid := |a.sub|], {};
      desc.mine := desc.mine + {|a.sub|};
      forall d | d in used ensures Accounts(b, d.mine, d.own, d.error) {
        AccountsSubmit(a, cmd, old(d.mine), d.own, d.error);
      }
    }

    lemma WireIs(log: Log, words: seq<int>)
      requires WireWith(bufs, who, log, words)
      ensures Wire(who, log, words)
    {
    }

    lemma WireSubmit(a: Log, words: seq<int>, cmd: Command, b: Buf)
      requires Wire(who, a, words) && nvmeq.g.wpp > 0 && PreparedOne(nvmeq.g, nvmeq.l, words, cmd.cid, cmd, b)
      ensures WireWith(bufs + [b], who[cmd.cid := |a.sub|], a.(sub := a.sub + [cmd]), words)
    {
    }

    /** A buffer for one read or write command: its list fits one page. */
    ghost predicate ForOneCommand(addr: int, len: nat) {
      nvmeq.g.wpp > 0 && addr >= 0 && FitsListPage(nvmeq.g, len)
    }

    /** The log after one more command, with at most one completion taken to make room for it. */
    ghost predicate Submitted(a: Log, m: Machine, count: int, bs: seq<Buf>, cmd: Command, b: Buf)
      requires nvmeq.l.page > 0
      reads nvmeq, this`bufs
    {
      && Led(nvmeq.l, a, m, nvmeq.log, nvmeq.machine)
      && nvmeq.log.sub == a.sub + [cmd] && bufs == bs + [b]
      && nvmeq.log.consumed == a.consumed + (if count + 1 == size then 1 else 0)
      && ConsumedBelow(nvmeq.log, |a.sub|)
    }

    /** The call gave up: nothing was submitted or consumed, the queue is full and nothing is posted. */
    ghost predicate GaveUp(a: Log, m: Machine, bs: seq<Buf>)
      requires nvmeq.l.page > 0
      reads nvmeq, this`bufs
    {
      && Led(nvmeq.l, a, m, nvmeq.log, nvmeq.machine)
      && nvmeq.log.sub == a.sub && nvmeq.log.consumed == a.consumed && bufs == bs
      && NothingPosted(nvmeq.log) && |nvmeq.log.sub| - nvmeq.log.consumed + 1 == size
    }

    lemma IsGivenUp(a: Log, m: Machine, bs: seq<Buf>)
      requires nvmeq.l.page > 0 && Led(nvmeq.l, a, m, nvmeq.log, nvmeq.machine)
      requires nvmeq.log.sub == a.sub && nvmeq.log.consumed == a.consumed && bufs == bs
      requires NothingPosted(nvmeq.log) && |nvmeq.log.sub| - nvmeq.log.consumed + 1 == size
      ensures GaveUp(a, m, bs)
    {
    }

    /** Submit one read or write for the descriptor last in the list. */
    method SubmitIo(desc: Desc, nsid: int, buf: int, slba: nat, nlb: nat) returns (ok: bool, c: nat, ghost p: Prps)
      requires Valid() && held == {} && IsLast(desc) && nlb > 0
      requires ForOneCommand(buf, nlb * nvmeq.l.block)
      modifies this`cidcount, this`cid, this`cidmask, this`owner, this`who, this`held, this`descpend, this`pend, this`bufs
      modifies used`error, used`cidcount, used`cidmask, used`own, desc`mine
      modifies nvmeq, nvmeq.cq, nvmeq.sq, nvmeq.list
      ensures Valid() && held == {} && nvmeq.l.page > 0
      ensures !ok ==> old(cidcount) + 1 == size && GaveUp(old(nvmeq.log), old(nvmeq.machine), old(bufs))
      ensures ok ==> Submitted(old(nvmeq.log), old(nvmeq.machine), old(cidcount), old(bufs),
                               Rw(desc.opc, c, nsid, slba, nlb - 1, p), Buf(buf, nlb * nvmeq.l.block))
      ensures desc.mine == old(desc.mine) + if ok then {|old(nvmeq.log).sub|} else {}
    {
      hide *;
      p := Prps(0, 0);
      PendingCount();
      ok, c := GetCid(desc);
      if !ok {
        IsGivenUp(old(nvmeq.log), old(nvmeq.machine), old(bufs));
        return;
      }
      var bufsz := nlb * nvmeq.l.block;
      FitsOneCommand(buf, bufsz);
      ListFits(c, bufsz);
      var prps := MapBuf(c, buf, bufsz);
      p := prps;
      var cmd := Rw(desc.opc, c, nsid, slba, nlb - 1, prps);
      ghost var b, n := nvmeq.log, nvmeq.machine;
      WindowHere();
      ReadyRw(cmd, Buf(buf, bufsz));
      InUse(desc);
      Send(desc, cmd, Buf(buf, bufsz));
      LedTwice(nvmeq.l, old(nvmeq.log), old(nvmeq.machine), b, n, nvmeq.log, nvmeq.machine);
      LedBelow(b, n);
      IsSubmitted(old(nvmeq.log), old(nvmeq.machine), old(cidcount), old(bufs), cmd, Buf(buf, bufsz));
    }

    lemma FitsOneCommand(addr: int, len: nat)
      requires ForOneCommand(addr, len)
      ensures nvmeq.g.wpp > 0 && FitsListPage(nvmeq.g, len)
    {
    }

    lemma InUse(desc: Desc)
      requires IsLast(desc)
      ensures desc in used
    {
    }

    lemma ReadyRw(cmd: Command, b: Buf)
      requires cmd.Rw? && ForOneCommand(b.addr, b.len) && b.len == (cmd.nlb0 + 1) * nvmeq.l.block
      requires nvmeq.g.wpp > 0 && Mapped(nvmeq.g, cmd.cid, b.addr, b.len, cmd.prps, nvmeq.list[..])
      ensures PreparedOne(nvmeq.g, nvmeq.l, nvmeq.list[..], cmd.cid, cmd, b)
    {
    }

    lemma LedBelow(b: Log, n: Machine)
      requires LogOk(b) && nvmeq.l.page > 0 && Led(nvmeq.l, b, n, nvmeq.log, nvmeq.machine)
      requires nvmeq.log.consumed == b.consumed
      ensures ConsumedBelow(nvmeq.log, |b.sub|)
    {
      hide Replay, LogOk;
      BelowSubmissions(b, nvmeq.log);
    }

    lemma IsSubmitted(a: Log, m: Machine, count: int, bs: seq<Buf>, cmd: Command, b: Buf)
      requires nvmeq.l.page > 0 && Led(nvmeq.l, a, m, nvmeq.log, nvmeq.machine)
      requires nvmeq.log.sub == a.sub + [cmd] && bufs == bs + [b]
      requires nvmeq.log.consumed == a.consumed + if count + 1 == size then 1 else 0
      requires ConsumedBelow(nvmeq.log, |a.sub|)
      ensures Submitted(a, m, count, bs, cmd, b)
    {
    }

    /** Get a descriptor and submit a generic or vendor command for it. */
    method DoCmd(qid: int, opc: int, nsid: int, buf: int, bufsz: nat, cdw: seq<int>)
      returns (ok: bool, desc: Desc, ghost c: nat, ghost p: Prps)
      requires Valid() && held == {} && FitsListPage(nvmeq.g, bufsz)
      modifies this, used, free, nvmeq, nvmeq.cq, nvmeq.sq, nvmeq.list
      ensures Valid() && held == {} && nvmeq.l.page > 0
      ensures used == old(used) + [desc] && (if old(free) != [] then desc == old(free)[0] && free == old(free)[1..]
                                             else fresh(desc) && free == [])
      ensures desc.sentinel == desc && desc.opc == opc && desc.buf == buf && desc.qid == qid
      ensures desc.mine == if ok then {|old(nvmeq.log).sub|} else {}
      ensures !ok ==> old(cidcount) + 1 == size && GaveUp(old(nvmeq.log), old(nvmeq.machine), old(bufs))
      ensures ok ==> Submitted(old(nvmeq.log), old(nvmeq.machine), old(cidcount), old(bufs),
                               Vendor(opc, c, nsid, p, cdw), Buf(buf, bufsz))
    {
      hide *;
      desc := DescGet();
      LastIs(desc);
      Fill(desc, opc, buf, qid, desc.slba, desc.nlb);
      ok, c, p := SubmitVendor(desc, opc, nsid, buf, bufsz, cdw);
    }

    method SubmitVendor(desc: Desc, opc: int, nsid: int, buf: int, bufsz: nat, cdw: seq<int>)
      returns (ok: bool, ghost c: nat, ghost p: Prps)
      requires Valid() && held == {} && IsLast(desc) && FitsListPage(nvmeq.g, bufsz)
      modifies this`cidcount, this`cid, this`cidmask, this`owner, this`who, this`held, this`descpend, this`pend, this`bufs
      modifies used`error, used`cidcount, used`cidmask, used`own, desc`mine
      modifies nvmeq, nvmeq.cq, nvmeq.sq, nvmeq.list
      ensures Valid() && held == {} && nvmeq.l.page > 0
      ensures !ok ==> old(cidcount) + 1 == size && GaveUp(old(nvmeq.log), old(nvmeq.machine), old(bufs))
      ensures ok ==> Submitted(old(nvmeq.log), old(nvmeq.machine), old(cidcount), old(bufs),
                               Vendor(opc, c, nsid, p, cdw), Buf(buf, bufsz))
      ensures desc.mine == old(desc.mine) + if ok then {|old(nvmeq.log).sub|} else {}
    {
      hide *;
      p := Prps(0, 0);
      var cid: nat;
      PendingCount();
      ok, cid := GetCid(desc);
      c := cid;
      if !ok {
        IsGivenUp(old(nvmeq.log), old(nvmeq.machine), old(bufs));
        return;
      }
      ListFits(cid, bufsz);
      var prps := MapBuf(cid, buf, bufsz);
      p := prps;
      var cmd := Vendor(opc, cid, nsid, prps, cdw);
      ghost var b, n := nvmeq.log, nvmeq.machine;
      WindowHere();
      ReadyVendor(cmd, Buf(buf, bufsz));
      InUse(desc);
      Send(desc, cmd, Buf(buf, bufsz));
      LedTwice(nvmeq.l, old(nvmeq.log), old(nvmeq.machine), b, n, nvmeq.log, nvmeq.machine);
      LedBelow(b, n);
      IsSubmitted(old(nvmeq.log), old(nvmeq.machine), old(cidcount), old(bufs), cmd, Buf(buf, bufsz));
    }

    /** Record a request in its descriptor. */
    method Fill(desc: Desc, opc: int, buf: int, qid: int, slba: nat, nlb: nat)
      requires Valid()
      modifies desc`opc, desc`buf, desc`qid, desc`slba, desc`nlb, desc`sentinel
      ensures Valid() && desc.opc == opc && desc.buf == buf && desc.qid == qid && desc.slba == slba && desc.nlb == nlb
      ensures desc.sentinel == desc
    {
      hide NvmeQueue.Valid, Queue.Wire, Queue.Masks, Queue.Commands, Queue.Lists, Queue.Pends, Queue.Sizes;
      desc.opc, desc.buf, desc.qid, desc.slba, desc.nlb := opc, buf, qid, slba, nlb;
      desc.sentinel := desc;
    }

    lemma LastIs(desc: Desc)
      requires used != [] && used[|used| - 1] == desc
      ensures IsLast(desc)
    {
    }

    lemma ReadyVendor(cmd: Command, b: Buf)
      requires cmd.Vendor? && nvmeq.g.wpp > 0 && FitsListPage(nvmeq.g, b.len)
      requires Mapped(nvmeq.g, cmd.cid, b.addr, b.len, cmd.prps, nvmeq.list[..])
      ensures PreparedOne(nvmeq.g, nvmeq.l, nvmeq.list[..], cmd.cid, cmd, b)
    {
    }

    // ----- polling

    lemma DrainStep(from: nat, b: Log, n: Machine, err: int, cs: int, owned: map<nat, Desc>, was: map<nat, nat>, desc: Desc)
      requires Valid() && nvmeq.l.page > 0 && Led(nvmeq.l, b, n, nvmeq.log, nvmeq.machine) && Polled(from, b, 0)
      requires err == -1 ==> nvmeq.log.consumed == b.consumed && owner == owned
      requires err != -1 ==> Settled(b, nvmeq.log, err, cs, owned, was)
      requires Booked(owned, was, desc) && IdsOf(owned, desc) != {} && desc.own == IdsOf(owner, desc)
      ensures Polled(from, nvmeq.log, err) && (err != -1 ==> LastResult(from, nvmeq.log, cs))
      ensures err == -1 ==> forall r :: LastResult(from, b, r) ==> LastResult(from, nvmeq.log, r)
      ensures err != -1 ==> b.consumed < nvmeq.log.consumed <= |nvmeq.log.sub|
      ensures desc.own == {} ==> LastOf(from, nvmeq.log, desc.mine)
    {
      hide Queue.Valid, LogOk, Replay;
      WindowHere();
      Consumable(nvmeq.log);
      assert forall k :: 0 <= k < b.consumed ==> nvmeq.log.posted[k] == b.posted[k];
    }

    /** The pending commands of desc are among its submissions. */
    ghost predicate Booked(owned: map<nat, Desc>, was: map<nat, nat>, desc: Desc)
      reads desc`mine
    {
      forall c <- was :: c in owned && (owned[c] == desc ==> was[c] in desc.mine)
    }

    lemma BookedNow(desc: Desc)
      requires Valid()
      ensures Booked(owner, who, desc)
    {
      hide Queue.Lists, Queue.Masks, Queue.Pends, Queue.Wire, NvmeQueue.Valid, Tracks, Accounts;
    }

    lemma OwnCount(desc: Desc)
      requires Valid() && desc in used
      ensures desc.own == IdsOf(owner, desc) && desc.cidcount == |desc.own|
    {
      hide Queue.Lists, Queue.Commands, Queue.Pends, Queue.Wire, NvmeQueue.Valid, IdsOf;
    }

    /** Process completions of the queue, of whichever descriptor, until the given one has no
        pending command, there is an error, or time is up.  If it has nothing pending at the call
        nothing is consumed; if it has nothing pending in the end, the completion consumed last is
        one of its own. */
    method Drain(desc: Desc, timeout: nat) returns (err: int, cs: int)
      requires Valid() && held == {} && desc in used
      modifies this`cidcount, this`cid, this`cidmask, this`owner, this`who, this`descpend, this`pend
      modifies used`error, used`cidcount, used`cidmask, used`own, nvmeq, nvmeq.cq
      ensures Valid() && held == {} && nvmeq.l.page > 0 && nvmeq.log.sub == old(nvmeq.log).sub
      ensures Led(nvmeq.l, old(nvmeq.log), old(nvmeq.machine), nvmeq.log, nvmeq.machine)
      ensures Polled(old(nvmeq.log).consumed, nvmeq.log, err) && LastResult(old(nvmeq.log).consumed, nvmeq.log, cs)
      ensures old(desc.own) == {} ==> err == 0 && nvmeq.log == old(nvmeq.log)
      ensures desc.own == {} ==> LastOf(old(nvmeq.log).consumed, nvmeq.log, desc.mine)
      ensures err == 0 ==> desc.own == {}
      ensures err == -1 ==> desc.own != {} && NothingPosted(nvmeq.log) && nvmeq.looks > old(nvmeq.looks)
      ensures desc.cidcount == |desc.own|
    {
      hide *;
      StartLed();
      WindowHere();
      PolledNone(nvmeq.log, desc.mine);
      OwnCount(desc);
      ghost var a, m, before := nvmeq.log, nvmeq.machine, nvmeq.looks;
      err, cs := 0, 0;
      while desc.cidcount != 0
        invariant Valid() && held == {} && used == old(used) && nvmeq.l.page > 0 && nvmeq.log.sub == a.sub
        invariant Led(nvmeq.l, a, m, nvmeq.log, nvmeq.machine)
        invariant err == 0 && Polled(a.consumed, nvmeq.log, 0) && LastResult(a.consumed, nvmeq.log, cs)
        invariant desc.own == {} ==> LastOf(a.consumed, nvmeq.log, desc.mine)
        invariant old(desc.own) == {} ==> desc.own == {} && nvmeq.log == a
        invariant desc.cidcount == |desc.own| && nvmeq.looks >= before
        decreases |nvmeq.log.sub| - nvmeq.log.consumed
      {
        ghost var b, n, owned, was := nvmeq.log, nvmeq.machine, owner, who;
        OwnCount(desc);
        BookedNow(desc);
        var r;
        err, r := CheckCompletion(timeout);
        OwnCount(desc);
        LedTwice(nvmeq.l, a, m, b, n, nvmeq.log, nvmeq.machine);
        DrainStep(a.consumed, b, n, err, r, owned, was, desc);
        if err != -1 {
          cs := r;
        }
        if err != 0 {
          break;
        }
      }
    }

    lemma PolledNone(log: Log, mine: set<nat>)
      requires log.consumed <= |log.posted|
      ensures Polled(log.consumed, log, 0) && LastOf(log.consumed, log, mine)
      ensures forall cs :: LastResult(log.consumed, log, cs)
    {
    }

    /** Wait until a request has completed.  Its descriptor is released when it has no pending
        command left, whatever the result: then its error field is 0 exactly when all its commands
        succeeded, which the result alone does not tell.  No completion is consumed after the last
        of its own, so the result is then the status of that one. */
    method DoPoll(desc: Desc, timeout: nat) returns (err: int, cs: int)
      requires Valid() && held == {} && desc in used && desc.sentinel == desc
      modifies this, used`error, used`cidcount, used`cidmask, used`own, used`next, used`prev, free`next, free`prev
      modifies nvmeq, nvmeq.cq
      ensures Valid() && held == {} && nvmeq.l.page > 0 && nvmeq.log.sub == old(nvmeq.log).sub
      ensures bufs == old(bufs)
      ensures Led(nvmeq.l, old(nvmeq.log), old(nvmeq.machine), nvmeq.log, nvmeq.machine)
      ensures Polled(old(nvmeq.log).consumed, nvmeq.log, err) && LastResult(old(nvmeq.log).consumed, nvmeq.log, cs)
      ensures old(desc.own) == {} ==> err == 0 && nvmeq.log == old(nvmeq.log)
      ensures desc.own == {} ==> LastOf(old(nvmeq.log).consumed, nvmeq.log, desc.mine)
      ensures err == 0 ==> desc.own == {}
      ensures err == -1 ==> desc.own != {} && NothingPosted(nvmeq.log) && nvmeq.looks > old(nvmeq.looks)
      ensures if desc.own == {} then Released(desc, old(used), old(free)) && Complete(desc)
              else used == old(used) && free == old(free)
    {
      hide *;
      err, cs := Drain(desc, timeout);
      OwnCount(desc);
      CompleteIs(desc);
      if desc.cidcount == 0 {
        ghost var k: nat := Position(desc);
        DescPut(desc, k);
        ReleasedIs(desc, old(used), old(free), k);
      }
    }

    // ----- generic commands

    /** The completion consumed last is that of submission n, with this status and result. */
    ghost predicate Finished(n: nat, err: int, cs: int)
      reads nvmeq`log
    {
      && 0 < nvmeq.log.consumed <= |nvmeq.log.posted|
      && (var e := nvmeq.log.posted[nvmeq.log.consumed - 1]; e.idx == n && err == e.stat && cs == e.cs)
    }

    /** Submit a generic command and wait for it.  Once its descriptor is released, status and result
        are those of the command itself, whatever else is pending; with nothing else pending it is
        released unless time is up.  While it is not, the status is -1 or that of a failed command
        of another descriptor. */
    method Cmd(qid: int, opc: int, nsid: int, buf: int, bufsz: nat, cdw: seq<int>)
      returns (ok: bool, err: int, cs: int, desc: Desc, ghost c: nat, ghost p: Prps)
      requires Valid() && held == {} && FitsListPage(nvmeq.g, bufsz)
      modifies this, used, free, nvmeq, nvmeq.cq, nvmeq.sq, nvmeq.list
      ensures Valid() && held == {} && nvmeq.l.page > 0
      ensures !ok ==> old(cidcount) + 1 == size && GaveUp(old(nvmeq.log), old(nvmeq.machine), old(bufs))
      ensures ok ==> nvmeq.log.sub == old(nvmeq.log).sub + [Vendor(opc, c, nsid, p, cdw)] && bufs == old(bufs) + [Buf(buf, bufsz)]
      ensures ok ==> Led(nvmeq.l, old(nvmeq.log), old(nvmeq.machine), nvmeq.log, nvmeq.machine)
      ensures ok ==> Polled(old(nvmeq.log).consumed + if old(cidcount) + 1 == size then 1 else 0, nvmeq.log, err)
      ensures ok && desc.own == {} ==> Finished(|old(nvmeq.log).sub|, err, cs)
      ensures ok && err == 0 ==> desc.own == {}
      ensures ok && err == -1 ==> desc.own != {} && NothingPosted(nvmeq.log) && nvmeq.looks > 0
      ensures ok && old(cidcount) == 0 ==> (desc.own == {} <==> err != -1)
      ensures ok ==> if desc.own == {} then used == old(used) && free == old(free)[if old(free) == [] then 0 else 1..] + [desc]
                     else used == old(used) + [desc] && free == old(free)[if old(free) == [] then 0 else 1..]
    {
      hide *;
      PendingCount();
      err, cs := -1, 0;
      ok, desc, c, p := DoCmd(qid, opc, nsid, buf, bufsz, cdw);
      if !ok {
        return;
      }
      ghost var b, m, n := nvmeq.log, nvmeq.machine, |old(nvmeq.log).sub|;
      ghost var cmd := Vendor(opc, c, nsid, p, cdw);
      SubmittedFacts(old(nvmeq.log), old(nvmeq.machine), old(cidcount), old(bufs), cmd, Buf(buf, bufsz));
      PendingCount();
      InUsed(desc, old(used));
      WindowHere();
      PendingOne(desc, n);
      err, cs := DoPoll(desc, UNVME_TIMEOUT);
      LedTwice(nvmeq.l, old(nvmeq.log), old(nvmeq.machine), b, m, nvmeq.log, nvmeq.machine);
      if desc.own == {} {
        FinishedNow(desc, n, b, m, err, cs);
        ReleasedLast(desc, old(used), old(free)[if old(free) == [] then 0 else 1..]);
      } else {
        StillPending(desc);
        PolledMore(b.consumed, nvmeq.log, err);
      }
    }

    lemma SubmittedFacts(a: Log, m: Machine, count: int, bs: seq<Buf>, cmd: Command, b: Buf)
      requires nvmeq.l.page > 0 && Submitted(a, m, count, bs, cmd, b)
      ensures Led(nvmeq.l, a, m, nvmeq.log, nvmeq.machine) && nvmeq.log.sub == a.sub + [cmd] && bufs == bs + [b]
      ensures nvmeq.log.consumed == a.consumed + (if count + 1 == size then 1 else 0)
      ensures ConsumedBelow(nvmeq.log, |a.sub|)
    {
    }

    lemma InUsed(desc: Desc, before: seq<Desc>)
      requires Valid() && used == before + [desc]
      ensures desc in used && NoDuplicates(before + [desc])
    {
      hide *;
      Unpack();
      Apart(used, free);
    }

    /** A descriptor with a submission not consumed yet has a pending command. */
    lemma PendingOne(desc: Desc, n: nat)
      requires Valid() && held == {} && desc in used && n in desc.mine && n < |nvmeq.log.sub|
      requires ConsumedBelow(nvmeq.log, n)
      ensures desc.own != {} && nvmeq.log.consumed <= |nvmeq.log.posted| && !IsConsumed(nvmeq.log, n)
    {
      hide Queue.Lists, Queue.Masks, Queue.Pends, Queue.Wire, NvmeQueue.Valid, Tracks, AllOk;
      WindowHere();
      assert Accounts(nvmeq.log, desc.mine, desc.own, desc.error);
    }

    lemma StillPending(desc: Desc)
      requires Valid() && held == {} && desc in used && desc.own != {}
      ensures nvmeq.log.consumed < |nvmeq.log.sub|
    {
      hide *;
      PendingCount();
      OwnCount(desc);
      OwnerNotEmpty(owner, desc);
    }

    lemma FinishedNow(desc: Desc, n: nat, b: Log, m: Machine, err: int, cs: int)
      requires nvmeq.l.page > 0 && Led(nvmeq.l, b, m, nvmeq.log, nvmeq.machine)
      requires b.consumed <= |b.posted| && ConsumedBelow(b, n)
      requires Complete(desc) && desc.mine == {n} && Polled(b.consumed, nvmeq.log, err) && err != -1
      requires LastOf(b.consumed, nvmeq.log, desc.mine) && LastResult(b.consumed, nvmeq.log, cs)
      ensures Finished(n, err, cs)
    {
      hide Replay;
      assert n in desc.mine;
    }

    lemma PolledMore(from: nat, log: Log, err: int)
      requires Polled(from, log, err)
      ensures err != 0 && err != -1 ==> from < log.consumed
    {
    }

    ghost predicate Released(desc: Desc, u: seq<Desc>, f: seq<Desc>)
      reads this`used, this`free
    {
      && free == f + [desc]
      && exists k: nat :: k < |u| && u[k] == desc && used == Removed(u, k)
    }

    /** All commands of the descriptor have completed, and its error field says how. */
    ghost predicate Complete(desc: Desc)
      reads desc`mine, desc`error, nvmeq`log
    {
      && nvmeq.log.consumed <= |nvmeq.log.posted|
      && (forall n <- desc.mine :: IsConsumed(nvmeq.log, n))
      && (desc.error == 0 <==> AllOk(nvmeq.log, desc.mine))
    }

    lemma CompleteIs(desc: Desc)
      requires Valid() && desc in used
      ensures desc.own == {} ==> Complete(desc)
    {
      hide Queue.Lists, Queue.Masks, Queue.Pends, Queue.Wire, NvmeQueue.Valid, Tracks, IsConsumed, AllOk;
      WindowHere();
      assert Accounts(nvmeq.log, desc.mine, desc.own, desc.error);
    }

    lemma Position(desc: Desc) returns (k: nat)
      requires desc in used
      ensures k < |used| && used[k] == desc
    {
      k :| k < |used| && used[k] == desc;
    }

    /** The last descriptor of the list leaves the list as it was before. */
    lemma ReleasedLast(desc: Desc, u: seq<Desc>, f: seq<Desc>)
      requires Released(desc, u + [desc], f) && NoDuplicates(u + [desc])
      ensures used == u && free == f + [desc]
    {
      var s := u + [desc];
      var k: nat :| k < |s| && s[k] == desc && used == Removed(s, k);
      assert s[|u|] == desc;
    }

    lemma ReleasedIs(desc: Desc, u: seq<Desc>, f: seq<Desc>, k: nat)
      requires k < |u| && u[k] == desc && used == Removed(u, k) && free == f + [desc]
      ensures Released(desc, u, f)
    {
    }
  }
}
