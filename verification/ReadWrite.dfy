/** Reads and writes of any size on a queue, and their refinement of one memcpy. */
module ReadWrite {
  import opened Ring
  import opened Prp
  import opened Transfers
  import opened DescLists
  import opened NvmeQueues
  import opened Pending
  import opened QueueEngine
  import opened Chunking
  import opened Refinement

  /** The limit on blocks per command suits the page size: a full command ends on a page boundary
      and its list fits one page. */
  ghost predicate Suits(g: Geometry, block: nat, max: nat) {
    && g.wpp > 0 && max > 0
    && max * block % g.PageSize() == 0 && FitsListPage(g, max * block)
  }

  lemma FewerFit(g: Geometry, block: nat, max: nat, n: nat)
    requires g.wpp > 0 && FitsListPage(g, max * block) && n <= max
    ensures FitsListPage(g, n * block)
  {
    hide Pages;
    Distribute(n, max - n, block);
    PagesMonotone(g.PageSize(), n * block, max * block);
  }

  lemma PagesMonotone(size: nat, a: nat, b: nat)
    requires size > 0 && a <= b
    ensures Pages(size, a) <= Pages(size, b)
  {
    Quotients(size, (a + size - 1) / size, (a + size - 1) % size, (b + size - 1) / size, (b + size - 1) % size);
  }

  lemma Quotients(size: nat, x: int, r: nat, y: int, s: nat)
    requires size > 0 && s < size && size * x + r <= size * y + s
    ensures x <= y
  {
    assert size * (x - y) == size * x - size * y;
    Scaled(size, x - y);
  }

  /** What matters of a queue to a request: its log and buffers, the machine, and the words of the
      PRP list area. */
  datatype Snapshot = Snapshot(log: Log, machine: Machine, bufs: seq<Buf>, words: seq<int>)

  ghost function Now(q: Queue): Snapshot
    reads q`bufs, q.nvmeq`log, q.nvmeq`machine, q.nvmeq.list
  {
    Snapshot(q.nvmeq.log, q.nvmeq.machine, q.bufs, q.nvmeq.list[..])
  }

  lemma NowIs(q: Queue)
    ensures Now(q).log == q.nvmeq.log && Now(q).machine == q.nvmeq.machine && Now(q).bufs == q.bufs
    ensures Now(q).words == q.nvmeq.list[..]
  {
  }

  /** How far completions have been consumed when there are n submissions. */
  function Room(size: nat, a: Log, n: nat): nat {
    if n + 1 > a.consumed + size then n + 1 - size else a.consumed
  }

  /** From s to e the commands of the given chunks were submitted, and completions were taken only
      to make room for them. */
  ghost predicate Requested(l: Layout, size: nat, s: Snapshot, e: Snapshot, cs: seq<Chunk>, opc: int, nsid: int) {
    && l.page > 0 && Led(l, s.log, s.machine, e.log, e.machine)
    && Issued(e.log.sub, e.bufs, |s.log.sub|, cs, opc, nsid, l.block) && s.bufs <= e.bufs
    && |e.log.sub| == |s.log.sub| + |cs| && e.log.consumed == Room(size, s.log, |e.log.sub|)
    && (cs != [] ==> ConsumedBelow(e.log, |e.log.sub| - 1)) && e.log.consumed <= |e.log.posted|
  }

  lemma NothingRequested(q: Queue, opc: int, nsid: int)
    requires q.Valid()
    ensures Requested(q.nvmeq.l, q.size, Now(q), Now(q), [], opc, nsid)
  {
    hide Queue.Valid, Led;
    q.StartLed();
    q.WindowHere();
    BufsCount(q);
    WindowOf(q);
  }

  lemma WindowOf(q: Queue)
    requires q.Valid()
    ensures |q.nvmeq.log.sub| - q.nvmeq.log.consumed < q.size
  {
    hide Queue.Lists, Queue.Masks, Queue.Pends, Queue.Commands, Queue.Wire, LogOk;
  }

  lemma BufsCount(q: Queue)
    requires q.Valid()
    ensures |q.bufs| == |q.nvmeq.log.sub|
  {
    hide Queue.Lists, Queue.Masks, Queue.Pends, Queue.Commands, NvmeQueue.Valid, PreparedOne, Described;
  }

  /** One more command extends the request; a completion is taken first if size - 1 are pending. */
  lemma RequestMore(l: Layout, size: nat, s: Snapshot, e: Snapshot, t: Snapshot, cs: seq<Chunk>, opc: int, nsid: int,
                    cmd: Command, buf: Buf, c: Chunk)
    requires Requested(l, size, s, e, cs, opc, nsid) && Led(l, e.log, e.machine, t.log, t.machine)
    requires t.log.sub == e.log.sub + [cmd] && t.bufs == e.bufs + [buf] && IssuedOne(cmd, buf, c, opc, nsid, l.block)
    requires size > 0 && t.log.consumed == e.log.consumed + (if |e.log.sub| - e.log.consumed + 1 == size then 1 else 0)
    requires ConsumedBelow(t.log, |e.log.sub|) && t.log.consumed <= |t.log.posted|
    ensures Requested(l, size, s, t, cs + [c], opc, nsid)
    ensures |t.log.sub| == |e.log.sub| + 1
  {
    hide Issued, IssuedOne, Replay, ConsumedBelow;
    LedTwice(l, s.log, s.machine, e.log, e.machine, t.log, t.machine);
    assert |e.log.sub| == |s.log.sub| + |cs|;
    IssuedMore(e.log.sub, e.bufs, |s.log.sub|, cs, opc, nsid, l.block, cmd, buf, c);
  }

  lemma SubmittedIs(q: Queue, e: Snapshot, count: int, cmd: Command, buf: Buf)
    requires q.nvmeq.l.page > 0 && q.Submitted(e.log, e.machine, count, e.bufs, cmd, buf)
    ensures var t := Now(q);
            && Led(q.nvmeq.l, e.log, e.machine, t.log, t.machine)
            && t.log.sub == e.log.sub + [cmd] && t.bufs == e.bufs + [buf]
            && t.log.consumed == e.log.consumed + (if count + 1 == q.size then 1 else 0)
            && ConsumedBelow(t.log, |e.log.sub|)
  {
    hide Led, ConsumedBelow;
  }

  lemma SuitsMax(g: Geometry, block: nat, max: nat)
    requires Suits(g, block, max)
    ensures max > 0 && g.wpp > 0 && g.PageSize() > 0
  {
  }

  lemma ChunkForOneCommand(q: Queue, addr: int, max: nat, n: nat)
    requires Suits(q.nvmeq.g, q.nvmeq.l.block, max) && n <= max && addr >= 0
    ensures q.ForOneCommand(addr, n * q.nvmeq.l.block)
  {
    hide FitsListPage;
    FewerFit(q.nvmeq.g, q.nvmeq.l.block, max, n);
  }

  lemma ThisIssued(cmd: Command, c: Chunk, block: nat)
    requires cmd.Rw? && cmd.slba == c.slba && cmd.nlb0 + 1 == c.nlb
    ensures IssuedOne(cmd, BufOf(c, block), c, cmd.opc, cmd.nsid, block)
  {
  }

  /** What is left of a buffer after a chunk is described correctly again: a full chunk ends on a
      page boundary, and a buffer inside one page is never cut. */
  lemma StaysDescribable(g: Geometry, addr: int, max: nat, block: nat, n: nat, left: nat)
    requires Suits(g, block, max) && addr >= 0 && Describable(g, addr, left * block)
    requires n == if max > left then left else max
    ensures addr + n * block >= 0 && Describable(g, addr + n * block, (left - n) * block)
  {
    hide FitsListPage, Geometry.PageSize;
    SuitsMax(g, block, max);
    var s := g.PageSize();
    Distribute(n, left - n, block);
    if n == max {
      if addr % s == 0 {
        BothMultiples(addr, n * block, s);
      } else {
        NoMultipleBelow(n * block, s);
      }
    }
  }

  lemma NoMultipleBelow(a: nat, s: nat)
    requires a < s && a % s == 0
    ensures a == 0
  {
  }

  lemma BothMultiples(a: int, b: int, s: nat)
    requires s > 0 && a % s == 0 && b % s == 0
    ensures (a + b) % s == 0
  {
    PlusMultiple(a, s, b / s);
  }

  /** A command of a request that entries describe correctly, in one list page. */
  ghost predicate ChunkOk(g: Geometry, l: Layout, c: Chunk) {
    && g.wpp > 0 && c.nlb > 0 && c.addr >= 0
    && Describable(g, c.addr, c.nlb * l.block) && FitsListPage(g, c.nlb * l.block)
  }

  /** If entries can describe a buffer then the commands of a request describe all parts of it. */
  lemma {:induction false} ChunksOk(g: Geometry, l: Layout, slba: nat, nlb: nat, addr: int, max: nat)
    requires Suits(g, l.block, max) && addr >= 0 && Describable(g, addr, nlb * l.block)
    ensures max > 0 && forall c :: c in Chunks(slba, nlb, addr, max, l.block) ==> ChunkOk(g, l, c)
    decreases nlb
  {
    hide Describable, FitsListPage;
    SuitsMax(g, l.block, max);
    if nlb > 0 {
      var n := if max > nlb then nlb else max;
      StaysDescribable(g, addr, max, l.block, n, nlb);
      ShorterDescribable(g, addr, n, nlb, l.block);
      FewerFit(g, l.block, max, n);
      ChunksOk(g, l, slba + n, nlb - n, addr + n * l.block, max);
    }
  }

  lemma ShorterDescribable(g: Geometry, addr: int, n: nat, left: nat, block: nat)
    requires g.wpp > 0 && n <= left && Describable(g, addr, left * block)
    ensures Describable(g, addr, n * block)
  {
    Distribute(n, left - n, block);
  }

  lemma ChunksStep(slba: nat, nlb: nat, addr: int, max: nat, block: nat, done: seq<Chunk>, c: Chunk)
    requires max > 0 && nlb > 0
    requires c == Chunk(slba, if max > nlb then nlb else max, addr)
    ensures |Chunks(slba, nlb, addr, max, block)| >= 1
    ensures done + Chunks(slba, nlb, addr, max, block)
            == done + [c] + Chunks(slba + c.nlb, nlb - c.nlb, addr + c.nlb * block, max, block)
  {
  }

  lemma Grown(l: Layout, size: nat, s: Snapshot, e: Snapshot, cs: seq<Chunk>, opc: int, nsid: int)
    requires Requested(l, size, s, e, cs, opc, nsid)
    ensures |e.log.sub| >= |s.log.sub|
  {
  }

  /** With size - 1 commands pending the request and what was pending before fill the queue. */
  lemma FullWhen(l: Layout, size: nat, s: Snapshot, e: Snapshot, cs: seq<Chunk>, opc: int, nsid: int)
    requires Requested(l, size, s, e, cs, opc, nsid)
    ensures |e.log.sub| - e.log.consumed + 1 == size ==> |s.log.sub| + |cs| + 1 >= s.log.consumed + size
  {
    hide Led, Issued;
  }

  lemma ChunksDone(slba: nat, addr: int, max: nat, block: nat, done: seq<Chunk>)
    requires max > 0
    ensures done + Chunks(slba, 0, addr, max, block) == done
  {
  }

  /** A request whose commands for the chunks cs have been submitted through desc. */
  ghost predicate InProgress(q: Queue, desc: Desc, s: Snapshot, cs: seq<Chunk>, opc: int, nsid: int)
    reads q, q.used, q.free, q.nvmeq, q.nvmeq.sq, q.nvmeq.cq, q.nvmeq.list, desc
  {
    && q.Valid() && q.held == {} && q.IsLast(desc) && desc.sentinel == desc && desc.opc == opc
    && Requested(q.nvmeq.l, q.size, s, Now(q), cs, opc, nsid)
    && forall n: nat :: n in desc.mine <==> |s.log.sub| <= n < |q.nvmeq.log.sub|
  }

  /** The commands for a proper part of the chunks cs, from the first on, have been submitted, and
      the queue is full with no completion posted. */
  ghost predicate Stuck(q: Queue, desc: Desc, s: Snapshot, cs: seq<Chunk>, opc: int, nsid: int)
    reads q, q.used, q.free, q.nvmeq, q.nvmeq.sq, q.nvmeq.cq, q.nvmeq.list, desc
  {
    && |s.log.sub| <= |q.nvmeq.log.sub| < |s.log.sub| + |cs|
    && InProgress(q, desc, s, cs[..|q.nvmeq.log.sub| - |s.log.sub|], opc, nsid)
    && IsFull(q) && NothingPosted(q.nvmeq.log)
  }

  ghost predicate IsFull(q: Queue)
    reads q.nvmeq`log
  {
    |q.nvmeq.log.sub| - q.nvmeq.log.consumed + 1 == q.size
  }

  lemma StuckNow(q: Queue, desc: Desc, s: Snapshot, cs: seq<Chunk>, done: seq<Chunk>, rest: seq<Chunk>, opc: int, nsid: int)
    requires InProgress(q, desc, s, done, opc, nsid) && cs == done + rest && rest != []
    requires IsFull(q) && NothingPosted(q.nvmeq.log)
    ensures Stuck(q, desc, s, cs, opc, nsid)
  {
    hide Queue.Valid, Led, Issued;
    NowIs(q);
    assert cs[..|done|] == done;
  }

  /** Giving up leaves the request as it was. */
  lemma StillRequested(q: Queue, s: Snapshot, e: Snapshot, cs: seq<Chunk>, opc: int, nsid: int)
    requires Requested(q.nvmeq.l, q.size, s, e, cs, opc, nsid) && q.nvmeq.l.page > 0
    requires q.GaveUp(e.log, e.machine, e.bufs)
    ensures Requested(q.nvmeq.l, q.size, s, Now(q), cs, opc, nsid)
    ensures IsFull(q) && NothingPosted(q.nvmeq.log) && q.nvmeq.log.sub == e.log.sub
  {
    hide Issued, Replay;
    LedTwice(q.nvmeq.l, s.log, s.machine, e.log, e.machine, q.nvmeq.log, q.nvmeq.machine);
  }

  /** What the descriptor of a request says about it. */
  ghost predicate Recorded(desc: Desc, buf: int, qid: int, slba: nat, nlb: nat)
    reads desc`buf, desc`qid, desc`slba, desc`nlb
  {
    desc.buf == buf && desc.qid == qid && desc.slba == slba && desc.nlb == nlb
  }

  method SubmitChunk(q: Queue, desc: Desc, opc: int, nsid: int, addr: int, lba: nat, n: nat,
                     ghost s: Snapshot, ghost done: seq<Chunk>)
    returns (ok: bool)
    requires n > 0 && q.ForOneCommand(addr, n * q.nvmeq.l.block)
    requires InProgress(q, desc, s, done, opc, nsid)
    modifies q`cidcount, q`cid, q`cidmask, q`owner, q`who, q`held, q`descpend, q`pend, q`bufs
    modifies q.used`error, q.used`cidcount, q.used`cidmask, q.used`own, desc`mine
    modifies q.nvmeq, q.nvmeq.cq, q.nvmeq.sq, q.nvmeq.list
    ensures InProgress(q, desc, s, if ok then done + [Chunk(lba, n, addr)] else done, opc, nsid)
    ensures !ok ==> |s.log.sub| + |done| + 1 >= s.log.consumed + q.size && IsFull(q) && NothingPosted(q.nvmeq.log)
  {
    hide IsFull, NothingPosted, Queue.GaveUp, Queue.Valid, Queue.Submitted, Queue.IsLast, Queue.ForOneCommand, Requested, IssuedOne;
    ghost var e, count, l := Now(q), q.cidcount, q.nvmeq.l;
    q.PendingCount();
    FullWhen(l, q.size, s, e, done, opc, nsid);
    var c: nat;
    ghost var p: Prps;
    ok, c, p := q.SubmitIo(desc, nsid, addr, lba, n);
    if ok {
      ghost var chunk, cmd := Chunk(lba, n, addr), Rw(opc, c, nsid, lba, n - 1, p);
      ThisIssued(cmd, chunk, l.block);
      q.WindowHere();
      SubmittedIs(q, e, count, cmd, Buf(addr, n * l.block));
      RequestMore(l, q.size, s, e, Now(q), done, opc, nsid, cmd, Buf(addr, n * l.block), chunk);
      Grown(l, q.size, s, e, done, opc, nsid);
    } else {
      StillRequested(q, s, e, done, opc, nsid);
    }
  }

  /** Submit a read or write of nlb blocks in as many commands as it takes. */
  method DoRw(q: Queue, nsid: int, qid: int, opc: int, buf: int, slba: nat, nlb: nat, maxbpio: nat)
    returns (ok: bool, desc: Desc)
    requires q.Valid() && q.held == {} && Suits(q.nvmeq.g, q.nvmeq.l.block, maxbpio) && buf >= 0
    modifies q, q.used, q.free, q.nvmeq, q.nvmeq.cq, q.nvmeq.sq, q.nvmeq.list
    ensures q.used == old(q.used) + [desc] && q.free == old(q.free)[if old(q.free) == [] then 0 else 1..]
    ensures if old(q.free) != [] then desc == old(q.free)[0] else fresh(desc)
    ensures Recorded(desc, buf, qid, slba, nlb)
    ensures ok ==> InProgress(q, desc, old(Now(q)), Chunks(slba, nlb, buf, maxbpio, q.nvmeq.l.block), opc, nsid)
    ensures !ok ==> Stuck(q, desc, old(Now(q)), Chunks(slba, nlb, buf, maxbpio, q.nvmeq.l.block), opc, nsid)
    ensures !ok ==> old(q.cidcount) + CommandCount(nlb, maxbpio) >= q.size
  {
    hide *;
    ghost var s := Now(q);
    NowIs(q);
    q.PendingCount();
    ghost var block := q.nvmeq.l.block;
    desc := q.DescGet();
    Begin(q, desc, nsid, qid, opc, buf, slba, nlb);
    ghost var done := [];
    var addr: int, lba: nat, left: nat := buf, slba, nlb;
    SuitsMax(q.nvmeq.g, block, maxbpio);
    ChunkCount(slba, nlb, buf, maxbpio, block);
    ok := true;
    while left != 0
      invariant ok && q.used == old(q.used) + [desc] && q.free == old(q.free)[if old(q.free) == [] then 0 else 1..]
      invariant Recorded(desc, buf, qid, slba, nlb)
      invariant InProgress(q, desc, s, done, opc, nsid)
      invariant done + Chunks(lba, left, addr, maxbpio, block) == Chunks(slba, nlb, buf, maxbpio, block)
      invariant addr >= 0
    {
      var n := maxbpio;
      if n > left {
        n := left;
      }
      ChunkForOneCommand(q, addr, maxbpio, n);
      ChunksStep(lba, left, addr, maxbpio, block, done, Chunk(lba, n, addr));
      ok := SubmitChunk(q, desc, opc, nsid, addr, lba, n, s, done);
      if !ok {
        StuckNow(q, desc, s, Chunks(slba, nlb, buf, maxbpio, block), done, Chunks(lba, left, addr, maxbpio, block), opc, nsid);
        return;
      }
      done := done + [Chunk(lba, n, addr)];
      addr := addr + n * q.nvmeq.l.block;
      lba := lba + n;
      left := left - n;
    }
    ChunksDone(lba, addr, maxbpio, block, done);
  }

  method Begin(q: Queue, desc: Desc, nsid: int, qid: int, opc: int, buf: int, slba: nat, nlb: nat)
    requires q.Valid() && q.held == {} && q.used != [] && q.used[|q.used| - 1] == desc && desc.mine == {}
    modifies desc`opc, desc`buf, desc`qid, desc`slba, desc`nlb, desc`sentinel
    ensures InProgress(q, desc, Now(q), [], opc, nsid)
    ensures Recorded(desc, buf, qid, slba, nlb)
  {
    hide Queue.Valid, Requested;
    q.Fill(desc, opc, buf, qid, slba, nlb);
    NothingRequested(q, opc, nsid);
  }

  // ----- synchronous reads and writes

  /** All commands of the request have completed with success. */
  ghost predicate Done(q: Queue, desc: Desc)
    reads q, desc`own, desc`mine, desc`error, q.nvmeq
  {
    desc.own == {} && q.Complete(desc) && desc.error == 0
  }

  /** No completion taken to make room for the commands of a request of `count` commands can be one
      of its own: there is at most one command, or all those completions are posted already, as
      when none has to be taken. */
  ghost predicate NoneHidden(size: nat, a: Log, count: nat) {
    count <= 1 || Room(size, a, |a.sub| + count) <= |a.posted|
  }

  /** The bytes of a request exist, entries can describe its buffer, and no pending command touches
      the same bytes. */
  ghost predicate CanCopy(g: Geometry, l: Layout, s: Snapshot, opc: int, buf: int, slba: nat, nlb: nat) {
    var w := WholeOf(l, opc, buf, slba, nlb);
    && g.wpp > 0 && Describable(g, buf, nlb * l.block) && InRange(s.machine, w)
    && s.log.consumed <= |s.log.posted| && PendingApart(g, l, s.log, s.bufs, w)
  }

  /** The commands of the chunks cs were submitted after s, all of them or a first part, and the
      machine is as the controller left it. */
  ghost predicate Sent(q: Queue, s: Snapshot, cs: seq<Chunk>, opc: int, nsid: int)
    reads q`bufs, q.nvmeq`log, q.nvmeq`machine
  {
    var l, log := q.nvmeq.l, q.nvmeq.log;
    && l.page > 0 && Led(l, s.log, s.machine, log, q.nvmeq.machine) && s.bufs <= q.bufs
    && |log.sub| <= |s.log.sub| + |cs|
    && Issued(log.sub, q.bufs, |s.log.sub|, cs[..|log.sub| - |s.log.sub|], opc, nsid, l.block)
  }

  /** The submissions since s are those of desc. */
  ghost predicate BookedTo(q: Queue, desc: Desc, s: Snapshot)
    reads desc`mine, q.nvmeq`log
  {
    forall n: nat :: n in desc.mine <==> |s.log.sub| <= n < |q.nvmeq.log.sub|
  }

  lemma SentAll(q: Queue, desc: Desc, s: Snapshot, e: Snapshot, r: Request)
    requires r.max > 0 && Made(q, desc, s, e, r)
    ensures Sent(q, s, Chunks(r.slba, r.nlb, r.buf, r.max, q.nvmeq.l.block), r.opc, r.nsid) && BookedTo(q, desc, s)
    ensures e.log.consumed == Room(q.size, s.log, |q.nvmeq.log.sub|)
  {
    hide Replay, IssuedOne;
    LedTwice(q.nvmeq.l, s.log, s.machine, e.log, e.machine, q.nvmeq.log, q.nvmeq.machine);
    var cs := ChunksOf(q.nvmeq.l, r);
    assert cs[..|cs|] == cs;
  }

  lemma StuckFacts(q: Queue, desc: Desc, s: Snapshot, cs: seq<Chunk>, opc: int, nsid: int)
    requires Stuck(q, desc, s, cs, opc, nsid)
    ensures q.Valid() && q.held == {} && Sent(q, s, cs, opc, nsid) && BookedTo(q, desc, s)
    ensures |s.log.sub| <= |q.nvmeq.log.sub| < |s.log.sub| + |cs| && IsFull(q) && NothingPosted(q.nvmeq.log)
    ensures q.nvmeq.log.consumed == Room(q.size, s.log, |q.nvmeq.log.sub|)
  {
    hide Queue.Valid, Led, Issued;
    NowIs(q);
  }

  /** Read or write nlb blocks and wait for completion.  The call gives up, and the poll times out,
      only when no completion is posted; it gives up only if the commands, with those pending before,
      do not fit the queue, after submitting what it could, with the queue full.  Completions are
      taken only to make room, and then by the poll: its result is 0 or -1 if those it took were
      successes, and else the status of the last one, which is one of the request's own when the
      descriptor is released.  When the descriptor is released without error and CanCopy held, store
      and memory are as after one memcpy (and the pending commands of others).  The result 0 alone
      tells that the commands succeeded when they fit the queue, and whenever NoneHidden (see
      ResultZeroExact); in general exactly when the completions taken to make room were successes. */
  method ReadOrWrite(q: Queue, nsid: int, qid: int, opc: int, buf: int, slba: nat, nlb: nat, maxbpio: nat)
    returns (ok: bool, err: int, desc: Desc)
    requires q.Valid() && q.held == {} && Suits(q.nvmeq.g, q.nvmeq.l.block, maxbpio) && buf >= 0
    modifies q, q.used, q.free, q.nvmeq, q.nvmeq.cq, q.nvmeq.sq, q.nvmeq.list
    ensures q.Valid() && q.held == {} && BookedTo(q, desc, old(Now(q)))
    ensures Sent(q, old(Now(q)), Chunks(slba, nlb, buf, maxbpio, q.nvmeq.l.block), opc, nsid)
    ensures !ok ==> old(q.cidcount) + CommandCount(nlb, maxbpio) >= q.size && IsFull(q) && NothingPosted(q.nvmeq.log)
    ensures !ok ==> |q.nvmeq.log.sub| < |old(q.nvmeq.log).sub| + CommandCount(nlb, maxbpio)
    ensures !ok ==> q.nvmeq.log.consumed == Room(q.size, old(q.nvmeq.log), |q.nvmeq.log.sub|)
    ensures ok ==> |q.nvmeq.log.sub| == |old(q.nvmeq.log).sub| + CommandCount(nlb, maxbpio)
    ensures ok ==> Polled(Room(q.size, old(q.nvmeq.log), |q.nvmeq.log.sub|), q.nvmeq.log, err)
    ensures ok && desc.own == {} ==> q.Complete(desc) && q.used == old(q.used)
    ensures q.free == old(q.free)[if old(q.free) == [] then 0 else 1..] + if ok && desc.own == {} then [desc] else []
    ensures ok && desc.own == {} ==> LastOf(Room(q.size, old(q.nvmeq.log), |q.nvmeq.log.sub|), q.nvmeq.log, desc.mine)
    ensures ok && desc.own != {} ==> err != 0 && q.used == old(q.used) + [desc]
    ensures ok && err == -1 ==> desc.own != {} && NothingPosted(q.nvmeq.log) && q.nvmeq.log.consumed < |q.nvmeq.log.sub|
    ensures ok && err == -1 ==> q.nvmeq.looks > 0
    ensures nlb == 0 ==> ok && err == 0 && desc.own == {} && q.nvmeq.log.consumed == old(q.nvmeq.log).consumed
    ensures Recorded(desc, buf, qid, slba, nlb)
    ensures ok && Done(q, desc) && CanCopy(q.nvmeq.g, q.nvmeq.l, old(Now(q)), opc, buf, slba, nlb) ==>
              Copied(q, old(Now(q)), WholeOf(q.nvmeq.l, opc, buf, slba, nlb))
    ensures ok && err == 0 && old(q.cidcount) + CommandCount(nlb, maxbpio) < q.size ==> Done(q, desc)
    ensures ok && err == 0 && NoneHidden(q.size, old(q.nvmeq.log), CommandCount(nlb, maxbpio)) ==> Done(q, desc)
    ensures ok && err == 0 ==>
              (Done(q, desc) <==> EarlySuccess(q.nvmeq.log, desc.mine, Room(q.size, old(q.nvmeq.log), |q.nvmeq.log.sub|)))
  {
    hide *;
    ghost var s := Now(q);
    NowIs(q);
    q.WindowHere();
    q.PendingCount();
    BufsCount(q);
    SuitsMax(q.nvmeq.g, q.nvmeq.l.block, maxbpio);
    ChunkCount(slba, nlb, buf, maxbpio, q.nvmeq.l.block);
    CountStep(nlb, maxbpio);
    WindowOf(q);
    StillRoom(q.size, s.log);
    ok, desc := DoRw(q, nsid, qid, opc, buf, slba, nlb, maxbpio);
    err := 0;
    if !ok {
      StuckFacts(q, desc, s, Chunks(slba, nlb, buf, maxbpio, q.nvmeq.l.block), opc, nsid);
      return;
    }
    ghost var e := Now(q);
    NowIs(q);
    UsedNow(q, desc, s, Chunks(slba, nlb, buf, maxbpio, q.nvmeq.l.block), opc, nsid);
    q.WindowHere();
    if nlb == 0 {
      NothingOwned(q, desc, s, Chunks(slba, nlb, buf, maxbpio, q.nvmeq.l.block), opc, nsid);
    }
    var cs;
    err, cs := q.DoPoll(desc, UNVME_TIMEOUT);
    ghost var r := Request(|s.log.sub|, opc, nsid, buf, slba, nlb, maxbpio);
    IsMade(q, desc, s, e, r);
    MadeCount(q, desc, s, e, r);
    SentAll(q, desc, s, e, r);
    TargetIs(q.nvmeq.l, r);
    if Done(q, desc) && CanCopy(q.nvmeq.g, q.nvmeq.l, s, opc, buf, slba, nlb) {
      FinishCopied(q, desc, s, e, r);
    }
    if desc.own == {} {
      q.ReleasedLast(desc, old(q.used), old(q.free)[if old(q.free) == [] then 0 else 1..]);
    } else {
      q.StillPending(desc);
    }
    if err == 0 {
      FinishEarly(q, desc, s, e, r);
      FitsHidesNone(q.size, s.log, CommandCount(nlb, maxbpio));
    }
  }

  /** The descriptor of a request without commands has no pending command. */
  lemma NothingOwned(q: Queue, desc: Desc, s: Snapshot, cs: seq<Chunk>, opc: int, nsid: int)
    requires InProgress(q, desc, s, cs, opc, nsid) && |cs| == 0
    ensures desc.own == {}
  {
    hide *;
    UsedNow(q, desc, s, cs, opc, nsid);
    NowIs(q);
    NoneMade(q, desc, s, cs, opc, nsid);
    q.BookedNow(desc);
    q.OwnCount(desc);
    q.PendingCount();
    NoneBooked(q, desc);
  }

  lemma NoneMade(q: Queue, desc: Desc, s: Snapshot, cs: seq<Chunk>, opc: int, nsid: int)
    requires InProgress(q, desc, s, cs, opc, nsid) && |cs| == 0
    ensures desc.mine == {}
  {
    hide Queue.Valid, Led, Issued;
    NowIs(q);
  }

  lemma NoneBooked(q: Queue, desc: Desc)
    requires q.Booked(q.owner, q.who, desc) && q.owner.Keys == q.who.Keys && desc.mine == {}
    ensures IdsOf(q.owner, desc) == {}
  {
    assert forall c <- q.owner :: c in q.who;
  }

  lemma StillRoom(size: nat, a: Log)
    requires |a.sub| - a.consumed < size
    ensures Room(size, a, |a.sub|) == a.consumed
  {
  }

  lemma TargetIs(l: Layout, r: Request)
    ensures Target(l, r) == WholeOf(l, r.opc, r.buf, r.slba, r.nlb)
  {
  }

  lemma FitsHidesNone(size: nat, a: Log, count: nat)
    requires LogOk(a)
    ensures |a.sub| - a.consumed + count < size ==> NoneHidden(size, a, count)
  {
    hide Honest, Distinct;
  }

  lemma IsMade(q: Queue, desc: Desc, s: Snapshot, e: Snapshot, r: Request)
    requires r.max > 0 && r.from == |s.log.sub| && Requested(q.nvmeq.l, q.size, s, e, Chunks(r.slba, r.nlb, r.buf, r.max, q.nvmeq.l.block), r.opc, r.nsid)
    requires forall n: nat :: n in desc.mine <==> |s.log.sub| <= n < |e.log.sub|
    requires q.nvmeq.log.sub == e.log.sub && q.bufs == e.bufs
    requires q.nvmeq.l.page > 0 && Led(q.nvmeq.l, e.log, e.machine, q.nvmeq.log, q.nvmeq.machine)
    requires LogOk(s.log) && |s.bufs| == |s.log.sub|
    ensures Made(q, desc, s, e, r)
  {
  }

  lemma MadeCount(q: Queue, desc: Desc, s: Snapshot, e: Snapshot, r: Request)
    requires r.max > 0 && Made(q, desc, s, e, r)
    ensures |q.nvmeq.log.sub| == |s.log.sub| + |Chunks(r.slba, r.nlb, r.buf, r.max, q.nvmeq.l.block)|
  {
    hide Led, Issued, LogOk;
  }

  lemma UsedNow(q: Queue, desc: Desc, s: Snapshot, cs: seq<Chunk>, opc: int, nsid: int)
    requires InProgress(q, desc, s, cs, opc, nsid)
    ensures q.Valid() && q.held == {} && desc in q.used && desc.sentinel == desc && NoDuplicates(q.used)
    ensures Requested(q.nvmeq.l, q.size, s, Now(q), cs, opc, nsid)
    ensures forall n: nat :: n in desc.mine <==> |s.log.sub| <= n < |q.nvmeq.log.sub|
  {
    hide Queue.Valid, Requested;
    UsedOnce(q);
  }

  lemma UsedOnce(q: Queue)
    requires q.Valid()
    ensures NoDuplicates(q.used)
  {
    hide *;
    q.Unpack();
    q.Apart(q.used, q.free);
  }

  /** A request made from s to e, and completions taken since. */
  ghost predicate Made(q: Queue, desc: Desc, s: Snapshot, e: Snapshot, r: Request)
    requires r.max > 0
    reads desc`mine, q.nvmeq, q`bufs
  {
    && r.from == |s.log.sub| && Requested(q.nvmeq.l, q.size, s, e, ChunksOf(q.nvmeq.l, r), r.opc, r.nsid)
    && (forall n: nat :: n in desc.mine <==> |s.log.sub| <= n < |e.log.sub|)
    && q.nvmeq.log.sub == e.log.sub && q.bufs == e.bufs
    && q.nvmeq.l.page > 0 && Led(q.nvmeq.l, e.log, e.machine, q.nvmeq.log, q.nvmeq.machine)
    && LogOk(s.log) && |s.bufs| == |s.log.sub|
  }

  lemma FinishCopied(q: Queue, desc: Desc, s: Snapshot, e: Snapshot, r: Request)
    requires q.Valid() && r.max > 0 && Made(q, desc, s, e, r) && Done(q, desc)
    requires Suits(q.nvmeq.g, q.nvmeq.l.block, r.max) && r.buf >= 0
    requires CanCopy(q.nvmeq.g, q.nvmeq.l, s, r.opc, r.buf, r.slba, r.nlb)
    ensures Copied(q, s, Target(q.nvmeq.l, r))
  {
    hide Queue.Valid, LogOk, Issued, Replay, InRange, Bystander, IsConsumed, Described, Memcpy, WholeOf, Suits, Describable, FitsListPage;
    var l, g := q.nvmeq.l, q.nvmeq.g;
    q.WindowHere();
    Geometries(q);
    ChunksOk(g, l, r.slba, r.nlb, r.buf, r.max);
    LedTwice(l, s.log, s.machine, e.log, e.machine, q.nvmeq.log, q.nvmeq.machine);
    forall k: nat | |s.log.sub| <= k < |q.nvmeq.log.sub| ensures Succeeded(q.nvmeq.log, k) {
      ConsumedOk(q.nvmeq.log, desc.mine, k);
    }
    RequestRefinesMemcpy(g, l, s.log, s.machine, q.nvmeq.log, q.nvmeq.machine, q.bufs, r);
  }

  lemma Geometries(q: Queue)
    requires q.Valid()
    ensures Positive(q.nvmeq.g, q.nvmeq.l) && q.nvmeq.l.page == q.nvmeq.g.PageSize()
    ensures Described(q.nvmeq.g, q.nvmeq.l, q.nvmeq.log.order, q.bufs)
  {
    hide Queue.Lists, Queue.Masks, Queue.Pends, Queue.Commands, LogOk, Described, Prepared;
  }

  lemma ConsumedOk(log: Log, mine: set<nat>, k: nat)
    requires log.consumed <= |log.posted| && IsConsumed(log, k) && AllOk(log, mine) && k in mine
    ensures Succeeded(log, k)
  {
  }

  lemma FinishEarly(q: Queue, desc: Desc, s: Snapshot, e: Snapshot, r: Request)
    requires r.max > 0 && Made(q, desc, s, e, r)
    requires desc.own == {} && q.Complete(desc) && Polled(e.log.consumed, q.nvmeq.log, 0)
    ensures Done(q, desc) <==> EarlySuccess(q.nvmeq.log, desc.mine, Room(q.size, s.log, |q.nvmeq.log.sub|))
    ensures NoneHidden(q.size, s.log, |Chunks(r.slba, r.nlb, r.buf, r.max, q.nvmeq.l.block)|) ==> Done(q, desc)
  {
    hide Replay, Issued, LogOk, IsConsumed, ConsumedBelow;
    if NoneHidden(q.size, s.log, |ChunksOf(q.nvmeq.l, r)|) {
      LedTwice(q.nvmeq.l, s.log, s.machine, e.log, e.machine, q.nvmeq.log, q.nvmeq.machine);
      EarlyNotOwn(s, e, q.nvmeq.log, |s.log.sub|, q.size, |ChunksOf(q.nvmeq.l, r)|);
    }
  }

  /** Then no completion taken to make room was of the request. */
  lemma EarlyNotOwn(s: Snapshot, e: Snapshot, b: Log, from: nat, size: nat, count: nat)
    requires LogOk(s.log) && Progress(s.log, e.log) && Progress(e.log, b) && from == |s.log.sub|
    requires NoneHidden(size, s.log, count) && e.log.consumed == Room(size, s.log, from + count)
    requires count > 0 ==> ConsumedBelow(e.log, from + count - 1)
    requires e.log.consumed <= |e.log.posted|
    ensures forall k: nat :: count > 0 && k < e.log.consumed ==> b.posted[k].idx < from
  {
    forall k: nat | count > 0 && k < e.log.consumed ensures b.posted[k].idx < from {
      assert b.posted[k] == e.log.posted[k];
      if count > 1 {
        assert e.log.posted[k] == s.log.posted[k];
        assert s.log.posted[k] in s.log.order;
      }
    }
  }

  /** The completions consumed before position hi, of the submissions in mine, were successes. */
  ghost predicate EarlySuccess(log: Log, mine: set<nat>, hi: nat) {
    AllOk(log.(consumed := hi), mine)
  }

  /** Store and memory are as after the commands of others and one memcpy; as after the memcpy
      alone if nothing was pending. */
  ghost predicate Copied(q: Queue, s: Snapshot, w: Whole)
    reads q.nvmeq`log, q.nvmeq`machine
  {
    var l := q.nvmeq.l;
    && l.page > 0 && InRange(s.machine, w) && |s.log.order| <= |q.nvmeq.log.order|
    && (var others := Others(l, q.nvmeq.log.order[|s.log.order|..], w);
        && InRange(Replay(s.machine, l, others), w)
        && q.nvmeq.machine == Memcpy(Replay(s.machine, l, others), w))
    && (s.log.consumed <= |s.log.posted| && (forall k: nat :: !Outstanding(s.log, k)) ==> q.nvmeq.machine == Memcpy(s.machine, w))
  }

  /** From opening a queue to its first read or write: when the commands fit the queue they are
      carried out, and result 0 means that store and memory are as after the memcpy. */
  method FirstRequest(size: nat, g: Geometry, l: Layout, blank: Command, machine: Machine,
                      nsid: int, opc: int, buf: int, slba: nat, nlb: nat, maxbpio: nat)
    returns (ok: bool, err: int, q: Queue)
    requires size >= 2 && g.Valid() && l.page == g.PageSize() && Suits(g, l.block, maxbpio) && buf >= 0
    ensures CommandCount(nlb, maxbpio) < size ==>
              && ok && |q.nvmeq.log.sub| == CommandCount(nlb, maxbpio)
              && Issued(q.nvmeq.log.sub, q.bufs, 0, Chunks(slba, nlb, buf, maxbpio, l.block), opc, nsid, l.block)
              && Polled(0, q.nvmeq.log, err) && (AllSucceeded(q.nvmeq.log) ==> err == 0)
              && (err == -1 ==> NothingPosted(q.nvmeq.log) && q.nvmeq.log.consumed < |q.nvmeq.log.sub| && q.nvmeq.looks > 0)
              && (err == 0 && Describable(g, buf, nlb * l.block) && InRange(machine, WholeOf(l, opc, buf, slba, nlb)) ==>
                    q.nvmeq.machine == Memcpy(machine, WholeOf(l, opc, buf, slba, nlb)))
  {
    hide *;
    SuitsMax(g, l.block, maxbpio);
    var nvmeq := new NvmeQueue(size, g, l, blank, machine);
    q := new Queue(nvmeq);
    q.WindowHere();
    q.PendingCount();
    ghost var s := Now(q);
    NowIs(q);
    var desc;
    ok, err, desc := ReadOrWrite(q, nsid, 0, opc, buf, slba, nlb, maxbpio);
    ChunkCount(slba, nlb, buf, maxbpio, l.block);
    if ok { IssuedAll(q, s, Chunks(slba, nlb, buf, maxbpio, l.block), opc, nsid); }
    if ok { FitsRoom(size, s.log, |q.nvmeq.log.sub|); }
    if ok && CommandCount(nlb, maxbpio) < size && AllSucceeded(q.nvmeq.log) { SuccessOnly(q.nvmeq.log, err); }
    ghost var w := WholeOf(l, opc, buf, slba, nlb);
    if ok && Done(q, desc) && Describable(g, buf, nlb * l.block) && InRange(machine, w) {
      NonePending(g, l, s, opc, buf, slba, nlb);
      CopiedAlone(q, s, w);
    }
  }

  /** Every command has completed, with status 0. */
  ghost predicate AllSucceeded(log: Log) {
    |log.sub| == log.consumed <= |log.posted| && Successes(log, 0, log.consumed)
  }

  lemma IssuedAll(q: Queue, s: Snapshot, cs: seq<Chunk>, opc: int, nsid: int)
    requires Sent(q, s, cs, opc, nsid) && |q.nvmeq.log.sub| == |s.log.sub| + |cs|
    ensures Issued(q.nvmeq.log.sub, q.bufs, |s.log.sub|, cs, opc, nsid, q.nvmeq.l.block)
  {
    assert cs[..|cs|] == cs;
  }

  lemma FitsRoom(size: nat, a: Log, n: nat)
    requires a.consumed == 0
    ensures n < size ==> Room(size, a, n) == 0
  {
  }

  lemma SuccessOnly(log: Log, err: int)
    requires AllSucceeded(log) && Polled(0, log, err) && (err == -1 ==> log.consumed < |log.sub|)
    ensures err == 0
  {
  }

  lemma NonePending(g: Geometry, l: Layout, s: Snapshot, opc: int, buf: int, slba: nat, nlb: nat)
    requires g.wpp > 0 && s.log == Log([], [], [], [], 0)
    requires Describable(g, buf, nlb * l.block) && InRange(s.machine, WholeOf(l, opc, buf, slba, nlb))
    ensures CanCopy(g, l, s, opc, buf, slba, nlb)
  {
  }

  lemma CopiedAlone(q: Queue, s: Snapshot, w: Whole)
    requires Copied(q, s, w) && s.log == Log([], [], [], [], 0)
    ensures InRange(s.machine, w) && q.nvmeq.machine == Memcpy(s.machine, w)
  {
  }

  // ----- the calls of the library

  lemma NoneOutstanding(q: Queue)
    requires q.Valid() && q.held == {} && q.cidcount == 0
    ensures q.nvmeq.log.consumed <= |q.nvmeq.log.posted| && forall k: nat :: !Outstanding(q.nvmeq.log, k)
  {
    hide Queue.Lists, Queue.Masks, Queue.Pends, Queue.Wire, NvmeQueue.Valid, Accounts, IsConsumed;
    q.PendingCount();
  }

  /** Nothing is pending, the commands of the request fit the queue, its bytes exist and entries can
      describe its buffer. */
  ghost predicate Alone(g: Geometry, l: Layout, size: nat, s: Snapshot, opc: int, buf: int, slba: nat, nlb: nat, max: nat) {
    && g.wpp > 0 && max > 0 && |s.log.sub| == s.log.consumed && CommandCount(nlb, max) < size
    && Describable(g, buf, nlb * l.block) && InRange(s.machine, WholeOf(l, opc, buf, slba, nlb))
  }

  lemma AloneNow(q: Queue, opc: int, buf: int, slba: nat, nlb: nat, max: nat)
    requires q.Valid() && q.held == {} && Alone(q.nvmeq.g, q.nvmeq.l, q.size, Now(q), opc, buf, slba, nlb, max)
    ensures max > 0 && q.cidcount + CommandCount(nlb, max) < q.size
    ensures q.nvmeq.log.consumed <= |q.nvmeq.log.posted| && forall k: nat :: !Outstanding(q.nvmeq.log, k)
    ensures CanCopy(q.nvmeq.g, q.nvmeq.l, Now(q), opc, buf, slba, nlb)
  {
    hide Queue.Valid, InRange, Outstanding, Describable, CommandCount;
    q.PendingCount();
    NoneOutstanding(q);
  }

  lemma CopiedBytes(q: Queue, s: Snapshot, opc: int, buf: int, slba: nat, nlb: nat)
    requires Copied(q, s, WholeOf(q.nvmeq.l, opc, buf, slba, nlb))
    requires s.log.consumed <= |s.log.posted| && forall k: nat :: !Outstanding(s.log, k)
    ensures var l, n := q.nvmeq.l, q.nvmeq.machine;
            && (opc == 2 ==> ReadInto(s.machine, n, buf, slba * l.block, nlb * l.block))
            && (opc == 1 ==> WrittenFrom(s.machine, n, buf, slba * l.block, nlb * l.block))
  {
    hide Outstanding, Replay, Memcpy, ReadInto, WrittenFrom, InRange;
    Directions(s.machine, WholeOf(q.nvmeq.l, opc, buf, slba, nlb));
  }

  /** Read nlb blocks from block slba on into the buffer.  With nothing pending before, and commands
      that fit the queue, result 0 means that the bytes of the blocks are in the buffer and nothing
      else has changed. */
  method Read(q: Queue, nsid: int, qid: int, buf: int, slba: nat, nlb: nat, maxbpio: nat)
    returns (ok: bool, err: int, desc: Desc)
    requires q.Valid() && q.held == {} && Suits(q.nvmeq.g, q.nvmeq.l.block, maxbpio) && buf >= 0
    modifies q, q.used, q.free, q.nvmeq, q.nvmeq.cq, q.nvmeq.sq, q.nvmeq.list
    ensures q.Valid() && q.held == {}
    ensures Sent(q, old(Now(q)), Chunks(slba, nlb, buf, maxbpio, q.nvmeq.l.block), 2, nsid)
    ensures !ok ==> old(q.cidcount) + CommandCount(nlb, maxbpio) >= q.size && IsFull(q) && NothingPosted(q.nvmeq.log)
    ensures ok ==> |q.nvmeq.log.sub| == |old(q.nvmeq.log).sub| + CommandCount(nlb, maxbpio)
    ensures ok ==> Polled(Room(q.size, old(q.nvmeq.log), |q.nvmeq.log.sub|), q.nvmeq.log, err)
    ensures ok && err == -1 ==> NothingPosted(q.nvmeq.log) && q.nvmeq.log.consumed < |q.nvmeq.log.sub| && q.nvmeq.looks > 0
    ensures ok && Done(q, desc) && CanCopy(q.nvmeq.g, q.nvmeq.l, old(Now(q)), 2, buf, slba, nlb) ==>
              Copied(q, old(Now(q)), WholeOf(q.nvmeq.l, 2, buf, slba, nlb))
    ensures ok && err == 0 && Alone(q.nvmeq.g, q.nvmeq.l, q.size, old(Now(q)), 2, buf, slba, nlb, maxbpio) ==>
              ReadInto(old(q.nvmeq.machine), q.nvmeq.machine, buf, slba * q.nvmeq.l.block, nlb * q.nvmeq.l.block)
  {
    hide *;
    OpCodes();
    ghost var s := Now(q);
    NowIs(q);
    SuitsMax(q.nvmeq.g, q.nvmeq.l.block, maxbpio);
    ghost var alone := Alone(q.nvmeq.g, q.nvmeq.l, q.size, s, 2, buf, slba, nlb, maxbpio);
    if alone { AloneNow(q, 2, buf, slba, nlb, maxbpio); }
    ok, err, desc := ReadOrWrite(q, nsid, qid, CMD_READ, buf, slba, nlb, maxbpio);
    if ok && err == 0 && alone { CopiedBytes(q, s, 2, buf, slba, nlb); }
  }

  /** Write the buffer to nlb blocks from block slba on.  With nothing pending before, and commands
      that fit the queue, result 0 means that the bytes of the buffer are in the blocks and nothing
      else has changed. */
  method Write(q: Queue, nsid: int, qid: int, buf: int, slba: nat, nlb: nat, maxbpio: nat)
    returns (ok: bool, err: int, desc: Desc)
    requires q.Valid() && q.held == {} && Suits(q.nvmeq.g, q.nvmeq.l.block, maxbpio) && buf >= 0
    modifies q, q.used, q.free, q.nvmeq, q.nvmeq.cq, q.nvmeq.sq, q.nvmeq.list
    ensures q.Valid() && q.held == {}
    ensures Sent(q, old(Now(q)), Chunks(slba, nlb, buf, maxbpio, q.nvmeq.l.block), 1, nsid)
    ensures !ok ==> old(q.cidcount) + CommandCount(nlb, maxbpio) >= q.size && IsFull(q) && NothingPosted(q.nvmeq.log)
    ensures ok ==> |q.nvmeq.log.sub| == |old(q.nvmeq.log).sub| + CommandCount(nlb, maxbpio)
    ensures ok ==> Polled(Room(q.size, old(q.nvmeq.log), |q.nvmeq.log.sub|), q.nvmeq.log, err)
    ensures ok && err == -1 ==> NothingPosted(q.nvmeq.log) && q.nvmeq.log.consumed < |q.nvmeq.log.sub| && q.nvmeq.looks > 0
    ensures ok && Done(q, desc) && CanCopy(q.nvmeq.g, q.nvmeq.l, old(Now(q)), 1, buf, slba, nlb) ==>
              Copied(q, old(Now(q)), WholeOf(q.nvmeq.l, 1, buf, slba, nlb))
    ensures ok && err == 0 && Alone(q.nvmeq.g, q.nvmeq.l, q.size, old(Now(q)), 1, buf, slba, nlb, maxbpio) ==>
              WrittenFrom(old(q.nvmeq.machine), q.nvmeq.machine, buf, slba * q.nvmeq.l.block, nlb * q.nvmeq.l.block)
  {
    hide *;
    OpCodes();
    ghost var s := Now(q);
    NowIs(q);
    SuitsMax(q.nvmeq.g, q.nvmeq.l.block, maxbpio);
    ghost var alone := Alone(q.nvmeq.g, q.nvmeq.l, q.size, s, 1, buf, slba, nlb, maxbpio);
    if alone { AloneNow(q, 1, buf, slba, nlb, maxbpio); }
    ok, err, desc := ReadOrWrite(q, nsid, qid, CMD_WRITE, buf, slba, nlb, maxbpio);
    if ok && err == 0 && alone { CopiedBytes(q, s, 1, buf, slba, nlb); }
  }
}
