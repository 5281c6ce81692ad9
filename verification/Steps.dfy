/** The steps a queue and its controller can take, on values: what the methods of the queue promise
    of one completion and of one submission, and what states such runs go through. */
module Steps {
  import Bits
  import opened Prp
  import opened Transfers
  import opened NvmeQueues
  import opened Pending
  import opened QueueEngine
  import opened Chunking
  import opened ReadWrite

  /** The controller ran, on the words in the list area, and the host took at most one completion. */
  ghost predicate CompletionStep(g: Geometry, l: Layout, s: Snapshot, t: Snapshot) {
    && Positive(g, l) && t.words == s.words && t.bufs == s.bufs && t.log.sub == s.log.sub
    && Ran(g, l, s.words, s.log, s.machine, t.log, t.machine)
    && LogOk(t.log) && t.log.consumed <= s.log.consumed + 1
  }

  /** A buffer was mapped for an id that no pending command has, and the command was submitted. */
  ghost predicate SubmissionStep(g: Geometry, l: Layout, size: nat, s: Snapshot, t: Snapshot) {
    && g.wpp > 0 && t.machine == s.machine && |t.log.sub| == |t.bufs| == |s.log.sub| + 1 == |s.bufs| + 1
    && (var cmd, b := t.log.sub[|s.log.sub|], t.bufs[|s.bufs|];
        && t.log == s.log.(sub := s.log.sub + [cmd]) && t.bufs == s.bufs + [b]
        && cmd.cid < size && FreshId(s.log, cmd.cid) && |s.log.sub| + 1 - s.log.consumed < size
        && PreparedOne(g, l, t.words, cmd.cid, cmd, b) && SamePages(g, s.words, t.words, cmd.cid, b.len))
  }

  ghost predicate FreshId(log: Log, id: nat) {
    log.consumed <= |log.posted| && forall n: nat :: Outstanding(log, n) ==> log.sub[n].cid != id
  }

  /** Only words that mapping len bytes for the id stores to were changed. */
  ghost predicate SamePages(g: Geometry, was: seq<int>, words: seq<int>, id: nat, len: nat)
    requires g.wpp > 0
  {
    |was| == |words| && forall w :: 0 <= w < |words| && !Writes(g, id, len, w) ==> words[w] == was[w]
  }

  ghost predicate Step(g: Geometry, l: Layout, size: nat, s: Snapshot, t: Snapshot) {
    CompletionStep(g, l, s, t) || SubmissionStep(g, l, size, s, t)
  }

  ghost predicate Steps(g: Geometry, l: Layout, size: nat, ss: seq<Snapshot>) {
    ss != [] && forall i :: 0 < i < |ss| ==> Step(g, l, size, ss[i - 1], ss[i])
  }

  /** Steps lead from s to t. */
  ghost predicate Leads(g: Geometry, l: Layout, size: nat, s: Snapshot, t: Snapshot) {
    exists ss :: Steps(g, l, size, ss) && ss[0] == s && ss[|ss| - 1] == t
  }

  lemma LeadsNowhere(g: Geometry, l: Layout, size: nat, s: Snapshot)
    ensures Leads(g, l, size, s, s)
  {
    assert Steps(g, l, size, [s]);
  }

  lemma LeadsOn(g: Geometry, l: Layout, size: nat, s: Snapshot, t: Snapshot, u: Snapshot)
    requires Leads(g, l, size, s, t) && Step(g, l, size, t, u)
    ensures Leads(g, l, size, s, u)
  {
    hide Step;
    var ss :| Steps(g, l, size, ss) && ss[0] == s && ss[|ss| - 1] == t;
    assert Steps(g, l, size, ss + [u]);
  }

  lemma LeadsFrom(g: Geometry, l: Layout, size: nat, s: Snapshot, t: Snapshot, u: Snapshot)
    requires Step(g, l, size, s, t) && Leads(g, l, size, t, u)
    ensures Leads(g, l, size, s, u)
  {
    hide Step;
    var ss :| Steps(g, l, size, ss) && ss[0] == t && ss[|ss| - 1] == u;
    var more := [s] + ss;
    forall i | 0 < i < |more| ensures Step(g, l, size, more[i - 1], more[i]) {
      if i > 1 { assert more[i - 1] == ss[i - 2] && more[i] == ss[i - 1]; }
    }
    assert Steps(g, l, size, more);
  }

  // ----- states a queue can be in

  /** The pending commands have ids of their own, below the queue size, and the list page of each
      describes its buffer. */
  ghost predicate Wired(g: Geometry, l: Layout, size: nat, s: Snapshot)
    requires g.wpp > 0
  {
    exists who: map<nat, nat> :: WiredBy(g, l, size, s, who)
  }

  ghost predicate WiredBy(g: Geometry, l: Layout, size: nat, s: Snapshot, who: map<nat, nat>)
    requires g.wpp > 0
  {
    && Tracks(who, s.log) && (forall c <- who :: c < size)
    && |s.words| == g.ListStart(size) && Prepared(g, l, s.words, who, s.log.sub, s.bufs)
  }

  ghost predicate Ready(g: Geometry, l: Layout, size: nat, s: Snapshot) {
    && size >= 2 && g.Valid() && l.page == g.PageSize() && LogOk(s.log)
    && Wired(g, l, size, s) && Described(g, l, s.log.order, s.bufs)
    && |s.log.sub| - s.log.consumed < size
  }

  lemma IsReady(g: Geometry, l: Layout, size: nat, s: Snapshot)
    requires size >= 2 && g.Valid() && l.page == g.PageSize() && LogOk(s.log)
    requires Wired(g, l, size, s) && Described(g, l, s.log.order, s.bufs) && |s.log.sub| - s.log.consumed < size
    ensures Ready(g, l, size, s)
  {
  }

  lemma ReadyFacts(g: Geometry, l: Layout, size: nat, s: Snapshot)
    requires Ready(g, l, size, s)
    ensures size >= 2 && g.Valid() && g.wpp > 0 && l.page == g.PageSize() && l.page > 0 && LogOk(s.log) && Positive(g, l)
    ensures s.log.consumed <= |s.log.posted| && |s.bufs| == |s.log.sub|
    ensures Wired(g, l, size, s) && Described(g, l, s.log.order, s.bufs) && |s.log.sub| - s.log.consumed < size
  {
    hide Described, PreparedOne, Tracks, Distinct, Honest;
  }

  lemma TheWires(g: Geometry, l: Layout, size: nat, s: Snapshot) returns (who: map<nat, nat>)
    requires g.wpp > 0 && Wired(g, l, size, s)
    ensures WiredBy(g, l, size, s, who)
  {
    who :| WiredBy(g, l, size, s, who);
  }

  /** Every valid queue is in such a state. */
  lemma QueueReady(q: Queue)
    requires q.Valid() && q.held == {}
    ensures Ready(q.nvmeq.g, q.nvmeq.l, q.size, Now(q))
  {
    hide *;
    q.Unpack();
    q.PendingCount();
    q.WindowHere();
    q.nvmeq.Window();
    Geometries(q);
    QueueWired(q);
    NowIs(q);
    IsReady(q.nvmeq.g, q.nvmeq.l, q.size, Now(q));
  }

  lemma QueueWired(q: Queue)
    requires q.Counts() && q.Commands(q.used, q.nvmeq.log) && q.held == {} && q.nvmeq.g.wpp > 0
    requires q.Wire(q.who, q.nvmeq.log, q.nvmeq.list[..])
    ensures Wired(q.nvmeq.g, q.nvmeq.l, q.size, Now(q))
  {
    hide Tracks, Accounts, Bits.Cids, Prepared, Described;
    assert forall c <- q.who :: c in q.owner;
    assert WiredBy(q.nvmeq.g, q.nvmeq.l, q.size, Now(q), q.who);
  }

  /** A new queue. */
  lemma NewReady(g: Geometry, l: Layout, size: nat, s: Snapshot)
    requires size >= 2 && g.Valid() && l.page == g.PageSize()
    requires s.log == Log([], [], [], [], 0) && s.bufs == [] && |s.words| == g.ListStart(size)
    ensures Ready(g, l, size, s)
  {
    assert Tracks(map[], s.log);
    assert WiredBy(g, l, size, s, map[]);
  }

  // ----- one completion

  /** The log after the controller fetched all commands, executed submission e.idx unless it had done
      so, and posted its completion, and the host consumed that. */
  ghost function LogServed(a: Log, e: Exec): Log {
    Log(a.sub, a.sub, if Executed(a.order, e.idx) then a.order else a.order + [e], a.posted + [e], a.consumed + 1)
  }

  /** The status of a command that is executed with the pages its entries describe. */
  ghost function StatOf(cmd: Command, pages: seq<int>, stat: nat): nat {
    if cmd.Rw? && pages == [] && stat == 0 then 2 else stat
  }

  /** How a pending command completes: as it was executed already, or now. */
  lemma Completion(g: Geometry, l: Layout, size: nat, s: Snapshot, n: nat, stat: nat) returns (e: Exec)
    requires Ready(g, l, size, s) && s.log.consumed <= |s.log.posted| && Outstanding(s.log, n) && stat % 2 == 0
    requires g.wpp > 0 && n < |s.bufs|
    ensures e.idx == n && Honest(e, s.log.sub) && DescribedOne(g, l, e, s.bufs)
    ensures if Executed(s.log.order, n) then e in s.log.order
            else e.pages == PagesOf(g, l, s.log.sub[n], s.words) && e.stat == StatOf(s.log.sub[n], e.pages, stat)
    ensures !Executed(s.log.order, n) && Describable(g, s.bufs[n].addr, s.bufs[n].len) ==> e.stat == stat
  {
    hide Covers, PagesOf, IsConsumed, Describable, ByteAddr, Length, FitsListPage, Mapped;
    var cmd := s.log.sub[n];
    var who := TheWires(g, l, size, s);
    assert PreparedOne(g, l, s.words, cmd.cid, cmd, s.bufs[n]);
    if i: nat :| i < |s.log.order| && s.log.order[i].idx == n {
      e := s.log.order[i];
      assert Honest(e, s.log.work);
      assert DescribedOne(g, l, e, s.bufs);
    } else {
      var pages := PagesOf(g, l, cmd, s.words);
      e := Exec(n, cmd, StatOf(cmd, pages, stat), 0, pages);
      if cmd.Rw? && Describable(g, s.bufs[n].addr, s.bufs[n].len) {
        PreparedPages(g, l, s.words, cmd, s.bufs[n]);
        NotEmpty(g, pages, s.bufs[n].addr, s.bufs[n].len);
      }
    }
  }

  lemma NotEmpty(g: Geometry, pages: seq<int>, addr: int, len: nat)
    requires g.wpp > 0 && Covers(g, Transfer(pages), addr, len)
    ensures pages != []
  {
  }

  lemma ServedOk(a: Log, e: Exec)
    requires LogOk(a) && |a.posted| == a.consumed && Outstanding(a, e.idx) && Honest(e, a.sub)
    requires Executed(a.order, e.idx) ==> e in a.order
    ensures LogOk(LogServed(a, e)) && Progress(a, LogServed(a, e))
  {
    hide Honest;
    var b := LogServed(a, e);
    HonestMore(a.order, a.work, a.sub);
    assert forall i :: 0 <= i < |b.order| ==> Honest(b.order[i], b.work);
    assert Distinct(b.order);
    assert Distinct(b.posted);
    forall i | 0 <= i < |b.posted| ensures b.posted[i] in b.order {
      if i < |a.posted| { assert b.posted[i] == a.posted[i]; }
    }
  }

  /** Serving one pending command, when all posted completions have been consumed. */
  lemma Serve(g: Geometry, l: Layout, size: nat, s: Snapshot, n: nat, stat: nat) returns (t: Snapshot, e: Exec)
    requires Ready(g, l, size, s) && |s.log.posted| == s.log.consumed && Outstanding(s.log, n) && stat % 2 == 0
    ensures Ready(g, l, size, t) && t.bufs == s.bufs && t.log == LogServed(s.log, e) && e.idx == n
    ensures CompletionStep(g, l, s, t) && l.page > 0 && Led(l, s.log, s.machine, t.log, t.machine)
    ensures Executed(s.log.order, n) ==> e in s.log.order
    ensures !Executed(s.log.order, n) && (stat != 0 || (g.wpp > 0 && n < |s.bufs| && Describable(g, s.bufs[n].addr, s.bufs[n].len))) ==>
              e.stat == stat
  {
    hide *;
    ReadyFacts(g, l, size, s);
    IsSubmitted(s.log, n);
    e := Completion(g, l, size, s, n, stat);
    StatNonZero(s.log.sub[n], e.pages, stat);
    ServedOk(s.log, e);
    var machine := ServedMachine(l, s, e);
    t := Snapshot(LogServed(s.log, e), machine, s.bufs, s.words);
    ServedWired(g, l, size, s, t, e);
    ServedDescribed(g, l, s, e);
    ServedWindow(s.log, e);
    IsReady(g, l, size, t);
    IsCompletion(g, l, s, t, e);
  }

  lemma IsSubmitted(a: Log, n: nat)
    requires a.consumed <= |a.posted| && Outstanding(a, n)
    ensures n < |a.sub|
  {
  }

  lemma StatNonZero(cmd: Command, pages: seq<int>, stat: nat)
    ensures stat != 0 ==> StatOf(cmd, pages, stat) == stat
  {
  }

  lemma ServedMachine(l: Layout, s: Snapshot, e: Exec) returns (n: Machine)
    requires l.page > 0 && Progress(s.log, LogServed(s.log, e))
    ensures Led(l, s.log, s.machine, LogServed(s.log, e), n)
  {
    hide Effect, Executed;
    var more := LogServed(s.log, e).order[|s.log.order|..];
    n := Replay(s.machine, l, more);
  }

  lemma IsCompletion(g: Geometry, l: Layout, s: Snapshot, t: Snapshot, e: Exec)
    requires Positive(g, l) && t.words == s.words && t.bufs == s.bufs && t.log == LogServed(s.log, e) && LogOk(t.log)
    requires Led(l, s.log, s.machine, t.log, t.machine)
    requires Honest(e, s.log.sub)
    requires !Executed(s.log.order, e.idx) ==> e.pages == PagesOf(g, l, s.log.sub[e.idx], s.words)
    ensures CompletionStep(g, l, s, t)
  {
    hide Replay, PagesOf, LogOk;
  }

  lemma ServedWindow(a: Log, e: Exec)
    requires LogOk(LogServed(a, e))
    ensures var b := LogServed(a, e); b.sub == a.sub && b.consumed == a.consumed + 1 <= |b.posted|
  {
    hide Honest, Distinct;
  }

  lemma ServedWired(g: Geometry, l: Layout, size: nat, s: Snapshot, t: Snapshot, e: Exec)
    requires g.wpp > 0 && Wired(g, l, size, s) && s.log.consumed == |s.log.posted|
    requires LogOk(LogServed(s.log, e)) && Progress(s.log, LogServed(s.log, e))
    requires t.log == LogServed(s.log, e) && t.bufs == s.bufs && t.words == s.words
    ensures Wired(g, l, size, t)
  {
    hide LogOk, Tracks, PreparedOne;
    var who := TheWires(g, l, size, s);
    assert t.log.posted[s.log.consumed] == e;
    TracksConsume(who, s.log, t.log);
    Forgotten(who, e.cmd.cid);
    assert WiredBy(g, l, size, t, Forget(who, e.cmd.cid));
  }

  lemma ServedDescribed(g: Geometry, l: Layout, s: Snapshot, e: Exec)
    requires g.wpp > 0 && Described(g, l, s.log.order, s.bufs) && DescribedOne(g, l, e, s.bufs)
    ensures Described(g, l, LogServed(s.log, e).order, s.bufs)
  {
    hide DescribedOne;
  }

  /** The host consumes the oldest completion that is posted already. */
  lemma TakePosted(g: Geometry, l: Layout, size: nat, s: Snapshot) returns (t: Snapshot)
    requires Ready(g, l, size, s) && s.log.consumed < |s.log.posted|
    ensures Ready(g, l, size, t) && t == s.(log := s.log.(consumed := s.log.consumed + 1))
    ensures CompletionStep(g, l, s, t) && l.page > 0 && Led(l, s.log, s.machine, t.log, t.machine)
  {
    hide *;
    ReadyFacts(g, l, size, s);
    t := s.(log := s.log.(consumed := s.log.consumed + 1));
    Consume(s.log);
    TakenWired(g, l, size, s);
    TakenStep(g, l, s);
    IsReady(g, l, size, t);
  }

  lemma TakenStep(g: Geometry, l: Layout, s: Snapshot)
    requires Positive(g, l) && LogOk(s.log.(consumed := s.log.consumed + 1))
    ensures var t := s.(log := s.log.(consumed := s.log.consumed + 1));
            CompletionStep(g, l, s, t) && Led(l, s.log, s.machine, t.log, t.machine)
  {
    hide LogOk;
  }

  lemma TakenWired(g: Geometry, l: Layout, size: nat, s: Snapshot)
    requires g.wpp > 0 && Wired(g, l, size, s) && LogOk(s.log) && s.log.consumed < |s.log.posted|
    ensures Wired(g, l, size, s.(log := s.log.(consumed := s.log.consumed + 1)))
  {
    hide LogOk, Tracks, PreparedOne;
    var t := s.(log := s.log.(consumed := s.log.consumed + 1));
    var who := TheWires(g, l, size, s);
    Consume(s.log);
    TracksConsume(who, s.log, t.log);
    Forgotten(who, t.log.posted[s.log.consumed].cmd.cid);
    assert WiredBy(g, l, size, t, Forget(who, t.log.posted[s.log.consumed].cmd.cid));
  }

  // ----- one submission

  /** What mapping a buffer stores, as a function on the words of the list area. */
  ghost function MappedWords(g: Geometry, words: seq<int>, id: nat, addr: int, len: nat): seq<int>
    requires g.wpp > 0 && (Pages(g.PageSize(), len) > 2 ==> g.ListStart(id) + Pages(g.PageSize(), len) - 1 <= |words|)
  {
    var n := Pages(g.PageSize(), len);
    if n <= 2 then words
    else words[..g.ListStart(id)] + Following(g.PageSize(), addr, n - 1) + words[g.ListStart(id) + n - 1..]
  }

  ghost function EntriesFor(g: Geometry, id: nat, addr: int, len: nat): Prps
    requires g.wpp > 0
  {
    var n := Pages(g.PageSize(), len);
    Prps(addr, if n <= 1 then 0 else if n == 2 then addr + g.PageSize() else g.list + 8 * g.ListStart(id))
  }

  lemma MapsBuffer(g: Geometry, words: seq<int>, size: nat, id: nat, addr: int, len: nat) returns (more: seq<int>)
    requires g.wpp > 0 && |words| == g.ListStart(size) && id < size && FitsListPage(g, len)
    ensures SamePages(g, words, more, id, len) && Mapped(g, id, addr, len, EntriesFor(g, id, addr, len), more)
  {
    hide Pages;
    PageBelow(g.wpp, id, size);
    more := MappedWords(g, words, id, addr, len);
    var n := Pages(g.PageSize(), len);
    if n > 2 {
      assert more[g.ListStart(id)..g.ListStart(id) + n - 1] == Following(g.PageSize(), addr, n - 1);
    }
  }

  /** A chunk is submitted with an id that no pending command has. */
  lemma SubmitNext(g: Geometry, l: Layout, size: nat, s: Snapshot, c: Chunk, opc: int, nsid: int) returns (t: Snapshot)
    requires Ready(g, l, size, s) && |s.log.sub| + 1 - s.log.consumed < size && ChunkOk(g, l, c)
    ensures Ready(g, l, size, t) && SubmissionStep(g, l, size, s, t)
    ensures l.page > 0 && Led(l, s.log, s.machine, t.log, t.machine)
    ensures |t.log.sub| == |s.log.sub| + 1 && t.log == s.log.(sub := t.log.sub) && t.log.sub[..|s.log.sub|] == s.log.sub
    ensures t.bufs == s.bufs + [BufOf(c, l.block)]
    ensures IssuedOne(t.log.sub[|s.log.sub|], BufOf(c, l.block), c, opc, nsid, l.block)
  {
    hide *;
    ReadyFacts(g, l, size, s);
    ChunkIsOk(g, l, c);
    var who := TheWires(g, l, size, s);
    WireFacts(g, l, size, s, who);
    var id := SomeFree(who.Keys, size);
    var b := BufOf(c, l.block);
    var words := MapsBuffer(g, s.words, size, id, b.addr, b.len);
    var cmd := Rw(opc, id, nsid, c.slba, c.nlb - 1, EntriesFor(g, id, b.addr, b.len));
    t := Snapshot(s.log.(sub := s.log.sub + [cmd]), s.machine, s.bufs + [b], words);
    SubmittedOk(s.log, cmd);
    SubmittedLed(l, s, t, cmd);
    PreparedNow(g, l, cmd, b, words, c);
    SubmittedWired(g, l, size, s, t, who, cmd, b);
    SubmittedDescribed(g, l, s.log.order, s.bufs, b);
    ThisIssued(cmd, c, l.block);
    IsReady(g, l, size, t);
    IsSubmission(g, l, size, s, t, cmd, b, who);
  }

  lemma ChunkIsOk(g: Geometry, l: Layout, c: Chunk)
    requires ChunkOk(g, l, c)
    ensures g.wpp > 0 && c.nlb > 0 && c.addr >= 0
    ensures var b := BufOf(c, l.block); Describable(g, b.addr, b.len) && FitsListPage(g, b.len)
  {
  }

  lemma WireFacts(g: Geometry, l: Layout, size: nat, s: Snapshot, who: map<nat, nat>)
    requires g.wpp > 0 && WiredBy(g, l, size, s, who)
    ensures |who.Keys| == |s.log.sub| - s.log.consumed && (forall c <- who :: c < size) && Tracks(who, s.log)
    ensures |s.words| == g.ListStart(size)
  {
    hide Prepared;
    assert |who.Keys| == |who|;
  }

  lemma PreparedNow(g: Geometry, l: Layout, cmd: Command, b: Buf, words: seq<int>, c: Chunk)
    requires g.wpp > 0 && cmd.Rw? && cmd.nlb0 + 1 == c.nlb && b == BufOf(c, l.block) && c.addr >= 0
    requires FitsListPage(g, b.len) && Mapped(g, cmd.cid, b.addr, b.len, cmd.prps, words)
    ensures PreparedOne(g, l, words, cmd.cid, cmd, b)
  {
    hide Mapped, FitsListPage;
  }

  lemma SubmittedOk(a: Log, cmd: Command)
    requires LogOk(a)
    ensures LogOk(a.(sub := a.sub + [cmd]))
  {
    hide Honest;
  }

  lemma SubmittedLed(l: Layout, s: Snapshot, t: Snapshot, cmd: Command)
    requires l.page > 0 && t.log == s.log.(sub := s.log.sub + [cmd]) && t.machine == s.machine
    ensures Led(l, s.log, s.machine, t.log, t.machine)
  {
  }

  lemma SubmittedWired(g: Geometry, l: Layout, size: nat, s: Snapshot, t: Snapshot, who: map<nat, nat>, cmd: Command, b: Buf)
    requires g.wpp > 0 && WiredBy(g, l, size, s, who) && LogOk(s.log) && cmd.cid < size && cmd.cid !in who
    requires t.log == s.log.(sub := s.log.sub + [cmd]) && t.bufs == s.bufs + [b]
    requires SamePages(g, s.words, t.words, cmd.cid, b.len) && PreparedOne(g, l, t.words, cmd.cid, cmd, b)
    ensures Wired(g, l, size, t)
  {
    hide LogOk, Tracks, PreparedOne, Writes;
    TracksSubmit(who, s.log, cmd);
    FitsOne(g, l, t.words, cmd, b);
    PreparedMapped(g, l, s.words, t.words, who, s.log.sub, s.bufs, cmd.cid, b.len);
    assert WiredBy(g, l, size, t, who[cmd.cid := |s.log.sub|]);
  }

  lemma FitsOne(g: Geometry, l: Layout, words: seq<int>, cmd: Command, b: Buf)
    requires g.wpp > 0 && PreparedOne(g, l, words, cmd.cid, cmd, b)
    ensures FitsListPage(g, b.len)
  {
  }

  lemma SubmittedDescribed(g: Geometry, l: Layout, order: seq<Exec>, bufs: seq<Buf>, b: Buf)
    requires g.wpp > 0 && Described(g, l, order, bufs)
    ensures Described(g, l, order, bufs + [b])
  {
    hide Covers;
  }

  lemma IsSubmission(g: Geometry, l: Layout, size: nat, s: Snapshot, t: Snapshot, cmd: Command, b: Buf, who: map<nat, nat>)
    requires g.wpp > 0 && t.machine == s.machine && t.log == s.log.(sub := s.log.sub + [cmd]) && t.bufs == s.bufs + [b]
    requires |s.bufs| == |s.log.sub| && cmd.cid < size && |s.log.sub| + 1 - s.log.consumed < size
    requires Tracks(who, s.log) && cmd.cid !in who
    requires PreparedOne(g, l, t.words, cmd.cid, cmd, b) && SamePages(g, s.words, t.words, cmd.cid, b.len)
    ensures SubmissionStep(g, l, size, s, t)
  {
    hide PreparedOne, SamePages, IsConsumed;
  }
}
