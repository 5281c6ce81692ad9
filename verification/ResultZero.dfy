/** When does result 0 of a read or write mean success?  Exactly when no completion taken to make
    room for its commands can be one of its own: else there is a run of the queue and its controller,
    step by step, in which the first command fails, its completion makes room for the last one, and
    the poll returns 0. */
module ResultZero {
  import opened Prp
  import opened Transfers
  import opened NvmeQueues
  import opened Pending
  import opened QueueEngine
  import opened Chunking
  import opened ReadWrite
  import opened Steps
  import Limits

  // ----- submitting the request while its first command fails

  /** The completion of submission n has been consumed, with an error. */
  ghost predicate Failed(log: Log, n: nat) {
    exists k: nat :: k < log.consumed && k < |log.posted| && log.posted[k].idx == n && log.posted[k].stat != 0
  }

  /** What was executed of the submissions from lo on has been posted. */
  ghost predicate OwnPosted(log: Log, lo: nat) {
    forall i :: 0 <= i < |log.order| && log.order[i].idx >= lo ==> log.order[i] in log.posted
  }

  /** Part of the request has been submitted; nothing was posted but to make room for it, and the
      first command has not been executed or has failed, with its completion consumed. */
  ghost predicate Failing(g: Geometry, l: Layout, size: nat, s: Snapshot, t: Snapshot, cs: seq<Chunk>, opc: int, nsid: int) {
    && Ready(g, l, size, t) && Requested(l, size, s, t, cs, opc, nsid)
    && FirstFails(s.log, t.log) && Leads(g, l, size, s, t)
    && PartsDescribable(g, t.bufs, |s.log.sub|)
  }

  /** Entries describe the buffers of the submissions from lo on. */
  ghost predicate PartsDescribable(g: Geometry, bufs: seq<Buf>, lo: nat) {
    g.wpp > 0 && forall k: nat :: lo <= k < |bufs| ==> Describable(g, bufs[k].addr, bufs[k].len)
  }

  lemma PartAt(g: Geometry, bufs: seq<Buf>, lo: nat, k: nat)
    requires PartsDescribable(g, bufs, lo) && lo <= k < |bufs|
    ensures g.wpp > 0 && Describable(g, bufs[k].addr, bufs[k].len)
  {
  }

  lemma PartMore(g: Geometry, bufs: seq<Buf>, lo: nat, b: Buf)
    requires PartsDescribable(g, bufs, lo) && Describable(g, b.addr, b.len)
    ensures PartsDescribable(g, bufs + [b], lo)
  {
    hide Describable;
  }

  ghost predicate FirstFails(a: Log, b: Log) {
    && a.consumed <= |a.posted| <= |b.posted| == (if b.consumed > |a.posted| then b.consumed else |a.posted|)
    && OwnPosted(b, |a.sub|)
    && (Executed(b.order, |a.sub|) ==> Failed(b, |a.sub|))
  }

  lemma NothingFailed(g: Geometry, l: Layout, size: nat, s: Snapshot, opc: int, nsid: int)
    requires Ready(g, l, size, s)
    ensures Failing(g, l, size, s, s, [], opc, nsid)
  {
    hide Ready, LogOk, Described, Leads, Describable;
    ReadyFacts(g, l, size, s);
    StaysLed(l, s);
    LeadsNowhere(g, l, size, s);
    assert |s.bufs| == |s.log.sub|;
    forall i | 0 <= i < |s.log.order| ensures s.log.order[i].idx < |s.log.sub| {
      OrderBelow(s.log, i);
    }
  }

  lemma OrderBelow(log: Log, i: nat)
    requires LogOk(log) && i < |log.order|
    ensures log.order[i].idx < |log.sub|
  {
    assert Honest(log.order[i], log.work);
  }

  lemma SomePending(g: Geometry, l: Layout, size: nat, s: Snapshot) returns (n: nat)
    requires g.wpp > 0 && Wired(g, l, size, s) && s.log.consumed <= |s.log.posted| && |s.log.sub| > s.log.consumed
    ensures Outstanding(s.log, n)
  {
    hide IsConsumed, Prepared;
    var who := TheWires(g, l, size, s);
    assert |who.Keys| == |who|;
    var c :| c in who;
    n := who[c];
  }

  /** Before the last command is submitted to a full queue whose posted completions are all consumed,
      the first one fails. */
  lemma MakeRoomFailing(g: Geometry, l: Layout, size: nat, s: Snapshot, e: Snapshot, cs: seq<Chunk>, opc: int, nsid: int)
    returns (t: Snapshot)
    requires Failing(g, l, size, s, e, cs, opc, nsid) && |e.log.sub| - e.log.consumed + 1 == size
    ensures Ready(g, l, size, t) && t.bufs == e.bufs && t.log.sub == e.log.sub && t.log.consumed == e.log.consumed + 1
    ensures l.page > 0 && Led(l, e.log, e.machine, t.log, t.machine) && FirstFails(s.log, t.log)
    ensures CompletionStep(g, l, e, t)
    ensures cs != [] && |e.log.posted| == e.log.consumed ==> Failed(t.log, |s.log.sub|)
  {
    hide *;
    FailingFacts(g, l, size, s, e, cs, opc, nsid);
    ReadyFacts(g, l, size, e);
    RequestedCount(l, size, s, e, cs, opc, nsid);
    if e.log.consumed < |e.log.posted| {
      t := TakePosted(g, l, size, e);
      TakenFailing(s.log, e.log);
    } else {
      t := ServeFailing(g, l, size, s, e, cs != []);
    }
  }

  lemma TakenFailing(a: Log, b: Log)
    requires FirstFails(a, b) && b.consumed < |b.posted|
    ensures FirstFails(a, b.(consumed := b.consumed + 1))
  {
  }

  lemma ServeFailing(g: Geometry, l: Layout, size: nat, s: Snapshot, e: Snapshot, begun: bool) returns (t: Snapshot)
    requires Ready(g, l, size, e) && FirstFails(s.log, e.log) && |e.log.posted| <= e.log.consumed
    requires |e.log.sub| - e.log.consumed + 1 == size && begun == (|e.log.sub| > |s.log.sub|)
    ensures Ready(g, l, size, t) && t.bufs == e.bufs && t.log.sub == e.log.sub && t.log.consumed == e.log.consumed + 1
    ensures l.page > 0 && Led(l, e.log, e.machine, t.log, t.machine) && FirstFails(s.log, t.log)
    ensures CompletionStep(g, l, e, t)
    ensures begun ==> Failed(t.log, |s.log.sub|)
  {
    hide *;
    ReadyFacts(g, l, size, e);
    var own := |s.log.sub|;
    FirstFailsMeans(s.log, e.log);
    var n: nat, x: Exec;
    if begun && !Executed(e.log.order, own) {
      NotExecuted(e.log, own);
      n := own;
    } else {
      n := SomePending(g, l, size, e);
      FailedConsumed(e.log, own);
      IsSubmitted(e.log, n);
    }
    t, x := Serve(g, l, size, e, n, if n == own then 2 else 0);
    ServedFails(s.log, e.log, x, begun);
    ServedFacts(e.log, x);
  }

  lemma FirstFailsMeans(a: Log, b: Log)
    requires FirstFails(a, b)
    ensures |a.posted| <= |b.posted| && b.consumed <= |b.posted| && (Executed(b.order, |a.sub|) ==> Failed(b, |a.sub|))
  {
  }

  lemma RequestedCount(l: Layout, size: nat, s: Snapshot, e: Snapshot, cs: seq<Chunk>, opc: int, nsid: int)
    requires Requested(l, size, s, e, cs, opc, nsid)
    ensures |e.log.sub| == |s.log.sub| + |cs| && e.log.consumed == Room(size, s.log, |e.log.sub|)
    ensures s.bufs <= e.bufs && Progress(s.log, e.log)
  {
    hide Issued, ConsumedBelow, Replay;
  }

  lemma NotExecuted(a: Log, n: nat)
    requires LogOk(a) && a.consumed <= |a.posted| && n < |a.sub| && !Executed(a.order, n)
    ensures Outstanding(a, n)
  {
    forall k | 0 <= k < a.consumed ensures a.posted[k].idx != n {
      assert a.posted[k] in a.order;
    }
  }

  lemma FailedConsumed(a: Log, n: nat)
    requires a.consumed <= |a.posted|
    ensures Failed(a, n) ==> !Outstanding(a, n)
  {
  }

  lemma ServedFacts(a: Log, e: Exec)
    ensures var b := LogServed(a, e); b.sub == a.sub && b.consumed == a.consumed + 1 && |b.posted| == |a.posted| + 1
  {
  }

  lemma ServedFails(a: Log, b: Log, e: Exec, begun: bool)
    requires FirstFails(a, b) && b.consumed == |b.posted|
    requires Executed(b.order, e.idx) ==> e in b.order
    requires e.idx == |a.sub| ==> !Executed(b.order, |a.sub|) && e.stat == 2
    requires begun && !Executed(b.order, |a.sub|) ==> e.idx == |a.sub|
    ensures FirstFails(a, LogServed(b, e))
    ensures begun ==> Failed(LogServed(b, e), |a.sub|)
  {
    var c := LogServed(b, e);
    if Failed(b, |a.sub|) {
      var k: nat :| k < b.consumed && k < |b.posted| && b.posted[k].idx == |a.sub| && b.posted[k].stat != 0;
      assert c.posted[k] == b.posted[k];
    } else if e.idx == |a.sub| {
      assert c.posted[b.consumed] == e;
    }
  }

  /** One chunk more. */
  lemma SubmitFailing(g: Geometry, l: Layout, size: nat, s: Snapshot, e: Snapshot, cs: seq<Chunk>, c: Chunk, opc: int, nsid: int)
    returns (t: Snapshot)
    requires Failing(g, l, size, s, e, cs, opc, nsid) && ChunkOk(g, l, c)
    ensures Failing(g, l, size, s, t, cs + [c], opc, nsid)
    ensures cs != [] && |e.log.sub| - e.log.consumed + 1 == size && |e.log.posted| == e.log.consumed ==> Failed(t.log, |s.log.sub|)
  {
    hide *;
    FailingFacts(g, l, size, s, e, cs, opc, nsid);
    ReadyFacts(g, l, size, e);
    RequestedCount(l, size, s, e, cs, opc, nsid);
    var mid := e;
    StaysLed(l, e);
    if |e.log.sub| - e.log.consumed + 1 == size {
      mid := MakeRoomFailing(g, l, size, s, e, cs, opc, nsid);
      ReadyFacts(g, l, size, mid);
      IsStep(g, l, size, e, mid);
      LeadsOn(g, l, size, s, e, mid);
    }
    t := SubmitNext(g, l, size, mid, c, opc, nsid);
    IsStep(g, l, size, mid, t);
    LeadsOn(g, l, size, s, mid, t);
    ChunkIsOk(g, l, c);
    PartMore(g, mid.bufs, |s.log.sub|, BufOf(c, l.block));
    ReadyFacts(g, l, size, t);
    BelowHere(mid.log, t.log);
    LedTwice(l, e.log, e.machine, mid.log, mid.machine, t.log, t.machine);
    assert t.log.sub == e.log.sub + [t.log.sub[|e.log.sub|]];
    RequestMore(l, size, s, e, t, cs, opc, nsid, t.log.sub[|e.log.sub|], BufOf(c, l.block), c);
    StillFails(s.log, mid.log, t.log);
    IsFailing(g, l, size, s, t, cs + [c], opc, nsid);
  }

  lemma FailingFacts(g: Geometry, l: Layout, size: nat, s: Snapshot, e: Snapshot, cs: seq<Chunk>, opc: int, nsid: int)
    requires Failing(g, l, size, s, e, cs, opc, nsid)
    ensures Ready(g, l, size, e) && Requested(l, size, s, e, cs, opc, nsid) && FirstFails(s.log, e.log)
    ensures Leads(g, l, size, s, e)
    ensures PartsDescribable(g, e.bufs, |s.log.sub|)
  {
    hide Ready, Requested, FirstFails, Leads, PartsDescribable;
  }

  lemma IsStep(g: Geometry, l: Layout, size: nat, s: Snapshot, t: Snapshot)
    ensures CompletionStep(g, l, s, t) || SubmissionStep(g, l, size, s, t) ==> Step(g, l, size, s, t)
  {
    hide CompletionStep, SubmissionStep;
  }

  lemma IsFailing(g: Geometry, l: Layout, size: nat, s: Snapshot, e: Snapshot, cs: seq<Chunk>, opc: int, nsid: int)
    requires Ready(g, l, size, e) && Requested(l, size, s, e, cs, opc, nsid) && FirstFails(s.log, e.log)
    requires Leads(g, l, size, s, e)
    requires PartsDescribable(g, e.bufs, |s.log.sub|)
    ensures Failing(g, l, size, s, e, cs, opc, nsid)
  {
    hide Ready, Requested, FirstFails, Leads, PartsDescribable;
  }

  lemma StillFails(a: Log, b: Log, c: Log)
    requires FirstFails(a, b) && c == b.(sub := c.sub)
    ensures FirstFails(a, c) && (Failed(b, |a.sub|) ==> Failed(c, |a.sub|))
  {
  }

  lemma StaysLed(l: Layout, e: Snapshot)
    requires l.page > 0
    ensures Led(l, e.log, e.machine, e.log, e.machine)
  {
  }

  lemma BelowHere(a: Log, b: Log)
    requires LogOk(a) && b == a.(sub := b.sub)
    ensures ConsumedBelow(b, |a.sub|)
  {
    BelowSubmissions(a, a);
  }

  /** All chunks: when the last one needs room that no completion posted before can give, the first
      command has failed by then. */
  lemma {:induction false} SubmitAllFailing(g: Geometry, l: Layout, size: nat, s: Snapshot, e: Snapshot, cs: seq<Chunk>,
                                            rest: seq<Chunk>, opc: int, nsid: int)
    returns (t: Snapshot)
    requires Failing(g, l, size, s, e, cs, opc, nsid) && forall c :: c in rest ==> ChunkOk(g, l, c)
    requires rest == [] && |cs| >= 2 && Room(size, s.log, |s.log.sub| + |cs|) > |s.log.posted| ==> Failed(e.log, |s.log.sub|)
    ensures Failing(g, l, size, s, t, cs + rest, opc, nsid)
    ensures |cs + rest| >= 2 && Room(size, s.log, |s.log.sub| + |cs + rest|) > |s.log.posted| ==> Failed(t.log, |s.log.sub|)
    decreases |rest|
  {
    hide *;
    if rest == [] {
      assert cs + rest == cs;
      t := e;
    } else {
      var next := SubmitFailing(g, l, size, s, e, cs, rest[0], opc, nsid);
      LastNeedsRoom(g, l, size, s, e, cs, opc, nsid);
      assert cs + rest == (cs + [rest[0]]) + rest[1..];
      t := SubmitAllFailing(g, l, size, s, next, cs + [rest[0]], rest[1..], opc, nsid);
    }
  }

  /** If one command more needs room that no completion posted before can give, the queue is full and
      all posted completions have been consumed. */
  lemma LastNeedsRoom(g: Geometry, l: Layout, size: nat, s: Snapshot, e: Snapshot, cs: seq<Chunk>, opc: int, nsid: int)
    requires Failing(g, l, size, s, e, cs, opc, nsid)
    ensures Room(size, s.log, |s.log.sub| + |cs| + 1) > |s.log.posted| ==>
              |e.log.sub| - e.log.consumed + 1 == size && |e.log.posted| == e.log.consumed
  {
    hide Ready, Requested, OwnPosted, Failed, Leads, PartsDescribable;
    ReadyFacts(g, l, size, e);
    RequestedCount(l, size, s, e, cs, opc, nsid);
  }

  // ----- the poll

  /** The other commands of the request succeed one after the other. */
  lemma {:induction false} PollRest(g: Geometry, l: Layout, size: nat, e: Snapshot, lo: nat) returns (t: Snapshot)
    requires Ready(g, l, size, e) && OwnPosted(e.log, lo) && |e.log.posted| == e.log.consumed
    requires PartsDescribable(g, e.bufs, lo)
    ensures Leads(g, l, size, e, t)
    ensures Ready(g, l, size, t) && t.bufs == e.bufs && t.log.sub == e.log.sub && t.log.consumed <= |t.log.posted|
    ensures l.page > 0 && Led(l, e.log, e.machine, t.log, t.machine)
    ensures forall k: nat :: lo <= k < |t.log.sub| ==> IsConsumed(t.log, k)
    ensures Polled(e.log.consumed, t.log, 0)
    decreases |e.log.sub| - e.log.consumed
  {
    hide *;
    ReadyFacts(g, l, size, e);
    if k: nat :| lo <= k < |e.log.sub| && !IsConsumed(e.log, k) {
      IsPending(e.log, k);
      PartAt(g, e.bufs, lo, k);
      PendingUnexecuted(e.log, lo, k);
      var next, x := Serve(g, l, size, e, k, 0);
      ServedFacts(e.log, x);
      ServedPosted(e.log, x, lo);
      ReadyFacts(g, l, size, next);
      ConsumedWithin(next.log);
      t := PollRest(g, l, size, next, lo);
      IsStep(g, l, size, e, next);
      LeadsFrom(g, l, size, e, next, t);
      LedTwice(l, e.log, e.machine, next.log, next.machine, t.log, t.machine);
      LedForward(l, next, t);
      PollStep(e.log, x, t.log);
    } else {
      t := e;
      StaysLed(l, e);
      LeadsNowhere(g, l, size, e);
      PollNothing(e.log);
    }
  }

  lemma IsPending(a: Log, k: nat)
    requires a.consumed <= |a.posted| && k < |a.sub| && !IsConsumed(a, k)
    ensures Outstanding(a, k)
  {
  }

  lemma ConsumedWithin(a: Log)
    requires LogOk(a)
    ensures a.consumed <= |a.sub|
  {
    PostedBound(a);
  }

  lemma PendingUnexecuted(a: Log, lo: nat, k: nat)
    requires OwnPosted(a, lo) && |a.posted| == a.consumed && Outstanding(a, k) && lo <= k
    ensures !Executed(a.order, k)
  {
    forall i | 0 <= i < |a.order| ensures a.order[i].idx != k {
      assert a.order[i].idx >= lo ==> a.order[i] in a.posted;
    }
  }

  lemma ServedPosted(a: Log, e: Exec, lo: nat)
    requires OwnPosted(a, lo)
    requires Executed(a.order, e.idx) ==> e in a.order
    ensures OwnPosted(LogServed(a, e), lo)
  {
  }

  lemma LedForward(l: Layout, a: Snapshot, b: Snapshot)
    requires l.page > 0 && Led(l, a.log, a.machine, b.log, b.machine)
    ensures a.log.posted <= b.log.posted && a.log.consumed <= b.log.consumed
  {
  }

  lemma PollStep(a: Log, e: Exec, b: Log)
    requires e.stat == 0 && |a.posted| == a.consumed && LogServed(a, e).posted <= b.posted
    requires Polled(LogServed(a, e).consumed, b, 0)
    ensures Polled(a.consumed, b, 0)
  {
    assert LogServed(a, e).posted[a.consumed] == e;
  }

  lemma PollNothing(a: Log)
    requires a.consumed <= |a.posted|
    ensures Polled(a.consumed, a, 0)
  {
  }

  // ----- the theorem

  ghost function Between(lo: nat, hi: nat): (r: set<nat>)
    ensures forall n: nat :: n in r <==> lo <= n < hi
  {
    if hi <= lo then {} else Between(lo, hi - 1) + {hi - 1}
  }

  /** A way a request with these chunks can go that ends with result 0: steps of queue and controller
      lead from s to e, where it is submitted with room made for it, and on to b, where the poll has
      consumed all its commands. */
  ghost predicate EndsWithZero(g: Geometry, l: Layout, size: nat, s: Snapshot, e: Snapshot, b: Snapshot,
                               cs: seq<Chunk>, opc: int, nsid: int)
  {
    && Leads(g, l, size, s, e) && Leads(g, l, size, e, b)
    && Ready(g, l, size, e) && Requested(l, size, s, e, cs, opc, nsid)
    && Ready(g, l, size, b) && b.log.sub == e.log.sub && b.bufs == e.bufs
    && l.page > 0 && Led(l, e.log, e.machine, b.log, b.machine) && Polled(e.log.consumed, b.log, 0)
    && b.log.consumed <= |b.log.posted| && forall k: nat :: |s.log.sub| <= k < |b.log.sub| ==> IsConsumed(b.log, k)
  }

  /** Then all its commands succeeded. */
  ghost predicate AllSucceeded(s: Snapshot, b: Snapshot) {
    AllOk(b.log, Between(|s.log.sub|, |b.log.sub|))
  }

  /** If room is made with a completion that can be the request's own, its first command can fail
      and the result still be 0. */
  lemma CanHideError(g: Geometry, l: Layout, size: nat, s: Snapshot, opc: int, nsid: int, buf: int, slba: nat, nlb: nat, max: nat)
    returns (e: Snapshot, b: Snapshot)
    requires Ready(g, l, size, s) && g.wpp > 0 && Suits(g, l.block, max) && max > 0
    requires buf >= 0 && Describable(g, buf, nlb * l.block)
    requires !NoneHidden(size, s.log, CommandCount(nlb, max))
    ensures EndsWithZero(g, l, size, s, e, b, Chunks(slba, nlb, buf, max, l.block), opc, nsid)
    ensures !AllSucceeded(s, b) && Failed(b.log, |s.log.sub|)
  {
    hide *;
    var cs := Chunks(slba, nlb, buf, max, l.block);
    ChunksOk(g, l, slba, nlb, buf, max);
    ChunkCount(slba, nlb, buf, max, l.block);
    NothingFailed(g, l, size, s, opc, nsid);
    e := SubmitAllFailing(g, l, size, s, s, [], cs, opc, nsid);
    assert [] + cs == cs;
    HiddenMeans(size, s.log, |cs|);
    FailingFacts(g, l, size, s, e, cs, opc, nsid);
    RequestedCount(l, size, s, e, cs, opc, nsid);
    ReadyFacts(g, l, size, e);
    AllTaken(s.log, e.log);
    b := PollRest(g, l, size, e, |s.log.sub|);
    LedForward(l, e, b);
    FailedStays(e.log, b.log, |s.log.sub|);
    FailedNotAll(s, b);
    IsEnd(g, l, size, s, e, b, cs, opc, nsid);
  }

  lemma HiddenMeans(size: nat, a: Log, count: nat)
    requires !NoneHidden(size, a, count)
    ensures count >= 2 && Room(size, a, |a.sub| + count) > |a.posted|
  {
  }

  lemma AllTaken(a: Log, b: Log)
    requires FirstFails(a, b) && b.consumed > |a.posted|
    ensures |b.posted| == b.consumed && OwnPosted(b, |a.sub|)
  {
  }

  lemma FailedStays(a: Log, b: Log, n: nat)
    requires Failed(a, n) && a.posted <= b.posted && a.consumed <= b.consumed
    ensures Failed(b, n)
  {
    var k: nat :| k < a.consumed && k < |a.posted| && a.posted[k].idx == n && a.posted[k].stat != 0;
    assert b.posted[k] == a.posted[k];
  }

  lemma FailedNotAll(s: Snapshot, b: Snapshot)
    requires Failed(b.log, |s.log.sub|) && |b.log.sub| > |s.log.sub|
    ensures !AllSucceeded(s, b)
  {
    assert |s.log.sub| in Between(|s.log.sub|, |b.log.sub|);
  }

  lemma IsEnd(g: Geometry, l: Layout, size: nat, s: Snapshot, e: Snapshot, b: Snapshot, cs: seq<Chunk>, opc: int, nsid: int)
    requires Leads(g, l, size, s, e) && Leads(g, l, size, e, b)
    requires Ready(g, l, size, e) && Requested(l, size, s, e, cs, opc, nsid)
    requires Ready(g, l, size, b) && b.log.sub == e.log.sub && b.bufs == e.bufs
    requires l.page > 0 && Led(l, e.log, e.machine, b.log, b.machine) && Polled(e.log.consumed, b.log, 0)
    requires b.log.consumed <= |b.log.posted| && forall k: nat :: |s.log.sub| <= k < |b.log.sub| ==> IsConsumed(b.log, k)
    ensures EndsWithZero(g, l, size, s, e, b, cs, opc, nsid)
  {
    hide Ready, Requested, Led, Polled, IsConsumed, Leads;
  }

  /** Else result 0 means that all commands of the request succeeded. */
  lemma CannotHideError(g: Geometry, l: Layout, size: nat, s: Snapshot, e: Snapshot, b: Snapshot, cs: seq<Chunk>, opc: int, nsid: int)
    requires LogOk(s.log) && NoneHidden(size, s.log, |cs|) && EndsWithZero(g, l, size, s, e, b, cs, opc, nsid)
    ensures AllSucceeded(s, b)
  {
    hide Ready, Issued, Replay, IsConsumed, LogOk, NoneHidden, Leads;
    EarlyNotOwn(s, e, b.log, |s.log.sub|, size, |cs|);
  }

  /** Result 0 is reliable for a request exactly when no completion taken to make room for its
      commands can be one of its own.  The condition can be checked before the call. */
  lemma ResultZeroExact(g: Geometry, l: Layout, size: nat, s: Snapshot, opc: int, nsid: int, buf: int, slba: nat, nlb: nat, max: nat)
    requires Ready(g, l, size, s) && g.wpp > 0 && Suits(g, l.block, max) && max > 0
    requires buf >= 0 && Describable(g, buf, nlb * l.block)
    ensures (forall e, b :: EndsWithZero(g, l, size, s, e, b, Chunks(slba, nlb, buf, max, l.block), opc, nsid) ==> AllSucceeded(s, b))
            <==> NoneHidden(size, s.log, CommandCount(nlb, max))
  {
    hide *;
    var cs := Chunks(slba, nlb, buf, max, l.block);
    ChunkCount(slba, nlb, buf, max, l.block);
    ReadyFacts(g, l, size, s);
    if NoneHidden(size, s.log, CommandCount(nlb, max)) {
      forall e, b | EndsWithZero(g, l, size, s, e, b, cs, opc, nsid) ensures AllSucceeded(s, b) {
        CannotHideError(g, l, size, s, e, b, cs, opc, nsid);
      }
    } else {
      var e, b := CanHideError(g, l, size, s, opc, nsid, buf, slba, nlb, max);
    }
  }

  /** With nothing pending the condition is that the commands fit the queue. */
  lemma IdleCondition(size: nat, a: Log, count: nat)
    requires size >= 2 && |a.sub| == a.consumed == |a.posted|
    ensures NoneHidden(size, a, count) <==> count < size
  {
  }

  /** An input where result 0 is not reliable: on a new queue of the size the driver uses, a request
      of 2 MB on a controller with 4 KB pages and blocks that takes two pages a command. */
  lemma ZeroCanHideError(machine: Machine, words: seq<int>, opc: int, nsid: int, slba: nat)
    returns (s: Snapshot, e: Snapshot, b: Snapshot)
    requires |words| == Limits.IOQ_SIZE * 512
    ensures s == Snapshot(Log([], [], [], [], 0), machine, [], words)
    ensures var max := Limits.MaxBpio(12, 12, 1);
            max == 2 && CommandCount(512, max) == Limits.IOQ_SIZE && 512 * 4096 == 0x20_0000
            && EndsWithZero(Geometry(512, 0x100_0000), Layout(4096, 4096), Limits.IOQ_SIZE, s, e, b,
                            Chunks(slba, 512, 0, max, 4096), opc, nsid)
    ensures !AllSucceeded(s, b) && Failed(b.log, 0)
  {
    hide *;
    var g, l, max := Geometry(512, 0x100_0000), Layout(4096, 4096), Limits.MaxBpio(12, 12, 1);
    SmallTransfers();
    s := Snapshot(Log([], [], [], [], 0), machine, [], words);
    NewReady(g, l, Limits.IOQ_SIZE, s);
    IdleCondition(Limits.IOQ_SIZE, s.log, CommandCount(512, max));
    e, b := CanHideError(g, l, Limits.IOQ_SIZE, s, opc, nsid, 0, slba, 512, max);
  }

  lemma SmallTransfers()
    ensures var g, max := Geometry(512, 0x100_0000), Limits.MaxBpio(12, 12, 1);
            && g.Valid() && g.wpp == 512 && g.PageSize() == 4096 && g.ListStart(Limits.IOQ_SIZE) == Limits.IOQ_SIZE * 512
            && Limits.IOQ_SIZE == 256 && max == 2 && Suits(g, 4096, max) && CommandCount(512, max) == 256 && Describable(g, 0, 512 * 4096)
  {
    Limits.FourKilobytePages(12, 1, 0x100_0000);
    assert Limits.Pow2(4) == 16;
    Limits.Pow2Sum(4, 4);
    Limits.Pow2Sum(8, 4);
  }
}
