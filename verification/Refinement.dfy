/** The commands of a read or write, executed by the controller in any order and interleaved with
    the commands of others, amount to one memcpy between the namespace and the buffer. */
module Refinement {
  import opened Prp
  import opened Transfers
  import opened NvmeQueues
  import opened Pending
  import opened Chunking

  /** A read or write of nlb blocks whose commands, of at most max blocks each, are the submissions
      from position `from` on. */
  datatype Request = Request(from: nat, opc: int, nsid: int, buf: int, slba: nat, nlb: nat, max: nat)

  ghost function ChunksOf(l: Layout, r: Request): seq<Chunk>
    requires r.max > 0
  {
    Chunks(r.slba, r.nlb, r.buf, r.max, l.block)
  }

  function WholeOf(l: Layout, opc: int, buf: int, slba: nat, nlb: nat): Whole {
    Whole(opc, buf, slba * l.block, nlb * l.block)
  }

  /** The memcpy that a request stands for. */
  function Target(l: Layout, r: Request): Whole {
    WholeOf(l, r.opc, r.buf, r.slba, r.nlb)
  }

  ghost predicate Own(l: Layout, r: Request, k: nat)
    requires r.max > 0
  {
    r.from <= k < r.from + |ChunksOf(l, r)|
  }

  /** A command that does not touch the same bytes: its entries describe its buffer, reads may share
      the blocks, writes may share the buffer.  What a generic command does is not known, so it must
      not be a read or write by its code, and its buffer must be another one. */
  ghost predicate Bystander(g: Geometry, l: Layout, cmd: Command, b: Buf, w: Whole)
    requires g.wpp > 0
  {
    if cmd.Rw? then
      && Describable(g, b.addr, b.len)
      && (cmd.opc == w.opc == CMD_WRITE || BufferApart(b, w))
      && (cmd.opc == w.opc == CMD_READ || Offset(l, cmd) + Length(l, cmd) <= w.off || w.off + w.len <= Offset(l, cmd))
    else
      cmd.opc !in {CMD_READ, CMD_WRITE} && BufferApart(b, w)
  }

  ghost predicate BufferApart(b: Buf, w: Whole) {
    b.addr + b.len <= w.buf || w.buf + w.len <= b.addr
  }

  /** All commands that were pending at log a are bystanders. */
  ghost predicate PendingApart(g: Geometry, l: Layout, a: Log, bufs: seq<Buf>, w: Whole)
    requires g.wpp > 0 && a.consumed <= |a.posted|
  {
    forall k: nat :: Outstanding(a, k) && k < |bufs| ==> Bystander(g, l, a.sub[k], bufs[k], w)
  }

  /** All commands other than those of the request, pending at log a or submitted later, before or
      after it, are bystanders. */
  ghost predicate Bystanders(g: Geometry, l: Layout, a: Log, c: Log, bufs: seq<Buf>, r: Request)
    requires g.wpp > 0 && r.max > 0 && a.consumed <= |a.posted|
  {
    forall k: nat :: k < |c.sub| && k < |bufs| && !Own(l, r, k) && (k < |a.sub| ==> Outstanding(a, k)) ==>
                       Bystander(g, l, c.sub[k], bufs[k], Target(l, r))
  }

  /** From log a to log c the machine is the replay of what was executed, and that moved the bytes of
      the commands' buffers. */
  ghost predicate Span(g: Geometry, l: Layout, a: Log, m: Machine, c: Log, n: Machine, bufs: seq<Buf>) {
    && Positive(g, l) && l.page == g.PageSize()
    && LogOk(a) && LogOk(c) && Led(l, a, m, c, n) && Described(g, l, c.order, bufs)
  }

  /** After log a the commands of a request were submitted, with parts of the buffer that entries
      describe, and all were consumed with success. */
  ghost predicate Served(g: Geometry, l: Layout, a: Log, c: Log, bufs: seq<Buf>, r: Request) {
    && g.wpp > 0 && r.max > 0 && |a.sub| <= r.from
    && (forall x <- ChunksOf(l, r) :: Describable(g, x.addr, x.nlb * l.block))
    && Issued(c.sub, bufs, r.from, ChunksOf(l, r), r.opc, r.nsid, l.block)
    && forall k: nat :: Own(l, r, k) ==> Succeeded(c, k)
  }

  /** Submission k was consumed with success. */
  ghost predicate Succeeded(log: Log, k: nat) {
    exists i :: 0 <= i < log.consumed && i < |log.posted| && log.posted[i].idx == k && log.posted[i].stat == 0
  }

  /** A submission consumed with success was executed once, with that status. */
  lemma SuccessExecuted(log: Log, k: nat) returns (j: nat)
    requires LogOk(log) && Succeeded(log, k)
    ensures j < |log.order| && log.order[j].idx == k && log.order[j].stat == 0
    ensures forall i :: 0 <= i < |log.order| && log.order[i].idx == k ==> i == j
  {
    var p :| 0 <= p < log.consumed && p < |log.posted| && log.posted[p].idx == k && log.posted[p].stat == 0;
    assert log.posted[p] in log.order;
    j :| j < |log.order| && log.order[j] == log.posted[p];
  }

  /** An execution of one of the chunks moves its bytes of the request. */
  lemma OwnInStep(g: Geometry, l: Layout, e: Exec, bufs: seq<Buf>, c: Chunk, r: Request)
    requires Positive(g, l) && l.page == g.PageSize() && DescribedOne(g, l, e, bufs) && e.stat == 0
    requires IssuedOne(e.cmd, bufs[e.idx], c, r.opc, r.nsid, l.block) && InPlace(c, r.slba, r.nlb, r.buf, l.block)
    requires Describable(g, c.addr, c.nlb * l.block)
    ensures e.cmd.Rw? && InStep(l, e, Target(l, r))
    ensures Offset(l, e.cmd) - r.slba * l.block == (c.slba - r.slba) * l.block && Length(l, e.cmd) == c.nlb * l.block
  {
    hide ByteAddr;
    InPlaceBytes(c, r.slba, r.nlb, r.buf, l.block);
  }

  lemma BystanderIndependent(g: Geometry, l: Layout, e: Exec, bufs: seq<Buf>, w: Whole)
    requires Positive(g, l) && l.page == g.PageSize() && DescribedOne(g, l, e, bufs)
    requires Bystander(g, l, e.cmd, bufs[e.idx], w)
    ensures Independent(l, e, w)
  {
  }

  lemma SubExec(log: Log, i: nat)
    requires LogOk(log) && i < |log.order|
    ensures log.order[i].idx < |log.work| <= |log.sub| && log.order[i].cmd == log.sub[log.order[i].idx]
  {
  }

  /** Every execution of the span is one of the request's chunks, or independent of it. */
  lemma EachFits(g: Geometry, l: Layout, a: Log, m: Machine, c: Log, n: Machine, bufs: seq<Buf>, r: Request, i: nat)
    requires Span(g, l, a, m, c, n, bufs) && Served(g, l, a, c, bufs, r)
    requires a.consumed <= |a.posted| && g.wpp > 0 && Bystanders(g, l, a, c, bufs, r) && |a.order| <= i < |c.order|
    ensures var e := c.order[i];
            && (e.idx < |a.sub| ==> Outstanding(a, e.idx))
            && if Own(l, r, e.idx) then InStep(l, e, Target(l, r)) else Independent(l, e, Target(l, r))
  {
    hide Covers, Chunks, Replay, LogOk, IssuedOne, InPlace, Distinct, IsConsumed, Succeeded, Independent, InStep, Bystander, Offset, Length, Target;
    var e := c.order[i];
    SubExec(c, i);
    ExecutedLater(a, c, i);
    assert DescribedOne(g, l, e, bufs);
    if Own(l, r, e.idx) {
      var cs, k := ChunksOf(l, r), e.idx - r.from;
      ChunksTile(r.slba, r.nlb, r.buf, r.max, l.block);
      var j := SuccessExecuted(c, e.idx);
      assert IssuedOne(c.sub[r.from + k], bufs[r.from + k], cs[k], r.opc, r.nsid, l.block);
      OwnInStep(g, l, e, bufs, cs[k], r);
    } else {
      BystanderIndependent(g, l, e, bufs, Target(l, r));
    }
  }

  /** Every byte of the request was moved by the execution of its chunk. */
  lemma EachMoved(g: Geometry, l: Layout, a: Log, m: Machine, c: Log, n: Machine, bufs: seq<Buf>, r: Request, j: nat)
    requires Span(g, l, a, m, c, n, bufs) && Served(g, l, a, c, bufs, r) && j < r.nlb * l.block
    ensures MovedBySome(l, c.order[|a.order|..], Target(l, r), j)
  {
    hide Covers, Chunks, Replay, LogOk, InPlace, Distinct, Succeeded, InStep, Offset, Length, IssuedOne;
    var cs, w := ChunksOf(l, r), Target(l, r);
    ChunksTile(r.slba, r.nlb, r.buf, r.max, l.block);
    var k := ChunkOf(r.slba, r.nlb, r.buf, r.max, l.block, j);
    assert Own(l, r, r.from + k);
    var i := SuccessExecuted(c, r.from + k);
    SubExec(c, i);
    NotBefore(a, c, i);
    var es, e := c.order[|a.order|..], c.order[i];
    assert DescribedOne(g, l, e, bufs);
    assert IssuedOne(c.sub[r.from + k], bufs[r.from + k], cs[k], r.opc, r.nsid, l.block);
    OwnInStep(g, l, e, bufs, cs[k], r);
    assert es[i - |a.order|] == e;
    assert j in Part(l, e, w);
  }

  /** What was executed before log a is not of a later submission. */
  lemma NotBefore(a: Log, c: Log, i: nat)
    requires LogOk(a) && LogOk(c) && Progress(a, c) && i < |c.order| && c.order[i].idx >= |a.sub|
    ensures i >= |a.order|
  {
  }

  /** Refinement: store and memory end up exactly as after the commands of others, pending before or
      submitted while the request was in progress, and one memcpy. */
  lemma RequestRefinesMemcpy(g: Geometry, l: Layout, a: Log, m: Machine, c: Log, n: Machine, bufs: seq<Buf>, r: Request)
    requires Span(g, l, a, m, c, n, bufs) && Served(g, l, a, c, bufs, r)
    requires a.consumed <= |a.posted| && g.wpp > 0 && Bystanders(g, l, a, c, bufs, r) && InRange(m, Target(l, r))
    ensures var w, others := Target(l, r), Others(l, c.order[|a.order|..], Target(l, r));
            InRange(Replay(m, l, others), w) && n == Memcpy(Replay(m, l, others), w)
    ensures (forall k: nat :: k < |c.sub| && !Own(l, r, k) ==> k < |a.sub| && !Outstanding(a, k)) ==> n == Memcpy(m, Target(l, r))
  {
    hide *;
    SpanFacts(g, l, a, m, c, n, bufs);
    ServedMax(g, l, a, c, bufs, r);
    var es, w := c.order[|a.order|..], Target(l, r);
    forall i | 0 <= i < |es|
      ensures if Own(l, r, es[i].idx) then InStep(l, es[i], w) else Independent(l, es[i], w)
      ensures es[i].idx < |c.sub| && (es[i].idx < |a.sub| ==> Outstanding(a, es[i].idx))
    {
      EachFits(g, l, a, m, c, n, bufs, r, |a.order| + i);
      SubExec(c, |a.order| + i);
    }
    forall j | 0 <= j < w.len ensures MovedBySome(l, es, w, j) {
      TargetLength(l, r);
      EachMoved(g, l, a, m, c, n, bufs, r, j);
    }
    ChunksRefineMemcpy(m, l, es, w);
    if forall k: nat :: k < |c.sub| && !Own(l, r, k) ==> k < |a.sub| && !Outstanding(a, k) {
      OthersNone(l, es, w);
      ReplayNone(m, l);
    }
  }

  lemma ReplayNone(m: Machine, l: Layout)
    requires l.page > 0
    ensures Replay(m, l, []) == m
  {
  }

  lemma SpanFacts(g: Geometry, l: Layout, a: Log, m: Machine, c: Log, n: Machine, bufs: seq<Buf>)
    requires Span(g, l, a, m, c, n, bufs)
    ensures a.consumed <= |a.posted| && l.page > 0 && |a.order| <= |c.order| && LogOk(c)
    ensures n == Replay(m, l, c.order[|a.order|..])
  {
    hide Described, Replay;
  }

  lemma ServedMax(g: Geometry, l: Layout, a: Log, c: Log, bufs: seq<Buf>, r: Request)
    requires Served(g, l, a, c, bufs, r)
    ensures g.wpp > 0 && r.max > 0
  {
  }

  lemma TargetLength(l: Layout, r: Request)
    ensures Target(l, r).len == r.nlb * l.block
  {
  }

  lemma {:induction false} OthersNone(l: Layout, es: seq<Exec>, w: Whole)
    requires l.page > 0 && forall i :: 0 <= i < |es| ==> InStep(l, es[i], w)
    ensures Others(l, es, w) == []
    decreases |es|
  {
    hide InStep;
    if es != [] {
      OthersNone(l, es[..|es| - 1], w);
    }
  }

  // ----- requests in flight at the same time

  lemma {:induction false} OthersAre(l: Layout, es: seq<Exec>, w: Whole)
    requires l.page > 0
    ensures forall e :: e in Others(l, es, w) <==> e in es && !InStep(l, e, w)
    decreases |es|
  {
    hide InStep;
    if es != [] {
      var n := |es| - 1;
      OthersAre(l, es[..n], w);
      assert es == es[..n] + [es[n]];
    }
  }

  /** A transfer of some bytes is not both part of a memcpy and independent of it. */
  lemma NotBoth(l: Layout, e: Exec, w: Whole)
    requires l.page > 0 && InStep(l, e, w) && Length(l, e.cmd) > 0
    ensures !Independent(l, e, w)
  {
    var k := Offset(l, e.cmd) - w.off;
    assert ByteAddr(l.page, e.pages, 0) == w.buf + k + 0;
  }

  /** Two requests served in the same span, neither touching the bytes of the other, amount to both
      memcpys after the commands of others, in whatever order their commands were executed. */
  lemma TwoRequestsRefine(g: Geometry, l: Layout, a: Log, m: Machine, c: Log, n: Machine, bufs: seq<Buf>, r: Request, s: Request)
    requires Span(g, l, a, m, c, n, bufs) && Served(g, l, a, c, bufs, r) && Served(g, l, a, c, bufs, s)
    requires forall k: nat :: !(Own(l, r, k) && Own(l, s, k))
    requires a.consumed <= |a.posted| && g.wpp > 0 && Bystanders(g, l, a, c, bufs, r) && Bystanders(g, l, a, c, bufs, s)
    requires InRange(m, Target(l, r)) && InRange(m, Target(l, s))
    ensures var v, w := Target(l, r), Target(l, s);
            var others := Others(l, Others(l, c.order[|a.order|..], v), w);
            && InRange(Replay(m, l, others), w)
            && InRange(Memcpy(Replay(m, l, others), w), v)
            && n == Memcpy(Memcpy(Replay(m, l, others), w), v)
  {
    hide *;
    SpanFacts(g, l, a, m, c, n, bufs);
    ServedMax(g, l, a, c, bufs, r);
    ServedMax(g, l, a, c, bufs, s);
    RequestRefinesMemcpy(g, l, a, m, c, n, bufs, r);
    var es, v, w := c.order[|a.order|..], Target(l, r), Target(l, s);
    var rest := Others(l, es, v);
    OthersAre(l, es, v);
    forall i | 0 <= i < |es|
      ensures if Own(l, r, es[i].idx) then InStep(l, es[i], v) else Independent(l, es[i], v)
      ensures if Own(l, s, es[i].idx) then InStep(l, es[i], w) else Independent(l, es[i], w)
    {
      EachFits(g, l, a, m, c, n, bufs, r, |a.order| + i);
      EachFits(g, l, a, m, c, n, bufs, s, |a.order| + i);
    }
    forall i | 0 <= i < |rest| ensures InStep(l, rest[i], w) || Independent(l, rest[i], w) {
      assert rest[i] in es;
    }
    forall j | 0 <= j < w.len ensures MovedBySome(l, rest, w, j) {
      TargetLength(l, s);
      EachMoved(g, l, a, m, c, n, bufs, s, j);
      var i := MoverOf(l, es, w, j);
      NotBoth(l, es[i], w);
      assert Own(l, s, es[i].idx);
      if InStep(l, es[i], v) { NotBoth(l, es[i], v); }
      assert es[i] in rest;
      MovedIn(l, rest, w, es[i], j);
    }
    ChunksRefineMemcpy(m, l, rest, w);
  }

  lemma MoverOf(l: Layout, es: seq<Exec>, w: Whole, j: int) returns (i: nat)
    requires l.page > 0 && MovedBySome(l, es, w, j)
    ensures i < |es| && InStep(l, es[i], w) && es[i].cmd.Rw? && j in Part(l, es[i], w) && Length(l, es[i].cmd) > 0
  {
    i :| 0 <= i < |es| && InStep(l, es[i], w) && j in Part(l, es[i], w);
  }

  lemma MovedIn(l: Layout, es: seq<Exec>, w: Whole, e: Exec, j: int)
    requires l.page > 0 && e in es && InStep(l, e, w) && j in Part(l, e, w)
    ensures MovedBySome(l, es, w, j)
  {
  }
}
