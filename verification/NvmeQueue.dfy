/** A submission and completion queue pair, with the host side of the driver and an abstract
    controller that follows sections 4.1 and 4.6 of NVM Express revision 1.2: it fetches commands
    in order, executes and completes them in any order, and posts completions with a phase tag. */
module NvmeQueues {
  import opened Ring
  import opened Prp
  import opened Transfers

  /** Completion entry; psf holds the phase tag in bit 0 and the status above it. */
  datatype Cqe = Cqe(cs: int, cid: nat, psf: nat)

  /** What happened so far: commands submitted, the prefix the controller has fetched, executions
      in the order they took place, completions in posting order, and how many were consumed. */
  datatype Log = Log(sub: seq<Command>, work: seq<Command>, order: seq<Exec>, posted: seq<Exec>, consumed: nat)

  ghost predicate Distinct(s: seq<Exec>) {
    forall i, j :: 0 <= i < j < |s| ==> s[i].idx != s[j].idx
  }

  ghost predicate LogOk(log: Log) {
    && |log.work| <= |log.sub| && log.work == log.sub[..|log.work|]
    && (forall i :: 0 <= i < |log.order| ==> Honest(log.order[i], log.work))
    && Distinct(log.order) && Distinct(log.posted)
    && (forall i :: 0 <= i < |log.posted| ==> log.posted[i] in log.order)
    && log.consumed <= |log.posted|
  }

  /** An execution is of a fetched command; entries that describe no transfer are an error. */
  ghost predicate Honest(e: Exec, work: seq<Command>) {
    && e.idx < |work| && e.cmd == work[e.idx]
    && e.stat % 2 == 0
    && (e.cmd.Rw? && e.pages == [] ==> e.stat != 0)
  }

  lemma DistinctBound(s: seq<Exec>, n: nat)
    requires Distinct(s) && forall i :: 0 <= i < |s| ==> s[i].idx < n
    ensures |s| <= n
  {
    if s != [] {
      assert s[0].idx < n;
      if k :| 0 <= k < |s| && s[k].idx == n - 1 {
        var r := s[..k] + s[k + 1..];
        assert forall i :: 0 <= i < |r| ==> r[i] == s[if i < k then i else i + 1];
        DistinctBound(r, n - 1);
      } else {
        DistinctBound(s, n - 1);
      }
    }
  }

  lemma Unfetched(log: Log)
    requires LogOk(log)
    ensures |log.work| <= |log.sub| && log.consumed <= |log.work|
  {
    PostedBound(log);
  }

  lemma PostedBound(log: Log)
    requires LogOk(log)
    ensures |log.posted| <= |log.work|
  {
    DistinctBound(log.posted, |log.work|);
  }

  /** Things only get added to the log. */
  ghost predicate Progress(a: Log, b: Log) {
    && a.sub <= b.sub && a.consumed <= b.consumed
    && a.work <= b.work && a.order <= b.order && a.posted <= b.posted
  }

  /** Only the controller added to it. */
  ghost predicate DeviceProgress(a: Log, b: Log) {
    Progress(a, b) && b.sub == a.sub && b.consumed == a.consumed
  }

  ghost predicate IsConsumed(log: Log, n: nat)
    requires log.consumed <= |log.posted|
  {
    exists k :: 0 <= k < log.consumed && log.posted[k].idx == n
  }

  /** Submission n has not been consumed by the host yet. */
  ghost predicate Outstanding(log: Log, n: nat)
    requires log.consumed <= |log.posted|
  {
    n < |log.sub| && !IsConsumed(log, n)
  }

  ghost predicate Positive(g: Geometry, l: Layout) {
    g.wpp > 0 && l.page > 0
  }

  function PagesOf(g: Geometry, l: Layout, c: Command, words: seq<int>): seq<int>
    requires g.wpp > 0
  {
    if c.Rw? then
      match Decode(g, c.prps, Length(l, c), words)
      case Transfer(pages) => pages
      case Invalid => []
    else []
  }

  /** From log a and machine m to log b and machine n: the machine is the replay of the new
      executions. */
  ghost predicate Led(l: Layout, a: Log, m: Machine, b: Log, n: Machine)
    requires l.page > 0
  {
    Progress(a, b) && n == Replay(m, l, b.order[|a.order|..])
  }

  lemma LedTwice(l: Layout, a: Log, m: Machine, b: Log, n: Machine, c: Log, o: Machine)
    requires l.page > 0 && Led(l, a, m, b, n) && Led(l, b, n, c, o)
    ensures Led(l, a, m, c, o)
  {
    hide Effect;
    ReplayConcat(m, l, b.order[|a.order|..], c.order[|b.order|..]);
    assert b.order[|a.order|..] + c.order[|b.order|..] == c.order[|a.order|..];
  }

  lemma LedSubmit(l: Layout, a: Log, m: Machine, b: Log, n: Machine, cmd: Command)
    requires l.page > 0 && Led(l, a, m, b, n)
    ensures Led(l, a, m, b.(sub := b.sub + [cmd]), n)
  {
  }

  /** The same, with the given words in the PRP list area: the new executions moved the pages
      their entries describe. */
  ghost predicate Ran(g: Geometry, l: Layout, words: seq<int>, a: Log, m: Machine, b: Log, n: Machine)
    requires Positive(g, l)
  {
    && Led(l, a, m, b, n)
    && forall i :: |a.order| <= i < |b.order| ==> b.order[i].pages == PagesOf(g, l, b.order[i].cmd, words)
  }

  lemma RanTwice(g: Geometry, l: Layout, words: seq<int>, a: Log, m: Machine, b: Log, n: Machine, c: Log, o: Machine)
    requires Positive(g, l)
    requires Ran(g, l, words, a, m, b, n) && Ran(g, l, words, b, n, c, o)
    ensures Ran(g, l, words, a, m, c, o)
  {
    hide PagesOf;
    LedTwice(l, a, m, b, n, c, o);
  }

  lemma RanIdle(g: Geometry, l: Layout, words: seq<int>, a: Log, b: Log, m: Machine)
    requires Positive(g, l) && Progress(a, b) && b.order == a.order
    ensures Ran(g, l, words, a, m, b, m)
  {
  }

  predicate Executed(order: seq<Exec>, n: nat) {
    exists i :: 0 <= i < |order| && order[i].idx == n
  }

  lemma RanOnce(g: Geometry, l: Layout, words: seq<int>, a: Log, m: Machine, e: Exec)
    requires Positive(g, l) && e.pages == PagesOf(g, l, e.cmd, words)
    ensures Ran(g, l, words, a, m, a.(order := a.order + [e]), Effect(m, l, e))
  {
  }

  /** The entry the controller writes for the n-th completion. */
  function Entry(e: Exec, n: nat, size: nat): Cqe
    requires size > 0
  {
    Cqe(e.cs, e.cmd.cid, e.stat + 1 - Lap(n, size))
  }

  ghost predicate KeepsUnfetched(ring: seq<Command>, work: seq<Command>, sub: seq<Command>)
    requires |ring| > 0
  {
    forall n: nat :: |work| <= n < |sub| ==> ring[Slot(n, |ring|)] == sub[n]
  }

  ghost predicate KeepsPosted(ring: seq<Cqe>, posted: seq<Exec>)
    requires |ring| > 0
  {
    && (forall n: nat :: n < |posted| <= n + |ring| ==> ring[Slot(n, |ring|)] == Entry(posted[n], n, |ring|))
    && (forall i :: |posted| <= i < |ring| ==> ring[i].psf % 2 == 0)
  }

  /** Writing one more entry at the tail keeps the others. */
  lemma KeepsOneMoreUnfetched(ring: seq<Command>, work: seq<Command>, sub: seq<Command>, c: Command)
    requires |ring| > 0 && |work| <= |sub| < |work| + |ring| && KeepsUnfetched(ring, work, sub)
    ensures KeepsUnfetched(ring[Slot(|sub|, |ring|) := c], work, sub + [c])
  {
    hide Slot;
    forall m: nat | |work| <= m < |sub| ensures Slot(m, |ring|) != Slot(|sub|, |ring|) {
      SlotsApart(m, |sub|, |ring|);
    }
  }

  lemma KeepsFewerUnfetched(ring: seq<Command>, work: seq<Command>, sub: seq<Command>, c: Command)
    requires |ring| > 0 && KeepsUnfetched(ring, work, sub + [c])
    ensures KeepsUnfetched(ring, work, sub)
  {
  }

  lemma KeepsOneMorePosted(ring: seq<Cqe>, posted: seq<Exec>, e: Exec)
    requires |ring| > 0 && KeepsPosted(ring, posted)
    ensures KeepsPosted(ring[Slot(|posted|, |ring|) := Entry(e, |posted|, |ring|)], posted + [e])
  {
    hide Slot, Lap;
    var n := |posted|;
    if n < |ring| { FirstLap(n, |ring|); }
    forall m: nat | m < n && n < m + |ring| ensures Slot(m, |ring|) != Slot(n, |ring|) {
      SlotsApart(m, n, |ring|);
    }
  }

  class NvmeQueue {
    const size: nat
    const g: Geometry
    const l: Layout
    // memory shared with the controller
    const sq: array<Command>
    const cq: array<Cqe>
    const list: array<int>
    // host registers
    var sqTail: nat
    var cqHead: nat
    var cqPhase: nat
    // doorbells and controller registers
    var sqDoorbell: nat
    var cqDoorbell: nat
    var devHead: nat
    var devTail: nat
    var devPhase: nat
    var log: Log
    ghost var machine: Machine
    /** How often the host has looked for a completion since the last submission. */
    ghost var looks: nat

    ghost predicate Valid()
      reads this`sqTail, this`cqHead, this`cqPhase, this`sqDoorbell, this`cqDoorbell
      reads this`devHead, this`devTail, this`devPhase, this`log, sq, cq
    {
      && size >= 2 && sq.Length == size && cq.Length == size
      && g.Valid() && l.page == g.PageSize()
      && LogOk(log)
      // at most size - 1 commands are outstanding
      && |log.sub| - log.consumed < size
      && sqTail == Slot(|log.sub|, size) && sqDoorbell == sqTail && devHead == Slot(|log.work|, size)
      && cqHead == Slot(log.consumed, size) && cqDoorbell == cqHead && cqPhase == Lap(log.consumed, size)
      && devTail == Slot(|log.posted|, size) && devPhase == 1 - Lap(|log.posted|, size)
      // no unfetched submission and no unconsumed completion has been overwritten
      && KeepsUnfetched(sq[..], log.work, log.sub)
      && KeepsPosted(cq[..], log.posted)
    }

    /** A new queue on a zeroed completion ring. */
    constructor (size: nat, g: Geometry, l: Layout, blank: Command, machine: Machine)
      requires size >= 2 && g.Valid() && l.page == g.PageSize()
      ensures Valid() && fresh(sq) && fresh(cq) && fresh(list)
      ensures this.size == size && this.g == g && this.l == l && this.machine == machine
      ensures log == Log([], [], [], [], 0) && list.Length == g.ListStart(size)
    {
      FirstLap(0, size);
      this.size, this.g, this.l, this.machine := size, g, l, machine;
      sq := new Command[size](_ => blank);
      cq := new Cqe[size](_ => Cqe(0, 0, 0));
      list := new int[size * g.wpp];
      sqTail, cqHead, cqPhase, sqDoorbell, cqDoorbell := 0, 0, 0, 0, 0;
      devHead, devTail, devPhase := 0, 0, 1;
      log := Log([], [], [], [], 0);
      looks := 0;
    }

    // ----- the controller

    /** The controller reads the entry at its head, as long as the doorbell is ahead of it: what
        it reads is the oldest command not fetched yet. */
    method Fetch()
      requires Valid()
      modifies this`devHead, this`log
      ensures Valid() && Ran(g, l, list[..], old(log), machine, log, machine)
      ensures DeviceProgress(old(log), log)
      ensures |old(log).work| == |log.sub| ==> log == old(log)
      ensures |old(log).work| < |log.sub| ==> log == old(log).(work := log.sub[..|old(log).work| + 1])
    {
      hide Slot, Lap, Honest, Distinct, Ran;
      PostedBound(log);
      var n := |log.work|;
      Advance(n, size);
      if n < |log.sub| { SlotsApart(n, |log.sub|, size); }
      if devHead != sqDoorbell {
        log := log.(work := log.work + [sq[devHead]]);
        devHead := if devHead + 1 == size then 0 else devHead + 1;
        HonestMore(log.order, old(log).work, log.work);
      }
      RanIdle(g, l, list[..], old(log), log, machine);
    }

    /** The controller executes any fetched command it has not executed yet, moving data between
        the store and the pages it finds in the PRP entries; it may fail the command, and has to
        when the entries describe no transfer. */
    method Execute(n: nat, stat: nat, cs: int)
      requires Valid() && n < |log.work| && stat % 2 == 0
      requires !Executed(log.order, n)
      modifies this`log, this`machine
      ensures Valid() && Ran(g, l, list[..], old(log), old(machine), log, machine)
      ensures DeviceProgress(old(log), log)
      ensures var c := log.work[n];
              var pages := PagesOf(g, l, c, list[..]);
              var e := Exec(n, c, if c.Rw? && pages == [] && stat == 0 then 2 else stat, cs, pages);
              log == old(log).(order := old(log).order + [e]) && machine == Effect(old(machine), l, e)
    {
      hide Slot, Lap, KeepsUnfetched, KeepsPosted;
      var c := log.work[n];
      var pages := PagesOf(g, l, c, list[..]);
      var e := Exec(n, c, if c.Rw? && pages == [] && stat == 0 then 2 else stat, cs, pages);
      RanOnce(g, l, list[..], log, machine, e);
      machine := Effect(machine, l, e);
      log := log.(order := log.order + [e]);
    }

    /** The controller posts the completion of any executed command, without looking at how far
        the host has consumed. */
    method Post(i: nat)
      requires Valid() && i < |log.order| && log.order[i] !in log.posted
      modifies this`devTail, this`devPhase, this`log, cq
      ensures Valid() && Ran(g, l, list[..], old(log), machine, log, machine)
      ensures DeviceProgress(old(log), log)
      ensures log == old(log).(posted := old(log).posted + [log.order[i]])
    {
      hide Slot, Lap, LogOk, Ran, KeepsUnfetched, KeepsPosted;
      var e := log.order[i];
      Advance(|log.posted|, size);
      KeepsOneMorePosted(cq[..], log.posted, e);
      cq[devTail] := Cqe(e.cs, e.cmd.cid, e.stat + devPhase);
      devPhase := if devTail + 1 == size then 1 - devPhase else devPhase;
      devTail := if devTail + 1 == size then 0 else devTail + 1;
      PostOk(log, i);
      log := log.(posted := log.posted + [e]);
      RanIdle(g, l, list[..], old(log), log, machine);
    }

    /** Any number of controller steps, in any order, continuing a run from a given start. */
    method DeviceRuns(ghost a0: Log, ghost m0: Machine)
      requires Valid() && Positive(g, l) && Ran(g, l, list[..], a0, m0, log, machine)
      modifies this`devHead, this`devTail, this`devPhase, this`log, this`machine, cq
      ensures Valid() && Ran(g, l, list[..], a0, m0, log, machine)
      ensures DeviceProgress(old(log), log)
    {
      hide NvmeQueue.Valid, Ran, Effect, PagesOf;
      var steps: nat := *;
      while steps > 0
        invariant Valid() && Ran(g, l, list[..], a0, m0, log, machine)
        invariant DeviceProgress(old(log), log)
        invariant unchanged(list)
        decreases steps
      {
        ghost var a, m := log, machine;
        if * {
          Fetch();
        } else if * {
          if n: nat :| n < |log.work| && !Executed(log.order, n) {
            var stat: nat, cs: int := *, *;
            Execute(n, stat / 2 * 2, cs);
          }
        } else {
          if i: nat :| i < |log.order| && log.order[i] !in log.posted {
            Post(i);
          }
        }
        if a != log || m != machine {
          RanTwice(g, l, list[..], a0, m0, a, m, log, machine);
        }
        steps := steps - 1;
      }
    }

    lemma StartsEmpty()
      requires Valid()
      ensures Positive(g, l) && Ran(g, l, list[..], log, machine, log, machine)
    {
    }

    // ----- the host

    /** Fill the entry at the tail; it is not one the controller may still fetch. */
    method WriteEntry(cmd: Command)
      requires Valid()
      modifies sq
      ensures Valid() && sqTail < sq.Length && sq[sqTail] == cmd
    {
      hide Slot, Lap, LogOk, KeepsUnfetched, KeepsPosted;
      PostedBound(log);
      Advance(|log.sub|, size);
      Unfetched(log);
      KeepsOneMoreUnfetched(sq[..], log.work, log.sub, cmd);
      sq[sqTail] := cmd;
      KeepsFewerUnfetched(sq[..], log.work, log.sub, cmd);
    }

    /** Move the tail past the entry and ring the doorbell; there is no full check, the caller
        keeps at most size - 1 commands outstanding. */
    method SubmitCmd() returns (r: int)
      requires Valid() && |log.sub| + 1 - log.consumed < size && sqTail < sq.Length
      modifies this`sqTail, this`sqDoorbell, this`log, this`looks
      ensures Valid() && r == 0 && looks == 0
      ensures log == old(log).(sub := old(log).sub + [sq[old(sqTail)]])
    {
      hide Slot, Lap, Honest, Distinct, KeepsUnfetched, KeepsPosted;
      PostedBound(log);
      Advance(|log.sub|, size);
      KeepsOneMoreUnfetched(sq[..], log.work, log.sub, sq[sqTail]);
      assert sq[..][sqTail := sq[sqTail]] == sq[..];
      log := log.(sub := log.sub + [sq[sqTail]]);
      var tail := sqTail + 1;
      if tail == size {
        tail := 0;
      }
      sqTail := tail;
      sqDoorbell := tail;
      looks := 0;
      return 0;
    }

    /** The phase test of the entry at the head succeeds exactly when the controller has posted a
        completion the host has not consumed. */
    lemma PhaseExact()
      requires Valid()
      ensures cqHead == Slot(log.consumed, size) < cq.Length
      ensures cq[cqHead].psf % 2 == cqPhase <==> |log.posted| == log.consumed
      ensures log.consumed < |log.posted| ==> cq[cqHead] == Entry(log.posted[log.consumed], log.consumed, size)
    {
      hide Slot, Lap;
      PostedBound(log);
      var n := log.consumed;
      Advance(n, size);
      LapBit(n, size);
      if n == |log.posted| {
        if n < size {
          FirstLap(n, size);
        } else {
          LapOn(n - size, size);
          LapBit(n - size, size);
          StatusEven(log, n - size);
          assert cq[Slot(n - size, size)] == Entry(log.posted[n - size], n - size, size);
        }
      } else {
        StatusEven(log, n);
        assert cq[Slot(n, size)] == Entry(log.posted[n], n, size);
      }
    }

    // ----- completions

    /** An entry stays in place until the controller comes round to its slot again. */
    lemma EntryStays(n: nat)
      requires Valid() && n < |log.posted| && |log.sub| < n + size
      ensures Slot(n, size) < cq.Length && cq[Slot(n, size)] == Entry(log.posted[n], n, size)
      ensures cq[Slot(n, size)].psf / 2 * 2 == log.posted[n].stat
    {
      hide Slot, Lap;
      PostedBound(log);
      Advance(n, size);
      LapBit(n, size);
      StatusEven(log, n);
    }

    /** The outcome is that of the completion consumed last. */
    ghost predicate Accepted(cid: int, stat: nat, cs: int)
      reads this
    {
      && 0 < log.consumed <= |log.posted|
      && (var e := log.posted[log.consumed - 1];
          cid == e.cmd.cid && stat == e.stat && cs == e.cs)
    }

    lemma Window()
      requires Valid()
      ensures |log.sub| < log.consumed + size && size >= 2 && Positive(g, l) && g.Valid() && LogOk(log)
    {
    }

    /** Move the head past the entry, change the expected phase at the wrap, ring the doorbell. */
    method TakeHead(ghost a0: Log, ghost m0: Machine)
      requires Valid() && log.consumed < |log.posted|
      requires Positive(g, l) && Ran(g, l, list[..], a0, m0, log, machine)
      modifies this`cqHead, this`cqPhase, this`cqDoorbell, this`log
      ensures Valid() && Ran(g, l, list[..], a0, m0, log, machine)
      ensures log == old(log).(consumed := old(log).consumed + 1)
    {
      hide Slot, Lap, LogOk, Effect, PagesOf, KeepsUnfetched, KeepsPosted;
      Advance(log.consumed, size);
      assert Progress(a0, log);
      cqHead := cqHead + 1;
      if cqHead == size {
        cqHead := 0;
        cqPhase := 1 - cqPhase;
      }
      cqDoorbell := cqHead;
      Consume(log);
      log := log.(consumed := log.consumed + 1);
    }

    /** Accept the completion at the head of the completion ring if its phase tag says it is new.
        The controller may run between any two accesses to the ring; the command id is read last,
        after the doorbell has been written. */
    method CheckCompletion() returns (cid: int, stat: nat, cs: int)
      requires Valid()
      modifies this`cqHead, this`cqPhase, this`cqDoorbell, this`looks
      modifies this`devHead, this`devTail, this`devPhase, this`log, this`machine, cq
      ensures Valid() && Positive(g, l) && Ran(g, l, list[..], old(log), old(machine), log, machine)
      ensures Progress(old(log), log) && log.sub == old(log).sub && looks == old(looks) + 1
      ensures cid == -1 ==> stat == 0 && log.consumed == old(log).consumed == |log.posted|
      ensures cid != -1 ==> log.consumed == old(log).consumed + 1 && Accepted(cid, stat, cs)
    {
      hide NvmeQueue.Valid, Ran, Slot, Lap;
      ghost var a, m := log, machine;
      StartsEmpty();
      DeviceRuns(a, m);
      PhaseExact();
      looks := looks + 1;
      if cq[cqHead].psf % 2 == cqPhase {
        return -1, 0, 0;
      }
      var cqe := cqHead;
      Window();
      ghost var n := log.consumed;
      DeviceRuns(a, m);
      EntryStays(n);
      stat := cq[cqe].psf / 2 * 2;
      DeviceRuns(a, m);
      EntryStays(n);
      cs := cq[cqe].cs;
      TakeHead(a, m);
      DeviceRuns(a, m);
      EntryStays(n);
      cid := cq[cqe].cid;
    }

    // ----- lock-step commands of the admin queue

    /** Nothing is outstanding.  The ring indices agree then, also after wraps. */
    ghost predicate Idle()
      reads this
    {
      |log.sub| == log.consumed
    }

    lemma IdleHeads()
      requires Valid() && Idle()
      ensures sqTail == cqHead == Slot(|log.posted|, size) < sq.Length && |log.posted| == |log.sub|
      ensures forall i :: 0 <= i < |log.posted| ==> log.posted[i].idx < |log.sub|
    {
      hide Slot, Lap;
      PostedBound(log);
      Advance(log.consumed, size);
    }

    /** Wait for the only outstanding command: -1 on timeout, after at least one look, when it has not
        been completed; else its status if it is the one waited for, and -1 if not. */
    method WaitCompletion(cid: nat) returns (r: int)
      requires Valid() && |log.sub| == log.consumed + 1
      requires forall i :: 0 <= i < log.consumed <= |log.posted| ==> log.posted[i].idx < log.consumed
      modifies this`cqHead, this`cqPhase, this`cqDoorbell, this`looks
      modifies this`devHead, this`devTail, this`devPhase, this`log, this`machine, cq
      ensures Valid() && log.sub == old(log).sub && looks > old(looks)
      ensures (r == -1 && log.consumed == old(log).consumed == |log.posted|) || Idle()
      ensures Idle() ==> if log.sub[old(log).consumed].cid == cid then r != -1 && Answered(r) else r == -1
    {
      hide NvmeQueue.Valid, Slot, Lap, LogOk, Ran;
      ghost var a, before := log, looks;
      Window();
      var polls: nat := *;
      while true
        invariant Valid() && log.sub == a.sub && log.consumed == a.consumed && a.posted <= log.posted && looks >= before
        decreases polls
      {
        var ret, stat, cs := CheckCompletion();
        if ret >= 0 {
          Window();
          OnlyOne(log);
          if ret == cid && stat == 0 {
            return 0;
          }
          return if ret != cid then -1 else stat;
        }
        if polls == 0 {
          return -1;
        }
        polls := polls - 1;
      }
    }

    /** The last completion is that of the last command, with status r. */
    ghost predicate Answered(r: int)
      reads this
    {
      && 0 < |log.sub| == |log.posted|
      && (var e := log.posted[|log.posted| - 1];
          e.idx == |log.sub| - 1 && e.cmd == log.sub[|log.sub| - 1] && e.stat == r)
    }

    /** A synchronous admin command such as get or set features: the result is read from the
        completion ring entry with the command's own id as index. */
    method AdminCmd(opc: int, nsid: int, prps: Prps, cdw: seq<int>) returns (r: int, res: int)
      requires Valid() && Idle()
      modifies this`sqTail, this`sqDoorbell, this`log, sq
      modifies this`cqHead, this`cqPhase, this`cqDoorbell, this`looks
      modifies this`devHead, this`devTail, this`devPhase, this`machine, cq
      ensures Valid() && log.sub == old(log).sub + [Vendor(opc, old(sqTail), nsid, prps, cdw)]
      ensures r == -1 ==> |log.sub| == log.consumed + 1 && log.consumed == |log.posted| && looks > 0
      ensures r != -1 ==> Idle() && sqTail == cqHead && Answered(r)
      ensures r == 0 ==> res == log.posted[|log.posted| - 1].cs
      ensures r != 0 ==> res == -1
    {
      hide NvmeQueue.Valid, Slot, Lap, LogOk, Ran;
      IdleHeads();
      Window();
      var cid := sqTail;
      res := -1;
      WriteEntry(Vendor(opc, cid, nsid, prps, cdw));
      StartsEmpty();
      DeviceRuns(log, machine);
      IdleHeads();
      Window();
      r := SubmitCmd();
      if r == 0 {
        r := WaitCompletion(cid);
      }
      if r == 0 {
        ghost var a, m := log, machine;
        IdleHeads();
        StartsEmpty();
        DeviceRuns(a, m);
        IdleHeads();
        EntryStays(|log.posted| - 1);
        res := cq[cid].cs;
      }
      if Idle() { IdleHeads(); }
    }
  }

  /** When all commands have completed, the last completion is that of the last command. */
  lemma OnlyOne(log: Log)
    requires LogOk(log) && |log.sub| == log.consumed > 0
    requires forall i :: 0 <= i < |log.sub| - 1 ==> log.posted[i].idx < |log.sub| - 1
    ensures |log.posted| == |log.sub|
    ensures log.posted[|log.sub| - 1].idx == |log.sub| - 1
    ensures log.posted[|log.sub| - 1].cmd == log.sub[|log.sub| - 1]
  {
    PostedBound(log);
    var n := |log.sub| - 1;
    var e := log.posted[n];
    var j :| 0 <= j < |log.order| && log.order[j] == e;
    assert Honest(log.order[j], log.work);
    if e.idx < n { DistinctBound(log.posted, n); }
  }

  lemma Consume(log: Log)
    requires LogOk(log) && log.consumed < |log.posted|
    ensures LogOk(log.(consumed := log.consumed + 1))
  {
  }

  lemma StatusEven(log: Log, k: nat)
    requires LogOk(log) && k < |log.posted|
    ensures log.posted[k].stat % 2 == 0
  {
  }

  lemma PostOk(log: Log, i: nat)
    requires LogOk(log) && i < |log.order| && log.order[i] !in log.posted
    ensures LogOk(log.(posted := log.posted + [log.order[i]]))
  {
  }

  lemma HonestMore(order: seq<Exec>, work: seq<Command>, more: seq<Command>)
    requires work <= more && forall i :: 0 <= i < |order| ==> Honest(order[i], work)
    ensures forall i :: 0 <= i < |order| ==> Honest(order[i], more)
  {
  }
}
