/** What a queue keeps about its pending commands, as facts about values: which submission every
    command id stands for, and what that says about the log of its ring pair. */
module Pending {
  import opened Prp
  import opened Transfers
  import opened NvmeQueues

  /** A data buffer: bus address and length in bytes. */
  datatype Buf = Buf(addr: int, len: nat)

  /** who maps the ids of the commands not consumed yet to their submissions, one to one. */
  ghost predicate Tracks(who: map<nat, nat>, log: Log) {
    && log.consumed <= |log.posted|
    && |who| == |log.sub| - log.consumed
    && (forall c <- who :: Outstanding(log, who[c]) && log.sub[who[c]].cid == c)
    && (forall n: nat :: Outstanding(log, n) ==> log.sub[n].cid in who && who[log.sub[n].cid] == n)
  }

  ghost function Forget<V>(m: map<nat, V>, c: nat): map<nat, V> {
    m - {c}
  }

  lemma Forgotten<V>(m: map<nat, V>, c: nat)
    requires c in m
    ensures forall d :: d in Forget(m, c) <==> d in m && d != c
    ensures forall d <- Forget(m, c) :: Forget(m, c)[d] == m[d]
    ensures |Forget(m, c)| == |m| - 1
  {
  }

  lemma ConsumedIn(a: Log, b: Log, n: nat)
    requires a.consumed <= |a.posted| && b.consumed <= |b.posted| && a.posted <= b.posted
    requires a.consumed <= b.consumed <= a.consumed + 1
    ensures IsConsumed(b, n) <==>
            IsConsumed(a, n) || (b.consumed > a.consumed && b.posted[a.consumed].idx == n)
  {
  }

  /** The controller's steps alone change nothing. */
  lemma TracksDevice(who: map<nat, nat>, a: Log, b: Log)
    requires Tracks(who, a) && LogOk(b) && DeviceProgress(a, b)
    ensures Tracks(who, b)
  {
  }

  /** The completion consumed next belongs to a tracked command; it leaves the map. */
  lemma TracksConsume(who: map<nat, nat>, a: Log, b: Log)
    requires Tracks(who, a) && LogOk(b) && Progress(a, b)
    requires b.sub == a.sub && b.consumed == a.consumed + 1 <= |b.posted|
    ensures var e := b.posted[a.consumed];
            && e.cmd.cid in who && who[e.cmd.cid] == e.idx
            && Tracks(Forget(who, e.cmd.cid), b)
  {
    hide IsConsumed, LogOk, Progress, Forget;
    var e := b.posted[a.consumed];
    NextPosted(a, b);
    forall n: nat ensures IsConsumed(b, n) <==> IsConsumed(a, n) || n == e.idx {
      Posteds(a, b);
      ConsumedIn(a, b, n);
    }
    assert Outstanding(a, e.idx);
    Forgotten(who, e.cmd.cid);
  }

  lemma Posteds(a: Log, b: Log)
    requires Progress(a, b)
    ensures a.posted <= b.posted
  {
  }

  lemma NextPosted(a: Log, b: Log)
    requires LogOk(b) && Progress(a, b) && a.consumed <= |a.posted|
    requires b.sub == a.sub && b.consumed == a.consumed + 1 <= |b.posted|
    ensures var e := b.posted[a.consumed];
            e.idx < |a.sub| && e.cmd == a.sub[e.idx] && !IsConsumed(a, e.idx)
  {
  }

  lemma TracksSubmit(who: map<nat, nat>, a: Log, cmd: Command)
    requires Tracks(who, a) && LogOk(a) && cmd.cid !in who
    ensures Tracks(who[cmd.cid := |a.sub|], a.(sub := a.sub + [cmd]))
  {
  }

  // ----- error status

  /** Every completion consumed so far of the submissions in mine was a success. */
  ghost predicate AllOk(log: Log, mine: set<nat>) {
    forall k: nat :: k < log.consumed && k < |log.posted| && log.posted[k].idx in mine ==> log.posted[k].stat == 0
  }

  lemma AllOkConsume(a: Log, b: Log, mine: set<nat>)
    requires a.consumed <= |a.posted| && b.consumed <= |b.posted| && a.posted <= b.posted
    requires a.consumed <= b.consumed <= a.consumed + 1
    ensures AllOk(b, mine) <==>
            AllOk(a, mine) && (b.consumed > a.consumed && b.posted[a.consumed].idx in mine ==> b.posted[a.consumed].stat == 0)
  {
  }

  /** The account of a descriptor with submissions `mine`, pending ids `own` and field `error`. */
  ghost predicate Accounts(log: Log, mine: set<nat>, own: set<nat>, error: int)
    requires log.consumed <= |log.posted|
  {
    && (forall n <- mine :: Outstanding(log, n) ==> log.sub[n].cid in own)
    && (forall n <- mine :: n < |log.sub|)
    && (error == 0 <==> AllOk(log, mine))
  }

  /** Consuming a completion settles the account of the descriptor that owns its id: the error
      field takes a non-zero status, and no other account changes. */
  lemma AccountsConsume(who: map<nat, nat>, a: Log, b: Log, mine: set<nat>, own: set<nat>, error: int)
    requires Tracks(who, a) && LogOk(b) && Progress(a, b)
    requires b.sub == a.sub && b.consumed == a.consumed + 1 <= |b.posted|
    requires Accounts(a, mine, own, error)
    requires var e := b.posted[a.consumed]; e.cmd.cid in own ==> e.idx in mine
    ensures var e := b.posted[a.consumed];
            Accounts(b, mine, own - {e.cmd.cid}, if e.cmd.cid in own && e.stat != 0 then e.stat else error)
  {
    hide IsConsumed, LogOk, AllOk;
    var e := b.posted[a.consumed];
    NextPosted(a, b);
    assert Outstanding(a, e.idx);
    forall n: nat ensures IsConsumed(b, n) <==> IsConsumed(a, n) || n == e.idx {
      ConsumedIn(a, b, n);
    }
    AllOkConsume(a, b, mine);
  }

  lemma AccountsDevice(a: Log, b: Log, mine: set<nat>, own: set<nat>, error: int)
    requires a.consumed <= |a.posted| && LogOk(b) && DeviceProgress(a, b) && Accounts(a, mine, own, error)
    ensures Accounts(b, mine, own, error)
  {
  }

  /** A new submission joins the account of the descriptor that holds its id. */
  lemma AccountsSubmit(log: Log, cmd: Command, mine: set<nat>, own: set<nat>, error: int)
    requires LogOk(log) && Accounts(log, mine, own, error)
    ensures var b := log.(sub := log.sub + [cmd]);
            && Accounts(b, mine, own, error)
            && (cmd.cid in own ==> Accounts(b, mine + {|log.sub|}, own, error))
  {
  }

  lemma AccountsHold(log: Log, mine: set<nat>, own: set<nat>, error: int, c: nat)
    requires log.consumed <= |log.posted| && Accounts(log, mine, own, error)
    ensures Accounts(log, mine, own + {c}, error)
  {
  }

  lemma Consumable(log: Log)
    requires LogOk(log)
    ensures log.consumed <= |log.posted|
  {
  }

  /** Every completion consumed so far is of one of the first n submissions. */
  ghost predicate ConsumedBelow(log: Log, n: nat) {
    forall k: nat :: k < log.consumed && k < |log.posted| ==> log.posted[k].idx < n
  }

  lemma BelowSubmissions(a: Log, b: Log)
    requires LogOk(a) && Progress(a, b) && b.consumed == a.consumed
    ensures ConsumedBelow(b, |a.sub|)
  {
    forall k: nat | k < b.consumed ensures b.posted[k].idx < |a.sub| {
      assert b.posted[k] == a.posted[k];
    }
  }

  // ----- PRP entries

  /** The host stored the entries that stand for the buffer of a command. */
  ghost predicate PreparedOne(g: Geometry, l: Layout, words: seq<int>, c: nat, cmd: Command, b: Buf)
    requires g.wpp > 0
  {
    && FitsListPage(g, b.len) && Mapped(g, c, b.addr, b.len, cmd.prps, words)
    && (cmd.Rw? ==> b.addr >= 0 && b.len == Length(l, cmd))
  }

  /** The list page of every pending command still describes its buffer. */
  ghost predicate Prepared(g: Geometry, l: Layout, words: seq<int>, who: map<nat, nat>, sub: seq<Command>, bufs: seq<Buf>)
    requires g.wpp > 0
  {
    && |bufs| == |sub|
    && forall c <- who :: who[c] < |sub| && PreparedOne(g, l, words, c, sub[who[c]], bufs[who[c]])
  }

  /** Every read and write executed so far moved exactly the bytes of its buffer, unless that is one
      that entries cannot describe. */
  ghost predicate Described(g: Geometry, l: Layout, order: seq<Exec>, bufs: seq<Buf>)
    requires g.wpp > 0
  {
    forall i :: 0 <= i < |order| ==> DescribedOne(g, l, order[i], bufs)
  }

  ghost predicate DescribedOne(g: Geometry, l: Layout, e: Exec, bufs: seq<Buf>)
    requires g.wpp > 0
  {
    && e.idx < |bufs|
    && (e.cmd.Rw? ==>
          && bufs[e.idx].len == Length(l, e.cmd)
          && (Describable(g, bufs[e.idx].addr, bufs[e.idx].len) ==>
                Covers(g, Transfer(e.pages), bufs[e.idx].addr, bufs[e.idx].len)))
  }

  lemma ExecutedLater(a: Log, b: Log, i: nat)
    requires LogOk(a) && LogOk(b) && Progress(a, b) && |a.order| <= i < |b.order|
    ensures b.order[i].idx < |b.sub| && b.order[i].cmd == b.sub[b.order[i].idx]
    ensures !IsConsumed(a, b.order[i].idx)
  {
  }

  /** What the controller does while the list pages are prepared is described. */
  lemma DescribedRun(g: Geometry, l: Layout, words: seq<int>, who: map<nat, nat>, bufs: seq<Buf>, a: Log, m: Machine, b: Log, n: Machine)
    requires Positive(g, l) && g.Valid() && Tracks(who, a) && LogOk(a) && LogOk(b) && b.sub == a.sub
    requires Ran(g, l, words, a, m, b, n)
    requires Prepared(g, l, words, who, a.sub, bufs) && Described(g, l, a.order, bufs)
    ensures Described(g, l, b.order, bufs)
  {
    hide IsConsumed, LogOk, FitsListPage, Mapped, Covers, Describable, Length, Replay;
    forall i | 0 <= i < |b.order| ensures DescribedOne(g, l, b.order[i], bufs) {
      if i < |a.order| {
        assert b.order[i] == a.order[i];
      } else {
        var e := b.order[i];
        ExecutedLater(a, b, i);
        assert Outstanding(a, e.idx);
        assert PreparedOne(g, l, words, e.cmd.cid, e.cmd, bufs[e.idx]);
        if e.cmd.Rw? && Describable(g, bufs[e.idx].addr, bufs[e.idx].len) { PreparedPages(g, l, words, e.cmd, bufs[e.idx]); }
      }
    }
  }

  lemma PreparedPages(g: Geometry, l: Layout, words: seq<int>, cmd: Command, b: Buf)
    requires Positive(g, l) && g.Valid() && cmd.Rw? && PreparedOne(g, l, words, cmd.cid, cmd, b)
    requires Describable(g, b.addr, b.len)
    ensures Covers(g, Transfer(PagesOf(g, l, cmd, words)), b.addr, b.len)
  {
    hide FitsListPage, Mapped, Length;
    DescribableMeaning(g, cmd.cid, b.addr, b.len, cmd.prps, words);
  }

  /** Isolation: mapping a buffer for another command id leaves a prepared command prepared. */
  lemma PreparedKept(g: Geometry, l: Layout, was: seq<int>, words: seq<int>, c: nat, cmd: Command, b: Buf, other: nat, len: nat)
    requires g.wpp > 0 && c != other && FitsListPage(g, len) && |was| == |words|
    requires forall w :: 0 <= w < |words| && !Writes(g, other, len, w) ==> words[w] == was[w]
    requires PreparedOne(g, l, was, c, cmd, b)
    ensures PreparedOne(g, l, words, c, cmd, b)
  {
    hide Pages;
    var n := Pages(g.PageSize(), b.len);
    if n > 2 {
      OtherPage(g, c, other);
      assert words[g.ListStart(c)..g.ListStart(c) + n - 1] == was[g.ListStart(c)..g.ListStart(c) + n - 1];
    }
  }

  /** Mapping a buffer for an id that is not pending keeps every pending command prepared. */
  lemma PreparedMapped(g: Geometry, l: Layout, was: seq<int>, words: seq<int>, who: map<nat, nat>, sub: seq<Command>,
                       bufs: seq<Buf>, other: nat, len: nat)
    requires g.wpp > 0 && Prepared(g, l, was, who, sub, bufs) && other !in who && |was| == |words| && FitsListPage(g, len)
    requires forall w :: 0 <= w < |words| && !Writes(g, other, len, w) ==> words[w] == was[w]
    ensures Prepared(g, l, words, who, sub, bufs)
  {
    hide PreparedOne, Writes, FitsListPage;
    forall c | c in who ensures PreparedOne(g, l, words, c, sub[who[c]], bufs[who[c]]) {
      PreparedKept(g, l, was, words, c, sub[who[c]], bufs[who[c]], other, len);
    }
  }

}
