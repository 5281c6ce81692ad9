/** Commands, what a controller does to store and memory when it executes them, and the law that
    makes splitting a read or write sound: chunks executed in any order, among any commands that
    do not touch the same bytes, amount to one memcpy. */
module Transfers {
  import opened Prp

  const CMD_WRITE := 1
  const CMD_READ := 2

  /** A submission entry.  The block count field of a read or write is zero based. */
  datatype Command =
    | Rw(opc: int, cid: nat, nsid: int, slba: nat, nlb0: nat, prps: Prps)
    | Vendor(opc: int, cid: nat, nsid: int, prps: Prps, cdw: seq<int>)

  /** Bytes of the namespace and bytes of host memory by bus address. */
  datatype Machine = Machine(store: seq<int>, mem: seq<int>)

  /** The execution of submission number idx: status (0 is success), command specific result,
      and the pages the controller found in the PRP entries at that moment. */
  datatype Exec = Exec(idx: nat, cmd: Command, stat: nat, cs: int, pages: seq<int>)

  datatype Layout = Layout(page: nat, block: nat)

  ghost predicate Succeeds(e: Exec) {
    e.stat == 0 && e.cmd.Rw? && e.pages != []
  }

  function Offset(l: Layout, c: Command): nat
    requires c.Rw?
  {
    c.slba * l.block
  }

  function Length(l: Layout, c: Command): nat
    requires c.Rw?
  {
    (c.nlb0 + 1) * l.block
  }

  /** Move one byte between store[s] and mem[a]; out of range nothing moves. */
  function MoveByte(m: Machine, opc: int, s: int, a: int): Machine {
    if !(0 <= s < |m.store| && 0 <= a < |m.mem|) then m
    else if opc == CMD_READ then m.(mem := m.mem[a := m.store[s]])
    else if opc == CMD_WRITE then m.(store := m.store[s := m.mem[a]])
    else m
  }

  /** Move the first n bytes of a transfer. */
  function MoveBytes(m: Machine, l: Layout, opc: int, s: int, pages: seq<int>, n: nat): Machine
    requires l.page > 0 && pages != []
  {
    if n == 0 then m
    else MoveByte(MoveBytes(m, l, opc, s, pages, n - 1), opc, s + n - 1, ByteAddr(l.page, pages, n - 1))
  }

  ghost function Effect(m: Machine, l: Layout, e: Exec): Machine
    requires l.page > 0
  {
    if Succeeds(e) then MoveBytes(m, l, e.cmd.opc, Offset(l, e.cmd), e.pages, Length(l, e.cmd)) else m
  }

  /** Executions one after the other. */
  ghost function Replay(m: Machine, l: Layout, es: seq<Exec>): Machine
    requires l.page > 0
  {
    if es == [] then m else Effect(Replay(m, l, es[..|es| - 1]), l, es[|es| - 1])
  }

  lemma {:induction false} ReplayConcat(m: Machine, l: Layout, es: seq<Exec>, fs: seq<Exec>)
    requires l.page > 0
    ensures Replay(m, l, es + fs) == Replay(Replay(m, l, es), l, fs)
    decreases |fs|
  {
    if fs == [] {
      assert es + fs == es;
    } else {
      var n := |fs| - 1;
      assert (es + fs)[..|es + fs| - 1] == es + fs[..n];
      ReplayConcat(m, l, es, fs[..n]);
    }
  }

  // ----- the specification: one memcpy

  /** A whole read or write: len bytes between store offset `off` and the buffer at `buf`. */
  datatype Whole = Whole(opc: int, buf: int, off: int, len: nat)

  ghost predicate InRange(m: Machine, w: Whole) {
    && w.opc in {CMD_READ, CMD_WRITE}
    && 0 <= w.buf && w.buf + w.len <= |m.mem| && 0 <= w.off && w.off + w.len <= |m.store|
  }

  function Memcpy(m: Machine, w: Whole): Machine
    requires 0 <= w.buf && w.buf + w.len <= |m.mem| && 0 <= w.off && w.off + w.len <= |m.store|
  {
    if w.opc == CMD_READ
    then m.(mem := m.mem[..w.buf] + m.store[w.off..w.off + w.len] + m.mem[w.buf + w.len..])
    else m.(store := m.store[..w.off] + m.mem[w.buf..w.buf + w.len] + m.store[w.off + w.len..])
  }

  /** From m to n, len bytes of the store from `off` on were copied to the memory at `buf`. */
  ghost predicate ReadInto(m: Machine, n: Machine, buf: int, off: int, len: int) {
    && n.store == m.store && |n.mem| == |m.mem|
    && forall x :: 0 <= x < |m.mem| ==>
         n.mem[x] == if 0 <= x - buf < len && 0 <= off + (x - buf) < |m.store| then m.store[off + (x - buf)] else m.mem[x]
  }

  /** From m to n, len bytes of the memory at `buf` were copied to the store from `off` on. */
  ghost predicate WrittenFrom(m: Machine, n: Machine, buf: int, off: int, len: int) {
    && n.mem == m.mem && |n.store| == |m.store|
    && forall x :: 0 <= x < |m.store| ==>
         n.store[x] == if 0 <= x - off < len && 0 <= buf + (x - off) < |m.mem| then m.mem[buf + (x - off)] else m.store[x]
  }

  lemma OpCodes()
    ensures CMD_READ == 2 && CMD_WRITE == 1
  {
  }

  /** What the memcpy of a read and of a write does to the bytes. */
  lemma Directions(m: Machine, w: Whole)
    requires InRange(m, w)
    ensures w.opc == 2 || w.opc == 1
    ensures w.opc == 2 ==> ReadInto(m, Memcpy(m, w), w.buf, w.off, w.len)
    ensures w.opc == 1 ==> WrittenFrom(m, Memcpy(m, w), w.buf, w.off, w.len)
  {
  }

  /** The memcpy restricted to the bytes at the offsets in c. */
  ghost function Patch(m: Machine, w: Whole, c: set<int>): (r: Machine)
    requires InRange(m, w)
    ensures |r.mem| == |m.mem| && |r.store| == |m.store|
  {
    if w.opc == CMD_READ
    then m.(mem := seq(|m.mem|, x requires 0 <= x < |m.mem| =>
                     if 0 <= x - w.buf < w.len && x - w.buf in c then m.store[w.off + x - w.buf] else m.mem[x]))
    else m.(store := seq(|m.store|, x requires 0 <= x < |m.store| =>
                       if 0 <= x - w.off < w.len && x - w.off in c then m.mem[w.buf + x - w.off] else m.store[x]))
  }

  ghost predicate All(w: Whole, c: set<int>) {
    forall j :: 0 <= j < w.len ==> j in c
  }

  lemma PatchAll(m: Machine, w: Whole, c: set<int>)
    requires InRange(m, w) && All(w, c)
    ensures Patch(m, w, c) == Memcpy(m, w)
  {
  }

  lemma PatchNone(m: Machine, w: Whole)
    requires InRange(m, w)
    ensures Patch(m, w, {}) == m
  {
  }

  // ----- executions that belong to a whole

  ghost function Range(a: int, b: int): (r: set<int>)
    ensures forall j :: j in r <==> a <= j < b
    decreases b - a
  {
    if b <= a then {} else Range(a, b - 1) + {b - 1}
  }

  /** e moves the bytes from offset k of w on, in step with the buffer. */
  ghost predicate InStep(l: Layout, e: Exec, w: Whole)
    requires l.page > 0
  {
    && Succeeds(e) && e.cmd.opc == w.opc
    && (var k := Offset(l, e.cmd) - w.off;
        && 0 <= k && k + Length(l, e.cmd) <= w.len
        && forall j :: 0 <= j < Length(l, e.cmd) ==> ByteAddr(l.page, e.pages, j) == w.buf + k + j)
  }

  /** The offsets of w that e moves. */
  ghost function Part(l: Layout, e: Exec, w: Whole): set<int>
    requires e.cmd.Rw?
  {
    Range(Offset(l, e.cmd) - w.off, Offset(l, e.cmd) - w.off + Length(l, e.cmd))
  }

  /** e neither changes the bytes w moves from nor uses or changes the bytes w moves to. */
  ghost predicate Independent(l: Layout, e: Exec, w: Whole)
    requires l.page > 0
  {
    Succeeds(e) ==>
      && (e.cmd.opc == w.opc == CMD_WRITE ||
           forall j :: 0 <= j < Length(l, e.cmd) ==> !(w.buf <= ByteAddr(l.page, e.pages, j) < w.buf + w.len))
      && (e.cmd.opc == w.opc == CMD_READ ||
           Offset(l, e.cmd) + Length(l, e.cmd) <= w.off || w.off + w.len <= Offset(l, e.cmd))
  }

  lemma MoveByteInStep(m: Machine, w: Whole, c: set<int>, j: nat)
    requires InRange(m, w) && j < w.len
    ensures MoveByte(Patch(m, w, c), w.opc, w.off + j, w.buf + j) == Patch(m, w, c + {j})
  {
  }

  lemma MoveBytesInStep(m: Machine, l: Layout, w: Whole, c: set<int>, k: nat, pages: seq<int>, n: nat)
    requires InRange(m, w) && l.page > 0 && pages != [] && k + n <= w.len
    requires forall j :: 0 <= j < n ==> ByteAddr(l.page, pages, j) == w.buf + k + j
    ensures MoveBytes(Patch(m, w, c), l, w.opc, w.off + k, pages, n) == Patch(m, w, c + Range(k, k + n))
  {
    hide Patch, MoveByte, ByteAddr, InRange;
    if n == 0 {
      assert c + Range(k, k) == c;
    } else {
      MoveBytesInStep(m, l, w, c, k, pages, n - 1);
      var d := c + Range(k, k + n - 1);
      MoveByteInStep(m, w, d, k + n - 1);
      assert d + {k + n - 1} == c + Range(k, k + n);
    }
  }

  lemma MoveByteApart(m: Machine, w: Whole, c: set<int>, opc: int, s: int, a: int)
    requires InRange(m, w)
    requires opc == w.opc == CMD_WRITE || !(w.buf <= a < w.buf + w.len)
    requires opc == w.opc == CMD_READ || !(w.off <= s < w.off + w.len)
    ensures InRange(MoveByte(m, opc, s, a), w)
    ensures MoveByte(Patch(m, w, c), opc, s, a) == Patch(MoveByte(m, opc, s, a), w, c)
  {
  }

  lemma MoveBytesApart(m: Machine, l: Layout, w: Whole, c: set<int>, opc: int, s: int, pages: seq<int>, n: nat)
    requires InRange(m, w) && l.page > 0 && pages != []
    requires opc == w.opc == CMD_WRITE ||
             forall j :: 0 <= j < n ==> !(w.buf <= ByteAddr(l.page, pages, j) < w.buf + w.len)
    requires opc == w.opc == CMD_READ || s + n <= w.off || w.off + w.len <= s
    ensures InRange(MoveBytes(m, l, opc, s, pages, n), w)
    ensures MoveBytes(Patch(m, w, c), l, opc, s, pages, n) == Patch(MoveBytes(m, l, opc, s, pages, n), w, c)
  {
    hide Patch, MoveByte, ByteAddr, InRange;
    if n > 0 {
      MoveBytesApart(m, l, w, c, opc, s, pages, n - 1);
      MoveByteApart(MoveBytes(m, l, opc, s, pages, n - 1), w, c, opc, s + n - 1, ByteAddr(l.page, pages, n - 1));
    }
  }

  /** The executions of es that do not belong to w, in order, and the offsets the others move. */
  ghost function Others(l: Layout, es: seq<Exec>, w: Whole): seq<Exec>
    requires l.page > 0
  {
    if es == [] then []
    else
      var n := |es| - 1;
      Others(l, es[..n], w) + if InStep(l, es[n], w) then [] else [es[n]]
  }

  ghost function Moved(l: Layout, es: seq<Exec>, w: Whole): set<int>
    requires l.page > 0
  {
    if es == [] then {}
    else
      var n := |es| - 1;
      Moved(l, es[..n], w) + if InStep(l, es[n], w) then Part(l, es[n], w) else {}
  }

  /** Any interleaving of the parts of w with independent commands amounts to the independent
      commands followed by the memcpy of the bytes the parts cover. */
  lemma {:induction false} AnyOrder(m: Machine, l: Layout, es: seq<Exec>, w: Whole)
    requires l.page > 0 && InRange(m, w)
    requires forall i :: 0 <= i < |es| ==> InStep(l, es[i], w) || Independent(l, es[i], w)
    ensures InRange(Replay(m, l, Others(l, es, w)), w)
    ensures Replay(m, l, es) == Patch(Replay(m, l, Others(l, es, w)), w, Moved(l, es, w))
    decreases |es|
  {
    hide Patch, InStep, Independent, Effect;
    if es == [] {
      PatchNone(m, w);
    } else {
      var n := |es| - 1;
      var e, rest := es[n], es[..n];
      AnyOrder(m, l, rest, w);
      var base := Replay(m, l, Others(l, rest, w));
      var c := Moved(l, rest, w);
      EffectOnPatch(base, l, e, w, c);
      if InStep(l, e, w) {
        assert Others(l, es, w) == Others(l, rest, w);
      } else {
        ReplayConcat(m, l, Others(l, rest, w), [e]);
        assert [e][..0] == [];
        assert Moved(l, es, w) == c;
      }
    }
  }

  lemma EffectOnPatch(m: Machine, l: Layout, e: Exec, w: Whole, c: set<int>)
    requires l.page > 0 && InRange(m, w) && (InStep(l, e, w) || Independent(l, e, w))
    ensures InStep(l, e, w) ==> Effect(Patch(m, w, c), l, e) == Patch(m, w, c + Part(l, e, w))
    ensures !InStep(l, e, w) ==> InRange(Effect(m, l, e), w) && Effect(Patch(m, w, c), l, e) == Patch(Effect(m, l, e), w, c)
  {
    if InStep(l, e, w) {
      MoveBytesInStep(m, l, w, c, Offset(l, e.cmd) - w.off, e.pages, Length(l, e.cmd));
    } else if Succeeds(e) {
      MoveBytesApart(m, l, w, c, e.cmd.opc, Offset(l, e.cmd), e.pages, Length(l, e.cmd));
    }
  }

  lemma {:induction false} MovedHas(l: Layout, es: seq<Exec>, w: Whole, i: nat)
    requires l.page > 0 && i < |es| && InStep(l, es[i], w)
    ensures Part(l, es[i], w) <= Moved(l, es, w)
    decreases |es|
  {
    var n := |es| - 1;
    if i < n {
      assert es[..n][i] == es[i];
      MovedHas(l, es[..n], w, i);
    }
  }

  ghost predicate MovedBySome(l: Layout, es: seq<Exec>, w: Whole, j: int)
    requires l.page > 0
  {
    exists i :: 0 <= i < |es| && InStep(l, es[i], w) && j in Part(l, es[i], w)
  }

  /** Refinement of the memcpy: when the parts cover all of w, store and memory end up exactly as
      after the independent commands and one memcpy. */
  lemma ChunksRefineMemcpy(m: Machine, l: Layout, es: seq<Exec>, w: Whole)
    requires l.page > 0 && InRange(m, w)
    requires forall i :: 0 <= i < |es| ==> InStep(l, es[i], w) || Independent(l, es[i], w)
    requires forall j :: 0 <= j < w.len ==> MovedBySome(l, es, w, j)
    ensures InRange(Replay(m, l, Others(l, es, w)), w)
    ensures Replay(m, l, es) == Memcpy(Replay(m, l, Others(l, es, w)), w)
  {
    AnyOrder(m, l, es, w);
    forall j | 0 <= j < w.len ensures j in Moved(l, es, w) {
      assert MovedBySome(l, es, w, j);
      var i :| 0 <= i < |es| && InStep(l, es[i], w) && j in Part(l, es[i], w);
      MovedHas(l, es, w, i);
    }
    PatchAll(Replay(m, l, Others(l, es, w)), w, Moved(l, es, w));
  }
}
