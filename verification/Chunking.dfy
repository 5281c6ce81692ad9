/** How a read or write is cut into commands of at most maxbpio blocks. */
module Chunking {
  import opened Ring
  import opened Transfers
  import opened Pending

  /** One command: first block, number of blocks, and buffer address. */
  datatype Chunk = Chunk(slba: nat, nlb: nat, addr: int)

  function BufOf(c: Chunk, block: nat): Buf {
    Buf(c.addr, c.nlb * block)
  }

  ghost function Chunks(slba: nat, nlb: nat, addr: int, max: nat, block: nat): seq<Chunk>
    requires max > 0
    decreases nlb
  {
    if nlb == 0 then []
    else
      var n := if max > nlb then nlb else max;
      [Chunk(slba, n, addr)] + Chunks(slba + n, nlb - n, addr + n * block, max, block)
  }

  /** cs tile the blocks from slba to slba + nlb and the buffer from addr on in step; all but the
      last take max blocks. */
  ghost predicate Tiles(cs: seq<Chunk>, slba: nat, nlb: nat, addr: int, max: nat, block: nat) {
    && (forall i :: 0 <= i < |cs| ==> 1 <= cs[i].nlb <= max && InPlace(cs[i], slba, nlb, addr, block) && (i < |cs| - 1 ==> cs[i].nlb == max))
    && (cs == [] <==> nlb == 0)
    && (cs != [] ==> cs[0].slba == slba && cs[|cs| - 1].slba + cs[|cs| - 1].nlb == slba + nlb)
    && (forall i :: 0 < i < |cs| ==> cs[i].slba == cs[i - 1].slba + cs[i - 1].nlb)
  }

  ghost predicate InPlace(c: Chunk, slba: nat, nlb: nat, addr: int, block: nat) {
    && slba <= c.slba && c.slba + c.nlb <= slba + nlb
    && c.addr == addr + (c.slba - slba) * block
  }

  lemma {:induction false} ChunksTile(slba: nat, nlb: nat, addr: int, max: nat, block: nat)
    requires max > 0
    ensures Tiles(Chunks(slba, nlb, addr, max, block), slba, nlb, addr, max, block)
    decreases nlb
  {
    hide Tiles;
    if nlb == 0 {
      NoTiles(slba, addr, max, block);
    } else {
      var n := if max > nlb then nlb else max;
      ChunksTile(slba + n, nlb - n, addr + n * block, max, block);
      TilesMore(Chunks(slba + n, nlb - n, addr + n * block, max, block), slba, n, nlb, addr, max, block);
    }
  }

  lemma NoTiles(slba: nat, addr: int, max: nat, block: nat)
    ensures Tiles([], slba, 0, addr, max, block)
  {
  }

  lemma TilesMore(rest: seq<Chunk>, slba: nat, n: nat, nlb: nat, addr: int, max: nat, block: nat)
    requires 1 <= n <= max && n <= nlb && (n < nlb ==> n == max) && Tiles(rest, slba + n, nlb - n, addr + n * block, max, block)
    ensures Tiles([Chunk(slba, n, addr)] + rest, slba, nlb, addr, max, block)
  {
    hide InPlace;
    var cs := [Chunk(slba, n, addr)] + rest;
    assert forall i :: 0 < i < |cs| ==> cs[i] == rest[i - 1];
    forall i | 0 <= i < |rest| ensures InPlace(rest[i], slba, nlb, addr, block) {
      InPlaceBefore(rest[i], slba, n, nlb, addr, block);
    }
    InPlaceFirst(slba, n, nlb, addr, block);
  }

  lemma InPlaceBefore(c: Chunk, slba: nat, n: nat, nlb: nat, addr: int, block: nat)
    requires n <= nlb && InPlace(c, slba + n, nlb - n, addr + n * block, block)
    ensures InPlace(c, slba, nlb, addr, block)
  {
  }

  lemma InPlaceFirst(slba: nat, n: nat, nlb: nat, addr: int, block: nat)
    requires n <= nlb
    ensures InPlace(Chunk(slba, n, addr), slba, nlb, addr, block)
  {
  }

  lemma InPlaceBytes(c: Chunk, slba: nat, nlb: nat, addr: int, block: nat)
    requires InPlace(c, slba, nlb, addr, block)
    ensures c.slba * block - slba * block == (c.slba - slba) * block >= 0
    ensures (c.slba - slba) * block + c.nlb * block <= nlb * block
  {
    Distribute(c.slba - slba, slba, block);
    Distribute(c.slba - slba, c.nlb, block);
    Distribute(c.slba - slba + c.nlb, slba + nlb - c.slba - c.nlb, block);
  }

  lemma Distribute(a: int, b: int, k: int)
    ensures a * k + b * k == (a + b) * k
  {
  }

  /** Number of commands of a request. */
  function CommandCount(nlb: nat, max: nat): nat
    requires max > 0
  {
    (nlb + max - 1) / max
  }

  lemma {:induction false} ChunkCount(slba: nat, nlb: nat, addr: int, max: nat, block: nat)
    requires max > 0
    ensures |Chunks(slba, nlb, addr, max, block)| == CommandCount(nlb, max)
    decreases nlb
  {
    hide CommandCount;
    CountStep(nlb, max);
    if nlb > 0 {
      var n := if max > nlb then nlb else max;
      ChunkCount(slba + n, nlb - n, addr + n * block, max, block);
    }
  }

  lemma CountStep(nlb: nat, max: nat)
    requires max > 0
    ensures CommandCount(0, max) == 0
    ensures nlb > 0 ==> CommandCount(nlb, max) == 1 + CommandCount(if max > nlb then 0 else nlb - max, max)
  {
    DivideUnique(max - 1, max, 0, max - 1);
    if 0 < nlb < max {
      DivideUnique(nlb + max - 1, max, 1, nlb - 1);
    } else if nlb >= max {
      DivideUnique(nlb + max - 1, max, (nlb - 1) / max + 1, (nlb - 1) % max);
    }
  }

  /** Every byte of the request belongs to one of the chunks. */
  lemma {:induction false} ChunkOf(slba: nat, nlb: nat, addr: int, max: nat, block: nat, j: nat) returns (i: nat)
    requires max > 0 && j < nlb * block
    ensures var cs := Chunks(slba, nlb, addr, max, block);
            i < |cs| && (cs[i].slba - slba) * block <= j < (cs[i].slba - slba) * block + cs[i].nlb * block
    decreases nlb
  {
    var n := if max > nlb then nlb else max;
    if j < n * block {
      i := 0;
    } else {
      Distribute(n, nlb - n, block);
      var rest := Chunks(slba + n, nlb - n, addr + n * block, max, block);
      var k := ChunkOf(slba + n, nlb - n, addr + n * block, max, block, j - n * block);
      Distribute(n, rest[k].slba - slba - n, block);
      i := k + 1;
    }
  }

  /** The commands and buffers from position `from` on are those of the chunks. */
  ghost predicate Issued(sub: seq<Command>, bufs: seq<Buf>, from: nat, cs: seq<Chunk>, opc: int, nsid: int, block: nat) {
    && from + |cs| <= |sub| && |bufs| == |sub|
    && forall i :: 0 <= i < |cs| ==> IssuedOne(sub[from + i], bufs[from + i], cs[i], opc, nsid, block)
  }

  ghost predicate IssuedOne(cmd: Command, b: Buf, c: Chunk, opc: int, nsid: int, block: nat) {
    && cmd.Rw? && cmd.opc == opc && cmd.nsid == nsid && cmd.slba == c.slba && cmd.nlb0 + 1 == c.nlb
    && b == BufOf(c, block)
  }

  lemma IssuedMore(sub: seq<Command>, bufs: seq<Buf>, from: nat, cs: seq<Chunk>, opc: int, nsid: int, block: nat,
                   cmd: Command, b: Buf, c: Chunk)
    requires Issued(sub, bufs, from, cs, opc, nsid, block) && from + |cs| == |sub|
    requires IssuedOne(cmd, b, c, opc, nsid, block)
    ensures Issued(sub + [cmd], bufs + [b], from, cs + [c], opc, nsid, block)
  {
  }
}
