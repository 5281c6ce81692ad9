/** Physical region pages: how the host describes a buffer and how a controller reads the
    description, following section 4.3 of NVM Express revision 1.2. */
module Prp {
  import opened Ring

  /** Page size is 8 * wpp bytes, one 8-byte PRP entry per word of a page.  `list` is the bus
      address of the PRP list area of a queue: one page for every command id. */
  datatype Geometry = Geometry(wpp: nat, list: int) {
    ghost predicate Valid() {
      wpp > 0 && list >= 0 && list % PageSize() == 0
    }

    function PageSize(): nat {
      8 * wpp
    }

    /** Index of the first word of the list page of a command id. */
    function ListStart(cid: nat): nat {
      cid * wpp
    }
  }

  function Pages(size: nat, len: nat): nat
    requires size > 0
  {
    (len + size - 1) / size
  }

  /** The n page addresses after addr. */
  ghost function Following(size: nat, addr: int, n: nat): seq<int> {
    seq(n, i => addr + size * (i + 1))
  }

  datatype Prps = Prps(prp1: int, prp2: int)

  /** The entries a host must store for a buffer: nothing but the first two pages' addresses
      when they suffice, else a list of all pages after the first. */
  ghost predicate Mapped(g: Geometry, cid: nat, addr: int, len: nat, p: Prps, words: seq<int>)
    requires g.wpp > 0
  {
    && p.prp1 == addr
    && p.prp2 == (if Pages(g.PageSize(), len) <= 1 then 0
                  else if Pages(g.PageSize(), len) == 2 then addr + g.PageSize()
                  else g.list + 8 * g.ListStart(cid))
    && (Pages(g.PageSize(), len) > 2 ==>
          g.ListStart(cid) + Pages(g.PageSize(), len) - 1 <= |words| &&
          words[g.ListStart(cid)..g.ListStart(cid) + Pages(g.PageSize(), len) - 1] == Following(g.PageSize(), addr, Pages(g.PageSize(), len) - 1))
  }

  /** The list words that mapping a buffer of len bytes for cid stores to. */
  ghost predicate Writes(g: Geometry, cid: nat, len: nat, w: int)
    requires g.wpp > 0
  {
    Pages(g.PageSize(), len) > 2 && g.ListStart(cid) <= w < g.ListStart(cid) + Pages(g.PageSize(), len) - 1
  }

  method MapPrps(g: Geometry, list: array<int>, cid: nat, addr: int, len: nat) returns (p: Prps)
    requires g.wpp > 0
    requires Pages(g.PageSize(), len) > 2 ==> g.ListStart(cid) + Pages(g.PageSize(), len) - 1 <= list.Length
    modifies list
    ensures Mapped(g, cid, addr, len, p, list[..])
    ensures forall w :: 0 <= w < list.Length && !Writes(g, cid, len, w) ==> list[w] == old(list[w])
  {
    var prp1, prp2 := addr, 0;
    var numpages := Pages(g.PageSize(), len);
    if numpages == 2 {
      prp2 := addr + g.PageSize();
    } else if numpages > 2 {
      var prplist := g.ListStart(cid);
      prp2 := g.list + 8 * prplist;
      var a := addr;
      var i := 1;
      while i < numpages
        invariant 1 <= i <= numpages && prplist == g.ListStart(cid) + i - 1 && a == addr + g.PageSize() * (i - 1)
        invariant list[g.ListStart(cid)..prplist] == Following(g.PageSize(), addr, i - 1)
        invariant forall w :: 0 <= w < list.Length && !(g.ListStart(cid) <= w < prplist) ==> list[w] == old(list[w])
      {
        a := a + g.PageSize();
        list[prplist] := a;
        prplist := prplist + 1;
        i := i + 1;
      }
    }
    p := Prps(prp1, prp2);
  }

  datatype Decoded = Transfer(pages: seq<int>) | Invalid

  /** What a controller makes of a command's PRP entries.  The first entry may point into a page;
      all others must be page addresses.  A list must lie in the list area and end in its page:
      chaining to a further list page is never used by the driver. */
  function Decode(g: Geometry, p: Prps, len: nat, words: seq<int>): Decoded
    requires g.wpp > 0
  {
    var size := g.PageSize();
    var first := size - p.prp1 % size;
    if len <= first then Transfer([p.prp1])
    else if len - first <= size then
      if p.prp2 % size == 0 then Transfer([p.prp1, p.prp2]) else Invalid
    else
      var n := Pages(g.PageSize(), len - first);
      var at := (p.prp2 - g.list) / 8;
      if p.prp2 < g.list || p.prp2 % 8 != 0 || at + n > |words| || (p.prp2 % size) / 8 + n > g.wpp then Invalid
      else
        var list := words[at..at + n];
        if forall i :: 0 <= i < n ==> list[i] % size == 0 then Transfer([p.prp1] + list) else Invalid
  }

  /** Bus address of byte j of a transfer. */
  function ByteAddr(size: nat, pages: seq<int>, j: nat): int
    requires size > 0 && pages != []
  {
    var first := size - pages[0] % size;
    if j < first then pages[0] + j
    else
      var k := 1 + (j - first) / size;
      if k < |pages| then pages[k] + (j - first) % size else -1
  }

  /** The decoded pages cover exactly the len bytes from addr on, in order. */
  ghost predicate Covers(g: Geometry, d: Decoded, addr: int, len: nat)
    requires g.wpp > 0
  {
    d.Transfer? && d.pages != [] && forall j :: 0 <= j < len ==> ByteAddr(g.PageSize(), d.pages, j) == addr + j
  }

  /** A buffer that PRP entries of the driver describe correctly: it starts on a page boundary or
      lies in a single page. */
  ghost predicate Describable(g: Geometry, addr: int, len: nat)
    requires g.wpp > 0
  {
    addr % g.PageSize() == 0 || addr % g.PageSize() + len <= g.PageSize()
  }

  /** The entries of one command fit its own list page. */
  ghost predicate FitsListPage(g: Geometry, len: nat)
    requires g.wpp > 0
  {
    Pages(g.PageSize(), len) <= 2 || Pages(g.PageSize(), len) - 1 <= g.wpp
  }

  /** Isolation: mapping for cid stores only to words of its own page, exactly when the entries
      fit one page. */
  lemma WritesOwnPage(g: Geometry, cid: nat, len: nat)
    requires g.wpp > 0
    ensures FitsListPage(g, len) <==>
            forall w :: Writes(g, cid, len, w) ==> g.ListStart(cid) <= w < g.ListStart(cid) + g.wpp
  {
    if !FitsListPage(g, len) { assert Writes(g, cid, len, g.ListStart(cid) + g.wpp); }
  }

  /** Mapping for cid stores inside a list area of `area` words exactly when it stores nothing or
      the last entry still lies in the area. */
  lemma WritesInArea(g: Geometry, cid: nat, len: nat, area: nat)
    requires g.wpp > 0
    ensures (forall w :: Writes(g, cid, len, w) ==> 0 <= w < area) <==>
            Pages(g.PageSize(), len) <= 2 || g.ListStart(cid) + Pages(g.PageSize(), len) - 1 <= area
  {
    var last := g.ListStart(cid) + Pages(g.PageSize(), len) - 2;
    if Pages(g.PageSize(), len) > 2 { assert Writes(g, cid, len, last); }
  }

  /** The list area of the admin queue: one block of 4096 bytes, whatever the page size. */
  const ADMIN_WORDS: nat := 512

  /** With pages of 4 KB or more mapping stays inside it exactly for commands of at most two pages,
      and for id 0 with at most 512 pages after the first. */
  lemma AdminListArea(g: Geometry, cid: nat, len: nat)
    requires g.wpp >= ADMIN_WORDS
    ensures (forall w :: Writes(g, cid, len, w) ==> 0 <= w < ADMIN_WORDS) <==>
            Pages(g.PageSize(), len) <= 2 || (cid == 0 && Pages(g.PageSize(), len) - 1 <= ADMIN_WORDS)
  {
    WritesInArea(g, cid, len, ADMIN_WORDS);
    if cid > 0 { Scaled(g.wpp, cid); }
  }

  /** A second admin command of three pages stores past it, and with larger pages so does a first
      one whose entries fit a page. */
  lemma AdminListOverrun(g: Geometry)
    requires g.wpp >= ADMIN_WORDS
    ensures Pages(g.PageSize(), 3 * g.PageSize()) == 3
    ensures Writes(g, 1, 3 * g.PageSize(), g.wpp)
    ensures g.wpp > ADMIN_WORDS ==>
              FitsListPage(g, (ADMIN_WORDS + 2) * g.PageSize()) && Writes(g, 0, (ADMIN_WORDS + 2) * g.PageSize(), ADMIN_WORDS)
  {
    var s := g.PageSize();
    DivideUnique(3 * s + s - 1, s, 3, s - 1);
    DivideUnique((ADMIN_WORDS + 2) * s + s - 1, s, ADMIN_WORDS + 2, s - 1);
  }

  /** Where pages of different command ids lie. */
  lemma OtherPage(g: Geometry, cid: nat, other: nat)
    requires cid != other
    ensures g.ListStart(cid) + g.wpp <= g.ListStart(other) || g.ListStart(other) + g.wpp <= g.ListStart(cid)
  {
    if g.wpp > 0 {
      Scaled(g.wpp, other - cid);
      assert g.wpp * (other - cid) == other * g.wpp - cid * g.wpp;
    }
  }

  /** Meaning: for a mapped buffer outside the list area the controller transfers exactly the
      buffer if and only if the buffer starts on a page boundary or lies in a single page. */
  lemma MappedMeaning(g: Geometry, cid: nat, addr: int, len: nat, p: Prps, words: seq<int>)
    requires g.Valid() && addr >= 0 && FitsListPage(g, len) && Mapped(g, cid, addr, len, p, words)
    requires addr + len <= g.list || g.list + 8 * |words| <= addr
    requires g.ListStart(cid) <= |words|
    ensures Covers(g, Decode(g, p, len, words), addr, len) <==>
            Describable(g, addr, len)
  {
    if addr % g.PageSize() == 0 {
      AlignedMeaning(g, cid, addr, len, p, words);
    } else {
      UnalignedMeaning(g, cid, addr, len, p, words);
    }
  }

  /** Such a buffer is described correctly wherever it lies. */
  lemma DescribableMeaning(g: Geometry, cid: nat, addr: int, len: nat, p: Prps, words: seq<int>)
    requires g.Valid() && addr >= 0 && FitsListPage(g, len) && Mapped(g, cid, addr, len, p, words)
    requires Describable(g, addr, len)
    ensures Covers(g, Decode(g, p, len, words), addr, len)
  {
    if addr % g.PageSize() == 0 { AlignedMeaning(g, cid, addr, len, p, words); }
  }

  lemma PlusMultiple(a: int, size: nat, q: int)
    requires size > 0
    ensures (a + size * q) % size == a % size
  {
    DivideUnique(a + size * q, size, a / size + q, a % size);
  }

  lemma PagesBounds(size: nat, len: nat)
    requires size > 0
    ensures len == 0 <==> Pages(size, len) == 0
    ensures len > 0 ==> size * (Pages(size, len) - 1) < len <= size * Pages(size, len)
    ensures Pages(size, len) <= 1 <==> len <= size
    ensures Pages(size, len) <= 2 <==> len <= 2 * size
    ensures len >= size ==> Pages(size, len) == Pages(size, len - size) + 1
  {
    var n: int, r := Pages(size, len), (len + size - 1) % size;
    PageCount(size, len, n, r);
    if len >= size { DivideUnique(len - 1, size, n - 1, r); }
  }

  lemma PageCount(size: nat, len: nat, n: int, r: nat)
    requires size > 0 && len + size - 1 == size * n + r && r < size
    ensures len == 0 <==> n == 0
    ensures len > 0 ==> size * (n - 1) < len <= size * n
    ensures n <= 1 <==> len <= size
    ensures n <= 2 <==> len <= 2 * size
  {
    assert size * (n - 1) == size * n - size;
    assert size * (n - 2) == size * n - 2 * size;
    Scaled(size, n);
    Scaled(size, n - 1);
    Scaled(size, n - 2);
  }

  /** A list of consecutive page addresses, read from any page boundary on. */
  lemma ConsecutivePages(size: nat, addr: int, n: nat, len: nat)
    requires size > 0 && addr % size == 0 && len <= size * (n + 1)
    ensures forall j :: 0 <= j < len ==> ByteAddr(size, [addr] + Following(size, addr, n), j) == addr + j
    ensures forall i :: 0 <= i < n ==> Following(size, addr, n)[i] % size == 0
  {
    forall i | 0 <= i < n ensures Following(size, addr, n)[i] % size == 0 {
      PlusMultiple(addr, size, i + 1);
    }
    forall j: nat | j < len ensures ByteAddr(size, [addr] + Following(size, addr, n), j) == addr + j {
      ConsecutiveAt(size, addr, n, j);
    }
  }

  lemma ConsecutiveAt(size: nat, addr: int, n: nat, j: nat)
    requires size > 0 && addr % size == 0 && j < size * (n + 1)
    ensures ByteAddr(size, [addr] + Following(size, addr, n), j) == addr + j
  {
    hide Following;
    if j >= size {
      assert size * (n + 1) == size * n + size;
      QuotientBelow(j - size, size, n);
      var q := (j - size) / size;
      ConsecutiveByte(size, addr, n, q, j - size - size * q);
    }
  }

  lemma QuotientBelow(j: nat, size: nat, n: nat)
    requires size > 0 && j < size * n
    ensures j / size < n && 0 <= j - size * (j / size) < size
  {
    var q := j / size;
    assert j == size * q + j % size;
    assert size * (q - n) == size * q - size * n;
    Scaled(size, q - n + 1);
  }

  lemma ConsecutiveByte(size: nat, addr: int, n: nat, q: nat, r: nat)
    requires size > 0 && addr % size == 0 && q < n && r < size
    ensures size * q >= 0
    ensures ByteAddr(size, [addr] + Following(size, addr, n), size + size * q + r) == addr + size + size * q + r
  {
    var f := Following(size, addr, n);
    assert f[q] == addr + size * q + size;
    assert ([addr] + f)[1 + q] == f[q];
    DivideUnique(size * q + r, size, q, r);
  }

  lemma AlignedMeaning(g: Geometry, cid: nat, addr: int, len: nat, p: Prps, words: seq<int>)
    requires g.Valid() && addr >= 0 && FitsListPage(g, len) && Mapped(g, cid, addr, len, p, words)
    requires addr % g.PageSize() == 0
    ensures Covers(g, Decode(g, p, len, words), addr, len)
  {
    hide Pages, ByteAddr;
    var size, n := g.PageSize(), Pages(g.PageSize(), len);
    PagesBounds(size, len);
    ConsecutivePages(g.PageSize(), addr, if n == 0 then 0 else n - 1, len);
    if len <= size {
      assert [addr] + Following(g.PageSize(), addr, 0) == [addr];
    } else if n == 2 {
      PlusMultiple(addr, size, 1);
      assert [addr] + Following(g.PageSize(), addr, 1) == [addr, addr + size];
    } else {
      ListPointer(g, cid);
    }
  }

  lemma ListPointer(g: Geometry, cid: nat)
    requires g.Valid()
    ensures var a := g.list + 8 * g.ListStart(cid); a % g.PageSize() == 0 && a % 8 == 0
  {
    var size := g.PageSize();
    assert 8 * g.ListStart(cid) == size * cid;
    PlusMultiple(g.list, size, cid);
    assert g.list == size * (g.list / size) == 8 * (g.wpp * (g.list / size));
  }

  lemma UnalignedMeaning(g: Geometry, cid: nat, addr: int, len: nat, p: Prps, words: seq<int>)
    requires g.Valid() && addr >= 0 && FitsListPage(g, len) && Mapped(g, cid, addr, len, p, words)
    requires addr + len <= g.list || g.list + 8 * |words| <= addr
    requires addr % g.PageSize() != 0
    ensures Covers(g, Decode(g, p, len, words), addr, len) <==> addr % g.PageSize() + len <= g.PageSize()
  {
    hide Pages;
    var size, n := g.PageSize(), Pages(g.PageSize(), len);
    var first := size - addr % size;
    PagesBounds(size, len);
    if len > first {
      PlusMultiple(addr, size, 1);
      PagesBounds(size, len - first);
      if n == 1 {
        var d := Decode(g, p, len, words);
        assert d.Transfer? ==> ByteAddr(g.PageSize(), d.pages, first) == 0;
      } else if n == 2 {
        assert len - first > size ==> p.prp2 < g.list || (p.prp2 - g.list) / 8 >= |words|;
      } else {
        UnalignedList(g, cid, addr, len, p, words);
      }
    }
  }

  lemma UnalignedList(g: Geometry, cid: nat, addr: int, len: nat, p: Prps, words: seq<int>)
    requires g.Valid() && Mapped(g, cid, addr, len, p, words) && Pages(g.PageSize(), len) > 2
    requires addr % g.PageSize() != 0
    ensures Decode(g, p, len, words) == Invalid
  {
    hide Pages;
    var size, start := g.PageSize(), g.ListStart(cid);
    var rest := len - (size - addr % size);
    PlusMultiple(addr, size, 1);
    PagesBounds(size, len);
    PagesBounds(size, rest);
    assert words[start..start + Pages(g.PageSize(), len) - 1][0] == Following(g.PageSize(), addr, Pages(g.PageSize(), len) - 1)[0];
    assert words[start] == addr + size;
    var n := Pages(g.PageSize(), rest);
    assert (p.prp2 - g.list) / 8 == start;
    assert start + n <= |words| ==> words[start..start + n][0] % size != 0;
  }
}
