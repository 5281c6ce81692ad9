/** The limit on blocks per command, computed from page size, block size and the controller's
    maximum transfer size.  The page size and both limits are kept in 16-bit fields. */
module Limits {
  import BuddyAllocator
  import opened Ring
  import opened Prp
  import opened ReadWrite

  const U16 := 0x1_0000

  function Pow2(n: nat): (r: nat)
    ensures r > 0
  {
    if n == 0 then 1 else 2 * Pow2(n - 1)
  }

  /** ns->pagesize */
  function PageSizeField(pageshift: nat): nat {
    Pow2(pageshift) % U16
  }

  /** ns->maxppio: one PRP list page per command, and at most 2^mdts pages if the controller has a
      limit.  That limit is computed as an int by a shift, which has no meaning from 31 on. */
  function MaxPpio(pageshift: nat, mdts: nat): nat
    requires mdts <= 30
  {
    var m := PageSizeField(pageshift) / 8;
    if mdts != 0 && m > 2 * Pow2(mdts - 1) then 2 * Pow2(mdts - 1) % U16 else m
  }

  /** ns->maxbpio */
  function MaxBpio(pageshift: nat, blockshift: nat, mdts: nat): nat
    requires blockshift <= pageshift && mdts <= 30
  {
    MaxPpio(pageshift, mdts) * Pow2(pageshift - blockshift) % U16
  }

  lemma {:induction false} Pow2Sum(a: nat, b: nat)
    ensures Pow2(a + b) == Pow2(a) * Pow2(b)
  {
    if a > 0 {
      Pow2Sum(a - 1, b);
      assert Pow2(a) * Pow2(b) == 2 * (Pow2(a - 1) * Pow2(b));
    }
  }

  lemma {:induction false} Pow2Order(a: nat, b: nat)
    requires a <= b
    ensures Pow2(a) <= Pow2(b)
    ensures a < b ==> Pow2(a) < Pow2(b)
    decreases b
  {
    if a < b { Pow2Order(a, b - 1); }
  }

  /** A power of two survives in 16 bits exactly below 2^16; else nothing is left of it. */
  lemma Pow2In16Bits(e: nat)
    ensures Pow2(16) == U16
    ensures Pow2(e) % U16 == if e < 16 then Pow2(e) else 0
  {
    assert Pow2(8) == 0x100;
    Pow2Sum(8, 8);
    if e < 16 {
      Pow2Order(e, 16);
    } else {
      Pow2Sum(16, e - 16);
      DivideUnique(Pow2(e), U16, Pow2(e - 16), 0);
    }
  }

  /** While the page size fits its field, the limit of pages is a power of two, and a full command
      needs at most one list page; from 64 KB pages on all three fields are 0. */
  lemma PpioPower(pageshift: nat, mdts: nat) returns (k: nat)
    requires pageshift >= 3 && mdts <= 30
    ensures pageshift < 16 ==> PageSizeField(pageshift) == Pow2(pageshift)
    ensures pageshift < 16 ==> MaxPpio(pageshift, mdts) == Pow2(k) && k <= pageshift - 3
    ensures pageshift < 16 ==> k == if 0 < mdts < pageshift - 3 then mdts else pageshift - 3
    ensures pageshift >= 16 ==> PageSizeField(pageshift) == MaxPpio(pageshift, mdts) == 0
  {
    Pow2In16Bits(pageshift);
    Pow2Sum(3, pageshift - 3);
    assert Pow2(3) == 8;
    k := if 0 < mdts < pageshift - 3 then mdts else pageshift - 3;
    if pageshift < 16 {
      Pow2In16Bits(k);
      if 0 < mdts < pageshift - 3 {
        Pow2Order(mdts, pageshift - 3);
      } else if mdts != 0 {
        Pow2Order(pageshift - 3, mdts);
      }
    }
  }

  /** The limit suits the geometry, as every read and write needs, exactly when neither the page
      size nor the limit overflows its field; then a full command is maxppio whole pages.  In any
      other case the limit is 0 blocks. */
  lemma LimitSuits(pageshift: nat, blockshift: nat, mdts: nat, list: int)
    requires 3 <= pageshift && blockshift <= pageshift && mdts <= 30
    ensures var g, block, max := Geometry(Pow2(pageshift - 3), list), Pow2(blockshift), MaxBpio(pageshift, blockshift, mdts);
            && g.PageSize() == Pow2(pageshift)
            && (Suits(g, block, max) <==>
                  pageshift < 16 && MaxPpio(pageshift, mdts) * Pow2(pageshift - blockshift) < U16)
            && (Suits(g, block, max) ==> max * block == MaxPpio(pageshift, mdts) * Pow2(pageshift))
            && (!Suits(g, block, max) ==> max == 0)
  {
    hide Pow2, MaxPpio, Pages;
    var k := PpioPower(pageshift, mdts);
    var bp := pageshift - blockshift;
    var g := Geometry(Pow2(pageshift - 3), list);
    PageSizeIs(pageshift, list);
    if pageshift < 16 {
      Pow2Sum(k, bp);
      Pow2In16Bits(k + bp);
      if k + bp < 16 {
        Pow2Order(k + bp, 16);
        Pow2Sum(k + bp, blockshift);
        Pow2Sum(k, pageshift);
        assert k + bp + blockshift == k + pageshift;
        FullCommand(g, k, pageshift);
      } else {
        Pow2Order(16, k + bp);
      }
    }
  }

  lemma PageSizeIs(pageshift: nat, list: int)
    requires pageshift >= 3
    ensures Geometry(Pow2(pageshift - 3), list).PageSize() == Pow2(pageshift)
  {
    Pow2Sum(3, pageshift - 3);
    assert Pow2(3) == 8;
  }

  lemma FullCommand(g: Geometry, k: nat, pageshift: nat)
    requires 3 <= pageshift && k <= pageshift - 3 && g.wpp == Pow2(pageshift - 3) && g.PageSize() == Pow2(pageshift)
    ensures Pow2(k) * Pow2(pageshift) % g.PageSize() == 0 && FitsListPage(g, Pow2(k) * Pow2(pageshift))
  {
    hide Pow2;
    var s := g.PageSize();
    DivideUnique(Pow2(k) * s, s, Pow2(k), 0);
    DivideUnique(Pow2(k) * s + s - 1, s, Pow2(k), s - 1);
    Pow2Order(k, pageshift - 3);
  }

  /** The same condition in shifts, as a caller can check it before opening. */
  lemma LimitSuitsShifts(pageshift: nat, blockshift: nat, mdts: nat, list: int)
    requires 3 <= pageshift && blockshift <= pageshift && mdts <= 30
    ensures Suits(Geometry(Pow2(pageshift - 3), list), Pow2(blockshift), MaxBpio(pageshift, blockshift, mdts)) <==>
            pageshift < 16 && (if 0 < mdts < pageshift - 3 then mdts else pageshift - 3) + pageshift - blockshift < 16
  {
    hide Pow2, MaxPpio, MaxBpio, Suits;
    var k := PpioPower(pageshift, mdts);
    LimitSuits(pageshift, blockshift, mdts, list);
    var e := k + (pageshift - blockshift);
    Pow2Sum(k, pageshift - blockshift);
    Pow2In16Bits(16);
    if e < 16 { Pow2Order(e, 16); } else { Pow2Order(16, e); }
  }

  const IOQ_SIZE: nat := 256

  /** The size of the PRP list area that opening a device asks for, for each of its I/O queues. */
  function ListBytes(pageshift: nat): nat {
    IOQ_SIZE * Pow2(pageshift)
  }

  /** The allocator serves the list area exactly for pages up to 8 KB: for larger ones opening aborts
      before the limits are computed. */
  lemma OpensWhen(pageshift: nat)
    ensures ListBytes(pageshift) <= BuddyAllocator.MAX_BYTES <==> pageshift <= 13
  {
    assert Pow2(8) == 256;
    Pow2Sum(8, 5);
    Pow2Sum(13, 1);
    if pageshift <= 13 { Pow2Order(pageshift, 13); } else { Pow2Order(14, pageshift); }
  }

  /** On every device that opens the limit suits the geometry: no field overflows there. */
  lemma OpenedSuits(pageshift: nat, blockshift: nat, mdts: nat, list: int)
    requires 12 <= pageshift && 9 <= blockshift <= pageshift && mdts <= 30
    requires ListBytes(pageshift) <= BuddyAllocator.MAX_BYTES
    ensures Suits(Geometry(Pow2(pageshift - 3), list), Pow2(blockshift), MaxBpio(pageshift, blockshift, mdts))
    ensures MaxBpio(pageshift, blockshift, mdts) * Pow2(blockshift) == MaxPpio(pageshift, mdts) * Pow2(pageshift)
  {
    hide Suits, MaxBpio, MaxPpio, Pow2;
    OpensWhen(pageshift);
    LimitSuitsShifts(pageshift, blockshift, mdts, list);
    LimitSuits(pageshift, blockshift, mdts, list);
  }

  /** 4 KB pages never overflow a field with blocks of 512 bytes or more. */
  lemma FourKilobytePages(blockshift: nat, mdts: nat, list: int)
    requires 9 <= blockshift <= 12 && mdts <= 30
    ensures Suits(Geometry(Pow2(9), list), Pow2(blockshift), MaxBpio(12, blockshift, mdts))
  {
    LimitSuitsShifts(12, blockshift, mdts, list);
  }

  /** The fields could not hold the limits of larger pages, on which opening aborts: 16 KB pages with
      512-byte blocks would make the limit 0 blocks. */
  lemma SixteenKilobytePages(list: int)
    ensures ListBytes(14) > BuddyAllocator.MAX_BYTES
    ensures MaxBpio(14, 9, 0) == 0 && !Suits(Geometry(Pow2(11), list), Pow2(9), MaxBpio(14, 9, 0))
  {
    OpensWhen(14);
    LimitSuitsShifts(14, 9, 0, list);
    LimitSuits(14, 9, 0, list);
  }

  /** 64 KB pages make the page size field itself 0, however small the transfer limit is. */
  lemma SixtyFourKilobytePages(list: int)
    ensures ListBytes(16) > BuddyAllocator.MAX_BYTES
    ensures PageSizeField(16) == MaxPpio(16, 1) == MaxBpio(16, 12, 1) == 0
    ensures !Suits(Geometry(Pow2(13), list), Pow2(12), MaxBpio(16, 12, 1))
  {
    OpensWhen(16);
    var k := PpioPower(16, 1);
    LimitSuits(16, 12, 1, list);
  }
}
