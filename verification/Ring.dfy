/** Arithmetic of a ring of `size` slots addressed by absolute positions. */
module Ring {

  function Slot(n: nat, size: nat): (r: nat)
    requires size > 0
    ensures r < size
  {
    n % size
  }

  /** Parity of the number of times position n has gone round the ring. */
  function Lap(n: nat, size: nat): nat
    requires size > 0
  {
    (n / size) % 2
  }

  lemma Scaled(s: nat, x: int)
    requires s > 0
    ensures x >= 1 ==> s * x >= s
    ensures x <= -1 ==> s * x + s <= 0
  {
  }

  lemma DivideUnique(n: int, size: nat, q: int, r: nat)
    requires size > 0 && n == size * q + r && r < size
    ensures n / size == q && n % size == r
  {
    assert size * (n / size - q) == r - n % size;
    Scaled(size, n / size - q);
  }

  /** Moving to the next position: the slot wraps to 0 and then the lap changes parity. */
  lemma Advance(n: nat, size: nat)
    requires size > 0
    ensures Slot(n, size) < size
    ensures if Slot(n, size) + 1 == size
            then Slot(n + 1, size) == 0 && Lap(n + 1, size) == 1 - Lap(n, size)
            else Slot(n + 1, size) == Slot(n, size) + 1 && Lap(n + 1, size) == Lap(n, size)
  {
    var q, r := n / size, n % size;
    if r + 1 == size {
      assert n + 1 == size * (q + 1) + 0;
      DivideUnique(n + 1, size, q + 1, 0);
    } else {
      DivideUnique(n + 1, size, q, r + 1);
    }
  }

  /** Positions less than a lap apart have different slots. */
  lemma SlotsApart(m: nat, n: nat, size: nat)
    requires size > 0 && m < n < m + size
    ensures Slot(m, size) != Slot(n, size)
  {
    var q, r := m / size, m % size;
    if r + (n - m) < size {
      DivideUnique(n, size, q, r + (n - m));
    } else {
      DivideUnique(n, size, q + 1, r + (n - m) - size);
    }
  }

  /** The position one lap on has the same slot and the other parity. */
  lemma LapOn(n: nat, size: nat)
    requires size > 0
    ensures Slot(n + size, size) == Slot(n, size) && Lap(n + size, size) == 1 - Lap(n, size)
  {
    DivideUnique(n + size, size, n / size + 1, n % size);
  }

  lemma FirstLap(n: nat, size: nat)
    requires n < size
    ensures Slot(n, size) == n && Lap(n, size) == 0
  {
    DivideUnique(n, size, 0, n);
  }

  lemma LapBit(n: nat, size: nat)
    requires size > 0
    ensures Lap(n, size) == 0 || Lap(n, size) == 1
  {
  }
}
