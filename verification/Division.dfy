/** Quotient and remainder are unique. */
module Division {

  lemma MulBound(d: int, size: nat)
    ensures d > 0 ==> d * size >= size
    ensures d < 0 ==> d * size <= 0 - size
  {
  }

  lemma DivUnique(y: int, size: nat, q: int, r: nat)
    requires size > 0 && r < size && y == q * size + r
    ensures y / size == q && y % size == r
  {
    var d := y / size - q;
    assert d * size == r - y % size;
    MulBound(d, size);
  }

  lemma PairUnique(a: int, r: nat, b: int, t: nat, size: nat)
    requires r < size && t < size
    ensures a * size + r == b * size + t <==> a == b && r == t
  {
    DivUnique(a * size + r, size, a, r);
    DivUnique(b * size + t, size, b, t);
  }

  /** A number put before another is put before the other's quotient and remainder. */
  lemma Regroup(me: nat, s: nat, p: nat, size: nat)
    requires size > 0
    ensures me * (p * size) + s == (me * p + s / size) * size + s % size
  {
    var a, q := me * p, s / size;
    assert me * (p * size) == a * size;
    assert (a + q) * size == a * size + q * size;
  }

  lemma SameNumberIff(me: nat, s: nat, other: nat, t: nat, p: nat, size: nat)
    requires t < size
    ensures me * (p * size) + s == other * size + t <==> other == me * p + s / size && t == s % size
  {
    Regroup(me, s, p, size);
    PairUnique(me * p + s / size, s % size, other, t, size);
  }

  /** Numbers less than `size` apart have different remainders. */
  lemma CloseAreApart(x: nat, y: nat, size: nat)
    requires 0 < size && x < y + size && y < x + size
    ensures x % size == y % size <==> x == y
  {
    if x % size == y % size {
      var d := y / size - x / size;
      assert d * size == y - x by {
        Regroup(0, x, 0, size);
        Regroup(0, y, 0, size);
      }
      MulBound(d, size);
    }
  }
}
