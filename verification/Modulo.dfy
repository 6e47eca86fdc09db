/** Remainders by a variable capacity. */
module Modulo {
  lemma MulGrows(c: nat, q: int)
    ensures q >= 1 ==> c * q >= c
    ensures q <= 0 ==> c * q <= 0
  {
  }

  lemma RemainderUnique(x: int, c: nat, q: int, r: nat)
    requires c > 0 && r < c && x == c * q + r
    ensures x % c == r && x / c == q
  {
    assert x == c * (x / c) + x % c;
    assert c * (q - x / c) == x % c - r;
    MulGrows(c, q - x / c);
    MulGrows(c, x / c - q);
  }

  lemma TwiceIsEven(h: nat, q: int)
    ensures (2 * h * q) % 2 == 0
  {
    assert 2 * h * q == 2 * (h * q);
  }

  /** The remainder of an even number by an even capacity is even. */
  lemma EvenRemainder(x: nat, c: nat)
    requires c > 0 && c % 2 == 0 && x % 2 == 0
    ensures x % c % 2 == 0
  {
    var h, q, r := c / 2, x / c, x % c;
    assert x == c * q + r;
    assert c * q == 2 * h * q;
    TwiceIsEven(h, q);
    EvenDifference(x, 2 * h * q, r);
  }

  /** So the number after it has the remainder after it. */
  lemma AfterEven(x: nat, c: nat)
    requires c > 0 && c % 2 == 0 && x % 2 == 0
    ensures x % c % 2 == 0 && (x + 1) % c == x % c + 1
  {
    EvenRemainder(x, c);
    BelowEven(x % c, c);
    var q, r := x / c, x % c;
    assert x == c * q + r;
    RemainderUnique(x + 1, c, q, r + 1);
  }

  lemma HalfInside(r: nat, c: nat)
    requires r < c && c % 2 == 0
    ensures 2 * (r / 2) + 1 < c
  {
  }

  lemma Halved(r: nat)
    requires r % 2 == 0
    ensures 2 * (r / 2) == r
  {
  }

  lemma BelowEven(r: nat, c: nat)
    requires r < c && c % 2 == 0 && r % 2 == 0
    ensures r + 1 < c
  {
  }

  lemma EvenDifference(x: int, y: int, r: int)
    requires x == y + r && x % 2 == 0 && y % 2 == 0
    ensures r % 2 == 0
  {
  }

  lemma ModSmall(x: int, c: nat)
    requires 0 <= x < c
    ensures x % c == x
  {
    RemainderUnique(x, c, 0, x);
  }

  lemma ModOver(x: int, c: nat)
    requires c <= x < 2 * c
    ensures x % c == x - c
  {
    RemainderUnique(x, c, 1, x - c);
  }

  /** Positions less than a capacity apart fall on different places. */
  lemma ModDistinct(a: int, b: int, c: nat)
    requires a < b < a + c
    ensures a % c != b % c
  {
    assert a == c * (a / c) + a % c && b == c * (b / c) + b % c;
    if a % c == b % c {
      assert b - a == c * (b / c - a / c);
      MulGrows(c, b / c - a / c);
    }
  }
}
