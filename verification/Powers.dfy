/** Powers of two and remainders. */
module Powers {

  function Two(k: nat): (p: nat)
    ensures p > 0
  {
    if k == 0 then 1 else 2 * Two(k - 1)
  }

  // Powers written out where a width meets a literal.
  lemma {:induction false} TwoLiterals()
    ensures Two(10) == 1024 && Two(51) == 0x8_0000_0000_0000
    ensures Two(63) == 0x8000_0000_0000_0000 && Two(64) == 0x1_0000_0000_0000_0000
  {
    assert Two(5) == 32 && Two(15) == 32768 && Two(20) == 1048576 && Two(25) == 33554432;
    assert Two(30) == 1073741824 && Two(35) == 34359738368 && Two(40) == 1099511627776;
    assert Two(45) == 35184372088832 && Two(50) == 1125899906842624 && Two(55) == 36028797018963968;
    assert Two(60) == 1152921504606846976;
  }

  lemma {:induction false} Doubled(x: nat, y: nat)
    ensures (2 * x) * y == 2 * (x * y)
  {
  }

  lemma {:induction false} TwoSum(a: nat, b: nat)
    ensures Two(a + b) == Two(a) * Two(b)
  {
    if a > 0 {
      TwoSum(a - 1, b);
      Doubled(Two(a - 1), Two(b));
    }
  }

  lemma {:induction false} TwoGrows(a: nat, b: nat)
    requires a <= b
    ensures Two(a) <= Two(b)
  {
    if a < b { TwoGrows(a, b - 1); }
  }

  lemma {:induction false} AtLeastOnce(d: int, m: nat)
    requires d >= 1
    ensures d * m >= m
  {
    assert (d - 1) * m >= 0;
    assert d * m == (d - 1) * m + m;
  }

  lemma {:induction false} Remainder(x: int, m: nat, q: int, r: nat)
    requires r < m && x == q * m + r
    ensures x % m == r
  {
    var p, s := x / m, x % m;
    assert x == p * m + s;
    assert (q - p) * m == q * m - p * m;
    assert (p - q) * m == p * m - q * m;
    if q > p {
      AtLeastOnce(q - p, m);
    } else if q < p {
      AtLeastOnce(p - q, m);
    }
  }

  lemma {:induction false} Regrouped(q: int, a: nat, p: int, m: nat, r: nat)
    ensures q * (a * m) + (p * m + r) == (q * a + p) * m + r
  {
    assert q * (a * m) == (q * a) * m;
    assert (q * a + p) * m == (q * a) * m + p * m;
  }

  // A remainder by a multiple of `m` keeps the remainder by `m`.
  lemma {:induction false} NarrowBy(x: int, big: nat, a: nat, m: nat)
    requires m > 0 && big == a * m && big > 0
    ensures (x % big) % m == x % m
  {
    var q, y := x / big, x % big;
    var p, r := y / m, y % m;
    assert x == q * big + y && y == p * m + r;
    Regrouped(q, a, p, m, r);
    Remainder(x, m, q * a + p, r);
  }

  lemma {:induction false} NarrowRemainder(x: int, k: nat)
    requires k <= 64
    ensures (x % 0x1_0000_0000_0000_0000) % Two(k) == x % Two(k)
  {
    TwoLiterals();
    TwoSum(64 - k, k);
    NarrowBy(x, Two(64), Two(64 - k), Two(k));
  }
}
