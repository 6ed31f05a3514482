/** Powers of two and division, as shifts and masks need them. */
module Powers {

  function Pow2(n: nat): (p: nat)
    ensures p > 0
  {
    if n == 0 then 1 else 2 * Pow2(n - 1)
  }

  lemma {:induction false} Pow2Sum(m: nat, n: nat)
    ensures Pow2(m + n) == Pow2(m) * Pow2(n)
  {
    if m > 0 {
      Pow2Sum(m - 1, n);
      Pow2Next(m - 1);
      Pow2Next(m + n - 1);
      hide Pow2;
      Doubled(Pow2(m - 1), Pow2(n));
    } else {
      assert Pow2(0) == 1;
    }
  }

  lemma Pow2Next(n: nat)
    ensures Pow2(n + 1) == 2 * Pow2(n)
  {
  }

  lemma Doubled(a: nat, b: nat)
    ensures (2 * a) * b == 2 * (a * b)
  {
  }

  lemma {:induction false} Pow2Grows(m: nat, n: nat)
    requires m <= n
    ensures Pow2(m) <= Pow2(n)
    decreases n
  {
    if m < n {
      Pow2Grows(m, n - 1);
    }
  }

  lemma ScaleAtMost(a: nat, b: nat, m: nat)
    requires a <= b
    ensures a * m <= b * m
  {
  }

  lemma Divided(x: nat, q: nat, hi: nat, lo: nat)
    requires q > 0 && hi == x / q && lo == x % q
    ensures x == hi * q + lo && lo < q
  {
  }

  lemma DivisionUnique(hi: nat, lo: nat, q: nat)
    requires lo < q
    ensures (hi * q + lo) / q == hi && (hi * q + lo) % q == lo
  {
    var x := hi * q + lo;
    var d, r := x / q, x % q;
    assert x == d * q + r;
    if d < hi {
      ScaleAtMost(d + 1, hi, q);
      assert false;
    } else if d > hi {
      ScaleAtMost(hi + 1, d, q);
      assert false;
    }
  }
}
