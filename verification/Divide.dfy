/** uspi/env/lib/libhelper.c:27-64: division of unsigned 32-bit integers by shifting and
    subtracting. The divisor is held in 64 bits. */
module LongDivision {
  import opened Basics

  /** The divisor shifted `k` places to the left. */
  function Shifted(d: nat, k: nat): nat {
    if k == 0 then d else 2 * Shifted(d, k - 1)
  }

  /** `thrown` stands for the exception. */
  method Divide(dividend: u32, divisor: u32) returns (thrown: bool, quotient: u32, rest: u32)
    ensures thrown <==> divisor == 0
    ensures !thrown ==> quotient == dividend / divisor && rest == dividend % divisor
  {
    if divisor == 0 {
      return true, 0, 0;
    }
    thrown := false;
    var n := dividend;
    var d: u64 := divisor;
    var count := 1;
    while n > d
      invariant count >= 1 && d == Shifted(divisor, count - 1)
      invariant divisor <= d && (count > 1 ==> d < 2 * n)
      invariant count == 1 || Shifted(divisor, count - 2) < n
      decreases n - d
    {
      d := d * 2;
      count := count + 1;
    }
    quotient, rest := Subtract(dividend, divisor, d, count);
  }

  /** The second loop, from the shifted divisor back. */
  method Subtract(dividend: u32, divisor: u32, shifted: u64, places: nat) returns (q: u32, n: u32)
    requires 0 < divisor && 0 < places && shifted == Shifted(divisor, places - 1)
    requires dividend < Shifted(divisor, places)
    ensures q == dividend / divisor && n == dividend % divisor
  {
    var d, count := shifted, places;
    q, n := 0, dividend;
    ghost var done := 0;
    assert Multiple(done, q, Shifted(divisor, count));
    hide Multiple;
    while count > 0
      invariant count >= 0 && (count > 0 ==> d == Shifted(divisor, count - 1))
      invariant dividend == done + n && n < Shifted(divisor, count)
      invariant Multiple(done, q, Shifted(divisor, count))
    {
      ShiftQuotient(q, Shifted(divisor, count - 1), done);
      q := 2 * q;
      if n >= d {
        q := q + 1;
        done := done + d;
        n := n - d;
      }
      d := d / 2;
      count := count - 1;
    }
    DivisionIs(dividend, divisor, q, n);
  }

  /** `m` is `q` times `s`. */
  ghost predicate Multiple(m: int, q: nat, s: nat) {
    m == q * s
  }

  /** One more place of the quotient; it stays below the dividend, so it fits in 32 bits. */
  lemma ShiftQuotient(q: nat, s: nat, m: int)
    requires s > 0 && Multiple(m, q, 2 * s)
    ensures Multiple(m, 2 * q, s) && 2 * q <= m
    ensures Multiple(m + s, 2 * q + 1, s) && 2 * q + 1 <= m + s
  {
    assert q * (2 * s) == 2 * q * s;
    assert (2 * q + 1) * s == 2 * q * s + s;
    assert 2 * q * s == 2 * q + 2 * q * (s - 1);
    assert 2 * q * (s - 1) >= 0;
  }

  lemma DivisionIs(n: nat, d: nat, q: nat, r: nat)
    requires Multiple(n - r, q, d) && r < d && r <= n
    ensures q == n / d && r == n % d
  {
    DivisionIsUnique(d, q, r, n / d, n % d);
  }

  /** There is only one quotient and rest. */
  lemma DivisionIsUnique(d: nat, q: nat, r: nat, p: nat, s: nat)
    requires q * d + r == p * d + s && r < d && s < d
    ensures q == p && r == s
  {
    if q < p {
      NextMultiple(d, q, p);
    } else if p < q {
      NextMultiple(d, p, q);
    }
  }

  lemma {:induction false} NextMultiple(d: nat, q: nat, p: nat)
    requires q < p
    ensures q * d + d <= p * d
    decreases p - q
  {
    assert (p - 1) * d + d == p * d;
    if q < p - 1 {
      NextMultiple(d, q, p - 1);
    }
  }
}
