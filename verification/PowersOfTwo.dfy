/** Table sizes are powers of two, so masking a hash value is taking it modulo the size. */
module PowersOfTwo {

  function Pow2(k: nat): (r: nat)
    ensures r >= 1
  {
    if k == 0 then 1 else 2 * Pow2(k - 1)
  }

  lemma {:induction false} Pow2Monotone(a: nat, b: nat)
    requires a <= b
    ensures Pow2(a) <= Pow2(b)
    decreases b - a
  {
    if a < b {
      Pow2Monotone(a, b - 1);
    }
  }

  /** Bitwise and of two natural numbers. */
  function BitAnd(a: nat, b: nat): nat
    decreases a
  {
    if a == 0 || b == 0 then 0
    else 2 * BitAnd(a / 2, b / 2) + (if a % 2 == 1 && b % 2 == 1 then 1 else 0)
  }

  lemma {:induction false} MultiplyMonotone(x: int, y: int, n: nat)
    ensures x <= y ==> x * n <= y * n
  {
  }

  lemma {:induction false} RemainderIs(a: nat, n: nat, q: nat, r: nat)
    requires n > 0 && r < n && a == q * n + r
    ensures a % n == r && a / n == q
  {
    var d := a / n;
    assert a == d * n + a % n;
    MultiplyMonotone(d + 1, q, n);
    MultiplyMonotone(q + 1, d, n);
  }

  lemma {:induction false} ModuloTwice(a: nat, half: nat)
    requires half > 0
    ensures a % (2 * half) == 2 * (a / 2 % half) + a % 2
  {
    var q, r := a / 2 / half, a / 2 % half;
    assert a / 2 == q * half + r;
    assert a == 2 * (a / 2) + a % 2;
    assert a == q * (2 * half) + (2 * r + a % 2);
    RemainderIs(a, 2 * half, q, 2 * r + a % 2);
  }

  lemma {:induction false} MaskIsModulo(a: nat, k: nat)
    ensures BitAnd(a, Pow2(k) - 1) == a % Pow2(k)
    decreases k
  {
    if k > 0 {
      var half := Pow2(k - 1);
      assert (Pow2(k) - 1) / 2 == half - 1 && (Pow2(k) - 1) % 2 == 1;
      MaskIsModulo(a / 2, k - 1);
      ModuloTwice(a, half);
    }
  }

  lemma {:induction false} Parts(a: nat, m: nat) returns (q: nat, r: nat)
    requires m > 0
    ensures a == q * m + r && r < m && r == a % m
  {
    q, r := a / m, a % m;
  }

  lemma {:induction false} Regroup(q: nat, q': nat, n: nat)
    ensures q * (2 * n) + q' * n == (2 * q + q') * n
  {
  }

  lemma {:induction false} RemainderOfParts(a: nat, n: nat, m: nat, q: nat, r: nat, q': nat, r': nat)
    requires m == 2 * n && a == q * m + r && r == q' * n + r' && r' < n
    ensures a % n == r'
  {
    Regroup(q, q', n);
    RemainderIs(a, n, 2 * q + q', r');
  }

  /** Doubling the table splits each bucket: the new bucket determines the old one. */
  lemma {:induction false} DoubledModulo(a: nat, n: nat, m: nat)
    requires n > 0 && m == 2 * n
    ensures a % m % n == a % n
  {
    var q, r := Parts(a, m);
    var q', r' := Parts(r, n);
    RemainderOfParts(a, n, m, q, r, q', r');
  }
}
