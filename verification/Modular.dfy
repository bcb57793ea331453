/** Remainders with a variable divisor, which the solver does not handle on its own. */
module Modular {
  lemma RemainderIsUnique(a: int, n: int, q: int, r: int)
    requires n > 0 && 0 <= r < n && a == q * n + r
    ensures a % n == r && a / n == q
  {
    var d := a / n - q;
    assert d * n == r - a % n;
    assert (d > 0 ==> d * n >= n) && (d < 0 ==> d * n <= -n);
  }

  lemma RemainderOfShift(a: int, n: int)
    requires n > 0
    ensures (a + n) % n == a % n
  {
    assert a + n == (a / n + 1) * n + a % n;
    RemainderIsUnique(a + n, n, a / n + 1, a % n);
  }

  lemma RemainderOfSmall(a: int, n: int)
    requires 0 <= a < n
    ensures a % n == a
  {
    RemainderIsUnique(a, n, 0, a);
  }

  /** The remainder by repeated subtraction. */
  function Wrap(i: nat, n: nat): (r: nat)
    requires n > 0
    ensures r < n
  {
    if i < n then i else Wrap(i - n, n)
  }

  lemma {:induction false} WrapIsRemainder(i: nat, n: nat)
    requires n > 0
    ensures Wrap(i, n) == i % n
    decreases i
  {
    if i < n {
      RemainderOfSmall(i, n);
    } else {
      WrapIsRemainder(i - n, n);
      RemainderOfShift(i - n, n);
    }
  }

  lemma {:induction false} WrapOfSum(a: nat, b: nat, n: nat)
    requires n > 0
    ensures Wrap(Wrap(a, n) + b, n) == Wrap(a + b, n)
    decreases a
  {
    if a >= n {
      WrapOfSum(a - n, b, n);
    }
  }
}
