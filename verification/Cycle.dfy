/** Positions on a cycle, by repeated subtraction, and that this is the remainder. */
module Cycle {

  function Wrap(c: nat, n: nat): (slot: nat)
    requires n > 0
    ensures slot < n
  {
    if c < n then c else Wrap(c - n, n)
  }

  lemma MulSucc(q: int, n: int)
    ensures (q + 1) * n == q * n + n
  {
  }

  lemma {:induction false} MulMonotone(p: int, q: int, n: nat)
    requires p <= q
    ensures p * n <= q * n
    decreases q - p
  {
    if p < q {
      MulMonotone(p, q - 1, n);
      MulSucc(q - 1, n);
    }
  }

  lemma DivisionIsUnique(n: nat, q: int, r: nat, q': int, r': nat)
    requires r < n && r' < n && q * n + r == q' * n + r'
    ensures q == q' && r == r'
  {
    if q < q' {
      MulMonotone(q + 1, q', n);
      MulSucc(q, n);
    } else if q' < q {
      MulMonotone(q' + 1, q, n);
      MulSucc(q', n);
    }
  }

  lemma DivisionLaw(c: nat, n: nat)
    requires n > 0
    ensures c == (c / n) * n + c % n
  {
  }

  lemma NextLap(c: nat, n: nat)
    requires n > 0
    ensures (c + n) % n == c % n && (c + n) / n == c / n + 1
  {
    DivisionLaw(c, n);
    DivisionLaw(c + n, n);
    MulSucc(c / n, n);
    DivisionIsUnique(n, (c + n) / n, (c + n) % n, c / n + 1, c % n);
  }

  lemma SmallRemainder(c: nat, n: nat)
    requires c < n
    ensures c % n == c
  {
    DivisionLaw(c, n);
    DivisionIsUnique(n, c / n, c % n, 0, c);
  }

  lemma {:induction false} WrapIsRemainder(c: nat, n: nat)
    requires n > 0
    ensures Wrap(c, n) == c % n
  {
    if c < n {
      SmallRemainder(c, n);
    } else {
      WrapIsRemainder(c - n, n);
      NextLap(c - n, n);
    }
  }

  /** The remainder of a cursor, as a position on the cycle. */
  method Slot(c: nat, n: nat) returns (slot: nat)
    requires n > 0
    ensures slot == Wrap(c, n)
  {
    WrapIsRemainder(c, n);
    slot := c % n;
  }

  /** Multiplication as repeated addition. */
  function Times(q: nat, x: nat): nat {
    if q == 0 then 0 else Times(q - 1, x) + x
  }

  lemma {:induction false} TimesIsProduct(q: nat, x: nat)
    ensures Times(q, x) == q * x
  {
    if q > 0 {
      TimesIsProduct(q - 1, x);
      MulSucc(q - 1, x);
    }
  }
}
