/**
 Tickets and the cells of a ring that they fall on.
 */
module Remainders {
  lemma {:induction false} AtLeastOnce(k: int, n: int)
    requires k >= 1 && n >= 0
    ensures k * n >= n
  {
    if k > 1 { AtLeastOnce(k - 1, n); }
  }

  /** Two multiples of `n` less than `n` apart are the same. */
  lemma SameMultiple(i: int, j: int, n: int)
    requires n > 0 && -n < i * n - j * n < n
    ensures i == j
  {
    if i < j {
      AtLeastOnce(j - i, n);
    } else if j < i {
      AtLeastOnce(i - j, n);
    }
  }

  lemma RemainderIs(x: int, i: int, r: int, n: nat)
    requires x == i * n + r && 0 <= r < n
    ensures x % n == r
  {
    assert x == x / n * n + x % n;
    SameMultiple(i, x / n, n);
  }

  /** Among `n` tickets in a row, no two share a cell. */
  lemma SameCell(p: nat, q: nat, n: nat)
    requires n > 0 && p <= q < p + n && p % n == q % n
    ensures p == q
  {
    SameMultiple(p / n, q / n, n);
  }

  lemma NextLap(p: nat, n: nat)
    requires n > 0
    ensures (p + n) % n == p % n
  {
    RemainderIs(p + n, p / n + 1, p % n, n);
  }

  lemma Apart(p: nat, q: nat, n: nat)
    requires n > 0 && p != q && p < q + n && q < p + n
    ensures p % n != q % n
  {
    if p % n == q % n {
      if p < q { SameCell(p, q, n); } else { SameCell(q, p, n); }
    }
  }

  /** The next index on a ring of `n` cells. */
  lemma NextIndex(p: nat, n: nat)
    requires n > 0
    ensures (p % n + 1) % n == (p + 1) % n
  {
    if p % n + 1 == n {
      RemainderIs(p + 1, p / n + 1, 0, n);
    } else {
      RemainderIs(p + 1, p / n, p % n + 1, n);
    }
  }

  /** The ticket among the next `n` ones from `lo` that has the cell of ticket `p`. */
  lemma {:induction false} OnThisLap(p: nat, lo: nat, n: nat) returns (q: nat)
    requires n > 0 && p < lo + n
    ensures lo <= q < lo + n && q % n == p % n && (p < lo ==> q >= p + n) && (p >= lo ==> q == p)
    decreases lo + n - p
  {
    if p >= lo {
      q := p;
    } else {
      NextLap(p, n);
      q := OnThisLap(p + n, lo, n);
    }
  }
}
