/** What lists and rankings of every kind have in common. */
module Collections {
  /** `q` without its element `k`. */
  function Without<T>(q: seq<T>, k: int): seq<T>
    requires 0 <= k < |q|
  {
    q[..k] + q[k + 1..]
  }

  /** The weights of all elements, added up. */
  function Sum<T>(q: seq<T>, weight: T -> nat): nat {
    if q == [] then 0 else weight(q[0]) + Sum(q[1..], weight)
  }

  lemma {:induction false} SumUpdate<T>(q: seq<T>, weight: T -> nat, k: nat, x: T)
    requires k < |q|
    ensures Sum(q[k := x], weight) + weight(q[k]) == Sum(q, weight) + weight(x)
  {
    if k == 0 {
      assert q[0 := x][1..] == q[1..];
    } else {
      assert q[k := x][1..] == q[1..][k - 1 := x];
      SumUpdate(q[1..], weight, k - 1, x);
    }
  }

  lemma {:induction false} SumSame<T>(q: seq<T>, r: seq<T>, weight: T -> nat)
    requires |q| == |r| && forall i :: 0 <= i < |q| ==> weight(q[i]) == weight(r[i])
    ensures Sum(q, weight) == Sum(r, weight)
  {
    if q != [] {
      assert forall i :: 0 <= i < |q| - 1 ==> weight(q[1..][i]) == weight(r[1..][i]);
      SumSame(q[1..], r[1..], weight);
    }
  }

  lemma {:induction false} SumAtMost<T>(q: seq<T>, weight: T -> nat, most: nat)
    requires forall x :: x in q ==> weight(x) <= most
    ensures Sum(q, weight) <= |q| * most
  {
    if q != [] { SumAtMost(q[1..], weight, most); }
  }

  /** `first` orders the elements of `s`. */
  ghost predicate Orders<T(!new)>(s: set<T>, first: (T, T) -> bool) {
    && (forall i, j :: i in s && j in s && i != j ==> first(i, j) || first(j, i))
    && (forall i, j, k :: i in s && j in s && k in s && first(i, j) && first(j, k) ==> first(i, k))
  }

  ghost predicate BestAmong<T(!new)>(s: set<T>, first: (T, T) -> bool, best: T) {
    best in s && forall j :: j in s && j != best ==> first(best, j)
  }

  /** Of finitely many, one is best. */
  lemma {:induction false} SomeBest<T(!new)>(s: set<T>, first: (T, T) -> bool, i: T) returns (best: T)
    requires i in s && Orders(s, first)
    ensures BestAmong(s, first, best)
    decreases |s|
  {
    var rest := s - {i};
    if j :| j in rest {
      var k := SomeBest(rest, first, j);
      best := if first(i, k) then i else k;
      forall j | j in s && j != best ensures first(best, j) {
        assert j != i ==> j in rest;
      }
    } else {
      best := i;
    }
  }
}
