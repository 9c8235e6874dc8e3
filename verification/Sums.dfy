/** Finite sums, as the chain's running totals over an index compute them. */
module Sums {

  /** f(0) + ... + f(n-1) */
  ghost function Sum(n: nat, f: nat -> int): int
  {
    if n == 0 then 0 else Sum(n - 1, f) + f(n - 1)
  }

  lemma {:induction false} SumSame(n: nat, f: nat -> int, g: nat -> int)
    requires forall i :: 0 <= i < n ==> f(i) == g(i)
    ensures Sum(n, f) == Sum(n, g)
  {
    if n > 0 {
      SumSame(n - 1, f, g);
    }
  }

  /** Changing one term changes the sum by the difference of that term. */
  lemma {:induction false} SumChange(n: nat, f: nat -> int, g: nat -> int, k: nat)
    requires k < n
    requires forall i :: 0 <= i < n && i != k ==> f(i) == g(i)
    ensures Sum(n, g) == Sum(n, f) - f(k) + g(k)
  {
    if k == n - 1 {
      SumSame(n - 1, f, g);
    } else {
      SumChange(n - 1, f, g, k);
    }
  }

  lemma {:induction false} SumAtMost(n: nat, f: nat -> int, g: nat -> int)
    requires forall i :: 0 <= i < n ==> f(i) <= g(i)
    ensures Sum(n, f) <= Sum(n, g)
  {
    if n > 0 {
      SumAtMost(n - 1, f, g);
    }
  }

  lemma {:induction false} SumNonNegative(n: nat, f: nat -> int)
    requires forall i :: 0 <= i < n ==> 0 <= f(i)
    ensures 0 <= Sum(n, f)
  {
    if n > 0 {
      SumNonNegative(n - 1, f);
    }
  }

  lemma {:induction false} SumZero(n: nat, f: nat -> int)
    requires forall i :: 0 <= i < n ==> f(i) == 0
    ensures Sum(n, f) == 0
  {
    if n > 0 {
      SumZero(n - 1, f);
    }
  }

  /** A term of a non-negative sum is at most the sum. */
  lemma {:induction false} TermAtMostSum(n: nat, f: nat -> int, k: nat)
    requires k < n
    requires forall i :: 0 <= i < n ==> 0 <= f(i)
    ensures f(k) <= Sum(n, f)
  {
    if k == n - 1 {
      SumNonNegative(n - 1, f);
    } else {
      TermAtMostSum(n - 1, f, k);
    }
  }

  /** A sum of non-negative terms grows with the number of terms. */
  lemma {:induction false} PrefixAtMost(m: nat, n: nat, f: nat -> int)
    requires m <= n
    requires forall i :: 0 <= i < n ==> 0 <= f(i)
    ensures Sum(m, f) <= Sum(n, f)
  {
    if m < n {
      PrefixAtMost(m, n - 1, f);
    }
  }

  lemma {:induction false} SumAdds(n: nat, f: nat -> int, g: nat -> int, h: nat -> int)
    requires forall i :: 0 <= i < n ==> h(i) == f(i) + g(i)
    ensures Sum(n, h) == Sum(n, f) + Sum(n, g)
  {
    if n > 0 {
      SumAdds(n - 1, f, g, h);
    }
  }

  /** The sum of the entries of a vector. */
  ghost function Total(v: seq<int>): int
  {
    Sum(|v|, Entry(v))
  }

  ghost function Entry(v: seq<int>): nat -> int
  {
    (i: nat) => if i < |v| then v[i] else 0
  }
}
