/** Lists of reward payments: an account and an amount of WLS each. */
module Payments {
  import opened Sums

  ghost function AmountOf(payments: seq<(nat, nat)>): nat -> int
  {
    (i: nat) => if i < |payments| then payments[i].1 else 0
  }

  ghost function AmountTo(payments: seq<(nat, nat)>, x: nat): nat -> int
  {
    (i: nat) => if i < |payments| && payments[i].0 == x then payments[i].1 else 0
  }

  /** All that a list pays. */
  ghost function Paying(payments: seq<(nat, nat)>): int
  {
    Sum(|payments|, AmountOf(payments))
  }

  lemma PayingOne(payments: seq<(nat, nat)>, x: nat, amount: nat)
    ensures Paying(payments + [(x, amount)]) == Paying(payments) + amount
  {
    SumSame(|payments|, AmountOf(payments), AmountOf(payments + [(x, amount)]));
  }

  lemma {:induction false} PayingBoth(a: seq<(nat, nat)>, b: seq<(nat, nat)>)
    ensures Paying(a + b) == Paying(a) + Paying(b)
  {
    if b == [] {
      assert a + b == a;
    } else {
      var m := |b| - 1;
      PayingBoth(a, b[..m]);
      PayingOne(a + b[..m], b[m].0, b[m].1);
      PayingOne(b[..m], b[m].0, b[m].1);
      assert a + b == (a + b[..m]) + [(b[m].0, b[m].1)];
      assert b == b[..m] + [(b[m].0, b[m].1)];
    }
  }

  /** All that a list pays to x. */
  ghost function PaidTo(payments: seq<(nat, nat)>, x: nat): int
  {
    Sum(|payments|, AmountTo(payments, x))
  }

  lemma PaidNothing(x: nat)
    ensures PaidTo([], x) == 0
  {
  }

  lemma PaidToOne(payments: seq<(nat, nat)>, y: nat, amount: nat, x: nat)
    ensures PaidTo(payments + [(y, amount)], x) == PaidTo(payments, x) + (if y == x then amount else 0)
  {
    SumSame(|payments|, AmountTo(payments, x), AmountTo(payments + [(y, amount)], x));
  }

  lemma {:induction false} PaidToBoth(a: seq<(nat, nat)>, b: seq<(nat, nat)>, x: nat)
    ensures PaidTo(a + b, x) == PaidTo(a, x) + PaidTo(b, x)
  {
    if b == [] {
      assert a + b == a;
      PaidNothing(x);
    } else {
      var m := |b| - 1;
      PaidToBoth(a, b[..m], x);
      PaidToOne(a + b[..m], b[m].0, b[m].1, x);
      PaidToOne(b[..m], b[m].0, b[m].1, x);
      assert a + b == (a + b[..m]) + [(b[m].0, b[m].1)];
      assert b == b[..m] + [(b[m].0, b[m].1)];
    }
  }
}
