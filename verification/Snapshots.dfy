/**
  The whole ledger at one moment. The votes that proxies and witnesses hold follow
  from the rest, so that what a step does is determined; and the pass of
  process_vesting_withdrawals as a sequence of such steps.
 */
module Snapshots {
  import opened Sums
  import opened Options
  import opened Stake
  import opened Vesting
  import opened Books

  datatype Snapshot = Snapshot(
    accounts: seq<Account>,
    witnesses: seq<int>,
    votes: set<(nat, nat)>,
    routes: map<(nat, nat), Route>,
    gpo: Globals,
    rewardFund: int)

  /** Stake, accounts, routes and totals agree, and no fund is without owners. */
  ghost predicate Consistent(s: Snapshot)
  {
    && StakeHolds(s.accounts, s.votes, s.witnesses)
    && AccountsValid(s.accounts)
    && RoutesValid(|s.accounts|, s.routes)
    && BooksBut(s.accounts, s.gpo, s.rewardFund, 0, 0)
    && Owned(s.gpo)
  }

  /** t is r with the votes that proxies and witnesses hold brought up to date. */
  ghost predicate SettlesAs(r: Snapshot, t: Snapshot)
  {
    && OnlySlots(r.accounts, t.accounts) && |t.witnesses| == |r.witnesses|
    && t.votes == r.votes && t.routes == r.routes && t.gpo == r.gpo && t.rewardFund == r.rewardFund
  }

  /** The slots are determined by vests and proxies: slot d by level d, which is slot d - 1. */
  lemma {:induction false} SameSlots(a: seq<Account>, b: seq<Account>, d: nat)
    requires WellFormed(a) && WellFormed(b) && Flows(a) && Flows(b) && OnlySlots(a, b) && d <= DEPTH
    ensures forall i :: 0 <= i < |a| ==> Level(a[i], d) == Level(b[i], d)
  {
    if d > 0 {
      SameSlots(a, b, d - 1);
      forall i | 0 <= i < |a|
        ensures Level(a[i], d) == Level(b[i], d)
      {
        assert SlotBut(a, None, None, Stake.ZERO, i, d - 1) && SlotBut(b, None, None, Stake.ZERO, i, d - 1);
        SumSame(|a|, Inflow(a, None, i, d - 1), Inflow(b, None, i, d - 1));
      }
    }
  }

  lemma SlotsOnce(a: seq<Account>, b: seq<Account>)
    requires WellFormed(a) && WellFormed(b) && Flows(a) && Flows(b) && OnlySlots(a, b)
    ensures a == b
  {
    hide Flows;
    forall i | 0 <= i < |a|
      ensures a[i] == b[i]
    {
      forall d | 0 <= d < DEPTH
        ensures a[i].proxied[d] == b[i].proxied[d]
      {
        SameSlots(a, b, d + 1);
        assert Level(a[i], d + 1) == Level(b[i], d + 1);
      }
      assert a[i].proxied == b[i].proxied;
    }
  }

  lemma TalliesOnce(accts: seq<Account>, votes: set<(nat, nat)>, v: seq<int>, w: seq<int>)
    requires Tallied(accts, votes, v) && Tallied(accts, votes, w) && |v| == |w|
    ensures v == w
  {
  }

  /** Two consistent states that differ at most in what proxies and witnesses hold are the same. */
  lemma StakeOnce(a: seq<Account>, v: seq<int>, b: seq<Account>, w: seq<int>, votes: set<(nat, nat)>)
    requires StakeHolds(a, votes, v) && StakeHolds(b, votes, w) && OnlySlots(a, b) && |v| == |w|
    ensures a == b && v == w
  {
    hide Flows, Tallied, Acyclic, VotesValid, OnlySlots;
    SlotsOnce(a, b);
    TalliesOnce(a, votes, v, w);
  }

  lemma SettledOnce(r: Snapshot, t: Snapshot, u: Snapshot)
    requires SettlesAs(r, t) && SettlesAs(r, u) && Consistent(t) && Consistent(u)
    ensures t == u
  {
    hide StakeHolds, AccountsValid, RoutesValid, BooksBut;
    StakeOnce(t.accounts, t.witnesses, u.accounts, u.witnesses, t.votes);
  }

  // ------------------------------------------------------- the withdrawals of a block

  /** t is s after the instalment of "from" was paid. */
  ghost predicate Pays(s: Snapshot, from: nat, t: Snapshot)
  {
    && from < |s.accounts| && s.accounts[from].nextWithdrawal.Some?
    && Payable(s.accounts, s.votes, s.witnesses, s.gpo, s.routes, from)
    && t.votes == s.votes && t.routes == s.routes && t.rewardFund == s.rewardFund
    && |t.witnesses| == |s.witnesses| && StakeHolds(t.accounts, t.votes, t.witnesses)
    && var taken, n := Due(s.accounts[from]), |s.accounts|;
       && InstalmentPaid(s.accounts, t.accounts, s.gpo, s.routes, from, taken)
       && t.gpo == Withdraw(PaidOut(s.gpo, s.routes, from, taken, n).value,
                            OwnSteem(s.gpo, s.routes, from, taken, n), OwnPart(n, s.routes, from, taken))
  }

  lemma PaysOnce(s: Snapshot, from: nat, t: Snapshot, u: Snapshot)
    requires Pays(s, from, t) && Pays(s, from, u)
    ensures t == u
  {
    InstalmentOnce(s.accounts, t.accounts, u.accounts, s.gpo, s.routes, from, Due(s.accounts[from]));
    hide InstalmentPaid, StakeHolds, Payable, OnlySlots;
    StakeOnce(t.accounts, t.witnesses, u.accounts, u.witnesses, t.votes);
  }

  lemma InstalmentOnce(was: seq<Account>, a: seq<Account>, b: seq<Account>, g: Globals, routes: map<(nat, nat), Route>,
                       from: nat, taken: nat)
    requires from < |was| && InstalmentPaid(was, a, g, routes, from, taken)
    requires InstalmentPaid(was, b, g, routes, from, taken)
    ensures OnlySlots(a, b)
  {
  }

  /** What is still to be withdrawn by all accounts together. */
  ghost function Left(accts: seq<Account>): nat
  {
    var left := Sum(|accts|, Remaining(accts));
    if left >= 0 then left else 0
  }

  /** The account after "from" in the index by next withdrawal. */
  ghost function Successor(accts: seq<Account>, from: nat): Option<nat>
    requires from < |accts| && accts[from].nextWithdrawal.Some?
  {
    NextAmong(accts, Some((accts[from].nextWithdrawal.value, from)), |accts|)
  }

  /**
    From s, with the loop at cur, the pass ends in t: everybody in turn can be paid
    in the state that the payments before leave, as long as the next one is due.
   */
  ghost predicate Passes(s: Snapshot, cur: Option<nat>, now: int, t: Snapshot)
    decreases Left(s.accounts)
  {
    if cur.None? || cur.value >= |s.accounts| || !IsDue(s.accounts[cur.value], now) then t == s
    else exists u ::
      Pays(s, cur.value, u) && Left(u.accounts) < Left(s.accounts)
      && Passes(u, Successor(s.accounts, cur.value), now, t)
  }

  /** The whole pass. */
  ghost predicate Withdraws(s: Snapshot, now: int, t: Snapshot)
  {
    Passes(s, NextAmong(s.accounts, None, |s.accounts|), now, t)
  }

  lemma PassStep(s: Snapshot, from: nat, now: int, u: Snapshot)
    requires Pays(s, from, u) && IsDue(s.accounts[from], now) && Left(u.accounts) < Left(s.accounts)
    ensures forall t :: Passes(s, Some(from), now, t) <==> Passes(u, Successor(s.accounts, from), now, t)
  {
    hide Pays, Left, IsDue, Successor;
    PaysAt(s, from, u);
    forall t | Passes(s, Some(from), now, t)
      ensures Passes(u, Successor(s.accounts, from), now, t)
    {
      var v :| Pays(s, from, v) && Left(v.accounts) < Left(s.accounts)
        && Passes(v, Successor(s.accounts, from), now, t);
      PaysOnce(s, from, u, v);
    }
  }

  lemma PaysAt(s: Snapshot, from: nat, u: Snapshot)
    requires Pays(s, from, u)
    ensures from < |s.accounts| && s.accounts[from].nextWithdrawal.Some?
  {
  }

  lemma PassStuck(s: Snapshot, from: nat, now: int)
    requires from < |s.accounts| && IsDue(s.accounts[from], now)
    requires !Payable(s.accounts, s.votes, s.witnesses, s.gpo, s.routes, from)
    ensures forall t :: !Passes(s, Some(from), now, t)
  {
    hide Payable, InstalmentPaid, StakeHolds;
  }

  /** The pass has one result at most. */
  lemma {:induction false} PassesOnce(s: Snapshot, cur: Option<nat>, now: int, t: Snapshot, u: Snapshot)
    requires Passes(s, cur, now, t) && Passes(s, cur, now, u)
    ensures t == u
    decreases Left(s.accounts)
  {
    hide Pays, Left, IsDue, Successor;
    if cur.Some? && cur.value < |s.accounts| && IsDue(s.accounts[cur.value], now) {
      var from := cur.value;
      DueHasNext(s.accounts[from], now);
      var v :| Pays(s, from, v) && Left(v.accounts) < Left(s.accounts)
        && Passes(v, Successor(s.accounts, from), now, t);
      var w :| Pays(s, from, w) && Left(w.accounts) < Left(s.accounts)
        && Passes(w, Successor(s.accounts, from), now, u);
      PaysOnce(s, from, v, w);
      PassesOnce(v, Successor(s.accounts, from), now, t, u);
    }
  }

  lemma DueHasNext(a: Account, now: int)
    requires IsDue(a, now)
    ensures a.nextWithdrawal.Some?
  {
  }

  lemma PaysInstalment(s: Snapshot, from: nat, t: Snapshot)
    requires Pays(s, from, t)
    ensures from < |s.accounts| && |t.accounts| == |s.accounts| && Due(s.accounts[from]) >= 0
    ensures InstalmentPaid(s.accounts, t.accounts, s.gpo, s.routes, from, Due(s.accounts[from]))
  {
  }

  lemma LeftFalls(was: seq<Account>, accts: seq<Account>)
    requires 0 <= Sum(|accts|, Remaining(accts)) < Sum(|was|, Remaining(was))
    ensures Left(accts) < Left(was)
  {
  }

  lemma PassEnds(s: Snapshot, cur: Option<nat>, now: int)
    requires cur.Some? ==> cur.value < |s.accounts| && !IsDue(s.accounts[cur.value], now)
    ensures Passes(s, cur, now, s)
  {
  }
}
