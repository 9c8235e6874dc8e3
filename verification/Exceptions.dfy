/**
  Runs from genesis on which the code does not do what one would expect of it.
 */
module Exceptions {
  import opened Options
  import opened Sums
  import opened Stake
  import opened Vesting
  import opened Books
  import opened Payments
  import opened Snapshots
  import opened Operations
  import opened Ledger
  import opened Arithmetic

  const HOLDER: nat := 3

  lemma GenesisHolder(supply: nat)
    requires supply >= 1000
    ensures |GenesisAccounts(supply)| == 5 + GENESIS_WITNESSES > 5
    ensures forall i :: 0 <= i < |GenesisAccounts(supply)| ==>
      GenesisAccounts(supply)[i]
        == NEW_ACCOUNT.(balance := if i == HOLDER then supply - 1000 else if i == 5 then 1000 else 0)
  {
  }

  /** With no shares and no fund a WLS is worth a thousand vests. */
  lemma FirstPrice(g: Globals, steem: nat)
    requires g.fund == 0 && steem * 1000 < INT64_LIMIT
    ensures ToVests(steem, SharePrice(g)) == Some(steem * 1000)
  {
  }

  /** A fund of f WLS behind f thousand shares keeps that price. */
  lemma SamePriceLater(g: Globals, steem: nat)
    requires g.fund > 0 && g.shares == g.fund * 1000 && steem * 1000 < INT64_LIMIT
    ensures ToVests(steem, SharePrice(g)) == Some(steem * 1000)
  {
    hide ToVests;
    var v := steem * 1000;
    assert steem * g.shares == v * g.fund;
    DivModUnique(steem * g.shares, v, 0, g.fund);
    Quoted(g, steem, v);
  }

  lemma Quoted(g: Globals, steem: nat, vests: nat)
    requires g.fund > 0 && g.shares > 0 && (steem * g.shares) / g.fund == vests < INT64_LIMIT
    ensures ToVests(steem, SharePrice(g)) == Some(vests)
  {
  }

  lemma OneRoute(n: nat, routes: map<(nat, nat), Route>, percent: nat)
    requires n > HOLDER && routes == map[(HOLDER, HOLDER) := Route(percent, true)]
    ensures Sum(n, PercentOf(routes, HOLDER)) == percent
  {
    var none: map<(nat, nat), Route> := map[];
    SumZero(n, PercentOf(none, HOLDER));
    SumChange(n, PercentOf(none, HOLDER), PercentOf(routes, HOLDER), HOLDER);
  }

  /** The deposit lifts the witness above all shares. */
  lemma NoHeadroom(accts: seq<Account>, votes: set<(nat, nat)>, witnesses: seq<int>, g: Globals, rewardFund: int,
                   routes: map<(nat, nat), Route>)
    requires StakeHolds(accts, votes, witnesses) && AccountsValid(accts) && BooksBut(accts, g, rewardFund, 0, 0)
    requires HOLDER < |accts| && accts[HOLDER].proxy == None && accts[HOLDER].vests == g.shares && (HOLDER, 0) in votes
    requires routes == map[(HOLDER, HOLDER) := Route(ONE_HUNDRED_PERCENT, true)]
    requires Due(accts[HOLDER]) > 0
    ensures !Payable(accts, votes, witnesses, g, routes, HOLDER)
  {
    var taken := Due(accts[HOLDER]);
    hide StakeHolds, AccountsValid, BooksBut, PaidOut, Due, ToSteem, SharePrice;
    VestsBooked(accts, g, rewardFund, 0, 0);
    VotesAtLeastOwn(accts, votes, witnesses, HOLDER, 0);
    ReachingNonNegative(accts, votes, routes, HOLDER, taken, 0);
    DepositOf(routes, HOLDER, taken, true, HOLDER);
    assert (taken * ONE_HUNDRED_PERCENT) / ONE_HUNDRED_PERCENT == taken;
    assert ChainEnd(accts, HOLDER, DEPTH) == Some(HOLDER);
    TermAtMostSum(|accts|, Reaching(accts, votes, routes, HOLDER, taken, 0), HOLDER);
  }

  /**
    The holder of all shares votes for a witness, routes its power-down to itself
    as vests, and starts it: when the first instalment is due, the withdrawals of
    that block fail, and with them the block.
   */
  method RoutedDepositFails(supply: nat) returns (db: Database, ok: bool)
    requires supply >= 10000
    ensures db.Valid() && !ok
  {
    hide StakeHolds, AccountsValid, BooksBut, RoutesValid, OnlySlots, Sum, PercentOf, ToVests, SharePrice, Payable,
      KeepsWorth,
      GenesisAccounts, Owned, Weight, Passes, NextAmong, WorthStep;
    db := new Database(supply);
    GenesisHolder(supply);
    FirstPrice(db.gpo, 1000);
    ghost var at0 := db.accounts;
    ok := db.TransferToVesting(HOLDER, HOLDER, 1000);
    assert ok;
    Slots(Staked(Debited(at0, HOLDER, 1000), HOLDER, 1000000), db.accounts);
    ok := db.VoteWitness(HOLDER, 0, true);
    assert ok;
    OneRoute(|db.accounts|, map[(HOLDER, HOLDER) := Route(ONE_HUNDRED_PERCENT, true)], ONE_HUNDRED_PERCENT);
    ok := db.SetRoute(HOLDER, HOLDER, ONE_HUNDRED_PERCENT, true);
    assert ok;
    NoFee(db.gpo);
    assert RateFor(1300) == 100;
    ok := db.WithdrawVesting(HOLDER, 1300, 1000, 0, 0);
    assert ok;
    NoHeadroom(db.accounts, db.votes, db.witnesses, db.gpo, db.rewardFund, db.routes);
    NoPass(db.Now(), WITHDRAW_INTERVAL_SECONDS);
    ok := db.Apply(ProcessWithdrawals(WITHDRAW_INTERVAL_SECONDS));
  }

  /** The holder is the only one due, and cannot be paid. */
  lemma NoPass(s: Snapshot, now: int)
    requires HOLDER < |s.accounts| && s.accounts[HOLDER].nextWithdrawal == Some(now)
    requires forall i :: 0 <= i < |s.accounts| && i != HOLDER ==> s.accounts[i].nextWithdrawal == None
    requires !Payable(s.accounts, s.votes, s.witnesses, s.gpo, s.routes, HOLDER)
    ensures !Admits(ProcessWithdrawals(now), s)
  {
    hide Payable;
    assert Later(s.accounts, None, HOLDER);
    PassStuck(s, HOLDER, now);
  }

  lemma Slots(was: seq<Account>, accts: seq<Account>)
    requires OnlySlots(was, accts)
    ensures |accts| == |was| && forall i :: 0 <= i < |was| ==> accts[i] == was[i].(proxied := accts[i].proxied)
  {
  }

  lemma NoFee(g: Globals)
    requires g.fund == 1000 && g.shares == 1000000
    ensures ToVests(0, SharePrice(g)) == Some(0)
  {
  }

  /** One vest of a pending reward of a hundred WLS is backed by nothing. */
  lemma ClaimOfOne(a: Account)
    requires a.rewardVests == 100000 && a.rewardVestSteem == 100
    ensures ClaimedSteem(a, 1) == 0
  {
  }

  lemma IssueExample()
    ensures IssueOf(105120000000, 1000, 1, 21) == Issue(1000, 850, 50, 100)
  {
  }

  /**
    A claim lowers the worth of a share: with a fund of 1100 WLS behind 1100000
    shares, one vest out of a pending reward is added without any WLS, because the
    WLS behind it is rounded down.
   */
  method ClaimLowersWorth() returns (db: Database, ghost before: Globals)
    ensures db.Valid() && Backed(before) && before.shares > 0
    ensures db.gpo.shares == before.shares + 1 && db.gpo.fund == before.fund && !WorthNoLess(before, db.gpo)
  {
    hide StakeHolds, AccountsValid, BooksBut, RoutesValid, OnlySlots, Sum, ToVests, SharePrice, RewardSharePrice,
      KeepsWorth,
      GenesisAccounts, IssueOf, ClaimedSteem, Rewarded, WorthNoLess, RewardGlobals, AccountValid, Owned, WithRewards;
    db := new Database(105120000000);
    GenesisHolder(105120000000);
    FirstPrice(db.gpo, 1000);
    ghost var at0 := db.accounts;
    var ok := db.TransferToVesting(HOLDER, HOLDER, 1000);
    assert ok;
    Slots(Staked(Debited(at0, HOLDER, 1000), HOLDER, 1000000), db.accounts);
    IssueExample();
    SamePriceLater(db.gpo, 100);
    ghost var at1 := db.accounts;
    ok := db.ProcessFunds(1000, HOLDER, 1, 21, 4);
    assert ok;
    Slots(Debited(Staked(at1, HOLDER, 100000), 4, -50), db.accounts);
    assert db.gpo.fund == 1100 && db.gpo.shares == 1100000 && db.rewardFund == 850;
    ghost var at2, at3 := db.accounts, db.gpo;
    RewardExample(db.gpo);
    ok := db.PayRewards([(5, 100)]);
    assert ok;
    RewardedExample(at2, at3);
    before := db.gpo;
    ClaimOfOne(db.accounts[5]);
    ok := db.ClaimReward(5, 0, 1);
    assert ok;
  }

  lemma FewIssued()
    ensures IssueOf(105120000000, 2, 1, 25) == Issue(2, 1, 0, 0)
  {
  }

  /**
    A claim leaves shares without a fund: while nobody has staked anything, one vest
    out of a pending reward of one WLS is claimed, and nothing is behind it.
   */
  method ClaimWithoutBacking() returns (db: Database, ghost before: Snapshot, ok: bool)
    ensures db.Valid() && ok && Backed(before.gpo) && Empties(ClaimReward(5, 0, 1), before)
    ensures Step(before, ClaimReward(5, 0, 1), db.Now())
    ensures db.gpo.shares == 1 && db.gpo.fund == 0 && !Backed(db.gpo)
  {
    hide StakeHolds, AccountsValid, BooksBut, RoutesValid, OnlySlots, Sum, ToVests, SharePrice, RewardSharePrice,
      KeepsWorth,
      GenesisAccounts, IssueOf, ClaimedSteem, Rewarded, WorthNoLess, RewardGlobals, AccountValid, Owned, WithRewards,
      WorthStep;
    db := new Database(105120000000);
    GenesisHolder(105120000000);
    FewIssued();
    FirstPrice(db.gpo, 0);
    ghost var at0 := db.accounts;
    ok := db.ProcessFunds(2, HOLDER, 1, 25, 4);
    assert ok;
    Slots(Debited(Staked(at0, HOLDER, 0), 4, 0), db.accounts);
    ghost var at1, g := db.accounts, db.gpo;
    SmallReward(at1, g);
    ok := db.PayRewards([(5, 1)]);
    assert ok;
    before := db.Now();
    SmallClaim(db.accounts[5]);
    ok := db.Apply(ClaimReward(5, 0, 1));
  }

  lemma SmallReward(was: seq<Account>, g: Globals)
    requires 5 < |was| && was[5].rewardVests == 0 && was[5].rewardVestSteem == 0
    requires g.fund == 0 && g.shares == 0 && g.pendingShares == 0 && g.pendingSteem == 0
    ensures RewardGlobals(g, [(5, 1)], 1) == Some(g.(pendingShares := 1000, pendingSteem := 1))
    ensures |WithRewards(was, g, [(5, 1)], 1)| == |was|
    ensures var a := WithRewards(was, g, [(5, 1)], 1)[5];
      a.rewardVests == 1000 && a.rewardVestSteem == 1 && a.rewardSteem == was[5].rewardSteem
  {
    hide RewardGlobals, ToVests, SharePrice;
    var payments := [(5, 1)];
    FirstPrice(g, 1);
    RewardGlobalsStart(g, payments);
    RewardGlobalsStep(g, payments, 0, g);
    assert Sum(1, VestsTo(g, payments, 5)) == Sum(0, VestsTo(g, payments, 5)) + VestsTo(g, payments, 5)(0);
    assert Sum(1, AmountTo(payments, 5)) == Sum(0, AmountTo(payments, 5)) + AmountTo(payments, 5)(0);
  }

  lemma SmallClaim(a: Account)
    requires a.rewardVests == 1000 && a.rewardVestSteem == 1
    ensures ClaimedSteem(a, 1) == 0
  {
  }

  lemma RewardExample(g: Globals)
    requires g.fund == 1100 && g.shares == 1100000 && g.pendingShares == 0 && g.pendingSteem == 0
    ensures RewardGlobals(g, [(5, 100)], 1) == Some(g.(pendingShares := 100000, pendingSteem := 100))
  {
    hide ToVests, SharePrice;
    SamePriceLater(g, 100);
    RewardGlobalsStart(g, [(5, 100)]);
    RewardGlobalsStep(g, [(5, 100)], 0, g);
  }

  lemma RewardedExample(was: seq<Account>, g: Globals)
    requires 5 < |was| && was[5].rewardVests == 0 && was[5].rewardVestSteem == 0
    requires g.fund == 1100 && g.shares == 1100000 && g.pendingShares == 0 && g.pendingSteem == 0
    ensures |WithRewards(was, g, [(5, 100)], 1)| == |was|
    ensures var a := WithRewards(was, g, [(5, 100)], 1)[5];
      a.rewardVests == 100000 && a.rewardVestSteem == 100 && a.rewardSteem == was[5].rewardSteem
  {
    hide RewardGlobals;
    var payments := [(5, 100)];
    RewardExample(g);
    RewardGlobalsStart(g, payments);
    assert Sum(1, VestsTo(g, payments, 5)) == Sum(0, VestsTo(g, payments, 5)) + VestsTo(g, payments, 5)(0);
    assert Sum(1, AmountTo(payments, 5)) == Sum(0, AmountTo(payments, 5)) + AmountTo(payments, 5)(0);
  }
}
