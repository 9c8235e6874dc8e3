/**
  The account ledger of libraries/chain/database.cpp and the evaluators of
  libraries/chain/wls_evaluator.cpp that move value or stake.

  A method returns false where the source asserts; the state it leaves behind
  is then discarded by Apply, as the undo session does.
 */
module Ledger {
  import opened Sums
  import opened Options
  import opened Stake
  import opened Vesting
  import opened Arithmetic
  import opened Books
  import opened Payments
  import opened Snapshots
  import opened Operations

  class Database {
    var accounts: seq<Account>
    var witnesses: seq<int>
    var votes: set<(nat, nat)>
    var routes: map<(nat, nat), Route>
    var gpo: Globals
    var rewardFund: int

    ghost predicate Valid()
      reads this
    {
      && StakeHolds(accounts, votes, witnesses)
      && AccountsValid(accounts)
      && RoutesValid(|accounts|, routes)
      && BooksBut(accounts, gpo, rewardFund, 0, 0)
      && Owned(gpo)
    }

    ghost function Now(): Snapshot
      reads this
    {
      Snapshot(accounts, witnesses, votes, routes, gpo, rewardFund)
    }

    // ------------------------------------------------------- vote propagation

    /** adjust_witness_vote: refuses to lift a witness above the total of all shares. */
    method AdjustWitnessVote(w: nat, delta: int) returns (ok: bool)
      requires w < |witnesses|
      modifies this`witnesses
      ensures ok <==> old(witnesses)[w] + delta <= gpo.shares
      ensures ok ==> witnesses == old(witnesses)[w := old(witnesses)[w] + delta]
    {
      witnesses := witnesses[w := witnesses[w] + delta];
      return witnesses[w] <= gpo.shares;
    }

    method AdjustWitnessVotes(a: nat, delta: int) returns (ok: bool)
      modifies this`witnesses
      ensures ok <==> forall w :: 0 <= w < |old(witnesses)| && (a, w) in votes ==>
        old(witnesses)[w] + delta <= gpo.shares
      ensures ok ==> |witnesses| == |old(witnesses)|
      ensures ok ==> forall w :: 0 <= w < |witnesses| ==>
        witnesses[w] == old(witnesses)[w] + (if (a, w) in votes then delta else 0)
    {
      var n := |witnesses|;
      var w := 0;
      while w < n
        invariant 0 <= w <= n == |witnesses| == |old(witnesses)|
        invariant forall u :: 0 <= u < n ==>
          witnesses[u] == old(witnesses)[u] + (if u < w && (a, u) in votes then delta else 0)
        invariant forall u :: 0 <= u < w && (a, u) in votes ==> old(witnesses)[u] + delta <= gpo.shares
      {
        if (a, w) in votes {
          ok := AdjustWitnessVote(w, delta);
          if !ok { return; }
        }
        w := w + 1;
      }
      return true;
    }

    /** When every gap is closed the witnesses' assertion cannot fire. */
    ghost predicate WithinShares(excl: Option<nat>, delta: Delta)
      reads this
    {
      || (excl.None? && VestsNonNegative(accounts) && Sum(|accounts|, VestsOf(accounts)) <= gpo.shares)
      || ((forall w :: 0 <= w < |witnesses| ==> witnesses[w] <= gpo.shares) && forall i :: 0 <= i <= DEPTH ==>
        delta[i] <= 0)
    }

    /** The end of both propagations: the account votes itself. */
    method SettleAtRoot(c: nat, delta: Delta, depth: nat, ghost excl: Option<nat>) returns (ok: bool)
      requires depth <= DEPTH && Unsettled(accounts, votes, witnesses, excl, c, Shifted(delta, depth))
      requires accounts[c].proxy.None?
      modifies this`witnesses
      ensures ok ==> Settled(accounts, votes, witnesses, excl) && |witnesses| == |old(witnesses)|
      ensures old(WithinShares(excl, delta)) ==> ok
    {
      var total := RootDelta(delta, depth);
      AtRoot(accounts, votes, witnesses, excl, c, delta, depth, total);
      ok := AdjustWitnessVotes(c, total);
    }

    /**
      adjust_proxied_witness_votes, array form: what the levels of c gained
      reaches every account up the chain, and the witnesses its end votes for.
     */
    method AdjustProxied(c: nat, delta: Delta, depth: nat, ghost excl: Option<nat>, ghost rank: seq<nat>)
      returns (ok: bool)
      requires depth <= DEPTH && Unsettled(accounts, votes, witnesses, excl, c, Shifted(delta, depth))
      requires Ranks(accounts, rank)
      requires excl.Some? ==> excl.value < |accounts| && rank[c] <= rank[excl.value]
      modifies this`accounts, this`witnesses
      ensures ok ==>
        && Settled(accounts, votes, witnesses, excl)
        && OnlySlots(old(accounts), accounts)
        && |witnesses| == |old(witnesses)|
      ensures ok ==> forall i :: 0 <= i < |accounts| && rank[c] <= rank[i] ==> accounts[i] == old(accounts)[i]
      ensures old(WithinShares(excl, delta)) ==> ok
      decreases DEPTH - depth
    {
      if accounts[c].proxy.None? {
        ok := SettleAtRoot(c, delta, depth, excl);
      } else if depth >= DEPTH {
        NoGap(accounts, excl, accounts[c].proxy, Shifted(delta, depth));
        ok := true;
      } else {
        ok := HandUp(c, delta, depth, excl, rank);
      }
    }

    /** One proxy edge of the propagation. */
    method HandUp(c: nat, delta: Delta, depth: nat, ghost excl: Option<nat>, ghost rank: seq<nat>) returns (ok: bool)
      requires depth < DEPTH && Unsettled(accounts, votes, witnesses, excl, c, Shifted(delta, depth))
      requires Ranks(accounts, rank)
      requires accounts[c].proxy.Some?
      requires excl.Some? ==> excl.value < |accounts| && rank[c] <= rank[excl.value]
      modifies this`accounts, this`witnesses
      ensures ok ==>
        && Settled(accounts, votes, witnesses, excl)
        && OnlySlots(old(accounts), accounts)
        && |witnesses| == |old(witnesses)|
      ensures ok ==> forall i :: 0 <= i < |accounts| && rank[c] <= rank[i] ==> accounts[i] == old(accounts)[i]
      ensures old(WithinShares(excl, delta)) ==> ok
      decreases DEPTH - depth, 0
    {
      hide Unsettled, Settled, Ranks, Sum, VestsOf, Shifted;
      UnsettledShape(accounts, votes, witnesses, excl, c, Shifted(delta, depth));
      var x := accounts[c].proxy.value;
      var slots := SlotsPlus(accounts[x].proxied, delta, depth);
      StepUp(accounts, votes, witnesses, excl, c, x, delta, depth, slots, rank);
      VestsWithSlots(accounts, x, slots);
      accounts := accounts[x := accounts[x].(proxied := slots)];
      ok := AdjustProxied(x, delta, depth + 1, excl, rank);
    }

    /** adjust_proxied_witness_votes, scalar form: one amount, one slot further up at every account. */
    method AdjustProxiedBy(c: nat, delta: int, depth: nat, ghost rank: seq<nat>) returns (ok: bool)
      requires depth <= DEPTH && Unsettled(accounts, votes, witnesses, None, c, Shifted(ZERO[0 := delta], depth))
      requires Ranks(accounts, rank)
      modifies this`accounts, this`witnesses
      ensures ok ==>
        && Settled(accounts, votes, witnesses, None)
        && OnlySlots(old(accounts), accounts)
        && |witnesses| == |old(witnesses)|
      ensures VestsNonNegative(old(accounts)) && Sum(|old(accounts)|, VestsOf(old(accounts))) <= gpo.shares ==> ok
      ensures ok <==> Headroom(votes, old(witnesses), ChainEnd(old(accounts), c, DEPTH - depth), delta, gpo.shares)
      ensures ok ==> Lifted(votes, old(witnesses), witnesses, ChainEnd(old(accounts), c, DEPTH - depth), delta)
      decreases DEPTH - depth
    {
      ghost var v: Delta := ZERO[0 := delta];
      if accounts[c].proxy.None? {
        AtRootBy(accounts, votes, witnesses, c, delta, depth);
        ok := AdjustWitnessVotes(c, delta);
      } else if depth >= DEPTH {
        NoGap(accounts, None, accounts[c].proxy, Shifted(v, depth));
        ok := true;
      } else {
        ok := HandUpBy(c, delta, depth, rank);
      }
    }

    method HandUpBy(c: nat, delta: int, depth: nat, ghost rank: seq<nat>) returns (ok: bool)
      requires depth < DEPTH && Unsettled(accounts, votes, witnesses, None, c, Shifted(ZERO[0 := delta], depth))
      requires Ranks(accounts, rank) && accounts[c].proxy.Some?
      modifies this`accounts, this`witnesses
      ensures ok ==>
        && Settled(accounts, votes, witnesses, None)
        && OnlySlots(old(accounts), accounts)
        && |witnesses| == |old(witnesses)|
      ensures VestsNonNegative(old(accounts)) && Sum(|old(accounts)|, VestsOf(old(accounts))) <= gpo.shares ==> ok
      ensures ok <==> Headroom(votes, old(witnesses), ChainEnd(old(accounts), c, DEPTH - depth), delta, gpo.shares)
      ensures ok ==> Lifted(votes, old(witnesses), witnesses, ChainEnd(old(accounts), c, DEPTH - depth), delta)
      decreases DEPTH - depth, 0
    {
      hide Headroom, Unsettled, Settled, Ranks, Sum, VestsOf, Lifted;
      UnsettledShape(accounts, votes, witnesses, None, c, Shifted(ZERO[0 := delta], depth));
      var x := accounts[c].proxy.value;
      ghost var was := accounts;
      var slots := accounts[x].proxied;
      slots := slots[depth := slots[depth] + delta];
      StepUp(accounts, votes, witnesses, None, c, x, ZERO[0 := delta], depth, slots, rank);
      VestsWithSlots(accounts, x, slots);
      accounts := accounts[x := accounts[x].(proxied := slots)];
      SameEnd(was, accounts, x, DEPTH - depth - 1);
      ok := AdjustProxiedBy(x, delta, depth + 1, rank);
    }

    /** A change of an account's own vests together with its propagation. */
    method AddVests(c: nat, own: int) returns (ok: bool)
      requires StakeHolds(accounts, votes, witnesses) && c < |accounts|
      modifies this`accounts, this`witnesses
      ensures ok ==> StakeHolds(accounts, votes, witnesses)
      ensures ok ==> |witnesses| == |old(witnesses)| && |accounts| == |old(accounts)|
      ensures ok ==> OnlySlots(old(accounts)[c := old(accounts)[c].(vests := old(accounts)[c].vests + own)], accounts)
      ensures (VestsNonNegative(old(accounts)) && 0 <= old(accounts)[c].vests + own &&
               Sum(|old(accounts)|, VestsOf(old(accounts))) + own <= gpo.shares) ==> ok
      ensures ok <==> Headroom(votes, old(witnesses), ChainEnd(old(accounts), c, DEPTH), own, gpo.shares)
      ensures ok ==> Lifted(votes, old(witnesses), witnesses, ChainEnd(old(accounts), c, DEPTH), own)
    {
      hide Lifted, StakeHolds, Settled, Unsettled, Headroom, Sum, VestsOf, Ranks, ChainEnd, OnlySlots;
      ghost var was, wits := accounts, witnesses;
      StakeAcyclic(accounts, votes, witnesses);
      ghost var rank :| Ranks(accounts, rank);
      accounts := accounts[c := accounts[c].(vests := accounts[c].vests + own)];
      VestsUnsettled(was, accounts, votes, witnesses, c, own, rank);
      ghost var changed := accounts;
      SameEnd(was, accounts, c, DEPTH);
      ok := AdjustProxiedBy(c, own, 0, rank);
      if ok {
        VestsSettled(was, changed, accounts, votes, wits, witnesses, c, own);
      }
    }

    // ------------------------------------------------------- proxies and witness votes

    /** Takes the account's stake out of its proxy chain, or out of the witnesses it votes for. */
    method WithdrawStake(c: nat, delta: Delta, ghost rank: seq<nat>)
      requires StakeHolds(accounts, votes, witnesses) && AccountsValid(accounts)
      requires BooksBut(accounts, gpo, rewardFund, 0, 0)
      requires c < |accounts| && Opposes(delta, accounts[c]) && Ranks(accounts, rank)
      modifies this`accounts, this`witnesses
      ensures Settled(accounts, votes, witnesses, Some(c)) && OnlySlots(old(accounts), accounts)
      ensures |witnesses| == |old(witnesses)| && |accounts| == |old(accounts)|
      ensures accounts[c] == old(accounts)[c]
    {
      hide StakeHolds, AccountsValid, BooksBut, OnlySlots, Settled, Unsettled;
      VestsBooked(accounts, gpo, rewardFund, 0, 0);
      VotesWithinVests(accounts, votes, witnesses);
      Detached(accounts, votes, witnesses, c, delta);
      var ok := AdjustProxied(c, delta, 0, Some(c), rank);
    }

    /** Points the account at its new proxy and lets its stake flow there. */
    method DepositStake(c: nat, p: nat, delta: Delta, ghost was: seq<Account>, ghost wits: seq<int>)
      requires StakeHolds(was, votes, wits) && AccountsValid(was) && BooksBut(was, gpo, rewardFund, 0, 0)
      requires OnlySlots(was, accounts) && |wits| == |witnesses| && |accounts| == |was|
      requires Settled(accounts, votes, witnesses, Some(c))
      requires c < |accounts| && p < |accounts| && ChainFree(was, p, DEPTH - 1, c) && accounts[c] == was[c]
      requires forall d :: 0 <= d <= DEPTH ==> delta[d] == Level(accounts[c], d)
      modifies this`accounts, this`witnesses, this`votes
      ensures StakeHolds(accounts, votes, witnesses)
      ensures votes == set r | r in old(votes) && r.0 != c
      ensures |witnesses| == |old(witnesses)| && |accounts| == |old(accounts)|
      ensures OnlySlots(was[c := was[c].(proxy := Some(p), votedFor := 0)], accounts)
    {
      hide StakeHolds, AccountsValid, BooksBut, Settled, Unsettled, ChainFree, OnlySlots, Sum, VestsOf,
        VestsNonNegative, Level;
      ghost var records := votes;
      votes := set r | r in votes && r.0 != c;
      AttachedTo(accounts, records, votes, witnesses, c, p, delta);
      SlotsThroughRepoint(was, accounts, c, Some(p));
      VestsBooked(was, gpo, rewardFund, 0, 0);
      accounts := accounts[c := accounts[c].(proxy := Some(p), votedFor := 0)];
      ghost var mid := accounts;
      StakeAcyclic(was, records, wits);
      RepointedAcyclic(was, accounts, c, Some(p));
      ghost var rank :| Ranks(accounts, rank);
      var ok := AdjustProxied(c, delta, 0, None, rank);
      SlotsTransitive(was[c := was[c].(proxy := Some(p), votedFor := 0)], mid, accounts);
      SlotsLength(mid, accounts);
      Repointed(was, accounts, records, votes, wits, witnesses, c, Some(p));
    }

    /** account_witness_proxy */
    method SetProxy(account: nat, proxy: Option<nat>) returns (ok: bool)
      requires Valid() && account != NULL_ACCOUNT
      modifies this`accounts, this`witnesses, this`votes
      ensures ok <==> CanProxy(old(Now()), account, proxy)
      ensures ok ==> Valid() && SettlesAs(ProxySet(old(Now()), account, proxy), Now())
    {
      hide StakeHolds, AccountsValid, BooksBut, RoutesValid, OnlySlots, Settled, Unsettled, ChainFree;
      if account >= |accounts| || proxy == Some(account) || accounts[account].proxy == proxy { return false; }
      if proxy.Some? && proxy.value >= |accounts| { return false; }
      ghost var was, wits, records := accounts, witnesses, votes;
      StakeAcyclic(was, votes, witnesses);
      ghost var rank :| Ranks(accounts, rank);
      var delta := NegatedLevels(accounts[account]);
      WithdrawStake(account, delta, rank);
      SameProxies(was, accounts, rank);
      if proxy.Some? {
        ok := WalkProxyChain(accounts, account, proxy.value, rank);
        SameChains(was, accounts, proxy.value, DEPTH - 1, account);
        if !ok { return; }
        DepositStake(account, proxy.value, Negated(delta), was, wits);
      } else {
        ProxiedHoldsNoRecords(was, records, wits, account);
        Cleared(accounts, votes, witnesses, account);
        SlotsRepointed(was, accounts, account);
        assert votes == set r | r in records && r.0 != account;
        accounts := accounts[account := accounts[account].(proxy := None)];
        ok := true;
        Repointed(was, accounts, records, votes, wits, witnesses, account, None);
      }
      RepointKeepsValue(was, accounts, gpo, rewardFund, account, proxy);
    }

    /** account_witness_vote */
    method VoteWitness(account: nat, w: nat, approve: bool) returns (ok: bool)
      requires Valid() && account != NULL_ACCOUNT
      modifies this`accounts, this`witnesses, this`votes
      ensures ok <==> CanVote(old(Now()), account, w, approve)
      ensures ok ==> Valid() && Now() == Voted(old(Now()), account, w, approve)
    {
      hide StakeHolds, AccountsValid, BooksBut, RoutesValid, Owned, Weight, VestsOf, Sum, Acyclic, AccountValid,
        VestsNonNegative;
      if account >= |accounts| || w >= |witnesses| || accounts[account].proxy.Some? { return false; }
      if approve == ((account, w) in votes) { return false; }
      if approve && accounts[account].votedFor >= MAX_WITNESS_VOTES { return false; }
      AccountsGet(accounts, account);
      VestsBooked(accounts, gpo, rewardFund, 0, 0);
      StakeAcyclic(accounts, votes, witnesses);
      var weight := WeightOf(accounts[account]);
      var gain := if approve then weight else -weight;
      var next := if approve then votes + {(account, w)} else votes - {(account, w)};
      var a := accounts[account].(votedFor := accounts[account].votedFor + (if approve then 1 else -1));
      VoteCast(accounts, votes, next, witnesses, account, w, approve, gain);
      VotesCounted(accounts, account, a.votedFor, gpo, rewardFund);
      ok := AdjustWitnessVote(w, gain);
      votes, accounts := next, accounts[account := a];
    }

    /** witness_update for a new owner: a witness nobody votes for yet. */
    method CreateWitness()
      requires Valid()
      modifies this`witnesses
      ensures Valid() && witnesses == old(witnesses) + [0]
    {
      hide StakeHolds, AccountsValid, BooksBut, RoutesValid;
      WitnessCreated(accounts, votes, witnesses);
      witnesses := witnesses + [0];
    }

    /** retally_witness_votes recounts every witness from scratch and arrives at the same votes. */
    method RetallyWitnessVotes() returns (ok: bool)
      requires Valid()
      modifies this`witnesses
      ensures ok && witnesses == old(witnesses)
    {
      hide AccountsValid, BooksBut, RoutesValid, Recount, Flows, Acyclic, VotesValid, VestsOf, Sum, Weight;
      ghost var kept := witnesses;
      VestsBooked(accounts, gpo, rewardFund, 0, 0);
      TalliedIsRecount(accounts, votes, witnesses);
      witnesses := seq(|witnesses|, _ => 0);
      var a := 0;
      while a < |accounts|
        invariant 0 <= a <= |accounts| && |witnesses| == |kept|
        invariant forall w :: 0 <= w < |witnesses| ==> witnesses[w] == Recount(accounts, votes, w, a)
      {
        RecountStep(accounts, votes, |witnesses|, a, a + 1);
        if accounts[a].proxy.None? {
          var weight := WeightOf(accounts[a]);
          ok := AdjustWitnessVotes(a, weight);
        }
        a := a + 1;
      }
      ok := true;
    }

    // ------------------------------------------------------- moving value

    /**
      create_vesting: WLS becomes shares at the current price, or pending
      shares at the price that counts the pending ones too.
     */
    method CreateVesting(to: nat, steem: nat, toReward: bool, ghost owed: int) returns (ok: bool, vests: int)
      requires StakeHolds(accounts, votes, witnesses) && AccountsValid(accounts) && to < |accounts|
      requires BooksBut(accounts, gpo, rewardFund, owed, 0) && Owned(gpo)
      modifies this`accounts, this`witnesses, this`gpo
      ensures ok ==> Owned(gpo)
      ensures ok <==> ToVests(steem, if toReward then RewardSharePrice(old(gpo)) else SharePrice(old(gpo))).Some?
      ensures ok ==>
        ToVests(steem, if toReward then RewardSharePrice(old(gpo)) else SharePrice(old(gpo))) == Some(vests)
      ensures ok && !toReward ==> Buys(steem, old(gpo).fund, old(gpo).shares, vests)
      ensures ok && toReward ==> var g := old(gpo);
        if g.pendingShares == 0 || g.pendingSteem == 0 then Buys(steem, g.fund, g.shares, vests)
        else
          && vests * (g.fund + g.pendingSteem) <= steem * (g.shares + g.pendingShares)
          && steem * (g.shares + g.pendingShares) < (vests + 1) * (g.fund + g.pendingSteem)
      ensures ok ==> StakeHolds(accounts, votes, witnesses) && AccountsValid(accounts)
      ensures ok ==> |witnesses| == |old(witnesses)| && |accounts| == |old(accounts)|
      ensures ok ==> BooksBut(accounts, gpo, rewardFund, owed - steem, 0)
      ensures ok && !toReward ==> gpo == Deposit(old(gpo), steem, vests)
      ensures ok && !toReward ==> OnlySlots(Staked(old(accounts), to, vests), accounts)
      ensures ok && toReward ==> witnesses == old(witnesses) && gpo == old(gpo).(
        pendingShares := old(gpo).pendingShares + vests, pendingSteem := old(gpo).pendingSteem + steem)
      ensures ok && toReward ==> accounts == old(accounts)[to := old(accounts)[to].(
        rewardVests := old(accounts)[to].rewardVests + vests,
        rewardVestSteem := old(accounts)[to].rewardVestSteem + steem)]
    {
      hide StakeHolds, AccountsValid, BooksBut, OnlySlots, Sum, VestsOf, VestsNonNegative, Headroom, ChainEnd, ToVests,
        SharePrice, RewardSharePrice, Buys;
      vests := 0;
      var converted := ToVests(steem, if toReward then RewardSharePrice(gpo) else SharePrice(gpo));
      if converted.None? { return false, 0; }
      vests := converted.value;
      ghost var was := accounts;
      AccountsGet(was, to);
      if toReward {
        RewardPriceBuys(gpo, steem, vests);
        var a := accounts[to];
        a := a.(rewardVests := a.rewardVests + vests, rewardVestSteem := a.rewardVestSteem + steem);
        BooksReward(accounts, gpo, rewardFund, owed, to, a, steem, vests);
        AccountsSet(accounts, to, a);
        accounts := accounts[to := a];
        gpo := gpo.(pendingShares := gpo.pendingShares + vests, pendingSteem := gpo.pendingSteem + steem);
        MoneyMoved(was, accounts, votes, witnesses);
        ok := true;
      } else {
        VestsBooked(accounts, gpo, rewardFund, owed, 0);
        DepositOwned(gpo, steem, vests);
        SharePriceBuys(gpo, steem, vests);
        AccountsSet(accounts, to, accounts[to].(vests := accounts[to].vests + vests));
        ghost var g := gpo;
        gpo := gpo.(fund := gpo.fund + steem, shares := gpo.shares + vests);
        ok := AddVests(to, vests);
        BooksDeposit(was, accounts, g, rewardFund, owed, 0, to, steem, vests, vests);
        AccountsOnlySlots(was[to := was[to].(vests := was[to].vests + vests)], accounts);
      }
    }

    method Transfer(from: nat, to: nat, amount: int) returns (ok: bool)
      requires Valid()
      modifies this`accounts
      ensures ok <==> CanTransfer(old(Now()), from, to, amount)
      ensures ok ==> Valid() && Now() == Transferred(old(Now()), from, to, amount)
    {
      hide StakeHolds, AccountsValid, BooksBut, RoutesValid, Owned;
      if amount <= 0 || from >= |accounts| || to >= |accounts| || accounts[from].balance < amount { return false; }
      ghost var was := accounts;
      Pay(from, -amount, 0);
      AccountsGet(accounts, to);
      Pay(to, amount, amount);
      return true;
    }

    /** adjust_balance */
    method Pay(x: nat, amount: int, ghost owed: int)
      requires StakeHolds(accounts, votes, witnesses) && AccountsValid(accounts)
      requires BooksBut(accounts, gpo, rewardFund, owed, 0)
      requires x < |accounts| && 0 <= accounts[x].balance + amount
      modifies this`accounts
      ensures StakeHolds(accounts, votes, witnesses) && AccountsValid(accounts)
      ensures BooksBut(accounts, gpo, rewardFund, owed - amount, 0)
      ensures accounts == old(accounts)[x := old(accounts)[x].(balance := old(accounts)[x].balance + amount)]
    {
      hide StakeHolds, AccountsValid, BooksBut, RoutesValid;
      ghost var was := accounts;
      var a := accounts[x].(balance := accounts[x].balance + amount);
      AccountsGet(accounts, x);
      AccountsSet(accounts, x, a);
      BooksPay(accounts, gpo, rewardFund, owed, 0, x, a, amount);
      accounts := accounts[x := a];
      MoneyMoved(was, accounts, votes, witnesses);
    }

    method TransferToVesting(from: nat, to: nat, amount: int) returns (ok: bool)
      requires Valid()
      modifies this`accounts, this`witnesses, this`gpo
      ensures ok <==> CanVest(old(Now()), from, to, amount)
      ensures ok ==> Valid() && SettlesAs(Vested(old(Now()), from, to, amount), Now()) && KeepsWorth(old(gpo), gpo)
    {
      hide StakeHolds, AccountsValid, BooksBut, RoutesValid, OnlySlots, ToVests, SharePrice, KeepsWorth, Owned;
      if amount <= 0 || from >= |accounts| || to >= |accounts| || accounts[from].balance < amount { return false; }
      Pay(from, -amount, 0);
      var vests;
      ghost var g := gpo;
      ok, vests := CreateVesting(to, amount, false, amount);
      if ok {
        DepositKeeps(g, amount, vests);
      }
    }

    /**
      account_create: reserved to one account; the fee, at least the median one, becomes the new
      account's first stake.
     */
    method CreateAccount(creator: nat, fee: nat, minFee: nat) returns (ok: bool)
      requires Valid()
      modifies this`accounts, this`witnesses, this`gpo
      ensures ok <==> CanCreate(old(Now()), creator, fee, minFee)
      ensures ok ==> Valid() && SettlesAs(Created(old(Now()), creator, fee, minFee), Now()) && KeepsWorth(old(gpo), gpo)
    {
      hide StakeHolds, AccountsValid, BooksBut, RoutesValid, OnlySlots, ToVests, SharePrice, KeepsWorth, Owned;
      if creator != WLS_ACCOUNT || creator >= |accounts| || accounts[creator].balance < fee
        || fee < minFee { return false; }
      Pay(creator, 0 - fee, 0);
      StakeNewAccount(accounts, votes, witnesses);
      BooksNewAccount(accounts, gpo, rewardFund, fee);
      RoutesNewAccount(|accounts|, routes);
      AccountsNewAccount(accounts);
      accounts := accounts + [NEW_ACCOUNT];
      if fee > 0 {
        var vests;
        ghost var bare, g := accounts, gpo;
        ok, vests := CreateVesting(|accounts| - 1, fee, false, fee);
        assert Staked(bare, |bare| - 1, vests) == Debited(old(accounts), creator, fee) + [NEW_ACCOUNT.(vests := vests)];
        if ok {
          DepositKeeps(g, fee, vests);
        }
      } else {
        ok := true;
        SlotsReflexive(accounts);
        KeepsItself(gpo);
      }
    }

    /** The WLS that a claim takes along. */
    method SteemBehind(a: Account, vests: nat) returns (moved: int)
      requires vests <= a.rewardVests && 0 <= a.rewardVestSteem
      ensures moved == ClaimedSteem(a, vests)
    {
      if vests == a.rewardVests {
        moved := a.rewardVestSteem;
      } else {
        moved := (vests * a.rewardVestSteem) / a.rewardVests;
      }
    }

    /** claim_reward_balance: pending shares and their backing become ordinary ones. */
    method ClaimReward(account: nat, steem: int, vests: int) returns (ok: bool)
      requires Valid()
      modifies this`accounts, this`witnesses, this`gpo
      ensures ok <==> CanClaim(old(Now()), account, steem, vests)
      ensures ok ==> Valid() && SettlesAs(Claimed(old(Now()), account, steem, vests), Now())
      ensures ok ==> var a := old(accounts)[account]; var moved := gpo.fund - old(gpo).fund;
        if vests == a.rewardVests then moved == a.rewardVestSteem
        else moved * a.rewardVests <= vests * a.rewardVestSteem < (moved + 1) * a.rewardVests
      ensures ok ==> var moved := gpo.fund - old(gpo).fund;
        && (WorthNoLess(old(gpo), gpo) <==> vests * old(gpo).fund <= moved * old(gpo).shares)
        && (Backed(gpo) <==> old(gpo).fund + moved > 0)
    {
      hide StakeHolds, AccountsValid, BooksBut, RoutesValid, OnlySlots, AccountValid, Idle, Sum, VestsOf,
        VestsNonNegative,
        Headroom, ChainEnd, ClaimedSteem, WorthNoLess;
      if steem < 0 || vests < 0 || (steem == 0 && vests == 0) || account >= |accounts| { return false; }
      var a := accounts[account];
      if steem > a.rewardSteem || vests > a.rewardVests { return false; }
      ghost var was := accounts;
      AccountsGet(accounts, account);
      RewardsNonNegative(a);
      var moved := SteemBehind(a, vests);
      ghost var first := gpo;
      assert a.rewardSteem == 0;
      ClaimAccounts(a, steem, moved, vests);
      a := a.(rewardSteem := a.rewardSteem - steem, balance := a.balance + steem,
              rewardVests := a.rewardVests - vests, rewardVestSteem := a.rewardVestSteem - moved);
      BooksClaim(accounts, gpo, rewardFund, account, a, steem, moved, vests);
      AccountsSet(accounts, account, a);
      accounts := accounts[account := a];
      gpo := gpo.(pendingShares := gpo.pendingShares - vests, pendingSteem := gpo.pendingSteem - moved);
      MoneyMoved(was, accounts, votes, witnesses);
      ghost var mid, g := accounts, gpo;
      RewardsNonNegative(a);
      VestsBooked(accounts, gpo, rewardFund, moved, 0);
      gpo := gpo.(shares := gpo.shares + vests, fund := gpo.fund + moved);
      AccountsSet(accounts, account, a.(vests := a.vests + vests));
      ok := AddVests(account, vests);
      BooksDeposit(mid, accounts, g, rewardFund, moved, 0, account, moved, vests, vests);
      AccountsOnlySlots(mid[account := a.(vests := a.vests + vests)], accounts);
      assert mid[account := a.(vests := a.vests + vests)] == was[account := a.(vests := a.vests + vests)];
      assert vests > 0 && gpo.shares > 0;
      ClaimWorth(first, gpo, moved, vests);
    }

    // ------------------------------------------------------- powering down

    /** withdraw_vesting: starts, changes or stops a power-down. */
    method WithdrawVesting(account: nat, vests: int, inflation: nat, creationFee: nat, now: int) returns (ok: bool)
      requires Valid() && account != NULL_ACCOUNT
      modifies this`accounts
      ensures ok <==> CanPowerDown(old(Now()), account, vests, inflation, creationFee)
      ensures ok ==> Valid() && Now() == PoweringDown(old(Now()), account, vests, now)
      ensures ok ==> var rate := accounts[account].withdrawRate;
        if vests == 0 then rate == 0 else if vests < WITHDRAW_INTERVALS then rate == 1
        else rate * WITHDRAW_INTERVALS <= vests < (rate + 1) * WITHDRAW_INTERVALS
    {
      hide StakeHolds, AccountsValid, BooksBut, RoutesValid, ToVests, SharePrice;
      if inflation > ONE_HUNDRED_PERCENT || account >= |accounts| || vests < 0
        || accounts[account].vests < vests { return false; }
      var a := accounts[account];
      if vests > (a.vests * (ONE_HUNDRED_PERCENT - inflation)) / ONE_HUNDRED_PERCENT { return false; }
      var minVests := ToVests(creationFee, SharePrice(gpo));
      if minVests.None? || (a.vests <= minVests.value * 10 && vests != 0) { return false; }
      var rate := RateOf(vests);
      if a.withdrawRate == rate { return false; }
      ghost var was := accounts;
      AccountsGet(accounts, account);
      a := a.(withdrawRate := rate,
              nextWithdrawal := if vests == 0 then None else Some(now + WITHDRAW_INTERVAL_SECONDS),
              toWithdraw := vests, withdrawn := 0);
      AccountsSet(accounts, account, a);
      BooksSameMoney(accounts, account, a, gpo, rewardFund, 0, 0);
      accounts := accounts[account := a];
      MoneyMoved(was, accounts, votes, witnesses);
      return true;
    }

    /** The percentages of an account's routes, added up in 16 bits. */
    method TotalPercent(from: nat) returns (total: nat)
      ensures Sum(|accounts|, PercentOf(routes, from)) < 0x1_0000 ==> total == Sum(|accounts|, PercentOf(routes, from))
    {
      total := 0;
      var t := 1;
      assert Sum(1, PercentOf(routes, from)) == Sum(0, PercentOf(routes, from)) + PercentOf(routes, from)(0);
      while t < |accounts|
        invariant 1 <= t
        invariant t <= |accounts| || (t == 1 && |accounts| == 0)
        invariant Sum(|accounts|, PercentOf(routes, from)) < 0x1_0000 ==> total == Sum(t, PercentOf(routes, from))
      {
        if (from, t) in routes {
          PrefixAtMost(t + 1, |accounts|, PercentOf(routes, from));
          total := (total + routes[(from, t)].percent) % 0x1_0000;
        }
        t := t + 1;
      }
    }

    /** set_withdraw_vesting_route */
    method SetRoute(from: nat, to: nat, percent: int, autoVest: bool) returns (ok: bool)
      requires Valid()
      modifies this`accounts, this`routes
      ensures ok <==> CanRoute(old(Now()), from, to, percent, autoVest)
      ensures ok ==> Valid() && Now() == RouteSet(old(Now()), from, to, percent, autoVest)
    {
      hide StakeHolds, AccountsValid, BooksBut, RoutesValid, PercentOf, Sum, Owned;
      if percent < 0 || percent > ONE_HUNDRED_PERCENT || from >= |accounts| || to >= |accounts| { return false; }
      var count := accounts[from].routeCount;
      ghost var next := Rerouted(routes, from, to, percent, autoVest);
      RouteChanged(|accounts|, routes, next, from, to);
      if (from, to) !in routes {
        if percent == 0 || count >= MAX_WITHDRAW_ROUTES { return false; }
        routes := routes[(from, to) := Route(percent, autoVest)];
        count := count + 1;
      } else if percent == 0 {
        routes := routes - {(from, to)};
        count := count - 1;
      } else {
        routes := routes[(from, to) := Route(percent, autoVest)];
      }
      RoutesCounted(accounts, from, count, votes, witnesses, gpo, rewardFund);
      accounts := accounts[from := accounts[from].(routeCount := count)];
      var total := TotalPercent(from);
      return total <= ONE_HUNDRED_PERCENT;
    }

    /** First pass over the routes: vests go on as vests. */
    method DepositVests(from: nat, taken: nat) returns (ok: bool, deposited: int)
      requires Valid() && from < |accounts|
      modifies this`accounts, this`witnesses
      ensures ok ==> StakeHolds(accounts, votes, witnesses) && AccountsValid(accounts)
      ensures ok ==> BooksBut(accounts, gpo, rewardFund, 0, deposited)
      ensures ok ==> deposited == Sum(|accounts|, Deposited(routes, from, taken, true))
      ensures ok ==> |accounts| == |old(accounts)| && |witnesses| == |old(witnesses)|
      ensures ok ==> Credited(old(accounts), accounts, Deposited(routes, from, taken, true), |old(accounts)|)
      ensures ok <==> RoutedHeadroom(old(accounts), votes, old(witnesses), routes, from, taken, gpo.shares)
    {
      hide StakeHolds, AccountsValid, BooksBut, RoutesValid, OnlySlots, Credited, Deposited, Sum, VestsOf,
        VestsNonNegative,
        Headroom, ChainEnd, RoutedHeadroom, Lifted, LiftedUpTo, WithinAll;
      deposited := 0;
      ghost var gain := Deposited(routes, from, taken, true);
      ghost var was, wits := accounts, witnesses;
      WithinAtFirst(accounts, gpo, rewardFund, votes, witnesses);
      LiftedStart(accounts, votes, witnesses, routes, from, taken);
      var t := 1;
      AccountsGet(accounts, from);
      DepositOf(routes, from, taken, true, 0);
      SumOfNone(gain);
      CreditedStart(accounts, gain);
      while t < |accounts|
        invariant 1 <= t <= |accounts| == |was| && |witnesses| == |wits|
        invariant StakeHolds(accounts, votes, witnesses) && AccountsValid(accounts)
        invariant BooksBut(accounts, gpo, rewardFund, 0, deposited)
        invariant deposited == Sum(t, gain)
        invariant Credited(was, accounts, gain, t)
        invariant LiftedUpTo(was, votes, wits, witnesses, routes, from, taken, t) && WithinAll(witnesses, gpo.shares)
      {
        ghost var before, lifted := accounts, witnesses;
        DepositOf(routes, from, taken, true, t);
        CreditedEnd(was, accounts, gain, t, t);
        var vests := 0;
        if (from, t) in routes && routes[(from, t)].autoVest {
          vests := (taken * routes[(from, t)].percent) / ONE_HUNDRED_PERCENT;
          deposited := deposited + vests;
        }
        if vests > 0 {
          AccountsGet(accounts, t);
          AccountsSet(accounts, t, accounts[t].(vests := accounts[t].vests + vests));
          ok := AddVests(t, vests);
          if !ok {
            NoRoutedHeadroom(was, votes, wits, witnesses, lifted, routes, from, taken, t, gpo.shares);
            return;
          }
          LiftedOneMore(was, votes, wits, lifted, witnesses, routes, from, taken, t, vests, gpo.shares);
          BooksDeposit(before, accounts, gpo, rewardFund, 0, deposited - vests, t, 0, vests, 0);
          AccountsOnlySlots(before[t := before[t].(vests := before[t].vests + vests)], accounts);
          CreditedStep(was, before, accounts, gain, t, t + 1);
        } else {
          CreditedNothing(was, accounts, gain, t, t + 1);
          LiftedNoMore(was, votes, wits, witnesses, routes, from, taken, t);
        }
        t := t + 1;
      }
      AllLifted(was, votes, wits, witnesses, routes, from, taken, gpo.shares);
      ok := true;
    }

    /** Second pass over the routes: vests are converted and paid as WLS. */
    method DepositSteem(from: nat, taken: nat, ghost extra: int) returns (ok: bool, deposited: int)
      requires StakeHolds(accounts, votes, witnesses) && AccountsValid(accounts) && from < |accounts|
      requires BooksBut(accounts, gpo, rewardFund, 0, extra)
      requires Sum(|accounts|, Deposited(routes, from, taken, false)) <= taken <= gpo.shares
      modifies this`accounts, this`gpo
      ensures ok ==> StakeHolds(accounts, votes, witnesses) && AccountsValid(accounts)
      ensures ok ==> BooksBut(accounts, gpo, rewardFund, 0, extra + deposited)
      ensures ok ==> deposited == Sum(|accounts|, Deposited(routes, from, taken, false))
      ensures ok ==> |accounts| == |old(accounts)|
      ensures ok ==> Paid(old(accounts), accounts, old(gpo), routes, from, taken, |old(accounts)|)
      ensures ok <==> PaidOut(old(gpo), routes, from, taken, |old(accounts)|).Some?
      ensures ok ==> PaidOut(old(gpo), routes, from, taken, |accounts|) == Some(gpo)
      ensures ok ==> gpo.shares == old(gpo).shares - deposited && KeepsWorth(old(gpo), gpo) && gpo.fund <= old(gpo).fund
    {
      hide StakeHolds, AccountsValid, BooksBut, Paid, PaidOut, Deposited, Sum, SteemPaid, KeepsWorth, ToSteem,
        SharePrice;
      deposited := 0;
      ghost var gain := Deposited(routes, from, taken, false);
      ghost var was, g := accounts, gpo;
      var t := 1;
      AccountsGet(accounts, from);
      DepositOf(routes, from, taken, false, 0);
      SumOfNone(gain);
      PaidStart(accounts, gpo, routes, from, taken);
      KeepsItself(gpo);
      while t < |accounts|
        invariant 1 <= t <= |accounts| == |was|
        invariant StakeHolds(accounts, votes, witnesses) && AccountsValid(accounts)
        invariant BooksBut(accounts, gpo, rewardFund, 0, extra + deposited)
        invariant deposited == Sum(t, gain)
        invariant Paid(was, accounts, g, routes, from, taken, t)
        invariant PaidOut(g, routes, from, taken, t) == Some(gpo)
        invariant gpo.shares == g.shares - deposited && KeepsWorth(g, gpo) && gpo.fund <= g.fund
      {
        DepositOf(routes, from, taken, false, t);
        DepositsMonotone(routes, from, taken, false, t + 1, |accounts|);
        PaidOutStep(g, routes, from, taken, t, t + 1, gpo);
        ghost var before := accounts;
        if (from, t) in routes && !routes[(from, t)].autoVest {
          var vests := (taken * routes[(from, t)].percent) / ONE_HUNDRED_PERCENT;
          var steem := ToSteem(vests, SharePrice(gpo));
          if steem.None? {
            NotPaidOut(g, routes, from, taken, t + 1, |accounts|);
            return false, deposited;
          }
          var a := accounts[t].(balance := accounts[t].balance + steem.value);
          AccountsGet(accounts, t);
          AccountsSet(accounts, t, a);
          MoneyMovedAt(accounts, t, a, votes, witnesses);
          BooksPayout(accounts, gpo, rewardFund, extra + deposited, t, a, steem.value, vests);
          WithdrawMore(g, gpo, vests, steem.value);
          accounts := accounts[t := a];
          gpo := gpo.(fund := gpo.fund - steem.value, shares := gpo.shares - vests);
          deposited := deposited + vests;
        }
        PaidStep(was, before, accounts, g, routes, from, taken, t, t + 1);
        t := t + 1;
      }
      ok := true;
    }

    /** The rest of an instalment goes to the account itself, and its power-down moves on. */
    method FinishInstalment(from: nat, taken: nat, toConvert: nat, ghost g: Globals) returns (ok: bool)
      requires StakeHolds(accounts, votes, witnesses) && AccountsValid(accounts)
      requires BooksBut(accounts, gpo, rewardFund, 0, taken - toConvert)
      requires from < |accounts| && accounts[from].nextWithdrawal.Some? && taken == Instalment(accounts[from])
      requires toConvert <= gpo.shares && KeepsWorth(g, gpo)
      modifies this`accounts, this`gpo, this`witnesses
      ensures ok <==> ToSteem(toConvert, SharePrice(old(gpo))).Some?
      ensures ok ==> StakeHolds(accounts, votes, witnesses) && AccountsValid(accounts)
      ensures ok ==> BooksBut(accounts, gpo, rewardFund, 0, 0)
      ensures ok ==> |accounts| == |old(accounts)| && |witnesses| == |old(witnesses)|
      ensures ok ==>
        KeepsWorth(g, gpo) && gpo == Withdraw(old(gpo), ToSteem(toConvert, SharePrice(old(gpo))).value, toConvert)
      ensures ok ==> var a := old(accounts)[from]; OnlySlots(old(accounts)[from :=
        AfterInstalment(a, taken, a.vests - taken).(vests := a.vests - taken,
          balance := a.balance + ToSteem(toConvert, SharePrice(old(gpo))).value)], accounts)
    {
      hide StakeHolds, AccountsValid, BooksBut, OnlySlots, KeepsWorth, ToSteem, SharePrice, Instalment, Sum,
        AccountValid,
        WithdrawalValid, VestsNonNegative, VestsOf, Headroom, ChainEnd;
      var converted := ToSteem(toConvert, SharePrice(gpo));
      if converted.None? { return false; }
      ghost var was := accounts;
      AccountsGet(accounts, from);
      InstalmentAccounts(accounts[from], taken, converted.value);
      var left := accounts[from].vests - taken;
      var a := accounts[from].(withdrawn := accounts[from].withdrawn + taken,
        balance := accounts[from].balance + converted.value);
      if a.withdrawn >= a.toWithdraw || left == 0 {
        a := a.(withdrawRate := 0, nextWithdrawal := None);
      } else {
        a := a.(nextWithdrawal := Some(a.nextWithdrawal.value + WITHDRAW_INTERVAL_SECONDS));
      }
      AccountsSet(accounts, from, a);
      AccountsSet(accounts[from := a], from, a.(vests := left));
      MoneyMovedAt(accounts, from, a, votes, witnesses);
      BooksPayout(accounts, gpo, rewardFund, taken - toConvert, from, a, converted.value, toConvert);
      WithdrawMore(g, gpo, toConvert, converted.value);
      accounts := accounts[from := a];
      gpo := gpo.(fund := gpo.fund - converted.value, shares := gpo.shares - toConvert);
      VestsBooked(accounts, gpo, rewardFund, 0, taken);
      ghost var before := accounts;
      ok := AddVests(from, 0 - taken);
      BooksDeposit(before, accounts, gpo, rewardFund, 0, taken, from, 0, 0 - taken, 0);
      AccountsOnlySlots(before[from := a.(vests := left)], accounts);
      assert before[from := a.(vests := left)] == was[from := a.(vests := left)];
    }

    /**
      One account's turn in process_vesting_withdrawals: the instalment is
      split over the routes, the rest is converted for the account itself.
     */
    method PayInstalment(from: nat) returns (ok: bool)
      requires Valid() && from < |accounts| && accounts[from].nextWithdrawal.Some?
      modifies this`accounts, this`gpo, this`witnesses
      ensures WithdrawalValid(old(accounts)[from]) && old(accounts)[from].withdrawRate > 0
      ensures ok <==> Payable(old(accounts), votes, old(witnesses), old(gpo), routes, from)
      ensures ok ==> Valid() && Pays(old(Now()), from, Now())
      ensures ok ==> gpo.supply == old(gpo).supply && gpo.shares <= old(gpo).shares && gpo.fund <= old(gpo).fund
      ensures ok ==> KeepsWorth(old(gpo), gpo)
    {
      hide StakeHolds, AccountsValid, BooksBut, RoutesValid, OnlySlots, Deposited, Sum, SteemPaid, KeepsWorth, ToSteem,
        SharePrice, PaidOut, InstalmentPaid, Paid, Credited, Instalment, RoutedHeadroom, Owned;
      ghost var was, g := accounts, gpo;
      AccountsGet(accounts, from);
      var a := accounts[from];
      var taken := if a.toWithdraw - a.withdrawn < a.withdrawRate then Min(a.vests, a.toWithdraw % a.withdrawRate)
        else Min(a.vests, a.withdrawRate);
      TakenIs(a, taken);
      InstalmentExact(accounts[from]);
      DepositsAtMostTaken(routes, from, taken, |accounts|);
      DepositsMonotone(routes, from, taken, true, 0, |accounts|);
      DepositsMonotone(routes, from, taken, false, 0, |accounts|);
      OwnVestsAtMostAll(accounts, gpo, rewardFund, 0, 0, from);
      var asVests, asSteem;
      ok, asVests := DepositVests(from, taken);
      if !ok { return; }
      ghost var credited := accounts;
      ok, asSteem := DepositSteem(from, taken, asVests);
      if !ok { return; }
      ghost var paid := accounts;
      PaidSame(was, credited, accounts, g, routes, from, taken);
      var toConvert := taken - asSteem - asVests;
      if toConvert < 0 { return false; }
      SupplyKept(g, routes, from, taken, |accounts|, gpo);
      ghost var steem := ToSteem(toConvert, SharePrice(gpo));
      ok := FinishInstalment(from, taken, toConvert, g);
      if ok {
        InstalmentComposed(was, credited, paid, accounts, g, routes, from, taken,
          AfterInstalment(paid[from], taken, paid[from].vests - taken).(vests := paid[from].vests - taken,
            balance := paid[from].balance + steem.value));
        KeepsOwners(g, gpo);
      }
    }

    /**
      process_vesting_withdrawals: everybody due by now is paid, in index order;
      the successor is fixed before each payment. Whose next instalment falls due
      within the same interval again may be reached once more.
     */
    method ProcessWithdrawals(now: int) returns (ok: bool)
      requires Valid()
      modifies this`accounts, this`gpo, this`witnesses
      ensures ok <==> exists t :: Withdraws(old(Now()), now, t)
      ensures ok ==> Valid() && Withdraws(old(Now()), now, Now()) && |accounts| == |old(accounts)|
      ensures ok ==> gpo.supply == old(gpo).supply && gpo.shares <= old(gpo).shares && KeepsWorth(old(gpo), gpo)
      ensures ok ==> forall i :: 0 <= i < |accounts| ==> PaidAsDue(old(accounts)[i], accounts[i], now)
      ensures Plain(old(accounts), now, routes, old(gpo)) ==> ok
    {
      hide StakeHolds, AccountsValid, BooksBut, RoutesValid, Sum, KeepsWorth, Payable, Progress, Advanced, Stepped,
        InstalmentPaid,
        RoutedHeadroom, Plain, Owned, Passes, Pays, NextAmong;
      ghost var g, atFirst, s := gpo, accounts, Now();
      KeepsItself(gpo);
      RemainingNonNegative(accounts);
      var cur: Option<nat> := NextByWithdrawal(accounts, None);
      LoopStart(accounts, cur, now);
      hide Withdraws, PowerOf, AllProgress, Later, Before, Due, Left;
      while cur.Some? && accounts[cur.value].nextWithdrawal.value <= now
        invariant Valid() && |accounts| == |atFirst|
        invariant cur.Some? ==> cur.value < |accounts| && accounts[cur.value].nextWithdrawal.Some?
        invariant gpo.supply == g.supply && gpo.shares <= g.shares && KeepsWorth(g, gpo) && gpo.fund <= g.fund
        invariant AllProgress(atFirst, accounts, cur, now)
        invariant forall t :: Withdraws(s, now, t) <==> Passes(Now(), cur, now, t)
        invariant 0 <= Sum(|accounts|, Remaining(accounts))
        decreases Sum(|accounts|, Remaining(accounts))
      {
        var from := cur.value;
        var next := NextByWithdrawal(accounts, Some((accounts[from].nextWithdrawal.value, from)));
        ghost var was, h, before := accounts, gpo, Now();
        ok := PayInstalment(from);
        if !ok {
          PassStuck(before, from, now);
          if Plain(atFirst, now, routes, g) {
            PlainPays(atFirst, was, votes, before.witnesses, g, h, rewardFund, routes, from, now);
          }
          return;
        }
        KeepsTransitive(g, h, gpo);
        PaysInstalment(before, from, Now());
        LoopStep(atFirst, was, accounts, h, routes, from, next, now);
        RemainingNonNegative(accounts);
        LeftFalls(was, accounts);
        PassStep(before, from, now, Now());
        cur := next;
      }
      LoopEnd(atFirst, accounts, cur, now);
      PassEnds(Now(), cur, now);
      ok := true;
    }

    // ------------------------------------------------------- end of block

    /** Takes everything from the null account, and its part of the shares and the pending rewards from the totals. */
    method EmptyNull() returns (ok: bool, a: Account, converted: int, total: int)
      requires |accounts| > NULL_ACCOUNT && AccountValid(accounts[NULL_ACCOUNT])
      requires accounts[NULL_ACCOUNT].vests <= gpo.shares
      modifies this`gpo
      ensures ok <==> CanBurn(old(Now()))
      ensures ok ==>
        && converted == (if accounts[NULL_ACCOUNT].vests > 0
                         then ToSteem(accounts[NULL_ACCOUNT].vests, SharePrice(old(gpo))).value else 0)
        && a == BurnedAccount(accounts[NULL_ACCOUNT]) && total == BurnedOf(accounts[NULL_ACCOUNT], converted) >= 0
        && gpo == BurnedGlobals(old(gpo), accounts[NULL_ACCOUNT], converted).(supply := old(gpo).supply)
        && KeepsWorth(old(gpo), Withdraw(old(gpo), converted, accounts[NULL_ACCOUNT].vests))
    {
      hide KeepsWorth, ToSteem, SharePrice, WithdrawalValid;
      a := accounts[NULL_ACCOUNT];
      converted, total := 0, 0;
      KeepsItself(gpo);
      if a.balance > 0 {
        total := total + a.balance;
        a := a.(balance := 0);
      }
      if a.vests > 0 {
        var price := ToSteem(a.vests, SharePrice(gpo));
        if price.None? { return false, a, 0, 0; }
        converted := price.value;
        WithdrawMore(gpo, gpo, a.vests, converted);
        gpo := gpo.(shares := gpo.shares - a.vests, fund := gpo.fund - converted);
        a := a.(vests := 0);
        total := total + converted;
      }
      if a.rewardSteem > 0 {
        total := total + a.rewardSteem;
        a := a.(rewardSteem := 0);
      }
      if a.rewardVests > 0 {
        total := total + a.rewardVestSteem;
        gpo := gpo.(pendingShares := gpo.pendingShares - a.rewardVests,
          pendingSteem := gpo.pendingSteem - a.rewardVestSteem);
        a := a.(rewardVestSteem := 0, rewardVests := 0);
      }
      ok := true;
    }

    /** clear_null_account_balance: whatever reached the null account leaves the supply. */
    method ClearNullAccount() returns (ok: bool)
      requires Valid()
      modifies this`accounts, this`gpo
      ensures ok <==> CanBurn(old(Now()))
      ensures ok ==> Valid() && Now() == Burned(old(Now())) && KeepsWorth(old(gpo), gpo)
    {
      hide StakeHolds, AccountsValid, BooksBut, RoutesValid, KeepsWorth, ToSteem, SharePrice, Owned;
      AccountsSize(accounts);
      AccountsGet(accounts, NULL_ACCOUNT);
      ghost var g, was := gpo, accounts[NULL_ACCOUNT];
      var a, converted, total;
      OwnVestsAtMostAll(accounts, gpo, rewardFund, 0, 0, NULL_ACCOUNT);
      ok, a, converted, total := EmptyNull();
      if !ok { return; }
      if total > 0 {
        gpo := gpo.(supply := gpo.supply - total);
      }
      hide BurnedAccount;
      BooksBurned(accounts, g, rewardFund, converted);
      StakeBurned(accounts, votes, witnesses);
      KeepsSame(g, Withdraw(g, converted, was.vests), gpo);
      KeepsOwners(g, gpo);
      accounts := accounts[NULL_ACCOUNT := a];
      ok := true;
    }

    /** process_funds: inflation is issued to the reward fund, the block producer and the dev fund. */
    method ProcessFunds(rate: nat, producer: nat, weight: nat, normalization: nat, dev: nat) returns (ok: bool)
      requires Valid()
      modifies this`accounts, this`witnesses, this`gpo, this`rewardFund
      ensures ok <==> CanIssue(old(Now()), rate, producer, weight, normalization, dev)
      ensures ok ==> Valid() && SettlesAs(Issued(old(Now()), rate, producer, weight, normalization, dev), Now())
      ensures ok ==> KeepsWorth(old(gpo), gpo)
      ensures ok ==> normalization > 0 && 0 <= old(gpo).supply && exists i: Issue ::
        && Inflates(old(gpo).supply, rate, weight, normalization, i)
        && rewardFund == old(rewardFund) + i.content && gpo.fund == old(gpo).fund + i.producer
        && gpo.supply == old(gpo).supply + i.content + i.dev + i.producer
    {
      hide StakeHolds, AccountsValid, BooksBut, RoutesValid, KeepsWorth, ToVests, SharePrice, OnlySlots, Owned, IssueOf,
        Inflates;
      if producer >= |accounts| || dev >= |accounts| || normalization == 0 || gpo.supply < 0 { return false; }
      var i := IssueOf(gpo.supply, rate, weight, normalization);
      ghost var g := gpo;
      BooksIssued(accounts, gpo, rewardFund, i.content + i.dev + i.producer, i.content);
      rewardFund := rewardFund + i.content;
      gpo := gpo.(supply := gpo.supply + i.content + i.dev + i.producer);
      ghost var h, was := gpo, accounts;
      SamePrice(g, h);
      SameOwners(g, h);
      var vests;
      ok, vests := CreateVesting(producer, i.producer, false, i.dev + i.producer);
      if !ok { return; }
      DepositKeeps(g, i.producer, vests);
      KeepsSame(g, Deposit(g, i.producer, vests), gpo);
      AccountsGet(accounts, dev);
      ghost var staked := accounts;
      Pay(dev, i.dev, i.dev);
      SlotsThenPaid(was, staked, accounts, producer, vests, dev, i.dev);
    }

    /** The payouts of process_comment_cashout: reward balances grow, the reward fund shrinks. */
    method PayRewards(payments: seq<(nat, nat)>) returns (ok: bool)
      requires Valid()
      modifies this`accounts, this`witnesses, this`gpo, this`rewardFund
      ensures ok <==> CanReward(old(Now()), payments)
      ensures ok ==> Valid() && Now() == RewardsPaid(old(Now()), payments)
      ensures ok ==> gpo.supply == old(gpo).supply && gpo.fund == old(gpo).fund && gpo.shares == old(gpo).shares
      ensures ok ==> gpo.pendingSteem == old(gpo).pendingSteem + Paying(payments)
    {
      hide StakeHolds, AccountsValid, BooksBut, RoutesValid, ToVests, RewardSharePrice, Rewarded, RewardGlobals,
        WithRewards, Owned;
      var k := 0;
      RewardGlobalsStart(gpo, payments);
      var total: int := 0;
      ghost var was := accounts;
      RewardedNone(was, gpo, payments);
      while k < |payments|
        invariant 0 <= k <= |payments| && |accounts| == |was|
        invariant StakeHolds(accounts, votes, witnesses) && AccountsValid(accounts)
        invariant total == Sum(k, AmountOf(payments))
        invariant BooksBut(accounts, gpo, rewardFund, 0 - total, 0)
        invariant Rewarded(was, accounts, old(gpo), payments, k) && witnesses == old(witnesses)
        invariant rewardFund == old(rewardFund)
        invariant votes == old(votes) && routes == old(routes)
        invariant forall j :: 0 <= j < k ==> payments[j].0 < |was|
        invariant gpo.supply == old(gpo).supply && gpo.fund == old(gpo).fund && gpo.shares == old(gpo).shares
        invariant gpo.pendingSteem == old(gpo).pendingSteem + total && Owned(gpo)
        invariant RewardGlobals(old(gpo), payments, k) == Some(gpo)
      {
        if payments[k].0 >= |accounts| { return false; }
        ghost var before, g := accounts, gpo;
        RewardGlobalsStep(old(gpo), payments, k, gpo);
        var vests;
        ok, vests := CreateVesting(payments[k].0, payments[k].1, true, 0 - total);
        if !ok {
          RewardGlobalsNone(old(gpo), payments, k + 1, |payments|);
          return;
        }
        RewardedStep(was, before, accounts, old(gpo), payments, k, k + 1, vests, g, gpo);
        total := total + payments[k].1;
        k := k + 1;
      }
      BooksFromFund(accounts, gpo, rewardFund, total);
      RewardedIs(was, accounts, old(gpo), payments, |payments|);
      rewardFund := rewardFund - total;
      ok := true;
    }

    // ------------------------------------------------------- whole runs

    constructor (supply: nat)
      requires supply >= 1000
      ensures Valid()
      ensures gpo == Globals(supply, 0, 0, 0, 0) && rewardFund == 0 && accounts == GenesisAccounts(supply)
      ensures |witnesses| == GENESIS_WITNESSES && votes == {} && routes == map[]
    {
      accounts := seq(5 + GENESIS_WITNESSES, (i: nat) =>
        if i == 3 then NEW_ACCOUNT.(balance := supply - 1000)
        else if i == 5 then NEW_ACCOUNT.(balance := 1000)
        else NEW_ACCOUNT);
      witnesses := seq(GENESIS_WITNESSES, _ => 0);
      votes := {};
      routes := map[];
      gpo := Globals(supply, 0, 0, 0, 0);
      rewardFund := 0;
      GenesisStake(supply);
      GenesisBooks(supply);
      GenesisRoutes(5 + GENESIS_WITNESSES);
    }

    /** An operation that somebody signs for. */
    method Perform(op: Operation) returns (ok: bool)
      requires Valid() && op.Actor().Some? && op.Actor() != Some(NULL_ACCOUNT)
      modifies this
      ensures ok <==> Admits(op, old(Now()))
      ensures ok ==> Valid() && SettlesAs(Effect(op, old(Now())), Now())
      ensures ok && !op.ClaimReward? ==> KeepsWorth(old(gpo), gpo)
    {
      hide StakeHolds, AccountsValid, BooksBut, RoutesValid, Owned, OnlySlots, KeepsWorth, CanTransfer, CanVest,
        CanPowerDown,
        CanRoute, CanProxy, CanVote, CanCreate, CanClaim, WorthNoLess, Backed, ClaimedSteem;
      KeepsItself(gpo);
      match op {
        case Transfer(from, to, amount) => ok := Transfer(from, to, amount);
        case TransferToVesting(from, to, amount) => ok := TransferToVesting(from, to, amount);
        case WithdrawVesting(account, vests, inflation, fee, now) => ok := WithdrawVesting(account, vests, inflation,
          fee, now);
        case SetRoute(from, to, percent, autoVest) => ok := SetRoute(from, to, percent, autoVest);
        case SetProxy(account, proxy) => ok := SetProxy(account, proxy);
        case VoteWitness(account, target, approve) => ok := VoteWitness(account, target, approve);
        case CreateAccount(creator, fee, minFee) => ok := CreateAccount(creator, fee, minFee);
        case ClaimReward(account, steem, vests) => ok := ClaimReward(account, steem, vests);
        case CreateWitness(owner) => CreateWitness(); ok := true;
      }
      SlotsReflexive(accounts);
    }

    /** A step that the end of a block takes by itself. */
    method Finish(op: Operation) returns (ok: bool)
      requires Valid() && op.Actor().None?
      modifies this
      ensures ok <==> Admits(op, old(Now()))
      ensures ok ==> Valid() && KeepsWorth(old(gpo), gpo)
      ensures ok ==>
        if op.ProcessWithdrawals?
          then Withdraws(old(Now()), op.now, Now()) else SettlesAs(Effect(op, old(Now())), Now())
    {
      hide StakeHolds, AccountsValid, BooksBut, RoutesValid, Owned, OnlySlots, KeepsWorth, CanBurn, CanIssue, CanReward,
        RewardGlobals, Withdraws, PaidAsDue, Plain;
      ghost var g := gpo;
      KeepsItself(g);
      match op {
        case ClearNullAccount => ok := ClearNullAccount();
        case ProcessFunds(rate, producer, weight, normalization, dev) => ok := ProcessFunds(rate, producer, weight,
          normalization, dev);
        case PayRewards(payments) =>
          ok := PayRewards(payments);
          if ok {
            KeepsSame(g, g, gpo);
          }
        case ProcessWithdrawals(now) => ok := ProcessWithdrawals(now);
      }
      SlotsReflexive(accounts);
    }

    /** One operation or end-of-block step; a failed one leaves the state as it was. */
    method Apply(op: Operation) returns (ok: bool)
      requires Valid()
      modifies this
      ensures Valid()
      ensures ok <==> Admits(op, old(Now()))
      ensures Step(old(Now()), op, Now()) && WorthStep(old(Now()), op, Now())
    {
      hide StakeHolds, AccountsValid, BooksBut, RoutesValid, Owned, OnlySlots, KeepsWorth, Admits, Effect, SettlesAs,
        Withdraws,
        WorthStep;
      ghost var s := Now();
      var a, w, v, r, g, f := accounts, witnesses, votes, routes, gpo, rewardFund;
      if op.Actor() == Some(NULL_ACCOUNT) {
        ok := false;
        NobodyActs(op, s);
      } else if op.Actor().Some? {
        ok := Perform(op);
      } else {
        ok := Finish(op);
      }
      if !ok {
        accounts, witnesses, votes, routes, gpo, rewardFund := a, w, v, r, g, f;
        KeepsItself(gpo);
      }
      if ok && op.ClaimReward? {
        SettledGlobals(Effect(op, s), Now());
        StepOfClaim(s, op, Now());
      } else {
        StepOfKept(s, op, Now());
      }
    }

    /**
      Any history from a valid state, such as genesis, stays valid; each state on the way is the
      only one it can be.
     */
    method Run(ops: seq<Operation>) returns (ghost trace: seq<Snapshot>)
      requires Valid()
      modifies this
      ensures Valid()
      ensures Traces(trace, ops) && trace[0] == old(Now()) && trace[|ops|] == Now()
      ensures Backed(old(gpo)) && (forall i :: 0 <= i < |ops| ==> !Empties(ops[i], trace[i])) ==> Backed(gpo)
    {
      hide StakeHolds, AccountsValid, BooksBut, RoutesValid, Owned, Step, WorthStep, Empties, Backed;
      trace := [Now()];
      for i := 0 to |ops|
        invariant Valid()
        invariant Traces(trace, ops[..i]) && trace[0] == old(Now()) && trace[i] == Now()
      {
        var ok := Apply(ops[i]);
        TracesStep(trace, ops[..i], ops[i], Now());
        assert ops[..i + 1] == ops[..i] + [ops[i]];
        trace := trace + [Now()];
      }
      assert ops[..|ops|] == ops;
      if Backed(old(gpo)) {
        BackedAlong(trace, ops, |ops|);
      }
    }

    /** In no state that a run reaches does powering up and straight back down return more than was put in. */
    lemma RoundTripNeverGains(steem: nat, vests: int, back: int)
      requires Valid()
      requires ToVests(steem, SharePrice(gpo)) == Some(vests)
      requires ToSteem(vests, SharePrice(Deposit(gpo, steem, vests))) == Some(back)
      ensures back <= steem
    {
      hide StakeHolds, AccountsValid, BooksBut, RoutesValid;
      RoundTripLoses(gpo, steem, vests, back);
    }

    /**
      validate_invariants: no witness above all shares, and supply, shares,
      votes and pending WLS all add up.  In a valid state nothing fires.
     */
    method ValidateInvariants() returns (ok: bool)
      requires Valid()
      ensures ok
    {
      hide Weight, Level, StakeHolds, AccountsValid, RoutesValid, Flows, Sum, VoteShare, LiquidOf, VestsOf,
        RewardVestsOf,
        RewardSteemOf;
      StakeAcyclic(accounts, votes, witnesses);
      StakeFlows(accounts, votes, witnesses);
      VestsBooked(accounts, gpo, rewardFund, 0, 0);
      VotesWithinVests(accounts, votes, witnesses);
      VoteSumIsVestSum(accounts);
      NothingSummed(accounts);
      for w := 0 to |witnesses| {
        if witnesses[w] > gpo.shares { return false; }
      }
      var supply, vesting, pending, voteSum := 0, 0, 0, 0;
      for i := 0 to |accounts|
        invariant supply == Sum(i, LiquidOf(accounts))
        invariant vesting == Sum(i, VestsOf(accounts)) + Sum(i, RewardVestsOf(accounts))
        invariant pending == Sum(i, RewardSteemOf(accounts))
        invariant voteSum == Sum(i, VoteShare(accounts))
      {
        var a := accounts[i];
        ShareStep(accounts, i, i + 1);
        supply := supply + a.balance + a.rewardSteem;
        vesting := vesting + a.vests + a.rewardVests;
        pending := pending + a.rewardVestSteem;
        if a.proxy.None? {
          var weight := WeightOf(a);
          voteSum := voteSum + weight;
        } else {
          voteSum := voteSum + a.proxied[DEPTH - 1];
        }
      }
      supply := supply + rewardFund + gpo.fund + gpo.pendingSteem;
      return gpo.supply == supply && gpo.shares + gpo.pendingShares == vesting
             && gpo.shares == voteSum && gpo.pendingSteem == pending;
    }
  }

  lemma SamePrice(g: Globals, h: Globals)
    requires h.fund == g.fund && h.shares == g.shares
    ensures SharePrice(h) == SharePrice(g)
  {
  }

  lemma SlotsThenPaid(was: seq<Account>, staked: seq<Account>, accts: seq<Account>, producer: nat, vests: int, dev: nat,
                      amount: int)
    requires producer < |was| && dev < |was| && OnlySlots(Staked(was, producer, vests), staked)
    requires |staked| == |was| && accts == Debited(staked, dev, -amount)
    ensures OnlySlots(Debited(Staked(was, producer, vests), dev, -amount), accts)
  {
  }

  lemma RewardedNone(accts: seq<Account>, g: Globals, payments: seq<(nat, nat)>)
    ensures Rewarded(accts, accts, g, payments, 0)
  {
  }

  lemma ClaimWorth(g: Globals, h: Globals, moved: int, vests: int)
    requires h.fund == g.fund + moved && h.shares == g.shares + vests
    ensures WorthNoLess(g, h) <==> vests * g.fund <= moved * g.shares
  {
    ClaimKeepsWorth(g, moved, vests);
  }

  /** Worth looks at fund and shares only. */
  lemma KeepsSame(g: Globals, h: Globals, k: Globals)
    requires KeepsWorth(g, h) && k.fund == h.fund && k.shares == h.shares
    ensures KeepsWorth(g, k)
  {
  }

  lemma SumOfNone(f: nat -> int)
    requires f(0) == 0
    ensures Sum(1, f) == 0
  {
    assert Sum(1, f) == Sum(0, f) + f(0);
  }

  lemma TakenIs(a: Account, taken: int)
    requires a.withdrawRate > 0
    requires taken == if a.toWithdraw - a.withdrawn < a.withdrawRate then Min(a.vests, a.toWithdraw % a.withdrawRate)
      else Min(a.vests, a.withdrawRate)
    ensures taken == Instalment(a)
  {
  }

  function NegatedLevels(a: Account): (v: Delta)
    requires |a.proxied| == DEPTH
    ensures Opposes(v, a)
  {
    [-a.vests, -a.proxied[0], -a.proxied[1], -a.proxied[2], -a.proxied[3]]
  }

  function Negated(v: Delta): (r: Delta)
    ensures forall d :: 0 <= d <= DEPTH ==> r[d] == -v[d]
  {
    [-v[0], -v[1], -v[2], -v[3], -v[4]]
  }

  /** witness_vote_weight */
  method WeightOf(a: Account) returns (weight: int)
    requires |a.proxied| == DEPTH
    ensures weight == Weight(a)
  {
    weight := a.vests;
    assert Sum(1, LevelOf(a)) == Sum(0, LevelOf(a)) + a.vests;
    var i := 0;
    while i < DEPTH
      invariant 0 <= i <= DEPTH
      invariant weight == Sum(i + 1, LevelOf(a))
    {
      weight := weight + a.proxied[i];
      i := i + 1;
    }
  }

  lemma KeepsItself(g: Globals)
    ensures KeepsWorth(g, g)
  {
  }

  /** Neither stake nor money depends on how many routes an account has. */
  lemma RoutesCounted(accts: seq<Account>, x: nat, count: int, votes: set<(nat, nat)>, witnesses: seq<int>, g: Globals,
                      rewardFund: int)
    requires x < |accts| && StakeHolds(accts, votes, witnesses) && AccountsValid(accts)
    requires BooksBut(accts, g, rewardFund, 0, 0)
    ensures var next := accts[x := accts[x].(routeCount := count)];
      StakeHolds(next, votes, witnesses) && AccountsValid(next) && BooksBut(next, g, rewardFund, 0, 0)
  {
    hide StakeHolds, BooksBut;
    var a := accts[x].(routeCount := count);
    BooksSameMoney(accts, x, a, g, rewardFund, 0, 0);
    MoneyMovedAt(accts, x, a, votes, witnesses);
  }

  lemma VotesCounted(accts: seq<Account>, x: nat, count: int, g: Globals, rewardFund: int)
    requires NULL_ACCOUNT != x < |accts| && AccountsValid(accts) && BooksBut(accts, g, rewardFund, 0, 0)
    ensures var next := accts[x := accts[x].(votedFor := count)];
      AccountsValid(next) && BooksBut(next, g, rewardFund, 0, 0)
  {
    hide BooksBut;
    BooksSameMoney(accts, x, accts[x].(votedFor := count), g, rewardFund, 0, 0);
  }

  lemma KeepsOwners(g: Globals, h: Globals)
    requires KeepsWorth(g, h) && Owned(g)
    ensures Owned(h)
  {
  }

  lemma SameOwners(g: Globals, h: Globals)
    requires Owned(g) && h.fund == g.fund && h.shares == g.shares
    ensures Owned(h)
  {
  }

  lemma NobodyActs(op: Operation, s: Snapshot)
    requires op.Actor() == Some(NULL_ACCOUNT)
    ensures !Admits(op, s)
  {
  }

  lemma SettledGlobals(r: Snapshot, t: Snapshot)
    requires SettlesAs(r, t)
    ensures t.gpo == r.gpo
  {
  }

  lemma TracesStep(trace: seq<Snapshot>, ops: seq<Operation>, op: Operation, t: Snapshot)
    requires Traces(trace, ops) && Step(trace[|ops|], op, t) && WorthStep(trace[|ops|], op, t)
    ensures Traces(trace + [t], ops + [op])
  {
    hide Step, WorthStep;
  }
}
