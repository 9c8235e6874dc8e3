/**
  The ledger's operations and end-of-block steps: when each succeeds, and what it
  makes of a snapshot (the evaluators of libraries/chain/wls_evaluator.cpp and the
  block steps of libraries/chain/database.cpp).
 */
module Operations {
  import opened Sums
  import opened Options
  import opened Stake
  import opened Vesting
  import opened Arithmetic
  import opened Books
  import opened Payments
  import opened Snapshots

  /** The only account that may create others. */
  const WLS_ACCOUNT: nat := 3
  const BLOCKS_PER_YEAR: nat := 10512000
  const CONTENT_REWARD_PERCENT: nat := 8500
  const DEV_FUND_PERCENT: nat := 500
  const MAX_WITNESSES: nat := 21

  datatype Operation =
    | Transfer(from: nat, to: nat, amount: int)
    | TransferToVesting(from: nat, to: nat, amount: int)
    | WithdrawVesting(account: nat, vests: int, inflation: nat, fee: nat, now: int)
    | SetRoute(from: nat, to: nat, percent: int, autoVest: bool)
    | SetProxy(account: nat, proxy: Option<nat>)
    | VoteWitness(account: nat, target: nat, approve: bool)
    | CreateAccount(creator: nat, fee: nat, minFee: nat)
    | ClaimReward(account: nat, steem: int, vests: int)
    | CreateWitness(owner: nat)
    | ClearNullAccount
    | ProcessFunds(rate: nat, producer: nat, weight: nat, normalization: nat, dev: nat)
    | PayRewards(payments: seq<(nat, nat)>)
    | ProcessWithdrawals(now: int)
  {
    /** Whose authority the operation needs; end-of-block steps need nobody's. */
    function Actor(): Option<nat>
    {
      match this
      case Transfer(from, _, _) => Some(from)
      case TransferToVesting(from, _, _) => Some(from)
      case WithdrawVesting(account, _, _, _, _) => Some(account)
      case SetRoute(from, _, _, _) => Some(from)
      case SetProxy(account, _) => Some(account)
      case VoteWitness(account, _, _) => Some(account)
      case CreateAccount(creator, _, _) => Some(creator)
      case ClaimReward(account, _, _) => Some(account)
      case CreateWitness(owner) => Some(owner)
      case _ => None
    }
  }

  // ------------------------------------------------------- when a step succeeds

  ghost predicate CanTransfer(s: Snapshot, from: nat, to: nat, amount: int)
  {
    from < |s.accounts| && to < |s.accounts| && 0 < amount <= s.accounts[from].balance
  }

  ghost predicate CanVest(s: Snapshot, from: nat, to: nat, amount: int)
  {
    CanTransfer(s, from, to, amount) && ToVests(amount, SharePrice(s.gpo)).Some?
  }

  /** The withdrawal rate of a power-down of so many vests. */
  function RateOf(vests: nat): nat
  {
    if vests == 0 then 0 else RateFor(vests)
  }

  ghost predicate CanPowerDown(s: Snapshot, account: nat, vests: int, inflation: nat, fee: nat)
  {
    && inflation <= ONE_HUNDRED_PERCENT && account < |s.accounts| && 0 <= vests <= s.accounts[account].vests
    && vests <= (s.accounts[account].vests * (ONE_HUNDRED_PERCENT - inflation)) / ONE_HUNDRED_PERCENT
    && ToVests(fee, SharePrice(s.gpo)).Some?
    && (vests > 0 ==> s.accounts[account].vests > ToVests(fee, SharePrice(s.gpo)).value * 10)
    && s.accounts[account].withdrawRate != RateOf(vests)
  }

  ghost predicate CanRoute(s: Snapshot, from: nat, to: nat, percent: int, autoVest: bool)
  {
    && from < |s.accounts| && to < |s.accounts| && 0 <= percent <= ONE_HUNDRED_PERCENT
    && ((from, to) !in s.routes ==> percent != 0 && s.accounts[from].routeCount < MAX_WITHDRAW_ROUTES)
    && Sum(|s.accounts|, PercentOf(Rerouted(s.routes, from, to, percent, autoVest), from)) <= ONE_HUNDRED_PERCENT
  }

  ghost predicate CanProxy(s: Snapshot, account: nat, proxy: Option<nat>)
  {
    && account < |s.accounts| && proxy != Some(account) && s.accounts[account].proxy != proxy
    && (proxy.Some? ==> proxy.value < |s.accounts| && ChainFree(s.accounts, proxy.value, DEPTH - 1, account))
  }

  ghost predicate CanVote(s: Snapshot, account: nat, w: nat, approve: bool)
  {
    && account < |s.accounts| && w < |s.witnesses| && s.accounts[account].proxy.None?
    && approve == ((account, w) !in s.votes)
    && (approve ==> s.accounts[account].votedFor < MAX_WITNESS_VOTES)
  }

  ghost predicate CanCreate(s: Snapshot, creator: nat, fee: nat, minFee: nat)
  {
    && creator == WLS_ACCOUNT && creator < |s.accounts| && minFee <= fee <= s.accounts[creator].balance
    && (fee > 0 ==> ToVests(fee, SharePrice(s.gpo)).Some?)
  }

  ghost predicate CanClaim(s: Snapshot, account: nat, steem: int, vests: int)
  {
    && account < |s.accounts| && 0 <= steem <= s.accounts[account].rewardSteem
    && 0 <= vests <= s.accounts[account].rewardVests && (steem > 0 || vests > 0)
  }

  ghost predicate CanBurn(s: Snapshot)
  {
    && |s.accounts| > NULL_ACCOUNT && 0 <= s.accounts[NULL_ACCOUNT].vests
    && (s.accounts[NULL_ACCOUNT].vests > 0 ==> ToSteem(s.accounts[NULL_ACCOUNT].vests, SharePrice(s.gpo)).Some?)
  }

  ghost predicate CanIssue(s: Snapshot, rate: nat, producer: nat, weight: nat, normalization: nat, dev: nat)
  {
    && producer < |s.accounts| && dev < |s.accounts| && normalization > 0 && s.gpo.supply >= 0
    && ToVests(IssueOf(s.gpo.supply, rate, weight, normalization).producer, SharePrice(s.gpo)).Some?
  }

  ghost predicate CanReward(s: Snapshot, payments: seq<(nat, nat)>)
  {
    && (forall k :: 0 <= k < |payments| ==> payments[k].0 < |s.accounts|)
    && RewardGlobals(s.gpo, payments, |payments|).Some?
  }

  /** When an operation or step succeeds. */
  ghost predicate Admits(op: Operation, s: Snapshot)
  {
    && op.Actor() != Some(NULL_ACCOUNT)
    && match op
       case Transfer(from, to, amount) => CanTransfer(s, from, to, amount)
       case TransferToVesting(from, to, amount) => CanVest(s, from, to, amount)
       case WithdrawVesting(account, vests, inflation, fee, _) => CanPowerDown(s, account, vests, inflation, fee)
       case SetRoute(from, to, percent, autoVest) => CanRoute(s, from, to, percent, autoVest)
       case SetProxy(account, proxy) => CanProxy(s, account, proxy)
       case VoteWitness(account, target, approve) => CanVote(s, account, target, approve)
       case CreateAccount(creator, fee, minFee) => CanCreate(s, creator, fee, minFee)
       case ClaimReward(account, steem, vests) => CanClaim(s, account, steem, vests)
       case CreateWitness(_) => true
       case ClearNullAccount => CanBurn(s)
       case ProcessFunds(rate, producer, weight, normalization, dev) =>
         CanIssue(s, rate, producer, weight, normalization, dev)
       case PayRewards(payments) => CanReward(s, payments)
       case ProcessWithdrawals(now) => exists t :: Withdraws(s, now, t)
  }

  // ------------------------------------------------------- what a step does

  /** The accounts after a balance was taken from one of them. */
  ghost function Debited(accts: seq<Account>, from: nat, amount: int): (r: seq<Account>)
    requires from < |accts|
    ensures |r| == |accts|
  {
    accts[from := accts[from].(balance := accts[from].balance - amount)]
  }

  /** The accounts after one of them gained vests. */
  ghost function Staked(accts: seq<Account>, to: nat, vests: int): (r: seq<Account>)
    requires to < |accts|
    ensures |r| == |accts|
  {
    accts[to := accts[to].(vests := accts[to].vests + vests)]
  }

  ghost function Transferred(s: Snapshot, from: nat, to: nat, amount: int): Snapshot
    requires CanTransfer(s, from, to, amount)
  {
    s.(accounts := Debited(Debited(s.accounts, from, amount), to, -amount))
  }

  ghost function Vested(s: Snapshot, from: nat, to: nat, amount: int): Snapshot
    requires CanVest(s, from, to, amount)
  {
    var vests := ToVests(amount, SharePrice(s.gpo)).value;
    s.(accounts := Staked(Debited(s.accounts, from, amount), to, vests), gpo := Deposit(s.gpo, amount, vests))
  }

  ghost function PoweringDown(s: Snapshot, account: nat, vests: nat, now: int): Snapshot
    requires account < |s.accounts|
  {
    s.(accounts := s.accounts[account := s.accounts[account].(
      withdrawRate := RateOf(vests),
      nextWithdrawal := if vests == 0 then None else Some(now + WITHDRAW_INTERVAL_SECONDS),
      toWithdraw := vests, withdrawn := 0)])
  }

  /** The routes after one was created, changed or (at 0%) removed. */
  ghost function Rerouted(routes: map<(nat, nat), Route>, from: nat, to: nat, percent: int,
                          autoVest: bool): map<(nat, nat), Route>
    requires 0 <= percent
  {
    if percent == 0 then routes - {(from, to)} else routes[(from, to) := Route(percent, autoVest)]
  }

  ghost function RouteSet(s: Snapshot, from: nat, to: nat, percent: nat, autoVest: bool): Snapshot
    requires from < |s.accounts|
  {
    s.(routes := Rerouted(s.routes, from, to, percent, autoVest),
       accounts := s.accounts[from := s.accounts[from].(routeCount := s.accounts[from].routeCount
         + (if (from, to) !in s.routes then 1 else if percent == 0 then -1 else 0))])
  }

  ghost function ProxySet(s: Snapshot, account: nat, proxy: Option<nat>): Snapshot
    requires account < |s.accounts|
  {
    s.(accounts := s.accounts[account := s.accounts[account].(proxy := proxy, votedFor := 0)],
       votes := set r | r in s.votes && r.0 != account)
  }

  ghost function Voted(s: Snapshot, account: nat, w: nat, approve: bool): Snapshot
    requires account < |s.accounts| && w < |s.witnesses|
  {
    var weight := Weight(s.accounts[account]);
    s.(accounts := s.accounts[account := s.accounts[account].(
         votedFor := s.accounts[account].votedFor + (if approve then 1 else -1))],
       votes := if approve then s.votes + {(account, w)} else s.votes - {(account, w)},
       witnesses := s.witnesses[w := s.witnesses[w] + (if approve then weight else -weight)])
  }

  ghost function Created(s: Snapshot, creator: nat, fee: nat, minFee: nat): Snapshot
    requires CanCreate(s, creator, fee, minFee)
  {
    var vests := if fee > 0 then ToVests(fee, SharePrice(s.gpo)).value else 0;
    s.(accounts := Debited(s.accounts, creator, fee) + [NEW_ACCOUNT.(vests := vests)],
      gpo := Deposit(s.gpo, fee, vests))
  }

  /** The WLS behind a claim of pending shares: all of it for all shares, else pro rata, rounded down. */
  ghost function ClaimedSteem(a: Account, vests: int): (r: int)
    ensures 0 <= vests <= a.rewardVests && 0 <= a.rewardVestSteem ==> 0 <= r <= a.rewardVestSteem
    ensures vests == a.rewardVests ==> r == a.rewardVestSteem
    ensures 0 <= vests < a.rewardVests && 0 <= a.rewardVestSteem ==>
      r * a.rewardVests <= vests * a.rewardVestSteem < (r + 1) * a.rewardVests
  {
    if vests == a.rewardVests then a.rewardVestSteem
    else if vests < 0 || a.rewardVests <= vests || a.rewardVestSteem < 0 then 0
    else
      ProRataAtMost(vests, a.rewardVestSteem, a.rewardVests);
      QuotientBounds(vests * a.rewardVestSteem, a.rewardVests);
      (vests * a.rewardVestSteem) / a.rewardVests
  }

  ghost function Claiming(a: Account, steem: int, vests: int): Account
  {
    var moved := ClaimedSteem(a, vests);
    a.(rewardSteem := a.rewardSteem - steem, balance := a.balance + steem,
       vests := a.vests + vests, rewardVests := a.rewardVests - vests, rewardVestSteem := a.rewardVestSteem - moved)
  }

  /** The account after it claimed its pending shares part by part. */
  ghost function AfterClaims(a: Account, parts: seq<nat>): Account
  {
    if parts == [] then a else Claiming(AfterClaims(a, parts[..|parts| - 1]), 0, parts[|parts| - 1])
  }

  ghost function PartsUpTo(parts: seq<nat>): nat
  {
    if parts == [] then 0 else PartsUpTo(parts[..|parts| - 1]) + parts[|parts| - 1]
  }

  /**
    A reward that is claimed in parts brings all its WLS in the end, whatever the
    parts: what one part is short of, less than one WLS unit, the later ones make up for.
   */
  lemma {:induction false} ClaimedInParts(a: Account, parts: seq<nat>)
    requires 0 <= a.rewardVestSteem && PartsUpTo(parts) <= a.rewardVests
    ensures var b := AfterClaims(a, parts);
      && b.rewardVests == a.rewardVests - PartsUpTo(parts) && b.vests == a.vests + PartsUpTo(parts)
      && 0 <= b.rewardVestSteem <= a.rewardVestSteem
      && (parts != [] && PartsUpTo(parts) == a.rewardVests ==> b.rewardVestSteem == 0)
  {
    hide ClaimedSteem;
    if parts != [] {
      ClaimedInParts(a, parts[..|parts| - 1]);
    }
  }

  ghost function Claimed(s: Snapshot, account: nat, steem: int, vests: int): Snapshot
    requires account < |s.accounts|
  {
    var moved := ClaimedSteem(s.accounts[account], vests);
    s.(accounts := s.accounts[account := Claiming(s.accounts[account], steem, vests)],
       gpo := Deposit(s.gpo, moved, vests).(
         pendingShares := s.gpo.pendingShares - vests, pendingSteem := s.gpo.pendingSteem - moved))
  }

  ghost function Burned(s: Snapshot): Snapshot
    requires CanBurn(s)
  {
    var a := s.accounts[NULL_ACCOUNT];
    s.(accounts := s.accounts[NULL_ACCOUNT := BurnedAccount(a)],
       gpo := BurnedGlobals(s.gpo, a, if a.vests > 0 then ToSteem(a.vests, SharePrice(s.gpo)).value else 0))
  }

  datatype Issue = Issue(total: nat, content: nat, dev: nat, producer: nat)

  /** How one block's inflation is divided: the producer's part of the rest goes by weight. */
  function IssueOf(supply: nat, rate: nat, weight: nat, normalization: nat): (i: Issue)
    requires normalization > 0
    ensures Inflates(supply, rate, weight, normalization, i)
  {
    var total := (supply * rate) / (ONE_HUNDRED_PERCENT * BLOCKS_PER_YEAR);
    var content := (total * CONTENT_REWARD_PERCENT) / ONE_HUNDRED_PERCENT;
    var dev := (total * DEV_FUND_PERCENT) / ONE_HUNDRED_PERCENT;
    QuotientBounds(supply * rate, ONE_HUNDRED_PERCENT * BLOCKS_PER_YEAR);
    QuotientBounds((total - content - dev) * MAX_WITNESSES * weight, normalization);
    Issue(total, content, dev, ((total - content - dev) * MAX_WITNESSES * weight) / normalization)
  }

  /**
    A block's share of the year's inflation, 85% of it and 5% of it, and of the rest 21 weights in
    normalization; each rounded down.
   */
  ghost predicate Inflates(supply: nat, rate: nat, weight: nat, normalization: nat, i: Issue)
  {
    && i.total * (10000 * BLOCKS_PER_YEAR) <= supply * rate < (i.total + 1) * (10000 * BLOCKS_PER_YEAR)
    && i.content * 10000 <= i.total * 8500 < (i.content + 1) * 10000
    && i.dev * 10000 <= i.total * 500 < (i.dev + 1) * 10000
    && i.content + i.dev <= i.total
    && var rest := i.total - i.content - i.dev;
       i.producer * normalization <= rest * 21 * weight < (i.producer + 1) * normalization
  }

  /**
    A round of twenty elected witnesses and one timeshare witness, normalized by
    their weights, is paid what 21 equal producers would be, up to rounding.
   */
  lemma RoundIsPaidInFull(supply: nat, rate: nat, top: nat, timeshare: nat)
    requires 20 * top + timeshare > 0
    ensures var n := 20 * top + timeshare;
      var i, j := IssueOf(supply, rate, top, n), IssueOf(supply, rate, timeshare, n);
      var rest := i.total - i.content - i.dev;
      && j.total == i.total && j.content == i.content && j.dev == i.dev
      && 20 * i.producer + j.producer <= 21 * rest < 20 * i.producer + j.producer + 21
  {
    var n := 20 * top + timeshare;
    var i, j := IssueOf(supply, rate, top, n), IssueOf(supply, rate, timeshare, n);
    hide IssueOf;
    var rest := i.total - i.content - i.dev;
    SameTotal(supply, rate, top, timeshare, n);
    PartsOfRound(21 * rest, top, timeshare, i.producer, j.producer);
  }

  lemma PartsOfRound(whole: nat, top: nat, timeshare: nat, a: nat, b: nat)
    requires var n := 20 * top + timeshare;
      && n > 0 && a * n <= whole * top < (a + 1) * n && b * n <= whole * timeshare < (b + 1) * n
    ensures 20 * a + b <= whole < 20 * a + b + 21
  {
    var n := 20 * top + timeshare;
    assert whole * n == 20 * (whole * top) + whole * timeshare;
    CancelMul(20 * a + b, whole, n);
    CancelMulStrict(whole, 20 * a + b + 21, n);
  }

  lemma SameTotal(supply: nat, rate: nat, a: nat, b: nat, n: nat)
    requires n > 0
    ensures var i, j := IssueOf(supply, rate, a, n), IssueOf(supply, rate, b, n);
      j.total == i.total && j.content == i.content && j.dev == i.dev
  {
  }

  ghost function Issued(s: Snapshot, rate: nat, producer: nat, weight: nat, normalization: nat, dev: nat): Snapshot
    requires CanIssue(s, rate, producer, weight, normalization, dev)
  {
    var i := IssueOf(s.gpo.supply, rate, weight, normalization);
    var vests := ToVests(i.producer, SharePrice(s.gpo)).value;
    s.(accounts := Debited(Staked(s.accounts, producer, vests), dev, 0 - i.dev),
       gpo := Deposit(s.gpo, i.producer, vests).(supply := s.gpo.supply + i.content + i.dev + i.producer),
       rewardFund := s.rewardFund + i.content)
  }

  ghost function RewardsPaid(s: Snapshot, payments: seq<(nat, nat)>): Snapshot
    requires CanReward(s, payments)
  {
    s.(accounts := WithRewards(s.accounts, s.gpo, payments, |payments|),
       gpo := RewardGlobals(s.gpo, payments, |payments|).value,
       rewardFund := s.rewardFund - Paying(payments))
  }

  /** What a step that succeeds does, but for the votes that follow from it. */
  ghost function Effect(op: Operation, s: Snapshot): Snapshot
    requires Admits(op, s)
  {
    match op
    case Transfer(from, to, amount) => Transferred(s, from, to, amount)
    case TransferToVesting(from, to, amount) => Vested(s, from, to, amount)
    case WithdrawVesting(account, vests, _, _, now) => PoweringDown(s, account, vests, now)
    case SetRoute(from, to, percent, autoVest) => RouteSet(s, from, to, percent, autoVest)
    case SetProxy(account, proxy) => ProxySet(s, account, proxy)
    case VoteWitness(account, target, approve) => Voted(s, account, target, approve)
    case CreateAccount(creator, fee, minFee) => Created(s, creator, fee, minFee)
    case ClaimReward(account, steem, vests) => Claimed(s, account, steem, vests)
    case CreateWitness(_) => s.(witnesses := s.witnesses + [0])
    case ClearNullAccount => Burned(s)
    case ProcessFunds(rate, producer, weight, normalization, dev) => Issued(s, rate, producer, weight, normalization,
      dev)
    case PayRewards(payments) => RewardsPaid(s, payments)
    case ProcessWithdrawals(_) => s
  }

  /** One step from s to t: what the operation does if it succeeds, and nothing if it does not. */
  ghost predicate Step(s: Snapshot, op: Operation, t: Snapshot)
  {
    if !Admits(op, s) then t == s
    else Consistent(t) && (if op.ProcessWithdrawals? then Withdraws(s, op.now, t) else SettlesAs(Effect(op, s), t))
  }

  /** A step has one result. */
  lemma StepOnce(s: Snapshot, op: Operation, t: Snapshot, u: Snapshot)
    requires Step(s, op, t) && Step(s, op, u)
    ensures t == u
  {
    hide Admits, Effect, Consistent, Passes, SettlesAs;
    if Admits(op, s) {
      if op.ProcessWithdrawals? {
        PassesOnce(s, NextAmong(s.accounts, None, |s.accounts|), op.now, t, u);
      } else {
        SettledOnce(Effect(op, s), t, u);
      }
    }
  }

  // ------------------------------------------------------- the worth of a share

  /** The step claims pending shares that nothing is behind, while the fund is empty. */
  ghost predicate Empties(op: Operation, s: Snapshot)
  {
    op.ClaimReward? && Admits(op, s) && s.gpo.fund + ClaimedSteem(s.accounts[op.account], op.vests) <= 0
  }

  /** The step claims pending shares at a recorded price below today's. */
  ghost predicate Lowers(op: Operation, s: Snapshot)
  {
    op.ClaimReward? && Admits(op, s)
    && op.vests * s.gpo.fund > ClaimedSteem(s.accounts[op.account], op.vests) * s.gpo.shares
  }

  /** What a step means for the fund: only a claim can leave it without backing, or lower the worth of a share. */
  ghost predicate WorthStep(s: Snapshot, op: Operation, t: Snapshot)
  {
    && (Owned(s.gpo) ==> Owned(t.gpo))
    && (Backed(s.gpo) ==> (Backed(t.gpo) <==> !Empties(op, s)))
    && (Backed(s.gpo) && s.gpo.shares > 0 ==> (WorthNoLess(s.gpo, t.gpo) <==> !Lowers(op, s)))
  }

  lemma StepOfKept(s: Snapshot, op: Operation, t: Snapshot)
    requires KeepsWorth(s.gpo, t.gpo) && (op.ClaimReward? ==> !Admits(op, s))
    ensures WorthStep(s, op, t)
  {
    hide Admits;
  }

  lemma StepOfClaim(s: Snapshot, op: Operation, t: Snapshot)
    requires Consistent(s) && op.ClaimReward? && Admits(op, s) && t.gpo == Effect(op, s).gpo
    ensures WorthStep(s, op, t)
  {
    AccountsGet(s.accounts, op.account);
    hide StakeHolds, AccountsValid, RoutesValid, BooksBut, ClaimedSteem;
    var moved := ClaimedSteem(s.accounts[op.account], op.vests);
    assert op.vests > 0 && 0 <= moved;
    ClaimKeepsWorth(s.gpo, moved, op.vests);
  }

  /** The states along a run of operations. */
  ghost predicate Traces(trace: seq<Snapshot>, ops: seq<Operation>)
  {
    && |trace| == |ops| + 1
    && forall i :: 0 <= i < |ops| ==> Step(trace[i], ops[i], trace[i + 1]) && WorthStep(trace[i], ops[i], trace[i + 1])
  }

  /** A run that starts backed stays backed exactly until a claim empties the fund of its backing. */
  lemma {:induction false} BackedAlong(trace: seq<Snapshot>, ops: seq<Operation>, n: nat)
    requires Traces(trace, ops) && n <= |ops| && Backed(trace[0].gpo)
    ensures (forall i :: 0 <= i <= n ==> Backed(trace[i].gpo)) <==>
      (forall i :: 0 <= i < n ==> !Empties(ops[i], trace[i]))
  {
    hide Step, Empties, Backed;
    if n > 0 {
      BackedAlong(trace, ops, n - 1);
      assert WorthStep(trace[n - 1], ops[n - 1], trace[n - 1 + 1]);
    }
  }

  /** While there are shares, their worth never falls along a run without such claims. */
  lemma {:induction false} WorthAlong(trace: seq<Snapshot>, ops: seq<Operation>, i: nat, j: nat)
    requires Traces(trace, ops) && i <= j <= |ops|
    requires forall k :: i <= k <= j ==> Backed(trace[k].gpo) && trace[k].gpo.shares > 0
    requires forall k :: i <= k < j ==> !Lowers(ops[k], trace[k])
    ensures WorthNoLess(trace[i].gpo, trace[j].gpo)
    decreases j
  {
    hide Step, Lowers, Empties;
    if i < j {
      WorthAlong(trace, ops, i, j - 1);
      assert WorthStep(trace[j - 1], ops[j - 1], trace[j - 1 + 1]);
      WorthTransitive(trace[i].gpo, trace[j - 1].gpo, trace[j].gpo);
    }
  }
}
