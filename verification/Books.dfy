/**
  What the ledger's totals have to add up to (validate_invariants in
  libraries/chain/database.cpp), and how single changes move them.
 */
module Books {
  import opened Sums
  import opened Options
  import opened Stake
  import opened Vesting
  import opened Arithmetic
  import opened Payments

  const ONE_HUNDRED_PERCENT: nat := 10000
  const WITHDRAW_INTERVALS: nat := 13
  const WITHDRAW_INTERVAL_SECONDS: nat := 604800
  const MAX_WITHDRAW_ROUTES: nat := 10
  const MAX_WITNESS_VOTES: nat := 30

  /** The account nobody can sign for: second in the genesis order. */
  const NULL_ACCOUNT: nat := 1

  datatype Route = Route(percent: nat, autoVest: bool)

  // ------------------------------------------------------------- the books

  ghost function LiquidOf(accts: seq<Account>): nat -> int
  {
    (b: nat) => if b < |accts| then accts[b].balance + accts[b].rewardSteem else 0
  }

  ghost function RewardVestsOf(accts: seq<Account>): nat -> int
  {
    (b: nat) => if b < |accts| then accts[b].rewardVests else 0
  }

  ghost function RewardSteemOf(accts: seq<Account>): nat -> int
  {
    (b: nat) => if b < |accts| then accts[b].rewardVestSteem else 0
  }

  /**
    The equations of validate_invariants, with "owed" WLS and "extra" vests
    already taken from or given to an account but not yet booked.
   */
  ghost predicate BooksBut(accts: seq<Account>, g: Globals, rewardFund: int, owed: int, extra: int)
  {
    && g.supply == Sum(|accts|, LiquidOf(accts)) + rewardFund + g.fund + g.pendingSteem + owed
    && g.shares + extra == Sum(|accts|, VestsOf(accts))
    && g.pendingShares == Sum(|accts|, RewardVestsOf(accts))
    && g.pendingSteem == Sum(|accts|, RewardSteemOf(accts))
  }

  /** What replacing account x by a does to the four sums. */
  lemma BooksChange(accts: seq<Account>, x: nat, a: Account)
    requires x < |accts|
    ensures var next := accts[x := a]; var n := |accts|;
      && Sum(n, LiquidOf(next)) == Sum(n, LiquidOf(accts)) - accts[x].balance - accts[x].rewardSteem
                                   + a.balance + a.rewardSteem
      && Sum(n, VestsOf(next)) == Sum(n, VestsOf(accts)) - accts[x].vests + a.vests
      && Sum(n, RewardVestsOf(next)) == Sum(n, RewardVestsOf(accts)) - accts[x].rewardVests + a.rewardVests
      && Sum(n, RewardSteemOf(next)) == Sum(n, RewardSteemOf(accts)) - accts[x].rewardVestSteem + a.rewardVestSteem
  {
    var next := accts[x := a];
    SumChange(|accts|, LiquidOf(accts), LiquidOf(next), x);
    SumChange(|accts|, VestsOf(accts), VestsOf(next), x);
    SumChange(|accts|, RewardVestsOf(accts), RewardVestsOf(next), x);
    SumChange(|accts|, RewardSteemOf(accts), RewardSteemOf(next), x);
  }

  /** next differs from accts in proxied slots only. */
  ghost predicate OnlySlots(accts: seq<Account>, next: seq<Account>)
  {
    && |next| == |accts|
    && forall i :: 0 <= i < |accts| ==> next[i] == accts[i].(proxied := next[i].proxied)
  }

  lemma BooksOnlySlots(accts: seq<Account>, next: seq<Account>)
    requires OnlySlots(accts, next)
    ensures Sum(|next|, LiquidOf(next)) == Sum(|accts|, LiquidOf(accts))
    ensures Sum(|next|, VestsOf(next)) == Sum(|accts|, VestsOf(accts))
    ensures Sum(|next|, RewardVestsOf(next)) == Sum(|accts|, RewardVestsOf(accts))
    ensures Sum(|next|, RewardSteemOf(next)) == Sum(|accts|, RewardSteemOf(accts))
  {
    SumSame(|accts|, LiquidOf(accts), LiquidOf(next));
    SumSame(|accts|, VestsOf(accts), VestsOf(next));
    SumSame(|accts|, RewardVestsOf(accts), RewardVestsOf(next));
    SumSame(|accts|, RewardSteemOf(accts), RewardSteemOf(next));
  }

  // -------------------------------------------------------- votes, routes, power-downs

  ghost predicate VotesValid(accts: seq<Account>, votes: set<(nat, nat)>, witnesses: seq<int>)
  {
    && (forall r :: r in votes ==> r.0 < |accts| && r.1 < |witnesses| && accts[r.0].proxy.None?)
    && (forall i :: 0 <= i < |accts| ==> accts[i].votedFor == |Records(votes, i)|)
  }

  ghost function Records(votes: set<(nat, nat)>, a: nat): set<(nat, nat)>
  {
    set r | r in votes && r.0 == a
  }

  /** The routes of an account: both scans start above account id 0. */
  ghost function PercentOf(routes: map<(nat, nat), Route>, from: nat): nat -> int
  {
    (t: nat) => if t >= 1 && (from, t) in routes then routes[(from, t)].percent else 0
  }

  ghost predicate RoutesValid(n: nat, routes: map<(nat, nat), Route>)
  {
    && (forall k :: k in routes ==> k.0 < n && k.1 < n && routes[k].percent <= ONE_HUNDRED_PERCENT)
    && (forall a :: 0 <= a < n ==> Sum(n, PercentOf(routes, a)) <= ONE_HUNDRED_PERCENT)
  }

  /** A running power-down: whole instalments so far, and the stake left still covers the rest. */
  ghost predicate WithdrawalValid(a: Account)
  {
    && 0 <= a.withdrawRate
    && (a.nextWithdrawal.Some? <==> a.withdrawRate > 0)
    && (a.withdrawRate > 0 ==>
          && 0 <= a.withdrawn < a.toWithdraw
          && a.withdrawn % a.withdrawRate == 0
          && a.toWithdraw - a.withdrawn <= a.vests
          && a.withdrawRate <= a.toWithdraw)
  }

  /** Balances are not negative; rewards are paid in vests only, so that no WLS is ever pending. */
  ghost predicate AccountValid(a: Account)
  {
    && 0 <= a.balance && a.rewardSteem == 0
    && 0 <= a.rewardVests && 0 <= a.rewardVestSteem
    && 0 <= a.vests
    && WithdrawalValid(a)
  }

  /** The null account never acts: nobody can sign for it. */
  ghost predicate Idle(a: Account)
  {
    a.proxy.None? && a.votedFor == 0 && a.withdrawRate == 0
  }

  ghost predicate AccountsValid(accts: seq<Account>)
  {
    && |accts| > NULL_ACCOUNT
    && Idle(accts[NULL_ACCOUNT])
    && forall i :: 0 <= i < |accts| ==> AccountValid(accts[i])
  }

  /** Stake flows, tallies and vote records all agree. */
  ghost predicate StakeHolds(accts: seq<Account>, votes: set<(nat, nat)>, witnesses: seq<int>)
  {
    && WellFormed(accts) && Acyclic(accts)
    && Flows(accts)
    && Tallied(accts, votes, witnesses)
    && VotesValid(accts, votes, witnesses)
  }

  ghost predicate SameStake(accts: seq<Account>, next: seq<Account>)
  {
    && |next| == |accts|
    && forall i :: 0 <= i < |accts| ==>
         && next[i].vests == accts[i].vests && next[i].proxied == accts[i].proxied
         && next[i].proxy == accts[i].proxy && next[i].votedFor == accts[i].votedFor
  }

  lemma SameFlows(accts: seq<Account>, next: seq<Account>)
    requires SameStake(accts, next) && Flows(accts)
    ensures Flows(next)
  {
    forall y, d | 0 <= y < |next| && 0 <= d < DEPTH
      ensures SlotBut(next, None, None, ZERO, y, d)
    {
      assert SlotBut(accts, None, None, ZERO, y, d);
      SumSame(|accts|, Inflow(accts, None, y, d), Inflow(next, None, y, d));
    }
  }

  lemma SameTallies(accts: seq<Account>, next: seq<Account>, votes: set<(nat, nat)>, witnesses: seq<int>)
    requires SameStake(accts, next) && Tallied(accts, votes, witnesses)
    ensures Tallied(next, votes, witnesses)
  {
    forall b | 0 <= b < |accts|
      ensures Weight(accts[b]) == Weight(next[b])
    {
      SumSame(DEPTH + 1, LevelOf(accts[b]), LevelOf(next[b]));
    }
    forall w | 0 <= w < |witnesses|
      ensures witnesses[w] == Sum(|next|, Tally(next, votes, None, w))
    {
      SumSame(|accts|, Tally(accts, votes, None, w), Tally(next, votes, None, w));
    }
  }

  /** A change of money fields only leaves stake and votes alone. */
  lemma MoneyMoved(accts: seq<Account>, next: seq<Account>, votes: set<(nat, nat)>, witnesses: seq<int>)
    requires SameStake(accts, next)
    requires StakeHolds(accts, votes, witnesses)
    ensures StakeHolds(next, votes, witnesses)
  {
    SameProxiesAcyclic(accts, next);
    SameFlows(accts, next);
    SameTallies(accts, next, votes, witnesses);
  }

  /** The account that votes in the end for c's stake, if it is at most n proxies away. */
  ghost function ChainEnd(accts: seq<Account>, c: nat, n: nat): Option<nat>
    decreases n
  {
    if c >= |accts| then None
    else if accts[c].proxy.None? then Some(c)
    else if n == 0 then None
    else ChainEnd(accts, accts[c].proxy.value, n - 1)
  }

  lemma {:induction false} SameEnd(was: seq<Account>, accts: seq<Account>, c: nat, n: nat)
    requires |accts| == |was| && forall i :: 0 <= i < |was| ==> accts[i].proxy == was[i].proxy
    ensures ChainEnd(accts, c, n) == ChainEnd(was, c, n)
    decreases n
  {
    if c < |was| && was[c].proxy.Some? && n > 0 {
      SameEnd(was, accts, was[c].proxy.value, n - 1);
    }
  }

  /** No witness voted for by "end" would be lifted above all shares by delta more votes. */
  ghost predicate Headroom(votes: set<(nat, nat)>, witnesses: seq<int>, end: Option<nat>, delta: int, shares: int)
  {
    end.Some? ==> forall w :: 0 <= w < |witnesses| && (end.value, w) in votes ==> witnesses[w] + delta <= shares
  }

  /** The witnesses that "end" votes for have delta more votes, and the others as many as before. */
  ghost predicate Lifted(votes: set<(nat, nat)>, was: seq<int>, now: seq<int>, end: Option<nat>, delta: int)
  {
    && |now| == |was|
    && forall w :: 0 <= w < |was| ==> now[w] == was[w] + (if end.Some? && (end.value, w) in votes then delta else 0)
  }

  /** Whoever votes for a witness directly gives it at least its own vests. */
  lemma VotesAtLeastOwn(accts: seq<Account>, votes: set<(nat, nat)>, witnesses: seq<int>, a: nat, w: nat)
    requires StakeHolds(accts, votes, witnesses) && VestsNonNegative(accts) && (a, w) in votes
    ensures a < |accts| && w < |witnesses| && accts[a].vests <= witnesses[w]
  {
    hide Flows, Acyclic, Weight, Sum, VestsNonNegative, WellFormed;
    forall b: nat | b < |accts|
      ensures accts[b].vests <= Weight(accts[b]) && 0 <= Tally(accts, votes, None, w)(b)
    {
      OwnInWeight(accts, b);
    }
    TermAtMostSum(|accts|, Tally(accts, votes, None, w), a);
    assert Tally(accts, votes, None, w)(a) == Weight(accts[a]);
  }

  lemma OwnInWeight(accts: seq<Account>, a: nat)
    requires Flows(accts) && VestsNonNegative(accts) && a < |accts|
    ensures 0 <= accts[a].vests <= Weight(accts[a])
  {
    hide Flows, Sum;
    forall d: nat | d <= DEPTH
      ensures 0 <= LevelOf(accts[a])(d)
    {
      LevelsNonNegative(accts, d);
    }
    TermAtMostSum(DEPTH + 1, LevelOf(accts[a]), 0);
  }

  lemma VestsChanged(was: seq<Account>, next: seq<Account>, votes: set<(nat, nat)>, witnesses: seq<int>, c: nat,
                     own: int, rank: seq<nat>)
    requires StakeHolds(was, votes, witnesses) && c < |was| && Ranks(was, rank)
    requires next == was[c := was[c].(vests := was[c].vests + own)]
    ensures WellFormed(next) && Ranks(next, rank)
    ensures FlowsBut(next, None, next[c].proxy, Shifted(ZERO[0 := own], 0))
    ensures TalliedBut(next, votes, witnesses, None, Root(next, c), Total(Shifted(ZERO[0 := own], 0)))
    ensures Sum(|next|, VestsOf(next)) == Sum(|was|, VestsOf(was)) + own
  {
    assert Shifted(ZERO[0 := own], 0) == ZERO[0 := own];
    OpenGap(was, next, c, own);
    PushTally(was, next, votes, witnesses, None, c, ZERO[0 := own]);
    BooksChange(was, c, next[c]);
  }

  lemma AtRootBy(accts: seq<Account>, votes: set<(nat, nat)>, witnesses: seq<int>, c: nat, delta: int, depth: nat)
    requires WellFormed(accts) && c < |accts| && depth <= DEPTH && accts[c].proxy.None?
    requires FlowsBut(accts, None, None, Shifted(ZERO[0 := delta], depth))
    requires TalliedBut(accts, votes, witnesses, None, Some(c), Total(Shifted(ZERO[0 := delta], depth)))
    ensures Total(Shifted(ZERO[0 := delta], depth)) == delta
    ensures FlowsBut(accts, None, None, ZERO)
    ensures VestsNonNegative(accts) ==>
      forall w :: 0 <= w < |witnesses| && (c, w) in votes ==> witnesses[w] + delta <= Sum(|accts|, VestsOf(accts))
  {
    var v: Delta := ZERO[0 := delta];
    TotalShifted(v, depth);
    SumChange(DEPTH - depth + 1, Entry(ZERO), Entry(v), 0);
    SumZero(DEPTH - depth + 1, Entry(ZERO));
    AtRoot(accts, votes, witnesses, None, c, v, depth, delta);
  }

  /** The levels of c have gained v, and nobody else knows yet. */
  ghost predicate Unsettled(accts: seq<Account>, votes: set<(nat, nat)>, witnesses: seq<int>, excl: Option<nat>,
                            c: nat, v: Delta)
  {
    && WellFormed(accts) && c < |accts|
    && FlowsBut(accts, excl, accts[c].proxy, v)
    && TalliedBut(accts, votes, witnesses, excl, Root(accts, c), Total(v))
  }

  lemma VestsUnsettled(was: seq<Account>, next: seq<Account>, votes: set<(nat, nat)>, witnesses: seq<int>, c: nat,
                       own: int, rank: seq<nat>)
    requires StakeHolds(was, votes, witnesses) && c < |was| && Ranks(was, rank)
    requires next == was[c := was[c].(vests := was[c].vests + own)]
    ensures Unsettled(next, votes, witnesses, None, c, Shifted(ZERO[0 := own], 0)) && Ranks(next, rank)
    ensures Sum(|next|, VestsOf(next)) == Sum(|was|, VestsOf(was)) + own
    ensures VestsNonNegative(was) && 0 <= was[c].vests + own ==> VestsNonNegative(next)
  {
    VestsChanged(was, next, votes, witnesses, c, own, rank);
  }

  /** Every slot and every witness agrees with the levels of the accounts (excl left out). */
  ghost predicate Settled(accts: seq<Account>, votes: set<(nat, nat)>, witnesses: seq<int>, excl: Option<nat>)
  {
    && WellFormed(accts)
    && FlowsBut(accts, excl, None, ZERO)
    && TalliedBut(accts, votes, witnesses, excl, None, 0)
  }

  lemma VestsSettled(was: seq<Account>, changed: seq<Account>, accts: seq<Account>, votes: set<(nat, nat)>,
                     wits: seq<int>, witnesses: seq<int>, c: nat, own: int)
    requires StakeHolds(was, votes, wits) && c < |was| && changed == was[c := was[c].(vests := was[c].vests + own)]
    requires Settled(accts, votes, witnesses, None) && OnlySlots(changed, accts) && |witnesses| == |wits|
    ensures StakeHolds(accts, votes, witnesses) && |accts| == |was|
  {
    hide FlowsBut, TalliedBut;
    SameProxiesAcyclic(was, accts);
    assert VotesValid(accts, votes, witnesses);
  }

  /** Changing one account's slots. */
  ghost function WithSlots(accts: seq<Account>, x: nat, slots: seq<int>): seq<Account>
    requires x < |accts|
  {
    accts[x := accts[x].(proxied := slots)]
  }

  lemma UnsettledShape(accts: seq<Account>, votes: set<(nat, nat)>, witnesses: seq<int>, excl: Option<nat>, c: nat,
                       v: Delta)
    requires Unsettled(accts, votes, witnesses, excl, c, v)
    ensures c < |accts|
    ensures forall i :: 0 <= i < |accts| ==> |accts[i].proxied| == DEPTH
    ensures accts[c].proxy.Some? ==> accts[c].proxy.value < |accts|
  {
  }

  /** One proxy edge of a propagation: what c gained arrives at its proxy x, one level up. */
  lemma StepUp(accts: seq<Account>, votes: set<(nat, nat)>, witnesses: seq<int>, excl: Option<nat>, c: nat, x: nat,
               delta: Delta, depth: nat, slots: seq<int>, rank: seq<nat>)
    requires depth < DEPTH && Unsettled(accts, votes, witnesses, excl, c, Shifted(delta, depth)) && Ranks(accts, rank)
    requires x < |accts| && accts[c].proxy == Some(x) && |accts[x].proxied| == |slots| == DEPTH
    requires excl.Some? ==> excl.value < |accts| && rank[c] <= rank[excl.value]
    requires forall j :: 0 <= j < DEPTH ==> slots[j] == accts[x].proxied[j] + Shifted(delta, depth + 1)[j + 1]
    ensures Unsettled(WithSlots(accts, x, slots), votes, witnesses, excl, x, Shifted(delta, depth + 1))
    ensures Ranks(WithSlots(accts, x, slots), rank) && rank[x] < rank[c]
    ensures OnlySlots(accts, WithSlots(accts, x, slots))
  {
    var next := WithSlots(accts, x, slots);
    assert Raised(accts, next, x, Shifted(delta, depth + 1));
    PushFlow(accts, next, excl, x, delta, depth);
    PushTally(accts, next, votes, witnesses, excl, x, Shifted(delta, depth + 1));
  }

  lemma VestsWithSlots(accts: seq<Account>, x: nat, slots: seq<int>)
    requires x < |accts|
    ensures Sum(|accts|, VestsOf(WithSlots(accts, x, slots))) == Sum(|accts|, VestsOf(accts))
    ensures VestsNonNegative(accts) ==> VestsNonNegative(WithSlots(accts, x, slots))
  {
    SumSame(|accts|, VestsOf(accts), VestsOf(WithSlots(accts, x, slots)));
  }

  lemma AtRoot(accts: seq<Account>, votes: set<(nat, nat)>, witnesses: seq<int>, excl: Option<nat>, c: nat,
               delta: Delta, depth: nat, total: int)
    requires WellFormed(accts) && c < |accts| && depth <= DEPTH && accts[c].proxy.None?
    requires FlowsBut(accts, excl, None, Shifted(delta, depth))
    requires TalliedBut(accts, votes, witnesses, excl, Some(c), total)
    ensures FlowsBut(accts, excl, None, ZERO)
    ensures excl.None? && VestsNonNegative(accts) ==>
      forall w :: 0 <= w < |witnesses| && (c, w) in votes ==> witnesses[w] + total <= Sum(|accts|, VestsOf(accts))
  {
    NoGap(accts, excl, None, Shifted(delta, depth));
    if excl.None? && VestsNonNegative(accts) {
      forall w | 0 <= w < |witnesses| && (c, w) in votes
        ensures witnesses[w] + total <= Sum(|accts|, VestsOf(accts))
      {
        RecountAtMostVests(accts, votes, w, |accts|);
      }
    }
  }

  /** The slots after adding delta[i] to slot i + depth, for every i that fits. */
  method SlotsPlus(slots: seq<int>, delta: Delta, depth: nat) returns (r: seq<int>)
    requires |slots| == DEPTH && depth < DEPTH
    ensures |r| == DEPTH
    ensures forall j :: 0 <= j < DEPTH ==> r[j] == slots[j] + Shifted(delta, depth + 1)[j + 1]
  {
    r := slots;
    var i := DEPTH - depth;
    while i > 0
      invariant 0 <= i <= DEPTH - depth && |r| == DEPTH
      invariant forall j :: 0 <= j < DEPTH ==> r[j] == slots[j] + (if i + depth <= j then delta[j - depth] else 0)
    {
      i := i - 1;
      r := r[i + depth := r[i + depth] + delta[i]];
    }
  }

  /** What is left of delta when it arrives, "depth" accounts up, at an account that votes itself. */
  method RootDelta(delta: Delta, depth: nat) returns (total: int)
    requires depth <= DEPTH
    ensures total == Total(Shifted(delta, depth))
    ensures (forall j :: 0 <= j <= DEPTH ==> delta[j] <= 0) ==> total <= 0
  {
    total := 0;
    var i := DEPTH - depth + 1;
    while i > 0
      invariant 0 <= i <= DEPTH - depth + 1
      invariant total == Sum(DEPTH - depth + 1, Entry(delta)) - Sum(i, Entry(delta))
      invariant (forall j :: 0 <= j <= DEPTH ==> delta[j] <= 0) ==> total <= 0
    {
      i := i - 1;
      total := total + delta[i];
    }
    TotalShifted(delta, depth);
  }

  lemma {:induction false} SumOffset(n: nat, k: nat, f: nat -> int, g: nat -> int)
    requires forall i :: 0 <= i < k ==> f(i) == 0
    requires forall i :: 0 <= i < n ==> f(k + i) == g(i)
    ensures Sum(k + n, f) == Sum(n, g)
  {
    if n == 0 {
      SumZero(k, f);
    } else {
      SumOffset(n - 1, k, f, g);
      assert f(k + (n - 1)) == g(n - 1);
    }
  }

  lemma TotalShifted(delta: Delta, depth: nat)
    requires depth <= DEPTH
    ensures Total(Shifted(delta, depth)) == Sum(DEPTH - depth + 1, Entry(delta))
  {
    SumOffset(DEPTH - depth + 1, depth, Entry(Shifted(delta, depth)), Entry(delta));
  }

  // ------------------------------------------------------- single changes

  lemma AccountsOnlySlots(accts: seq<Account>, next: seq<Account>)
    requires AccountsValid(accts) && OnlySlots(accts, next)
    ensures AccountsValid(next)
  {
  }

  lemma AccountsGet(accts: seq<Account>, x: nat)
    requires AccountsValid(accts) && x < |accts|
    ensures |accts| > NULL_ACCOUNT && AccountValid(accts[x])
    ensures x == NULL_ACCOUNT ==> Idle(accts[x])
  {
  }

  lemma AccountsSize(accts: seq<Account>)
    requires AccountsValid(accts)
    ensures |accts| > NULL_ACCOUNT
  {
  }

  lemma VestsBooked(accts: seq<Account>, g: Globals, rewardFund: int, owed: int, extra: int)
    requires AccountsValid(accts) && BooksBut(accts, g, rewardFund, owed, extra)
    ensures VestsNonNegative(accts)
    ensures Sum(|accts|, VestsOf(accts)) == g.shares + extra
  {
  }

  lemma AccountsSet(accts: seq<Account>, x: nat, a: Account)
    requires AccountsValid(accts) && x < |accts| && AccountValid(a)
    requires x == NULL_ACCOUNT ==> Idle(a)
    ensures AccountsValid(accts[x := a])
  {
  }

  /** Account x gains vests, the slots follow, and the fund is credited. */
  lemma BooksDeposit(accts: seq<Account>, next: seq<Account>, g: Globals, rewardFund: int, owed: int, extra: int,
                     x: nat, steem: int, vests: int, booked: int)
    requires x < |accts| && BooksBut(accts, g, rewardFund, owed, extra)
    requires OnlySlots(accts[x := accts[x].(vests := accts[x].vests + vests)], next)
    ensures BooksBut(next, Deposit(g, steem, booked), rewardFund, owed - steem, extra + vests - booked)
  {
    BooksChange(accts, x, accts[x].(vests := accts[x].vests + vests));
    BooksOnlySlots(accts[x := accts[x].(vests := accts[x].vests + vests)], next);
  }

  /** Account x gains liquid WLS. */
  lemma BooksPay(accts: seq<Account>, g: Globals, rewardFund: int, owed: int, extra: int, x: nat, a: Account, paid: int)
    requires x < |accts| && BooksBut(accts, g, rewardFund, owed, extra)
    requires SameButBalance(accts[x], a) && a.balance == accts[x].balance + paid
    ensures BooksBut(accts[x := a], g, rewardFund, owed - paid, extra)
  {
    BooksChange(accts, x, a);
  }

  ghost predicate SameButBalance(a: Account, b: Account)
  {
    && b.rewardSteem == a.rewardSteem && b.rewardVests == a.rewardVests && b.rewardVestSteem == a.rewardVestSteem
    && b.vests == a.vests
  }

  /** Account x gains pending vests and the WLS behind them. */
  lemma BooksReward(accts: seq<Account>, g: Globals, rewardFund: int, owed: int, x: nat, a: Account, steem: int,
                    vests: int)
    requires x < |accts| && BooksBut(accts, g, rewardFund, owed, 0)
    requires a == accts[x].(rewardVests := accts[x].rewardVests + vests,
      rewardVestSteem := accts[x].rewardVestSteem + steem)
    ensures BooksBut(accts[x := a],
      g.(pendingShares := g.pendingShares + vests, pendingSteem := g.pendingSteem + steem), rewardFund, owed - steem, 0)
  {
    BooksChange(accts, x, a);
  }

  /** Pending vests and their WLS leave account x's reward balances; liquid rewards become balance. */
  lemma BooksClaim(accts: seq<Account>, g: Globals, rewardFund: int, x: nat, a: Account, steem: int, moved: int,
                   vests: int)
    requires x < |accts| && BooksBut(accts, g, rewardFund, 0, 0)
    requires a == accts[x].(rewardSteem := accts[x].rewardSteem - steem, balance := accts[x].balance + steem,
      rewardVests := accts[x].rewardVests - vests, rewardVestSteem := accts[x].rewardVestSteem - moved)
    ensures BooksBut(accts[x := a],
      g.(pendingShares := g.pendingShares - vests, pendingSteem := g.pendingSteem - moved), rewardFund, moved, 0)
  {
    BooksChange(accts, x, a);
  }

  lemma ClaimAccounts(a: Account, steem: int, moved: int, vests: int)
    requires AccountValid(a) && 0 <= steem <= a.rewardSteem && 0 <= vests <= a.rewardVests
    requires 0 <= moved <= a.rewardVestSteem
    ensures var b := a.(rewardSteem := a.rewardSteem - steem, balance := a.balance + steem,
        rewardVests := a.rewardVests - vests, rewardVestSteem := a.rewardVestSteem - moved);
      && AccountValid(b) && AccountValid(b.(vests := b.vests + vests))
      && (Idle(a) ==> Idle(b) && Idle(b.(vests := b.vests + vests)))
  {
  }

  lemma RewardsNonNegative(a: Account)
    requires AccountValid(a)
    ensures 0 <= a.rewardVests && 0 <= a.rewardVestSteem && 0 <= a.vests
  {
  }

  lemma ProRataAtMost(part: nat, amount: nat, whole: nat)
    requires part <= whole && whole > 0
    ensures 0 <= (part * amount) / whole <= amount
  {
    QuotientBounds(part * amount, whole);
    MulMono(part, whole, amount);
    CancelMul((part * amount) / whole, amount, whole);
  }

  lemma SlotsReflexive(accts: seq<Account>)
    ensures OnlySlots(accts, accts)
  {
  }

  /** A fresh account holds nothing, has no proxy and no record anywhere. */
  const NEW_ACCOUNT: Account := Account(0, 0, 0, 0, 0, None, [0, 0, 0, 0], 0, None, 0, 0, 0, 0)

  lemma SumExtended(n: nat, f: nat -> int, g: nat -> int)
    requires forall i :: 0 <= i < n ==> f(i) == g(i)
    requires g(n) == 0
    ensures Sum(n + 1, g) == Sum(n, f)
  {
    SumSame(n, f, g);
  }

  lemma BooksNewAccount(accts: seq<Account>, g: Globals, rewardFund: int, owed: int)
    requires BooksBut(accts, g, rewardFund, owed, 0)
    ensures BooksBut(accts + [NEW_ACCOUNT], g, rewardFund, owed, 0)
  {
    var next := accts + [NEW_ACCOUNT];
    SumExtended(|accts|, LiquidOf(accts), LiquidOf(next));
    SumExtended(|accts|, VestsOf(accts), VestsOf(next));
    SumExtended(|accts|, RewardVestsOf(accts), RewardVestsOf(next));
    SumExtended(|accts|, RewardSteemOf(accts), RewardSteemOf(next));
  }

  lemma FlowsNewAccount(accts: seq<Account>, a: Account)
    requires WellFormed(accts) && Flows(accts)
    requires a.proxy.None? && forall d :: 0 <= d <= DEPTH ==> Level(a, d) == 0
    ensures Flows(accts + [a])
  {
    hide Level;
    var next := accts + [a];
    forall y, d | 0 <= y < |next| && 0 <= d < DEPTH
      ensures SlotBut(next, None, None, ZERO, y, d)
    {
      SumExtended(|accts|, Inflow(accts, None, y, d), Inflow(next, None, y, d));
      if y < |accts| {
        assert SlotBut(accts, None, None, ZERO, y, d);
      } else {
        SumZero(|accts|, Inflow(accts, None, y, d));
      }
    }
  }

  lemma NoRecordFor(accts: seq<Account>, votes: set<(nat, nat)>, witnesses: seq<int>, w: nat)
    requires VotesValid(accts, votes, witnesses)
    ensures (|accts|, w) !in votes
  {
  }

  lemma TalliesNewAccount(accts: seq<Account>, votes: set<(nat, nat)>, witnesses: seq<int>)
    requires Tallied(accts, votes, witnesses) && VotesValid(accts, votes, witnesses)
    ensures Tallied(accts + [NEW_ACCOUNT], votes, witnesses) && VotesValid(accts + [NEW_ACCOUNT], votes, witnesses)
  {
    hide Weight, Sum;
    var next := accts + [NEW_ACCOUNT];
    forall w | 0 <= w < |witnesses|
      ensures witnesses[w] == Sum(|next|, Tally(next, votes, None, w))
    {
      assert witnesses[w] == Sum(|accts|, Tally(accts, votes, None, w));
      NoRecordFor(accts, votes, witnesses, w);
      SumExtended(|accts|, Tally(accts, votes, None, w), Tally(next, votes, None, w));
    }
    assert Records(votes, |accts|) == {};
  }

  lemma StakeNewAccount(accts: seq<Account>, votes: set<(nat, nat)>, witnesses: seq<int>)
    requires StakeHolds(accts, votes, witnesses)
    ensures StakeHolds(accts + [NEW_ACCOUNT], votes, witnesses)
  {
    NewAccountAcyclic(accts, NEW_ACCOUNT);
    FlowsNewAccount(accts, NEW_ACCOUNT);
    TalliesNewAccount(accts, votes, witnesses);
  }

  lemma AccountsNewAccount(accts: seq<Account>)
    requires AccountsValid(accts)
    ensures AccountsValid(accts + [NEW_ACCOUNT])
  {
  }

  lemma RoutesNewAccount(n: nat, routes: map<(nat, nat), Route>)
    requires RoutesValid(n, routes)
    ensures RoutesValid(n + 1, routes)
  {
    forall a | 0 <= a < n + 1
      ensures Sum(n + 1, PercentOf(routes, a)) <= ONE_HUNDRED_PERCENT
    {
      SumExtended(n, PercentOf(routes, a), PercentOf(routes, a));
      if a == n {
        SumZero(n, PercentOf(routes, n));
      }
    }
  }

  // ------------------------------------------------------- re-pointing an account

  /** No witness holds more than all shares. */
  lemma VotesWithinVests(accts: seq<Account>, votes: set<(nat, nat)>, witnesses: seq<int>)
    requires StakeHolds(accts, votes, witnesses) && VestsNonNegative(accts)
    ensures forall w :: 0 <= w < |witnesses| ==> 0 <= witnesses[w] <= Sum(|accts|, VestsOf(accts))
  {
    forall w | 0 <= w < |witnesses|
      ensures 0 <= witnesses[w] <= Sum(|accts|, VestsOf(accts))
    {
      RecountAtMostVests(accts, votes, w, |accts|);
    }
  }

  /** v is the levels of a, negated. */
  ghost predicate Opposes(v: Delta, a: Account)
  {
    forall d :: 0 <= d <= DEPTH ==> v[d] == -Level(a, d)
  }

  lemma Detached(accts: seq<Account>, votes: set<(nat, nat)>, witnesses: seq<int>, c: nat, v: Delta)
    requires StakeHolds(accts, votes, witnesses) && c < |accts| && Opposes(v, accts[c])
    ensures Unsettled(accts, votes, witnesses, Some(c), c, Shifted(v, 0))
    ensures VestsNonNegative(accts) ==> forall d :: 0 <= d <= DEPTH ==> v[d] <= 0
  {
    assert Shifted(v, 0) == v;
    DetachFlow(accts, c, v);
    DetachTally(accts, votes, witnesses, c);
    SumMinus(DEPTH + 1, LevelOf(accts[c]));
    SumSame(DEPTH + 1, Entry(v), Minus(LevelOf(accts[c])));
    if VestsNonNegative(accts) {
      forall d | 0 <= d <= DEPTH
        ensures v[d] <= 0
      {
        LevelsNonNegative(accts, d);
      }
    }
  }

  lemma AttachedTo(accts: seq<Account>, votes: set<(nat, nat)>, left: set<(nat, nat)>, witnesses: seq<int>, c: nat,
                   p: nat, v: Delta)
    requires Settled(accts, votes, witnesses, Some(c)) && c < |accts| && p < |accts|
    requires left == set r | r in votes && r.0 != c
    requires forall d :: 0 <= d <= DEPTH ==> v[d] == Level(accts[c], d)
    ensures Unsettled(accts[c := accts[c].(proxy := Some(p), votedFor := 0)], left, witnesses, None, c, Shifted(v, 0))
  {
    var next := accts[c := accts[c].(proxy := Some(p))];
    var done := accts[c := accts[c].(proxy := Some(p), votedFor := 0)];
    assert Shifted(v, 0) == v;
    AttachFlow(accts, c, Some(p), v);
    AttachTally(accts, votes, left, witnesses, c, Some(p));
    SameLevels(next, done, left, witnesses, Some(p), v);
  }

  /** votedFor is not part of any level. */
  lemma SameLevels(accts: seq<Account>, next: seq<Account>, votes: set<(nat, nat)>, witnesses: seq<int>,
                   at: Option<nat>, v: Delta)
    requires |next| == |accts|
    requires forall i :: 0 <= i < |accts| ==> next[i] == accts[i].(votedFor := next[i].votedFor)
    requires FlowsBut(accts, None, at, v) && Tallied(accts, votes, witnesses)
    ensures FlowsBut(next, None, at, v) && Tallied(next, votes, witnesses)
  {
    forall y, d | 0 <= y < |next| && 0 <= d < DEPTH
      ensures SlotBut(next, None, at, v, y, d)
    {
      assert SlotBut(accts, None, at, v, y, d);
      SumSame(|accts|, Inflow(accts, None, y, d), Inflow(next, None, y, d));
    }
    forall b | 0 <= b < |accts|
      ensures Weight(accts[b]) == Weight(next[b])
    {
      SumSame(DEPTH + 1, LevelOf(accts[b]), LevelOf(next[b]));
    }
    forall w | 0 <= w < |witnesses|
      ensures witnesses[w] == Sum(|next|, Tally(next, votes, None, w))
    {
      SumSame(|accts|, Tally(accts, votes, None, w), Tally(next, votes, None, w));
    }
  }

  lemma Cleared(accts: seq<Account>, votes: set<(nat, nat)>, witnesses: seq<int>, c: nat)
    requires Settled(accts, votes, witnesses, Some(c)) && c < |accts|
    requires forall r :: r in votes ==> r.0 != c
    ensures Settled(accts[c := accts[c].(proxy := None)], votes, witnesses, None)
  {
    var v: Delta := seq(DEPTH + 1, (d: nat) => Level(accts[c], d));
    AttachFlow(accts, c, None, v);
    NoGap(accts[c := accts[c].(proxy := None)], None, None, v);
    assert votes == set r | r in votes && r.0 != c;
    AttachTally(accts, votes, votes, witnesses, c, None);
  }

  /** The proxy chain from x ends within n accounts and does not meet a. */
  ghost predicate ChainFree(accts: seq<Account>, x: nat, n: nat, a: nat)
    decreases n
  {
    n > 0 && x != a && x < |accts| &&
    (accts[x].proxy.None? || ChainFree(accts, accts[x].proxy.value, n - 1, a))
  }

  lemma {:induction false} ChainFreeNeverReaches(accts: seq<Account>, rank: seq<nat>, x: nat, n: nat, a: nat)
    requires Ranks(accts, rank) && x < |accts| && ChainFree(accts, x, n, a)
    ensures !Reaches(accts, rank, x, a)
    decreases n
  {
    if accts[x].proxy.Some? {
      ChainFreeNeverReaches(accts, rank, accts[x].proxy.value, n - 1, a);
    }
  }

  /** The check for proxy loops and over-long chains, walking up from p. */
  method WalkProxyChain(accts: seq<Account>, account: nat, p: nat, ghost rank: seq<nat>) returns (ok: bool)
    requires Ranks(accts, rank) && account < |accts| && p < |accts| && p != account
    ensures ok <==> ChainFree(accts, p, DEPTH - 1, account)
  {
    var chain: set<nat> := {account, p};
    var cur: nat := p;
    while accts[cur].proxy.Some?
      invariant cur < |accts| && cur != account && account in chain
      invariant 2 <= |chain| <= DEPTH
      invariant forall y :: y in chain ==> y == account || (y < |accts| && rank[cur] <= rank[y])
      invariant ChainFree(accts, p, DEPTH - 1, account) <==> ChainFree(accts, cur, DEPTH + 1 - |chain|, account)
      decreases rank[cur]
    {
      var next: nat := accts[cur].proxy.value;
      if next in chain { return false; }
      chain := chain + {next};
      cur := next;
      if |chain| > DEPTH { return false; }
    }
    return true;
  }

  /** What re-pointing keeps of the records: c's are gone, all others stay. */
  lemma RecordsCleared(accts: seq<Account>, next: seq<Account>, votes: set<(nat, nat)>, left: set<(nat, nat)>,
                       witnesses: seq<int>, wits: seq<int>, c: nat)
    requires VotesValid(accts, votes, witnesses) && c < |accts| == |next| && |wits| == |witnesses|
    requires left == set r | r in votes && r.0 != c
    requires forall i :: 0 <= i < |accts| && i != c ==>
      next[i].proxy == accts[i].proxy && next[i].votedFor == accts[i].votedFor
    requires next[c].votedFor == 0
    ensures VotesValid(next, left, wits)
  {
    forall i | 0 <= i < |next|
      ensures next[i].votedFor == |Records(left, i)|
    {
      if i == c {
        assert Records(left, c) == {};
      } else {
        assert Records(left, i) == Records(votes, i);
      }
    }
  }

  lemma SlotsTransitive(a: seq<Account>, b: seq<Account>, c: seq<Account>)
    requires OnlySlots(a, b) && OnlySlots(b, c)
    ensures OnlySlots(a, c)
  {
  }

  lemma SlotsLength(a: seq<Account>, b: seq<Account>)
    requires OnlySlots(a, b)
    ensures |a| == |b|
  {
  }

  lemma BooksSlots(accts: seq<Account>, next: seq<Account>, g: Globals, rewardFund: int, owed: int, extra: int)
    requires BooksBut(accts, g, rewardFund, owed, extra) && OnlySlots(accts, next)
    ensures BooksBut(next, g, rewardFund, owed, extra)
  {
    BooksOnlySlots(accts, next);
  }

  /** Proxy, vote count and power-down fields carry no value. */
  lemma BooksSameMoney(accts: seq<Account>, x: nat, a: Account, g: Globals, rewardFund: int, owed: int, extra: int)
    requires x < |accts| && BooksBut(accts, g, rewardFund, owed, extra)
    requires SameButBalance(accts[x], a) && a.balance == accts[x].balance
    ensures BooksBut(accts[x := a], g, rewardFund, owed, extra)
  {
    BooksChange(accts, x, a);
  }

  /** All parts of StakeHolds after an account was re-pointed. */
  lemma Repointed(was: seq<Account>, accts: seq<Account>, votes: set<(nat, nat)>, left: set<(nat, nat)>,
                  witnesses: seq<int>, wits: seq<int>, c: nat, p: Option<nat>)
    requires StakeHolds(was, votes, witnesses) && c < |was| && |wits| == |witnesses|
    requires p.Some? ==> p.value < |was| && ChainFree(was, p.value, DEPTH - 1, c)
    requires left == set r | r in votes && r.0 != c
    requires OnlySlots(was[c := was[c].(proxy := p, votedFor := 0)], accts)
    requires Settled(accts, left, wits, None)
    ensures StakeHolds(accts, left, wits)
  {
    RecordsCleared(was, accts, votes, left, witnesses, wits, c);
    RepointedAcyclic(was, accts, c, p);
  }

  lemma RepointedAcyclic(was: seq<Account>, accts: seq<Account>, c: nat, p: Option<nat>)
    requires Acyclic(was) && c < |was| == |accts|
    requires p.Some? ==> p.value < |was| && ChainFree(was, p.value, DEPTH - 1, c)
    requires forall i :: 0 <= i < |was| ==> accts[i].proxy == if i == c then p else was[i].proxy
    ensures Acyclic(accts)
  {
    if p.Some? {
      var rank :| Ranks(was, rank);
      ChainFreeNeverReaches(was, rank, p.value, DEPTH - 1, c);
      SetProxyAcyclic(was, rank, c, p.value);
      SameProxiesAcyclic(was[c := was[c].(proxy := p)], accts);
    } else {
      SameProxiesAcyclic(was, accts);
    }
  }

  lemma StakeAcyclic(accts: seq<Account>, votes: set<(nat, nat)>, witnesses: seq<int>)
    requires StakeHolds(accts, votes, witnesses)
    ensures WellFormed(accts) && Acyclic(accts)
  {
  }

  lemma SameProxies(was: seq<Account>, accts: seq<Account>, rank: seq<nat>)
    requires OnlySlots(was, accts) && Ranks(was, rank)
    ensures Ranks(accts, rank)
  {
  }

  lemma {:induction false} SameChains(was: seq<Account>, accts: seq<Account>, x: nat, n: nat, a: nat)
    requires OnlySlots(was, accts)
    ensures ChainFree(was, x, n, a) <==> ChainFree(accts, x, n, a)
    decreases n
  {
    if n > 0 && x < |was| && was[x].proxy.Some? {
      SameChains(was, accts, was[x].proxy.value, n - 1, a);
    }
  }

  /** An account with a proxy holds no vote records. */
  lemma ProxiedHoldsNoRecords(accts: seq<Account>, votes: set<(nat, nat)>, witnesses: seq<int>, c: nat)
    requires StakeHolds(accts, votes, witnesses) && c < |accts| && accts[c].proxy.Some?
    ensures forall r :: r in votes ==> r.0 != c
    ensures accts[c].votedFor == 0
  {
    assert Records(votes, c) == {};
  }

  lemma SlotsRepointed(was: seq<Account>, mid: seq<Account>, c: nat)
    requires OnlySlots(was, mid) && c < |was| == |mid| && was[c].votedFor == 0
    ensures OnlySlots(was[c := was[c].(proxy := None, votedFor := 0)], mid[c := mid[c].(proxy := None)])
  {
  }

  lemma RepointKeepsValue(was: seq<Account>, accts: seq<Account>, g: Globals, rewardFund: int, c: nat, p: Option<nat>)
    requires AccountsValid(was) && BooksBut(was, g, rewardFund, 0, 0) && c < |was| && c != NULL_ACCOUNT
    requires OnlySlots(was[c := was[c].(proxy := p, votedFor := 0)], accts)
    ensures AccountsValid(accts) && BooksBut(accts, g, rewardFund, 0, 0) && |accts| == |was|
  {
    var a := was[c].(proxy := p, votedFor := 0);
    AccountsSet(was, c, a);
    AccountsOnlySlots(was[c := a], accts);
    BooksSameMoney(was, c, a, g, rewardFund, 0, 0);
    BooksSlots(was[c := a], accts, g, rewardFund, 0, 0);
  }

  /** Only the voter's term of only that witness's tally changes. */
  lemma VoteTally(accts: seq<Account>, votes: set<(nat, nat)>, next: set<(nat, nat)>, c: nat, w: nat, u: nat)
    requires c < |accts| && accts[c].proxy.None?
    requires next == votes + {(c, w)} || next == votes - {(c, w)}
    ensures Sum(|accts|, Tally(accts, next, None, u)) == Sum(|accts|, Tally(accts, votes, None, u))
      + (if (c, u) in next then Weight(accts[c]) else 0) - (if (c, u) in votes then Weight(accts[c]) else 0)
  {
    hide Weight;
    var f, g := Tally(accts, votes, None, u), Tally(accts, next, None, u);
    forall b | 0 <= b < |accts| && b != c
      ensures f(b) == g(b)
    {
      assert (b, u) != (c, w);
    }
    SumChange(|accts|, f, g, c);
  }

  lemma VoteTallies(accts: seq<Account>, votes: set<(nat, nat)>, next: set<(nat, nat)>, witnesses: seq<int>, c: nat,
                    w: nat, gain: int)
    requires Tallied(accts, votes, witnesses)
    requires c < |accts| && w < |witnesses| && accts[c].proxy.None?
    requires if (c, w) in votes then gain == -Weight(accts[c]) && next == votes - {(c, w)}
             else gain == Weight(accts[c]) && next == votes + {(c, w)}
    ensures Tallied(accts, next, witnesses[w := witnesses[w] + gain])
  {
    hide Weight, Sum, Tally;
    var wits := witnesses[w := witnesses[w] + gain];
    forall u | 0 <= u < |wits|
      ensures wits[u] == Sum(|accts|, Tally(accts, next, None, u))
    {
      VoteTally(accts, votes, next, c, w, u);
      assert u != w ==> ((c, u) in next <==> (c, u) in votes);
    }
  }

  /** Casting or withdrawing a vote moves exactly the voter's weight to or from that witness. */
  lemma VoteCast(accts: seq<Account>, votes: set<(nat, nat)>, next: set<(nat, nat)>, witnesses: seq<int>,
                 c: nat, w: nat, approve: bool, gain: int)
    requires StakeHolds(accts, votes, witnesses) && VestsNonNegative(accts)
    requires c < |accts| && w < |witnesses| && accts[c].proxy.None?
    requires approve == ((c, w) !in votes)
    requires next == if approve then votes + {(c, w)} else votes - {(c, w)}
    requires gain == if approve then Weight(accts[c]) else -Weight(accts[c])
    ensures StakeHolds(accts[c := accts[c].(votedFor := accts[c].votedFor + (if approve then 1 else -1))], next,
                       witnesses[w := witnesses[w] + gain])
    ensures witnesses[w] + gain <= Sum(|accts|, VestsOf(accts))
  {
    hide Flows, FlowsBut, Tally, TalliedBut, Weight, Sum, VestsOf, Acyclic;
    var wits := witnesses[w := witnesses[w] + gain];
    var done := accts[c := accts[c].(votedFor := accts[c].votedFor + (if approve then 1 else -1))];
    VoteTallies(accts, votes, next, witnesses, c, w, gain);
    SameCounts(accts, done, next, wits);
    SameProxiesAcyclic(accts, done);
    VoteRecords(accts, votes, next, witnesses, c, w, approve);
    RecountAtMost(accts, next, wits, w);
  }

  lemma VoteRecords(accts: seq<Account>, votes: set<(nat, nat)>, next: set<(nat, nat)>, witnesses: seq<int>,
                    c: nat, w: nat, approve: bool)
    requires VotesValid(accts, votes, witnesses) && c < |accts| && w < |witnesses| && accts[c].proxy.None?
    requires approve == ((c, w) !in votes)
    requires next == if approve then votes + {(c, w)} else votes - {(c, w)}
    ensures forall wits: seq<int> :: |wits| == |witnesses| ==>
      VotesValid(accts[c := accts[c].(votedFor := accts[c].votedFor + (if approve then 1 else -1))], next, wits)
  {
    RecordsMoved(accts, votes, next, c, w, approve);
  }

  lemma SameCounts(accts: seq<Account>, next: seq<Account>, votes: set<(nat, nat)>, witnesses: seq<int>)
    requires |next| == |accts|
    requires forall i :: 0 <= i < |accts| ==> next[i] == accts[i].(votedFor := next[i].votedFor)
    requires Flows(accts) && Tallied(accts, votes, witnesses)
    ensures Flows(next) && Tallied(next, votes, witnesses)
  {
    SameLevels(accts, next, votes, witnesses, None, ZERO);
  }

  lemma RecountAtMost(accts: seq<Account>, votes: set<(nat, nat)>, witnesses: seq<int>, w: nat)
    requires WellFormed(accts) && Flows(accts) && VestsNonNegative(accts)
    requires Tallied(accts, votes, witnesses) && w < |witnesses|
    ensures witnesses[w] <= Sum(|accts|, VestsOf(accts))
  {
    RecountAtMostVests(accts, votes, w, |accts|);
  }

  lemma WitnessCreated(accts: seq<Account>, votes: set<(nat, nat)>, witnesses: seq<int>)
    requires StakeHolds(accts, votes, witnesses)
    ensures StakeHolds(accts, votes, witnesses + [0])
  {
    var wits := witnesses + [0];
    forall w | 0 <= w < |wits|
      ensures wits[w] == Sum(|accts|, Tally(accts, votes, None, w))
    {
      if w == |witnesses| {
        SumZero(|accts|, Tally(accts, votes, None, w));
      }
    }
  }

  /** One more account counted: the recount of the first a + 1 accounts stays within all shares. */
  lemma RecountStep(accts: seq<Account>, votes: set<(nat, nat)>, n: nat, a: nat, m: nat)
    requires WellFormed(accts) && Flows(accts) && VestsNonNegative(accts) && a < |accts| && m == a + 1
    ensures forall w :: 0 <= w < n ==> Recount(accts, votes, w, m) <= Sum(|accts|, VestsOf(accts))
    ensures forall w :: 0 <= w < n ==>
      Recount(accts, votes, w, m)
        == Recount(accts, votes, w, a) + (if accts[a].proxy.None? && (a, w) in votes then Weight(accts[a]) else 0)
  {
    forall w | 0 <= w < n
      ensures Recount(accts, votes, w, m) <= Sum(|accts|, VestsOf(accts))
    {
      RecountAtMostVests(accts, votes, w, m);
    }
  }

  /** The votes witness w gets from the first n accounts. */
  ghost function Recount(accts: seq<Account>, votes: set<(nat, nat)>, w: nat, n: nat): int
  {
    Sum(n, Tally(accts, votes, None, w))
  }

  lemma RecordsMoved(accts: seq<Account>, votes: set<(nat, nat)>, next: set<(nat, nat)>, c: nat, w: nat, approve: bool)
    requires approve == ((c, w) !in votes)
    requires next == if approve then votes + {(c, w)} else votes - {(c, w)}
    ensures |Records(next, c)| == |Records(votes, c)| + (if approve then 1 else -1)
    ensures forall i: nat :: i != c ==> Records(next, i) == Records(votes, i)
  {
    if approve {
      assert Records(next, c) == Records(votes, c) + {(c, w)};
    } else {
      assert Records(next, c) == Records(votes, c) - {(c, w)};
    }
    forall i: nat | i != c
      ensures Records(next, i) == Records(votes, i)
    {
    }
  }

  lemma ShareStep(accts: seq<Account>, i: nat, m: nat)
    requires WellFormed(accts) && i < |accts| && m == i + 1
    ensures Sum(m, VoteShare(accts)) == Sum(i, VoteShare(accts))
      + (if accts[i].proxy.None? then Weight(accts[i]) else accts[i].proxied[DEPTH - 1])
    ensures Sum(m, LiquidOf(accts)) == Sum(i, LiquidOf(accts)) + accts[i].balance + accts[i].rewardSteem
    ensures Sum(m, VestsOf(accts)) == Sum(i, VestsOf(accts)) + accts[i].vests
    ensures Sum(m, RewardVestsOf(accts)) == Sum(i, RewardVestsOf(accts)) + accts[i].rewardVests
    ensures Sum(m, RewardSteemOf(accts)) == Sum(i, RewardSteemOf(accts)) + accts[i].rewardVestSteem
  {
  }

  lemma NothingSummed(accts: seq<Account>)
    ensures Sum(0, VoteShare(accts)) == Sum(0, LiquidOf(accts)) == Sum(0, VestsOf(accts)) == 0
    ensures Sum(0, RewardVestsOf(accts)) == Sum(0, RewardSteemOf(accts)) == 0
  {
  }

  lemma StakeFlows(accts: seq<Account>, votes: set<(nat, nat)>, witnesses: seq<int>)
    requires StakeHolds(accts, votes, witnesses)
    ensures Flows(accts)
  {
  }

  lemma SlotsThroughRepoint(was: seq<Account>, accts: seq<Account>, c: nat, p: Option<nat>)
    requires OnlySlots(was, accts) && c < |was| && accts[c] == was[c]
    ensures OnlySlots(was[c := was[c].(proxy := p, votedFor := 0)], accts[c := accts[c].(proxy := p, votedFor := 0)])
    ensures forall i :: 0 <= i < |was| ==>
      accts[c := accts[c].(proxy := p, votedFor := 0)][i].proxy == (if i == c then p else was[i].proxy)
    ensures Sum(|was|, VestsOf(accts[c := accts[c].(proxy := p, votedFor := 0)])) == Sum(|was|, VestsOf(was))
    ensures VestsNonNegative(was) ==> VestsNonNegative(accts[c := accts[c].(proxy := p, votedFor := 0)])
  {
    SumSame(|was|, VestsOf(was), VestsOf(accts[c := accts[c].(proxy := p, votedFor := 0)]));
  }

  lemma TalliedIsRecount(accts: seq<Account>, votes: set<(nat, nat)>, witnesses: seq<int>)
    requires Tallied(accts, votes, witnesses)
    ensures forall w :: 0 <= w < |witnesses| ==> witnesses[w] == Recount(accts, votes, w, |accts|)
    ensures forall w :: 0 <= w < |witnesses| ==> Recount(accts, votes, w, 0) == 0
  {
  }

  // ------------------------------------------------------- power-downs

  function Min(x: int, y: int): (m: int)
    ensures m <= x && m <= y && (m == x || m == y)
  {
    if x < y then x else y
  }

  /** vesting_withdraw_rate for a request: a thirteenth, at least one. */
  function RateFor(vests: nat): (rate: nat)
    requires vests > 0
    ensures 0 < rate <= vests
    ensures if vests < WITHDRAW_INTERVALS then rate == 1
      else rate * WITHDRAW_INTERVALS <= vests < (rate + 1) * WITHDRAW_INTERVALS
  {
    if vests / WITHDRAW_INTERVALS == 0 then 1 else vests / WITHDRAW_INTERVALS
  }

  /** What the next instalment withdraws. */
  ghost function Instalment(a: Account): int
    requires a.withdrawRate > 0
  {
    if a.toWithdraw - a.withdrawn < a.withdrawRate
    then Min(a.vests, a.toWithdraw % a.withdrawRate)
    else Min(a.vests, a.withdrawRate)
  }

  lemma RemainderOfRest(whole: nat, done: nat, rate: nat)
    requires rate > 0 && done % rate == 0 && done <= whole < done + rate
    ensures whole % rate == whole - done
  {
    assert done == (done / rate) * rate + done % rate;
    DivModUnique(whole, done / rate, whole - done, rate);
  }

  lemma NextMultiple(done: nat, rate: nat)
    requires rate > 0 && done % rate == 0
    ensures (done + rate) % rate == 0
  {
    assert done == (done / rate) * rate + done % rate;
    assert (done / rate + 1) * rate == (done / rate) * rate + rate;
    DivModUnique(done + rate, done / rate + 1, 0, rate);
  }

  /** Every instalment is a full rate, or the whole of what is left when that is less. */
  lemma InstalmentExact(a: Account)
    requires WithdrawalValid(a) && a.withdrawRate > 0
    ensures Instalment(a) == Min(a.withdrawRate, a.toWithdraw - a.withdrawn)
    ensures 0 < Instalment(a) <= a.vests
  {
    if a.toWithdraw - a.withdrawn < a.withdrawRate {
      RemainderOfRest(a.toWithdraw, a.withdrawn, a.withdrawRate);
    }
  }

  /** The power-down fields after an instalment that leaves "left" vests. */
  ghost function AfterInstalment(a: Account, taken: int, left: int): (r: Account)
    requires a.nextWithdrawal.Some?
  {
    var paid := a.(withdrawn := a.withdrawn + taken);
    if paid.withdrawn >= paid.toWithdraw || left == 0
    then paid.(withdrawRate := 0, nextWithdrawal := None)
    else paid.(nextWithdrawal := Some(a.nextWithdrawal.value + WITHDRAW_INTERVAL_SECONDS))
  }

  lemma AfterInstalmentValid(a: Account)
    requires WithdrawalValid(a) && a.withdrawRate > 0
    ensures forall left, paid :: left >= a.vests - Instalment(a) && paid == AfterInstalment(a, Instalment(a), left) ==>
      WithdrawalValid(paid.(vests := left)) && WithdrawalValid(paid.(vests := left + Instalment(a)))
  {
    InstalmentExact(a);
    NextMultiple(a.withdrawn, a.withdrawRate);
  }

  /** The payer stays valid both before and after its vests are taken. */
  lemma InstalmentAccounts(a: Account, taken: int, steem: nat)
    requires AccountValid(a) && a.nextWithdrawal.Some? && (a.withdrawRate > 0 ==> taken == Instalment(a))
    ensures a.withdrawRate > 0 && 0 < taken <= a.vests
    ensures var paid := AfterInstalment(a, taken, a.vests - taken).(balance := a.balance + steem);
      AccountValid(paid) && AccountValid(paid.(vests := a.vests - taken))
  {
    InstalmentExact(a);
    AfterInstalmentValid(a);
  }

  /** What the destination t of a route of that kind gets of "taken". */
  ghost function Deposited(routes: map<(nat, nat), Route>, from: nat, taken: nat, autoVest: bool): nat -> int
  {
    (t: nat) =>
      if t >= 1 && (from, t) in routes && routes[(from, t)].autoVest == autoVest
      then (taken * routes[(from, t)].percent) / ONE_HUNDRED_PERCENT else 0
  }

  ghost function DepositedBoth(routes: map<(nat, nat), Route>, from: nat, taken: nat): nat -> int
  {
    (t: nat) =>
      if t >= 1 && (from, t) in routes then (taken * routes[(from, t)].percent) / ONE_HUNDRED_PERCENT else 0
  }

  lemma ScaledStep(s: int, x: int, t: int, y: int, k: int, c: int)
    requires s * c <= k * t && x * c <= k * y
    ensures (s + x) * c <= k * (t + y)
  {
    assert (s + x) * c == s * c + x * c;
    assert k * (t + y) == k * t + k * y;
  }

  lemma {:induction false} SumScaled(n: nat, f: nat -> int, g: nat -> int, k: int, c: int)
    requires forall i :: 0 <= i < n ==> f(i) * c <= k * g(i)
    ensures Sum(n, f) * c <= k * Sum(n, g)
  {
    if n > 0 {
      SumScaled(n - 1, f, g, k, c);
      ScaledStep(Sum(n - 1, f), f(n - 1), Sum(n - 1, g), g(n - 1), k, c);
    }
  }

  lemma DepositsWithinPercents(routes: map<(nat, nat), Route>, from: nat, taken: nat, n: nat)
    ensures Sum(n, DepositedBoth(routes, from, taken)) * ONE_HUNDRED_PERCENT <= taken * Sum(n, PercentOf(routes, from))
  {
    forall t | 0 <= t < n
      ensures DepositedBoth(routes, from, taken)(t) * ONE_HUNDRED_PERCENT <= taken * PercentOf(routes, from)(t)
    {
      if t >= 1 && (from, t) in routes {
        QuotientBounds(taken * routes[(from, t)].percent, ONE_HUNDRED_PERCENT);
      }
    }
    SumScaled(n, DepositedBoth(routes, from, taken), PercentOf(routes, from), taken, ONE_HUNDRED_PERCENT);
  }

  lemma DepositsSplit(routes: map<(nat, nat), Route>, from: nat, taken: nat, n: nat)
    ensures Sum(n, Deposited(routes, from, taken, true)) + Sum(n, Deposited(routes, from, taken, false))
         == Sum(n, DepositedBoth(routes, from, taken))
  {
    SumAdds(n, Deposited(routes, from, taken, true), Deposited(routes, from, taken, false),
      DepositedBoth(routes, from, taken));
  }

  lemma PercentsWithin(routes: map<(nat, nat), Route>, from: nat, n: nat)
    requires RoutesValid(n, routes) && from < n
    ensures Sum(n, PercentOf(routes, from)) <= ONE_HUNDRED_PERCENT
  {
  }

  lemma ShareAtMostWhole(all: int, percents: int, taken: nat)
    requires all * ONE_HUNDRED_PERCENT <= taken * percents && percents <= ONE_HUNDRED_PERCENT
    ensures all <= taken
  {
    MulMono(percents, ONE_HUNDRED_PERCENT, taken);
    assert percents * taken == taken * percents;
    CancelMul(all, taken, ONE_HUNDRED_PERCENT);
  }

  /** The "Deposited more vests" assertion cannot fire. */
  lemma DepositsAtMostTaken(routes: map<(nat, nat), Route>, from: nat, taken: nat, n: nat)
    requires RoutesValid(n, routes) && from < n
    ensures Sum(n, Deposited(routes, from, taken, true)) + Sum(n, Deposited(routes, from, taken, false)) <= taken
  {
    hide Sum, RoutesValid, PercentOf, DepositedBoth, Deposited;
    PercentsWithin(routes, from, n);
    DepositsWithinPercents(routes, from, taken, n);
    DepositsSplit(routes, from, taken, n);
    ShareAtMostWhole(Sum(n, DepositedBoth(routes, from, taken)), Sum(n, PercentOf(routes, from)), taken);
  }

  /** What of the deposits reaches witness w: those whose proxy chain ends at one of its voters. */
  ghost function Reaching(accts: seq<Account>, votes: set<(nat, nat)>, routes: map<(nat, nat), Route>, from: nat,
                          taken: nat, w: nat): nat -> int
  {
    (t: nat) =>
      var end := ChainEnd(accts, t, DEPTH);
      if end.Some? && (end.value, w) in votes then Deposited(routes, from, taken, true)(t) else 0
  }

  /** No witness would be lifted above all shares by the deposits that reach it. */
  ghost predicate RoutedHeadroom(accts: seq<Account>, votes: set<(nat, nat)>, witnesses: seq<int>,
                                 routes: map<(nat, nat), Route>, from: nat, taken: nat, shares: int)
  {
    forall w :: 0 <= w < |witnesses| ==>
      witnesses[w] + Sum(|accts|, Reaching(accts, votes, routes, from, taken, w)) <= shares
  }

  /** The deposits below t have reached the witnesses. */
  ghost predicate LiftedUpTo(accts: seq<Account>, votes: set<(nat, nat)>, was: seq<int>, now: seq<int>,
                             routes: map<(nat, nat), Route>, from: nat, taken: nat, t: nat)
  {
    && |now| == |was|
    && forall w :: 0 <= w < |was| ==> now[w] == was[w] + Sum(t, Reaching(accts, votes, routes, from, taken, w))
  }

  ghost predicate WithinAll(witnesses: seq<int>, shares: int)
  {
    forall w :: 0 <= w < |witnesses| ==> witnesses[w] <= shares
  }

  lemma WithinAtFirst(accts: seq<Account>, g: Globals, rewardFund: int, votes: set<(nat, nat)>, witnesses: seq<int>)
    requires StakeHolds(accts, votes, witnesses) && AccountsValid(accts) && BooksBut(accts, g, rewardFund, 0, 0)
    ensures WithinAll(witnesses, g.shares)
  {
    VestsBooked(accts, g, rewardFund, 0, 0);
    VotesWithinVests(accts, votes, witnesses);
  }

  lemma ReachingNonNegative(accts: seq<Account>, votes: set<(nat, nat)>, routes: map<(nat, nat), Route>, from: nat,
                            taken: nat, w: nat)
    ensures forall t: nat :: 0 <= Reaching(accts, votes, routes, from, taken, w)(t)
  {
    forall t: nat
      ensures 0 <= Reaching(accts, votes, routes, from, taken, w)(t)
    {
      DepositOf(routes, from, taken, true, t);
    }
  }

  lemma LiftedStart(accts: seq<Account>, votes: set<(nat, nat)>, witnesses: seq<int>, routes: map<(nat, nat), Route>,
                    from: nat, taken: nat)
    ensures LiftedUpTo(accts, votes, witnesses, witnesses, routes, from, taken, 1)
  {
    forall w | 0 <= w < |witnesses|
      ensures Sum(1, Reaching(accts, votes, routes, from, taken, w)) == 0
    {
      DepositOf(routes, from, taken, true, 0);
      assert Sum(1, Reaching(accts, votes, routes, from, taken, w))
        == Sum(0, Reaching(accts, votes, routes, from, taken, w)) + 0;
    }
  }

  lemma LiftedOneMore(accts: seq<Account>, votes: set<(nat, nat)>, was: seq<int>, now: seq<int>, next: seq<int>,
                      routes: map<(nat, nat), Route>, from: nat, taken: nat, t: nat, vests: int, shares: int)
    requires LiftedUpTo(accts, votes, was, now, routes, from, taken, t) && WithinAll(now, shares)
    requires vests == Deposited(routes, from, taken, true)(t)
    requires Lifted(votes, now, next, ChainEnd(accts, t, DEPTH), vests)
    requires Headroom(votes, now, ChainEnd(accts, t, DEPTH), vests, shares)
    ensures LiftedUpTo(accts, votes, was, next, routes, from, taken, t + 1) && WithinAll(next, shares)
  {
    hide ChainEnd, Deposited;
  }

  lemma LiftedNoMore(accts: seq<Account>, votes: set<(nat, nat)>, was: seq<int>, now: seq<int>,
                     routes: map<(nat, nat), Route>, from: nat, taken: nat, t: nat)
    requires LiftedUpTo(accts, votes, was, now, routes, from, taken, t) && Deposited(routes, from, taken, true)(t) == 0
    ensures LiftedUpTo(accts, votes, was, now, routes, from, taken, t + 1)
  {
    hide ChainEnd, Deposited;
  }

  lemma NoRoutedHeadroom(accts: seq<Account>, votes: set<(nat, nat)>, was: seq<int>, left: seq<int>, now: seq<int>,
                         routes: map<(nat, nat), Route>, from: nat, taken: nat, t: nat, shares: int)
    requires LiftedUpTo(accts, votes, was, now, routes, from, taken, t) && t < |accts|
    requires !Headroom(votes, now, ChainEnd(accts, t, DEPTH), Deposited(routes, from, taken, true)(t), shares)
    ensures !RoutedHeadroom(accts, votes, was, routes, from, taken, shares)
  {
    var end := ChainEnd(accts, t, DEPTH);
    var w :| 0 <= w < |now| && (end.value, w) in votes && now[w] + Deposited(routes, from, taken, true)(t) > shares;
    ReachingNonNegative(accts, votes, routes, from, taken, w);
    var f := Reaching(accts, votes, routes, from, taken, w);
    hide ChainEnd, Deposited;
    assert Sum(t + 1, f) == Sum(t, f) + f(t);
    PrefixAtMost(t + 1, |accts|, f);
  }

  lemma AllLifted(accts: seq<Account>, votes: set<(nat, nat)>, was: seq<int>, now: seq<int>,
                  routes: map<(nat, nat), Route>, from: nat, taken: nat, shares: int)
    requires LiftedUpTo(accts, votes, was, now, routes, from, taken, |accts|) && WithinAll(now, shares)
    ensures RoutedHeadroom(accts, votes, was, routes, from, taken, shares)
  {
  }

  lemma CreditedEnd(was: seq<Account>, accts: seq<Account>, gain: nat -> int, k: nat, c: nat)
    requires Credited(was, accts, gain, k)
    ensures ChainEnd(accts, c, DEPTH) == ChainEnd(was, c, DEPTH)
  {
    SameEnd(was, accts, c, DEPTH);
  }

  lemma {:induction false} NotPaidOut(g: Globals, routes: map<(nat, nat), Route>, from: nat, taken: nat, t: nat, n: nat)
    requires t <= n && PaidOut(g, routes, from, taken, t).None?
    ensures PaidOut(g, routes, from, taken, n).None?
    decreases n
  {
    if t < n {
      NotPaidOut(g, routes, from, taken, t, n - 1);
    }
  }

  /** The instalment of "from": a full rate, or the rest when that is less. */
  ghost function Due(a: Account): int
  {
    Min(a.withdrawRate, a.toWithdraw - a.withdrawn)
  }

  /** What is left of an instalment for the account itself. */
  ghost function OwnPart(n: nat, routes: map<(nat, nat), Route>, from: nat, taken: nat): int
  {
    taken - Sum(n, Deposited(routes, from, taken, true)) - Sum(n, Deposited(routes, from, taken, false))
  }

  /** What that part is worth after the routes were paid. */
  ghost function OwnSteem(g: Globals, routes: map<(nat, nat), Route>, from: nat, taken: nat, n: nat): int
  {
    var own, out := OwnPart(n, routes, from, taken), PaidOut(g, routes, from, taken, n);
    if own >= 0 && out.Some?
      && ToSteem(own, SharePrice(out.value)).Some? then ToSteem(own, SharePrice(out.value)).value else 0
  }

  /**
    An instalment can be paid: its deposits leave every witness within all shares,
    and every part that goes out as WLS converts.
   */
  ghost predicate Payable(accts: seq<Account>, votes: set<(nat, nat)>, witnesses: seq<int>, g: Globals,
                          routes: map<(nat, nat), Route>, from: nat)
  {
    && from < |accts|
    && var taken := Due(accts[from]);
       && taken >= 0 && RoutedHeadroom(accts, votes, witnesses, routes, from, taken, g.shares)
       && var out := PaidOut(g, routes, from, taken, |accts|);
          && out.Some?
          && var own := OwnPart(|accts|, routes, from, taken);
             own >= 0 && ToSteem(own, SharePrice(out.value)).Some?
  }

  /** accts is was with gain(i) more vests at every account i below t; slots follow. */
  ghost predicate Credited(was: seq<Account>, accts: seq<Account>, gain: nat -> int, t: nat)
  {
    && |accts| == |was|
    && forall i :: 0 <= i < |was| ==>
         accts[i] == was[i].(vests := was[i].vests + (if i < t then gain(i) else 0), proxied := accts[i].proxied)
  }

  lemma CreditedStep(was: seq<Account>, accts: seq<Account>, next: seq<Account>, gain: nat -> int, t: nat, m: nat)
    requires Credited(was, accts, gain, t) && t < |was| && m == t + 1
    requires OnlySlots(accts[t := accts[t].(vests := accts[t].vests + gain(t))], next)
    ensures Credited(was, next, gain, m)
  {
  }

  lemma CreditedNothing(was: seq<Account>, accts: seq<Account>, gain: nat -> int, t: nat, m: nat)
    requires Credited(was, accts, gain, t) && m == t + 1 && gain(t) == 0
    ensures Credited(was, accts, gain, m)
  {
  }

  lemma CreditedStart(was: seq<Account>, gain: nat -> int)
    requires gain(0) == 0
    ensures Credited(was, was, gain, 1)
  {
  }

  lemma DepositOf(routes: map<(nat, nat), Route>, from: nat, taken: nat, autoVest: bool, t: nat)
    ensures Deposited(routes, from, taken, autoVest)(t) ==
      if t >= 1 && (from, t) in routes && routes[(from, t)].autoVest == autoVest
      then (taken * routes[(from, t)].percent) / ONE_HUNDRED_PERCENT else 0
    ensures 0 <= Deposited(routes, from, taken, autoVest)(t)
    ensures Sum(t + 1, Deposited(routes, from, taken, autoVest))
      == Sum(t, Deposited(routes, from, taken, autoVest)) + Deposited(routes, from, taken, autoVest)(t)
  {
  }

  /** The globals after the steem routes to the accounts below t were paid. */
  ghost function PaidOut(g: Globals, routes: map<(nat, nat), Route>, from: nat, taken: nat, t: nat): Option<Globals>
  {
    if t == 0 then Some(g)
    else
      var before := PaidOut(g, routes, from, taken, t - 1);
      if before.None? || !IsSteemRoute(routes, from, t - 1) then before
      else
        var vests := (taken * routes[(from, t - 1)].percent) / ONE_HUNDRED_PERCENT;
        var steem := ToSteem(vests, SharePrice(before.value));
        if steem.None? then None else Some(Withdraw(before.value, steem.value, vests))
  }

  ghost predicate IsSteemRoute(routes: map<(nat, nat), Route>, from: nat, t: nat)
  {
    t >= 1 && (from, t) in routes && !routes[(from, t)].autoVest
  }

  /** What account t receives in WLS: its routed share at the price of the moment. */
  ghost function SteemPaid(g: Globals, routes: map<(nat, nat), Route>, from: nat, taken: nat, t: nat): int
  {
    var before := PaidOut(g, routes, from, taken, t);
    if before.None? || !IsSteemRoute(routes, from, t) then 0
    else
      var steem := ToSteem((taken * routes[(from, t)].percent) / ONE_HUNDRED_PERCENT, SharePrice(before.value));
      if steem.None? then 0 else steem.value
  }

  /** accts is was with the WLS of every route below t paid. */
  ghost predicate Paid(was: seq<Account>, accts: seq<Account>, g: Globals, routes: map<(nat, nat), Route>, from: nat,
                       taken: nat, t: nat)
  {
    && |accts| == |was|
    && forall i :: 0 <= i < |was| ==>
         accts[i] == was[i].(balance := was[i].balance + (if i < t then SteemPaid(g, routes, from, taken, i) else 0))
  }

  /** Unspent part of all running power-downs. */
  ghost function Remaining(accts: seq<Account>): nat -> int
  {
    (i: nat) => if i < |accts| && accts[i].withdrawRate > 0 then accts[i].toWithdraw - accts[i].withdrawn else 0
  }

  /** Changing one route changes one account's percentages by at most that route. */
  lemma RouteChanged(n: nat, routes: map<(nat, nat), Route>, next: map<(nat, nat), Route>, from: nat, to: nat)
    requires RoutesValid(n, routes) && from < n && to < n
    requires forall k :: k != (from, to) ==> (k in next <==> k in routes) && (k in routes ==> next[k] == routes[k])
    requires (from, to) in next ==> next[(from, to)].percent <= ONE_HUNDRED_PERCENT
    ensures Sum(n, PercentOf(next, from)) <= 2 * ONE_HUNDRED_PERCENT
    ensures Sum(n, PercentOf(next, from)) <= ONE_HUNDRED_PERCENT ==> RoutesValid(n, next)
  {
    SumChange(n, PercentOf(routes, from), PercentOf(next, from), to);
    forall a | 0 <= a < n && a != from
      ensures Sum(n, PercentOf(next, a)) == Sum(n, PercentOf(routes, a))
    {
      forall t | 0 <= t < n
        ensures PercentOf(next, a)(t) == PercentOf(routes, a)(t)
      {
        assert (a, t) != (from, to);
      }
      SumSame(n, PercentOf(routes, a), PercentOf(next, a));
    }
  }

  /** Burning the vests of an account that neither votes nor proxies moves no vote. */
  lemma IdleVests(accts: seq<Account>, votes: set<(nat, nat)>, witnesses: seq<int>, c: nat, own: int)
    requires StakeHolds(accts, votes, witnesses) && c < |accts|
    requires accts[c].proxy.None? && accts[c].votedFor == 0
    ensures StakeHolds(accts[c := accts[c].(vests := accts[c].vests + own)], votes, witnesses)
  {
    var next := accts[c := accts[c].(vests := accts[c].vests + own)];
    var rank :| Ranks(accts, rank);
    VestsChanged(accts, next, votes, witnesses, c, own, rank);
    NoGap(next, None, None, Shifted(ZERO[0 := own], 0));
    SameProxiesAcyclic(accts, next);
    NoRecordsOf(votes, c);
  }

  lemma NoRecordsOf(votes: set<(nat, nat)>, c: nat)
    requires |Records(votes, c)| == 0
    ensures forall r :: r in votes ==> r.0 != c
  {
    assert Records(votes, c) == {};
    forall r | r in votes
      ensures r.0 != c
    {
      assert r.0 == c ==> r in Records(votes, c);
    }
  }

  /** Paying a steem route: WLS from the fund for vests that leave the total. */
  lemma BooksPayout(accts: seq<Account>, g: Globals, rewardFund: int, extra: int, x: nat, a: Account, steem: int,
                    vests: int)
    requires x < |accts| && BooksBut(accts, g, rewardFund, 0, extra)
    requires SameButBalance(accts[x], a) && a.balance == accts[x].balance + steem
    ensures BooksBut(accts[x := a], Withdraw(g, steem, vests), rewardFund, 0, extra + vests)
  {
    BooksChange(accts, x, a);
  }

  lemma PaidStep(was: seq<Account>, accts: seq<Account>, next: seq<Account>, g: Globals, routes: map<(nat, nat), Route>,
                 from: nat, taken: nat, t: nat, m: nat)
    requires Paid(was, accts, g, routes, from, taken, t) && t < |was| && m == t + 1
    requires next == accts[t := accts[t].(balance := accts[t].balance + SteemPaid(g, routes, from, taken, t))]
    ensures Paid(was, next, g, routes, from, taken, m)
  {
  }

  lemma PaidStart(was: seq<Account>, g: Globals, routes: map<(nat, nat), Route>, from: nat, taken: nat)
    ensures Paid(was, was, g, routes, from, taken, 1)
    ensures PaidOut(g, routes, from, taken, 1) == Some(g)
  {
    assert PaidOut(g, routes, from, taken, 1) == PaidOut(g, routes, from, taken, 0);
  }

  lemma PaidOutStep(g: Globals, routes: map<(nat, nat), Route>, from: nat, taken: nat, t: nat, m: nat, now: Globals)
    requires PaidOut(g, routes, from, taken, t) == Some(now) && m == t + 1
    ensures !IsSteemRoute(routes, from, t) ==>
      PaidOut(g, routes, from, taken, m) == Some(now) && SteemPaid(g, routes, from, taken, t) == 0
    ensures IsSteemRoute(routes, from, t) ==>
      var vests := (taken * routes[(from, t)].percent) / ONE_HUNDRED_PERCENT;
      var steem := ToSteem(vests, SharePrice(now));
      steem.Some? ==>
        && SteemPaid(g, routes, from, taken, t) == steem.value
        && PaidOut(g, routes, from, taken, m) == Some(Withdraw(now, steem.value, vests))
    ensures IsSteemRoute(routes, from, t) ==>
      var vests := (taken * routes[(from, t)].percent) / ONE_HUNDRED_PERCENT;
      ToSteem(vests, SharePrice(now)).None? ==> PaidOut(g, routes, from, taken, m) == None
  {
  }

  /** A backed fund that fits 63 bits pays every route. */
  lemma {:induction false} BackedPaysOut(g: Globals, routes: map<(nat, nat), Route>, from: nat, taken: nat, t: nat,
                                         n: nat)
    requires Backed(g) && g.fund < INT64_LIMIT && t <= n && Sum(n, Deposited(routes, from, taken, false)) <= g.shares
    ensures var out := PaidOut(g, routes, from, taken, t);
            out.Some? && Backed(out.value) && out.value.fund < INT64_LIMIT
            && out.value.shares == g.shares - Sum(t, Deposited(routes, from, taken, false))
    decreases t
  {
    if t > 0 {
      hide Deposited, Backed, ToSteem, SharePrice, Sum;
      BackedPaysOut(g, routes, from, taken, t - 1, n);
      var now := PaidOut(g, routes, from, taken, t - 1).value;
      DepositOf(routes, from, taken, false, t - 1);
      DepositsMonotone(routes, from, taken, false, t, n);
      PaidOutStep(g, routes, from, taken, t - 1, t, now);
      if IsSteemRoute(routes, from, t - 1) {
        BackedConverts(now, (taken * routes[(from, t - 1)].percent) / ONE_HUNDRED_PERCENT);
      }
    } else {
      assert Sum(0, Deposited(routes, from, taken, false)) == 0;
    }
  }

  /** With a backed fund that fits 63 bits, headroom for the routed vests is all that an instalment needs. */
  lemma PayableWhenBacked(accts: seq<Account>, votes: set<(nat, nat)>, witnesses: seq<int>, g: Globals, rewardFund: int,
                          routes: map<(nat, nat), Route>, from: nat)
    requires AccountsValid(accts) && BooksBut(accts, g, rewardFund, 0, 0) && RoutesValid(|accts|, routes)
    requires from < |accts| && accts[from].nextWithdrawal.Some? && Backed(g) && g.fund < INT64_LIMIT
    ensures Due(accts[from]) >= 0
    ensures Payable(accts, votes, witnesses, g, routes, from)
       <==> RoutedHeadroom(accts, votes, witnesses, routes, from, Due(accts[from]), g.shares)
  {
    hide BooksBut, RoutesValid, RoutedHeadroom, Deposited, Backed, ToSteem, SharePrice, Sum, PaidOut;
    AccountsGet(accts, from);
    InstalmentExact(accts[from]);
    var taken := Due(accts[from]);
    OwnVestsAtMostAll(accts, g, rewardFund, 0, 0, from);
    DepositsAtMostTaken(routes, from, taken, |accts|);
    DepositsNonNegative(routes, from, taken, true, |accts|);
    DepositsNonNegative(routes, from, taken, false, |accts|);
    BackedPaysOut(g, routes, from, taken, |accts|, |accts|);
    BackedConverts(PaidOut(g, routes, from, taken, |accts|).value, OwnPart(|accts|, routes, from, taken));
  }

  lemma DepositsNonNegative(routes: map<(nat, nat), Route>, from: nat, taken: nat, autoVest: bool, n: nat)
    ensures 0 <= Sum(n, Deposited(routes, from, taken, autoVest))
  {
    DepositsMonotone(routes, from, taken, autoVest, 0, n);
    assert Sum(0, Deposited(routes, from, taken, autoVest)) == 0;
  }

  /** Without auto-vest routes there is nothing to find headroom for. */
  lemma NothingRouted(accts: seq<Account>, votes: set<(nat, nat)>, witnesses: seq<int>, g: Globals, rewardFund: int,
                      routes: map<(nat, nat), Route>, from: nat, taken: nat)
    requires StakeHolds(accts, votes, witnesses) && AccountsValid(accts) && BooksBut(accts, g, rewardFund, 0, 0)
    requires forall t :: (from, t) in routes ==> !routes[(from, t)].autoVest
    ensures RoutedHeadroom(accts, votes, witnesses, routes, from, taken, g.shares)
  {
    hide StakeHolds, AccountsValid, BooksBut, ChainEnd;
    WithinAtFirst(accts, g, rewardFund, votes, witnesses);
    forall w | 0 <= w < |witnesses|
      ensures Sum(|accts|, Reaching(accts, votes, routes, from, taken, w)) == 0
    {
      forall t: nat | t < |accts|
        ensures Reaching(accts, votes, routes, from, taken, w)(t) == 0
      {
        DepositOf(routes, from, taken, true, t);
      }
      SumZero(|accts|, Reaching(accts, votes, routes, from, taken, w));
    }
  }

  /** No account whose instalment is due routes it as vests, and the fund is worth its shares and fits an amount. */
  ghost predicate Plain(accts: seq<Account>, now: int, routes: map<(nat, nat), Route>, g: Globals)
  {
    && (forall k :: k in routes && k.0 < |accts| && IsDue(accts[k.0], now) ==> !routes[k].autoVest)
    && Backed(g) && g.fund < INT64_LIMIT
  }

  /** Then no instalment can fail, also after others were paid. */
  lemma PlainPays(atFirst: seq<Account>, accts: seq<Account>, votes: set<(nat, nat)>, witnesses: seq<int>, g: Globals,
                  h: Globals, rewardFund: int, routes: map<(nat, nat), Route>, from: nat, now: int)
    requires StakeHolds(accts, votes, witnesses) && AccountsValid(accts) && BooksBut(accts, h, rewardFund, 0, 0)
    requires RoutesValid(|accts|, routes) && from < |accts| && IsDue(accts[from], now)
    requires AllProgress(atFirst, accts, Some(from), now)
    requires Plain(atFirst, now, routes, g) && KeepsWorth(g, h) && h.fund <= g.fund
    ensures Payable(accts, votes, witnesses, h, routes, from)
  {
    KeptBacked(g, h);
    DueAtFirst(atFirst, accts, from, now);
    hide StakeHolds, AccountsValid, BooksBut, RoutesValid, KeepsWorth, Backed, Payable, RoutedHeadroom, Due,
      AllProgress;
    PayableWhenBacked(accts, votes, witnesses, h, rewardFund, routes, from);
    NothingRouted(accts, votes, witnesses, h, rewardFund, routes, from, Due(accts[from]));
  }

  /** Whoever the loop reaches was due from the start. */
  lemma DueAtFirst(atFirst: seq<Account>, accts: seq<Account>, from: nat, now: int)
    requires AllProgress(atFirst, accts, Some(from), now) && from < |accts| && IsDue(accts[from], now)
    ensures |atFirst| == |accts| && IsDue(atFirst[from], now)
  {
    assert Progress(atFirst, accts, Some(from), now, from);
  }

  lemma MoneyMovedAt(accts: seq<Account>, x: nat, a: Account, votes: set<(nat, nat)>, witnesses: seq<int>)
    requires x < |accts| && StakeHolds(accts, votes, witnesses)
    requires a.vests == accts[x].vests && a.proxied == accts[x].proxied
    requires a.proxy == accts[x].proxy && a.votedFor == accts[x].votedFor
    ensures StakeHolds(accts[x := a], votes, witnesses)
  {
    MoneyMoved(accts, accts[x := a], votes, witnesses);
  }

  lemma OwnVestsAtMostAll(accts: seq<Account>, g: Globals, rewardFund: int, owed: int, extra: int, x: nat)
    requires AccountsValid(accts) && BooksBut(accts, g, rewardFund, owed, extra) && x < |accts|
    ensures accts[x].vests <= g.shares + extra
  {
    TermAtMostSum(|accts|, VestsOf(accts), x);
  }

  lemma {:induction false} DepositsMonotone(routes: map<(nat, nat), Route>, from: nat, taken: nat, autoVest: bool,
                                            t: nat, n: nat)
    requires t <= n
    ensures 0 <= Sum(t, Deposited(routes, from, taken, autoVest)) <= Sum(n, Deposited(routes, from, taken, autoVest))
  {
    forall i | 0 <= i < n
      ensures 0 <= Deposited(routes, from, taken, autoVest)(i)
    {
      DepositOf(routes, from, taken, autoVest, i);
    }
    SumNonNegative(t, Deposited(routes, from, taken, autoVest));
    PrefixAtMost(t, n, Deposited(routes, from, taken, autoVest));
  }

  /**
    What one instalment does to the accounts: every destination gets its
    routed share as vests or as WLS, and the power-down moves on by "taken".
   */
  ghost predicate InstalmentPaid(was: seq<Account>, accts: seq<Account>, g: Globals, routes: map<(nat, nat), Route>,
                                 from: nat, taken: nat)
    requires from < |was|
  {
    var gain := Deposited(routes, from, taken, true);
    && |accts| == |was|
    && (forall i :: 0 <= i < |was| && i != from ==> accts[i] == was[i].(
          vests := was[i].vests + gain(i), proxied := accts[i].proxied,
          balance := was[i].balance + SteemPaid(g, routes, from, taken, i)))
    && accts[from] == was[from].(
          vests := was[from].vests + gain(from) - taken, proxied := accts[from].proxied,
          balance := was[from].balance + SteemPaid(g, routes, from, taken, from)
            + OwnSteem(g, routes, from, taken, |was|),
          withdrawn := accts[from].withdrawn, withdrawRate := accts[from].withdrawRate,
            nextWithdrawal := accts[from].nextWithdrawal)
    && accts[from].toWithdraw == was[from].toWithdraw
    && accts[from].withdrawn == was[from].withdrawn + taken
    && was[from].nextWithdrawal.Some?
    && (if accts[from].withdrawn >= was[from].toWithdraw || accts[from].vests == 0
        then accts[from].withdrawRate == 0 && accts[from].nextWithdrawal == None
        else accts[from].withdrawRate == was[from].withdrawRate
             && accts[from].nextWithdrawal == Some(was[from].nextWithdrawal.value + WITHDRAW_INTERVAL_SECONDS))
  }

  /** A power-down: its rate, what it is to pay in all, what it has paid, and when it pays next. */
  datatype PowerDown = PowerDown(rate: int, total: int, paid: int, next: Option<int>)

  ghost function PowerOf(a: Account): PowerDown
  {
    PowerDown(a.withdrawRate, a.toWithdraw, a.withdrawn, a.nextWithdrawal)
  }

  /** One instalment further: a full rate, or the rest, and then it stops. */
  ghost function Stepped(p: PowerDown): PowerDown
  {
    if p.next.None? then p
    else
      var paid := p.paid + Min(p.rate, p.total - p.paid);
      if paid >= p.total then PowerDown(0, p.total, paid, None)
      else PowerDown(p.rate, p.total, paid, Some(p.next.value + WITHDRAW_INTERVAL_SECONDS))
  }

  ghost function SteppedBy(p: PowerDown, k: nat): PowerDown
  {
    if k == 0 then p else Stepped(SteppedBy(p, k - 1))
  }

  /** q is p some instalments, at least one, further. */
  ghost predicate Advanced(p: PowerDown, q: PowerDown)
  {
    exists k: nat :: k > 0 && q == SteppedBy(p, k)
  }

  lemma AdvancedOnce(p: PowerDown)
    ensures Advanced(p, Stepped(p))
  {
    assert SteppedBy(p, 1) == Stepped(SteppedBy(p, 0));
  }

  lemma AdvancedMore(p: PowerDown, q: PowerDown)
    requires Advanced(p, q)
    ensures Advanced(p, Stepped(q))
  {
    var k: nat :| k > 0 && q == SteppedBy(p, k);
    assert SteppedBy(p, k + 1) == Stepped(q);
  }

  /** Paying an instalment moves the payer's power-down one step on, and nobody else's. */
  lemma InstalmentSteps(was: seq<Account>, accts: seq<Account>, g: Globals, routes: map<(nat, nat), Route>, from: nat,
                        taken: nat)
    requires from < |was| && InstalmentPaid(was, accts, g, routes, from, taken)
    requires WithdrawalValid(was[from]) && taken == Due(was[from])
    ensures |accts| == |was| && PowerOf(accts[from]) == Stepped(PowerOf(was[from]))
    ensures forall i :: 0 <= i < |was| && i != from ==> PowerOf(accts[i]) == PowerOf(was[i])
  {
    hide SteemPaid;
    DepositOf(routes, from, taken, true, from);
  }

  /**
    What powering down means for the iterated instalments: the power-down fields do not depend on
    the vests gained meanwhile.
   */
  lemma {:induction false} PoweredDownSteps(a: Account, gain: nat -> nat, k: nat)
    requires WithdrawalValid(a)
    ensures WithdrawalValid(PoweredDown(a, gain, k)) && PowerOf(PoweredDown(a, gain, k)) == SteppedBy(PowerOf(a), k)
    decreases k
  {
    hide Instalment, AfterInstalment, WithdrawalValid, Stepped;
    if k > 0 {
      PoweredDownSteps(a, gain, k - 1);
      var b := PoweredDown(a, gain, k - 1);
      RunningOrNot(b);
      if b.withdrawRate > 0 {
        PoweredOnce(b, gain(k - 1));
      }
    }
  }

  lemma RunningOrNot(b: Account)
    requires WithdrawalValid(b)
    ensures b.withdrawRate > 0 <==> b.nextWithdrawal.Some?
    ensures b.withdrawRate <= 0 ==> Stepped(PowerOf(b)) == PowerOf(b)
  {
  }

  lemma PoweredOnce(b: Account, gain: nat)
    requires WithdrawalValid(b) && b.withdrawRate > 0 && b.nextWithdrawal.Some?
    ensures var left := b.vests - Instalment(b) + gain;
      var c := AfterInstalment(b, Instalment(b), left).(vests := left);
            WithdrawalValid(c) && PowerOf(c) == Stepped(PowerOf(b))
  {
    InstalmentExact(b);
    AfterInstalmentValid(b);
  }

  /** So k steps of a fresh power-down have paid k rates, or all of it, and it runs exactly until all is paid. */
  lemma SteppedPays(a: Account, k: nat)
    requires WithdrawalValid(a) && a.withdrawRate > 0 && a.withdrawn == 0
    ensures var p := SteppedBy(PowerOf(a), k);
            && p.total == a.toWithdraw && p.paid == Min(k * a.withdrawRate, a.toWithdraw)
            && (p.next.Some? <==> k * a.withdrawRate < a.toWithdraw)
  {
    hide SteppedBy, PoweredDown;
    var none := (i: nat) => 0 as nat;
    PoweredDownSteps(a, none, k);
    PowerDownPaysAll(a, none, k);
  }

  /** The account's instalment is due. */
  ghost predicate IsDue(a: Account, now: int)
  {
    a.nextWithdrawal.Some? && a.nextWithdrawal.value <= now
  }

  /** In the index the account is not before cur. */
  ghost predicate NotBefore(accts: seq<Account>, i: nat, cur: Option<nat>)
    requires i < |accts|
  {
    && accts[i].nextWithdrawal.Some? && cur.Some? && cur.value < |accts| && accts[cur.value].nextWithdrawal.Some?
    && !Before(accts[i].nextWithdrawal.value, i, accts[cur.value].nextWithdrawal.value, cur.value)
  }

  /** How far the loop has come with account i: not due, not reached yet, or paid at least once. */
  ghost predicate Progress(was: seq<Account>, accts: seq<Account>, cur: Option<nat>, now: int, i: nat)
    requires i < |was| == |accts|
  {
    if !IsDue(was[i], now) then PowerOf(accts[i]) == PowerOf(was[i])
    else
      || (PowerOf(accts[i]) == PowerOf(was[i]) && NotBefore(accts, i, cur))
      || (Advanced(PowerOf(was[i]), PowerOf(accts[i]))
          && (was[i].nextWithdrawal.value + WITHDRAW_INTERVAL_SECONDS > now ==>
            PowerOf(accts[i]) == Stepped(PowerOf(was[i]))))
  }

  /** After one more instalment, with the loop at the next account after the payer. */
  lemma ProgressStep(was: seq<Account>, before: seq<Account>, accts: seq<Account>, from: nat, next: Option<nat>,
                     now: int, i: nat)
    requires i < |was| == |before| == |accts| && from < |was|
    requires IsDue(before[from], now) && Progress(was, before, Some(from), now, i)
    requires PowerOf(accts[from]) == Stepped(PowerOf(before[from]))
    requires forall j :: 0 <= j < |was| && j != from ==> PowerOf(accts[j]) == PowerOf(before[j])
    requires next.Some? ==>
      next.value < |before| && Later(before, Some((before[from].nextWithdrawal.value, from)), next.value)
    requires forall j :: 0 <= j < |before| && Later(before, Some((before[from].nextWithdrawal.value, from)), j) ==>
      next.Some? && !Before(before[j].nextWithdrawal.value, j, before[next.value].nextWithdrawal.value, next.value)
    ensures Progress(was, accts, next, now, i)
  {
    hide Stepped;
    if i == from {
      if PowerOf(before[i]) == PowerOf(was[i]) {
        AdvancedOnce(PowerOf(was[i]));
      } else {
        AdvancedMore(PowerOf(was[i]), PowerOf(before[i]));
        StepLater(PowerOf(was[i]));
      }
    } else if IsDue(was[i], now) && PowerOf(before[i]) == PowerOf(was[i]) && NotBefore(before, i, Some(from)) {
      assert Later(before, Some((before[from].nextWithdrawal.value, from)), i);
    }
  }

  lemma StepLater(p: PowerDown)
    ensures p.next.Some? && Stepped(p).next.Some? ==> Stepped(p).next.value == p.next.value + WITHDRAW_INTERVAL_SECONDS
  {
  }

  lemma LoopStart(accts: seq<Account>, cur: Option<nat>, now: int)
    requires cur.Some? ==> cur.value < |accts| && Later(accts, None, cur.value)
    requires forall i :: 0 <= i < |accts| && Later(accts, None, i) ==>
      cur.Some? && !Before(accts[i].nextWithdrawal.value, i, accts[cur.value].nextWithdrawal.value, cur.value)
    ensures AllProgress(accts, accts, cur, now)
  {
    forall i | 0 <= i < |accts|
      ensures Progress(accts, accts, cur, now, i)
    {
      assert IsDue(accts[i], now) ==> Later(accts, None, i);
    }
  }

  lemma NextStays(was: seq<Account>, accts: seq<Account>, from: nat, next: Option<nat>)
    requires from < |was| == |accts| && was[from].nextWithdrawal.Some?
    requires forall j :: 0 <= j < |was| && j != from ==> PowerOf(accts[j]) == PowerOf(was[j])
    requires next.Some? ==> next.value < |was| && Later(was, Some((was[from].nextWithdrawal.value, from)), next.value)
    ensures next.Some? ==> accts[next.value].nextWithdrawal.Some? && next.value != from
  {
    if next.Some? {
      assert next.value != from;
      assert PowerOf(accts[next.value]) == PowerOf(was[next.value]);
    }
  }

  lemma KeptBacked(g: Globals, h: Globals)
    requires KeepsWorth(g, h) && Backed(g)
    ensures Backed(h)
  {
  }

  lemma ProgressEnd(was: seq<Account>, accts: seq<Account>, cur: Option<nat>, now: int, i: nat)
    requires i < |was| == |accts| && Progress(was, accts, cur, now, i)
    requires cur.Some? ==>
      cur.value < |accts| && accts[cur.value].nextWithdrawal.Some? && accts[cur.value].nextWithdrawal.value > now
    ensures PaidAsDue(was[i], accts[i], now)
  {
  }

  /** Due power-downs were paid, once unless the next instalment fell due as well; the others did not move. */
  ghost predicate PaidAsDue(was: Account, a: Account, now: int)
  {
    if IsDue(was, now)
    then Advanced(PowerOf(was), PowerOf(a))
         && (was.nextWithdrawal.value + WITHDRAW_INTERVAL_SECONDS > now ==> PowerOf(a) == Stepped(PowerOf(was)))
    else PowerOf(a) == PowerOf(was)
  }

  ghost predicate AllProgress(was: seq<Account>, accts: seq<Account>, cur: Option<nat>, now: int)
  {
    |was| == |accts| && forall i :: 0 <= i < |was| ==> Progress(was, accts, cur, now, i)
  }

  /** One round of the loop. */
  lemma LoopStep(atFirst: seq<Account>, was: seq<Account>, accts: seq<Account>, g: Globals,
                 routes: map<(nat, nat), Route>, from: nat, next: Option<nat>, now: int)
    requires |atFirst| == |was| && from < |was| && was[from].nextWithdrawal.Some?
    requires was[from].nextWithdrawal.value <= now
    requires WithdrawalValid(was[from]) && was[from].withdrawRate > 0
    requires InstalmentPaid(was, accts, g, routes, from, Due(was[from]))
    requires AllProgress(atFirst, was, Some(from), now)
    requires next.Some? ==> next.value < |was| && Later(was, Some((was[from].nextWithdrawal.value, from)), next.value)
    requires forall j :: 0 <= j < |was| && Later(was, Some((was[from].nextWithdrawal.value, from)), j) ==>
      next.Some? && !Before(was[j].nextWithdrawal.value, j, was[next.value].nextWithdrawal.value, next.value)
    ensures |accts| == |was| && AllProgress(atFirst, accts, next, now)
    ensures next.Some? ==> next.value < |accts| && accts[next.value].nextWithdrawal.Some?
    ensures Sum(|accts|, Remaining(accts)) < Sum(|was|, Remaining(was))
  {
    hide InstalmentPaid, Progress, Sum, Remaining, Stepped;
    InstalmentSteps(was, accts, g, routes, from, Due(was[from]));
    RemainingFalls(was, accts, g, routes, from, Due(was[from]));
    forall i | 0 <= i < |atFirst|
      ensures Progress(atFirst, accts, next, now, i)
    {
      ProgressStep(atFirst, was, accts, from, next, now, i);
    }
    NextStays(was, accts, from, next);
  }

  lemma LoopEnd(was: seq<Account>, accts: seq<Account>, cur: Option<nat>, now: int)
    requires AllProgress(was, accts, cur, now)
    requires cur.Some? ==>
      cur.value < |accts| && accts[cur.value].nextWithdrawal.Some? && accts[cur.value].nextWithdrawal.value > now
    ensures forall i :: 0 <= i < |accts| ==> PaidAsDue(was[i], accts[i], now)
  {
    hide Progress, PaidAsDue;
    forall i | 0 <= i < |accts|
      ensures PaidAsDue(was[i], accts[i], now)
    {
      ProgressEnd(was, accts, cur, now, i);
    }
  }

  lemma InstalmentComposed(was: seq<Account>, credited: seq<Account>, paid: seq<Account>, accts: seq<Account>,
                           g: Globals, routes: map<(nat, nat), Route>, from: nat, taken: nat, a: Account)
    requires from < |was| && was[from].nextWithdrawal.Some?
    requires Credited(was, credited, Deposited(routes, from, taken, true), |was|)
    requires Paid(credited, paid, g, routes, from, taken, |was|)
    requires a.vests == paid[from].vests - taken
    requires a == AfterInstalment(paid[from], taken, a.vests).(vests := a.vests, balance := a.balance)
    requires a.balance == paid[from].balance + OwnSteem(g, routes, from, taken, |was|)
    requires OnlySlots(paid[from := a], accts)
    ensures InstalmentPaid(was, accts, g, routes, from, taken)
  {
  }

  /** Deposits do not disturb the payer's power-down, and only add to its vests. */
  lemma PaidSame(was: seq<Account>, credited: seq<Account>, accts: seq<Account>, g: Globals,
                 routes: map<(nat, nat), Route>, from: nat, taken: nat)
    requires from < |was| && Credited(was, credited, Deposited(routes, from, taken, true), |was|)
    requires Paid(credited, accts, g, routes, from, taken, |was|)
    requires WithdrawalValid(was[from]) && was[from].withdrawRate > 0
    ensures |accts| == |was|
    ensures accts[from].nextWithdrawal == was[from].nextWithdrawal && accts[from].withdrawRate > 0
    ensures Instalment(accts[from]) == Instalment(was[from])
  {
    DepositOf(routes, from, taken, true, from);
    InstalmentExact(was[from]);
    InstalmentExact(accts[from]);
  }

  lemma {:induction false} SupplyKept(g: Globals, routes: map<(nat, nat), Route>, from: nat, taken: nat, t: nat,
                                      h: Globals)
    requires PaidOut(g, routes, from, taken, t) == Some(h)
    ensures h.supply == g.supply
    decreases t
  {
    if t > 0 {
      SupplyKept(g, routes, from, taken, t - 1, PaidOut(g, routes, from, taken, t - 1).value);
    }
  }

  /** Each instalment leaves less to withdraw. */
  lemma RemainingFalls(was: seq<Account>, accts: seq<Account>, g: Globals, routes: map<(nat, nat), Route>, from: nat,
                       taken: nat)
    requires from < |was| && InstalmentPaid(was, accts, g, routes, from, taken) && taken > 0
    requires WithdrawalValid(was[from]) && was[from].withdrawRate > 0
    requires taken <= was[from].toWithdraw - was[from].withdrawn
    ensures Sum(|accts|, Remaining(accts)) < Sum(|was|, Remaining(was))
  {
    SumChange(|was|, Remaining(was), Remaining(accts), from);
  }

  lemma RemainingNonNegative(accts: seq<Account>)
    requires AccountsValid(accts)
    ensures 0 <= Sum(|accts|, Remaining(accts))
  {
    forall i | 0 <= i < |accts|
      ensures 0 <= Remaining(accts)(i)
    {
      AccountsGet(accts, i);
    }
    SumNonNegative(|accts|, Remaining(accts));
  }

  /** Order of the index by next withdrawal: time, then id. */
  ghost predicate Before(t: int, i: int, u: int, j: int)
  {
    t < u || (t == u && i < j)
  }

  /** Account i is powering down and comes after "last" in that index. */
  ghost predicate Later(accts: seq<Account>, last: Option<(int, int)>, i: nat)
    requires i < |accts|
  {
    && accts[i].nextWithdrawal.Some?
    && (last.Some? ==> Before(last.value.0, last.value.1, accts[i].nextWithdrawal.value, i))
  }

  /** The first of n accounts that comes after "last" in the index by next withdrawal. */
  ghost function NextAmong(accts: seq<Account>, last: Option<(int, int)>, n: nat): (r: Option<nat>)
    requires n <= |accts|
    ensures r.Some? ==> r.value < n && Later(accts, last, r.value)
    ensures forall i :: 0 <= i < n && Later(accts, last, i) ==>
      r.Some? && !Before(accts[i].nextWithdrawal.value, i, accts[r.value].nextWithdrawal.value, r.value)
  {
    if n == 0 then None
    else
      var r := NextAmong(accts, last, n - 1);
      if Later(accts, last, n - 1)
         && (r.None? || Before(accts[n - 1].nextWithdrawal.value, n - 1, accts[r.value].nextWithdrawal.value, r.value))
      then Some(n - 1) else r
  }

  /** The next account after "last" in that index. */
  method NextByWithdrawal(accts: seq<Account>, last: Option<(int, int)>) returns (r: Option<nat>)
    ensures r == NextAmong(accts, last, |accts|)
  {
    r := None;
    var i: nat := 0;
    while i < |accts|
      invariant 0 <= i <= |accts| && r == NextAmong(accts, last, i)
    {
      var due := accts[i].nextWithdrawal;
      if due.Some? && (last.None? || last.value.0 < due.value || (last.value.0 == due.value && last.value.1 < i))
         && (r.None? || due.value < accts[r.value].nextWithdrawal.value) {
        r := Some(i);
      }
      i := i + 1;
    }
  }

  /** What clearing the null account takes out of circulation. */
  ghost function BurnedOf(a: Account, converted: int): int
  {
    a.balance + converted + a.rewardSteem + (if a.rewardVests > 0 then a.rewardVestSteem else 0)
  }

  ghost function BurnedAccount(a: Account): Account
  {
    a.(balance := 0, vests := 0, rewardSteem := 0, rewardVests := 0,
       rewardVestSteem := if a.rewardVests > 0 then 0 else a.rewardVestSteem)
  }

  ghost function BurnedGlobals(g: Globals, a: Account, converted: int): Globals
  {
    Withdraw(g, converted, a.vests).(
      supply := g.supply - BurnedOf(a, converted),
      pendingShares := g.pendingShares - a.rewardVests,
      pendingSteem := g.pendingSteem - (if a.rewardVests > 0 then a.rewardVestSteem else 0))
  }

  lemma BooksBurned(accts: seq<Account>, g: Globals, rewardFund: int, converted: int)
    requires AccountsValid(accts) && BooksBut(accts, g, rewardFund, 0, 0)
    ensures BooksBut(accts[NULL_ACCOUNT := BurnedAccount(accts[NULL_ACCOUNT])],
                     BurnedGlobals(g, accts[NULL_ACCOUNT], converted), rewardFund, 0, 0)
    ensures AccountsValid(accts[NULL_ACCOUNT := BurnedAccount(accts[NULL_ACCOUNT])])
  {
    BooksChange(accts, NULL_ACCOUNT, BurnedAccount(accts[NULL_ACCOUNT]));
  }

  lemma StakeBurned(accts: seq<Account>, votes: set<(nat, nat)>, witnesses: seq<int>)
    requires AccountsValid(accts) && StakeHolds(accts, votes, witnesses)
    ensures StakeHolds(accts[NULL_ACCOUNT := BurnedAccount(accts[NULL_ACCOUNT])], votes, witnesses)
  {
    var a := accts[NULL_ACCOUNT];
    IdleVests(accts, votes, witnesses, NULL_ACCOUNT, -a.vests);
    var bare := accts[NULL_ACCOUNT := a.(vests := a.vests + -a.vests)];
    MoneyMovedAt(bare, NULL_ACCOUNT, BurnedAccount(a), votes, witnesses);
    assert bare[NULL_ACCOUNT := BurnedAccount(a)] == accts[NULL_ACCOUNT := BurnedAccount(a)];
  }

  /** Fund and supply entries outside the accounts. */
  lemma BooksIssued(accts: seq<Account>, g: Globals, rewardFund: int, issued: int, content: int)
    requires BooksBut(accts, g, rewardFund, 0, 0)
    ensures BooksBut(accts, g.(supply := g.supply + issued), rewardFund + content, issued - content, 0)
  {
  }

  lemma BooksFromFund(accts: seq<Account>, g: Globals, rewardFund: int, paid: int)
    requires BooksBut(accts, g, rewardFund, 0 - paid, 0)
    ensures BooksBut(accts, g, rewardFund - paid, 0, 0)
  {
  }

  // ------------------------------------------------------- genesis

  const GENESIS_WITNESSES: nat := 21

  /** miners, null, temp, wls, devfund, and the initial witnesses. */
  ghost function GenesisAccounts(supply: int): (accts: seq<Account>)
    ensures |accts| == 5 + GENESIS_WITNESSES
  {
    seq(5 + GENESIS_WITNESSES, (i: nat) =>
      if i == 3 then NEW_ACCOUNT.(balance := supply - 1000)
      else if i == 5 then NEW_ACCOUNT.(balance := 1000)
      else NEW_ACCOUNT)
  }

  lemma GenesisStake(supply: int)
    ensures StakeHolds(GenesisAccounts(supply), {}, seq(GENESIS_WITNESSES, _ => 0))
  {
    var accts := GenesisAccounts(supply);
    assert Ranks(accts, seq(|accts|, _ => 0));
    forall y, d | 0 <= y < |accts| && 0 <= d < DEPTH
      ensures SlotBut(accts, None, None, ZERO, y, d)
    {
      SumZero(|accts|, Inflow(accts, None, y, d));
    }
    forall w | 0 <= w < GENESIS_WITNESSES
      ensures Sum(|accts|, Tally(accts, {}, None, w)) == 0
    {
      SumZero(|accts|, Tally(accts, {}, None, w));
    }
    forall i | 0 <= i < |accts|
      ensures accts[i].votedFor == |Records({}, i)|
    {
      assert Records({}, i) == {};
    }
  }

  lemma GenesisBooks(supply: int)
    ensures BooksBut(GenesisAccounts(supply), Globals(supply, 0, 0, 0, 0), 0, 0, 0)
  {
    var accts := GenesisAccounts(supply);
    var none := seq(|accts|, _ => NEW_ACCOUNT);
    SumZero(|none|, LiquidOf(none));
    SumZero(|none|, VestsOf(none));
    SumZero(|none|, RewardVestsOf(none));
    SumZero(|none|, RewardSteemOf(none));
    BooksChange(none, 3, accts[3]);
    BooksChange(none[3 := accts[3]], 5, accts[5]);
    assert accts == none[3 := accts[3]][5 := accts[5]];
  }

  lemma GenesisRoutes(n: nat)
    ensures RoutesValid(n, map[])
  {
    forall a | 0 <= a < n
      ensures Sum(n, PercentOf(map[], a)) == 0
    {
      SumZero(n, PercentOf(map[], a));
    }
  }

  // ------------------------------------------------------- reward payments

  /** The globals after the first k reward payments, each at the price of its moment. */
  ghost function RewardGlobals(g: Globals, payments: seq<(nat, nat)>, k: nat): Option<Globals>
    requires k <= |payments|
  {
    if k == 0 then Some(g)
    else
      var before := RewardGlobals(g, payments, k - 1);
      if before.None? then None
      else
        var vests := ToVests(payments[k - 1].1, RewardSharePrice(before.value));
        if vests.None? then None
        else Some(before.value.(pendingShares := before.value.pendingShares + vests.value,
                                pendingSteem := before.value.pendingSteem + payments[k - 1].1))
  }

  lemma RewardGlobalsStart(g: Globals, payments: seq<(nat, nat)>)
    ensures RewardGlobals(g, payments, 0) == Some(g)
  {
  }

  lemma RewardGlobalsStep(g: Globals, payments: seq<(nat, nat)>, k: nat, now: Globals)
    requires k < |payments| && RewardGlobals(g, payments, k) == Some(now)
    ensures var vests := ToVests(payments[k].1, RewardSharePrice(now));
            RewardGlobals(g, payments, k + 1) ==
            if vests.None? then None
            else Some(now.(pendingShares := now.pendingShares + vests.value,
              pendingSteem := now.pendingSteem + payments[k].1))
  {
  }

  lemma {:induction false} RewardGlobalsNone(g: Globals, payments: seq<(nat, nat)>, k: nat, n: nat)
    requires k <= n <= |payments| && RewardGlobals(g, payments, k).None?
    ensures RewardGlobals(g, payments, n).None?
    decreases n
  {
    if k < n {
      RewardGlobalsNone(g, payments, k, n - 1);
    }
  }

  /** The pending shares that payment j makes. */
  ghost function RewardVests(g: Globals, payments: seq<(nat, nat)>, j: nat): int
    requires j < |payments|
  {
    var before, after := RewardGlobals(g, payments, j), RewardGlobals(g, payments, j + 1);
    if before.Some? && after.Some? then after.value.pendingShares - before.value.pendingShares else 0
  }

  ghost function VestsTo(g: Globals, payments: seq<(nat, nat)>, x: nat): nat -> int
  {
    (j: nat) => if j < |payments| && payments[j].0 == x then RewardVests(g, payments, j) else 0
  }

  /** accts is was after the first k payments were credited to reward balances. */
  ghost predicate Rewarded(was: seq<Account>, accts: seq<Account>, g: Globals, payments: seq<(nat, nat)>, k: nat)
  {
    && |accts| == |was|
    && forall x :: 0 <= x < |was| ==> accts[x] == was[x].(
         rewardVests := was[x].rewardVests + Sum(k, VestsTo(g, payments, x)),
         rewardVestSteem := was[x].rewardVestSteem + Sum(k, AmountTo(payments, x)))
  }

  /** Those accounts. */
  ghost function WithRewards(was: seq<Account>, g: Globals, payments: seq<(nat, nat)>, k: nat): (r: seq<Account>)
    ensures |r| == |was|
  {
    seq(|was|, (x: nat) requires x < |was| => was[x].(
      rewardVests := was[x].rewardVests + Sum(k, VestsTo(g, payments, x)),
      rewardVestSteem := was[x].rewardVestSteem + Sum(k, AmountTo(payments, x))))
  }

  lemma RewardedIs(was: seq<Account>, accts: seq<Account>, g: Globals, payments: seq<(nat, nat)>, k: nat)
    requires Rewarded(was, accts, g, payments, k)
    ensures accts == WithRewards(was, g, payments, k)
  {
  }

  lemma RewardedStep(was: seq<Account>, accts: seq<Account>, next: seq<Account>, g: Globals, payments: seq<(nat, nat)>,
                     k: nat, m: nat, vests: int, before: Globals, after: Globals)
    requires Rewarded(was, accts, g, payments, k) && k < |payments| && m == k + 1 && payments[k].0 < |was|
    requires RewardGlobals(g, payments, k) == Some(before) && RewardGlobals(g, payments, m) == Some(after)
    requires after.pendingShares == before.pendingShares + vests
    requires var to := payments[k].0;
      next == accts[to := accts[to].(rewardVests := accts[to].rewardVests + vests,
                                     rewardVestSteem := accts[to].rewardVestSteem + payments[k].1)]
    ensures Rewarded(was, next, g, payments, m)
  {
    forall x: nat | x < |was|
      ensures next[x] == was[x].(
        rewardVests := was[x].rewardVests + Sum(m, VestsTo(g, payments, x)),
        rewardVestSteem := was[x].rewardVestSteem + Sum(m, AmountTo(payments, x)))
    {
      hide RewardGlobals, Sum, AmountTo, VestsTo;
      RewardsTo(g, payments, k, x, vests, before, after);
      assert accts[x] == was[x].(
        rewardVests := was[x].rewardVests + Sum(k, VestsTo(g, payments, x)),
        rewardVestSteem := was[x].rewardVestSteem + Sum(k, AmountTo(payments, x)));
    }
  }

  lemma RewardsTo(g: Globals, payments: seq<(nat, nat)>, k: nat, x: nat, vests: int, before: Globals, after: Globals)
    requires k < |payments| && after.pendingShares == before.pendingShares + vests
    requires RewardGlobals(g, payments, k) == Some(before) && RewardGlobals(g, payments, k + 1) == Some(after)
    ensures Sum(k + 1, VestsTo(g, payments, x))
      == Sum(k, VestsTo(g, payments, x)) + (if payments[k].0 == x then vests else 0)
    ensures Sum(k + 1, AmountTo(payments, x))
      == Sum(k, AmountTo(payments, x)) + (if payments[k].0 == x then payments[k].1 else 0)
  {
    hide RewardGlobals;
  }

  // ------------------------------------------------------- a whole power-down

  /**
    A power-down at the rate that its start sets takes a quarter of a year or more:
    at least thirteen instalments, or as many as there are vests. It is over after
    twenty-five, and after fourteen once the remainder is less than a rate.
   */
  lemma QuarterOfAYear(a: Account, k: nat)
    requires WithdrawalValid(a) && a.withdrawn == 0 && a.toWithdraw > 0 && a.withdrawRate == RateFor(a.toWithdraw)
    ensures var p := SteppedBy(PowerOf(a), k);
      && (k < WITHDRAW_INTERVALS && k < a.toWithdraw ==> p.next.Some? && p.paid < a.toWithdraw)
      && (k >= 25 ==> p.next.None? && p.paid == a.toWithdraw)
      && (k >= 14 && a.toWithdraw >= 156 ==> p.next.None? && p.paid == a.toWithdraw)
  {
    hide SteppedBy, WithdrawalValid;
    SteppedPays(a, k);
    var rate, whole := a.withdrawRate, a.toWithdraw;
    if k < WITHDRAW_INTERVALS {
      MulMono(k, WITHDRAW_INTERVALS - 1, rate);
    }
    if k >= 25 {
      MulMono(25, k, rate);
    }
    if k >= 14 {
      MulMono(14, k, rate);
    }
  }

  /** The account after k instalments, while gain(i) vests arrive from elsewhere during the i-th. */
  ghost function PoweredDown(a: Account, gain: nat -> nat, k: nat): Account
  {
    if k == 0 then a
    else
      var b := PoweredDown(a, gain, k - 1);
      if b.withdrawRate <= 0 || b.nextWithdrawal.None? then b
      else
        var left := b.vests - Instalment(b) + gain(k - 1);
        AfterInstalment(b, Instalment(b), left).(vests := left)
  }

  /** One instalment of a power-down that has paid "paid" of it so far. */
  lemma PowerDownStep(b: Account, gain: nat, rate: nat, paid: nat)
    requires WithdrawalValid(b) && b.withdrawRate == rate > 0 && b.withdrawn == paid < b.toWithdraw
    ensures var left := b.vests - Instalment(b) + gain;
      var c := AfterInstalment(b, Instalment(b), left).(vests := left);
      && c.toWithdraw == b.toWithdraw && WithdrawalValid(c)
      && c.withdrawn == Min(paid + rate, b.toWithdraw)
      && c.withdrawRate == (if paid + rate < b.toWithdraw then rate else 0)
  {
    InstalmentExact(b);
    AfterInstalmentValid(b);
  }

  /**
    A power-down pays exactly what was asked for: after k instalments that is
    k rates or the whole request, and it runs exactly until the whole request is paid.
   */
  lemma {:induction false} PowerDownPaysAll(a: Account, gain: nat -> nat, k: nat)
    requires WithdrawalValid(a) && a.withdrawRate > 0 && a.withdrawn == 0
    ensures var b := PoweredDown(a, gain, k);
      && b.toWithdraw == a.toWithdraw && WithdrawalValid(b)
      && b.withdrawn == Min(k * a.withdrawRate, a.toWithdraw)
      && b.withdrawRate == (if k * a.withdrawRate < a.toWithdraw then a.withdrawRate else 0)
    decreases k
  {
    hide Instalment, AfterInstalment;
    if k > 0 {
      PowerDownPaysAll(a, gain, k - 1);
      var b := PoweredDown(a, gain, k - 1);
      var paid := (k - 1) * a.withdrawRate;
      assert k * a.withdrawRate == paid + a.withdrawRate;
      if paid < a.toWithdraw {
        PowerDownStep(b, gain(k - 1), a.withdrawRate, paid);
      }
    }
  }

  /** Full rates first, then the remainder of the request by the rate. */
  lemma InstalmentSizes(a: Account, gain: nat -> nat, k: nat)
    requires WithdrawalValid(a) && a.withdrawRate > 0 && a.withdrawn == 0
    requires PoweredDown(a, gain, k).withdrawRate > 0
    ensures Instalment(PoweredDown(a, gain, k))
      == if k < a.toWithdraw / a.withdrawRate then a.withdrawRate else a.toWithdraw % a.withdrawRate
  {
    hide PoweredDown, WithdrawalValid, Instalment;
    PowerDownPaysAll(a, gain, k);
    InstalmentExact(PoweredDown(a, gain, k));
    WithdrawalPositive(a);
    LastInstalment(a.toWithdraw, a.withdrawRate, k);
  }

  lemma WithdrawalPositive(a: Account)
    requires WithdrawalValid(a) && a.withdrawRate > 0
    ensures 0 < a.toWithdraw
  {
  }

  lemma LastInstalment(whole: nat, rate: nat, k: nat)
    requires rate > 0 && k * rate < whole
    ensures k < whole / rate <==> (k + 1) * rate <= whole
    ensures k >= whole / rate ==> whole % rate == whole - k * rate
    ensures (k + 1) * rate == k * rate + rate
  {
    QuotientBounds(whole, rate);
    var q := whole / rate;
    if k < q {
      MulMono(k + 1, q, rate);
    } else {
      MulMono(q, k, rate);
      MulMono(q + 1, k + 1, rate);
      DivModUnique(whole, k, whole - k * rate, rate);
    }
  }
}
