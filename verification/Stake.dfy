/**
  Stake-weighted witness votes: how vesting shares flow along the proxy graph
  (libraries/chain/database.cpp, libraries/chain/wls_evaluator.cpp).

  An account is its position in the account index: accounts are created with
  consecutive ids and never removed.
 */
module Stake {
  import opened Sums
  import opened Options

  /** WLS_MAX_PROXY_RECURSION_DEPTH */
  const DEPTH: nat := 4

  datatype Account = Account(
    balance: int,
    rewardSteem: int,
    rewardVests: int,
    rewardVestSteem: int,
    vests: int,
    proxy: Option<nat>,
    proxied: seq<int>,
    withdrawRate: int,
    nextWithdrawal: Option<int>,
    toWithdraw: int,
    withdrawn: int,
    routeCount: int,
    votedFor: int)

  /** Level 0 is the account's own vests, level d + 1 its proxied slot d. */
  ghost function Level(a: Account, d: nat): int
  {
    if d == 0 then a.vests else if d - 1 < |a.proxied| then a.proxied[d - 1] else 0
  }

  ghost function LevelOf(a: Account): nat -> int
  {
    (d: nat) => Level(a, d)
  }

  /** witness_vote_weight: own vests plus every proxied slot. */
  ghost function Weight(a: Account): int
  {
    Sum(DEPTH + 1, LevelOf(a))
  }

  ghost predicate WellFormed(accts: seq<Account>)
  {
    forall i :: 0 <= i < |accts| ==>
      && |accts[i].proxied| == DEPTH
      && (accts[i].proxy.Some? ==> accts[i].proxy.value < |accts|)
  }

  // ---------------------------------------------------------------- proxy graph

  /** rank strictly falls along every proxy edge. */
  ghost predicate Ranks(accts: seq<Account>, rank: seq<nat>)
  {
    && |rank| == |accts|
    && forall i :: 0 <= i < |accts| && accts[i].proxy.Some? ==>
         accts[i].proxy.value < |accts| && rank[accts[i].proxy.value] < rank[i]
  }

  ghost predicate Acyclic(accts: seq<Account>)
  {
    exists rank :: Ranks(accts, rank)
  }

  /** The proxy chain starting at x (x included) passes through a. */
  ghost predicate Reaches(accts: seq<Account>, rank: seq<nat>, x: nat, a: nat)
    requires Ranks(accts, rank)
    requires x < |accts|
    decreases rank[x]
  {
    x == a || (accts[x].proxy.Some? && Reaches(accts, rank, accts[x].proxy.value, a))
  }

  /** Pointing a at p keeps the graph acyclic when the chain from p avoids a. */
  lemma SetProxyAcyclic(accts: seq<Account>, rank: seq<nat>, a: nat, p: nat)
    requires Ranks(accts, rank)
    requires a < |accts| && p < |accts|
    requires !Reaches(accts, rank, p, a)
    ensures Acyclic(accts[a := accts[a].(proxy := Some(p))])
  {
    var lifted := seq(|accts|, (i: nat) requires i < |accts| =>
      if Reaches(accts, rank, i, a) then rank[i] + rank[p] + 1 else rank[i]);
    assert Ranks(accts[a := accts[a].(proxy := Some(p))], lifted);
  }

  lemma SameProxiesAcyclic(accts: seq<Account>, next: seq<Account>)
    requires Acyclic(accts)
    requires |next| == |accts|
    requires forall i :: 0 <= i < |accts| ==> next[i].proxy == None || next[i].proxy == accts[i].proxy
    ensures Acyclic(next)
  {
    var rank :| Ranks(accts, rank);
    assert Ranks(next, rank);
  }

  lemma NewAccountAcyclic(accts: seq<Account>, a: Account)
    requires Acyclic(accts)
    requires a.proxy.None?
    ensures Acyclic(accts + [a])
  {
    var rank :| Ranks(accts, rank);
    assert Ranks(accts + [a], rank + [0]);
  }

  // ------------------------------------------------------------- stake flow

  /**
    What account b adds to slot d of account y: level d of b when b proxies to y.
    The account "excl" is left out (it is being re-pointed).
   */
  ghost function Inflow(accts: seq<Account>, excl: Option<nat>, y: nat, d: nat): nat -> int
  {
    (b: nat) =>
      if b < |accts| && Some(b) != excl && accts[b].proxy == Some(y) then Level(accts[b], d) else 0
  }

  /** A change of levels: entry d is what level d gained. */
  type Delta = v: seq<int> | |v| == DEPTH + 1 witness [0, 0, 0, 0, 0]

  /**
    Slot d of account y is the sum of level d over the accounts that proxy
    directly to y -- except that account "at" still lacks v.
   */
  ghost predicate SlotBut(accts: seq<Account>, excl: Option<nat>, at: Option<nat>, v: Delta, y: nat, d: nat)
    requires y < |accts| && d < DEPTH
  {
    Level(accts[y], d + 1) + (if at == Some(y) then v[d] else 0) == Sum(|accts|, Inflow(accts, excl, y, d))
  }

  ghost predicate FlowsBut(accts: seq<Account>, excl: Option<nat>, at: Option<nat>, v: Delta)
  {
    forall y, d :: 0 <= y < |accts| && 0 <= d < DEPTH ==> SlotBut(accts, excl, at, v, y, d)
  }

  const ZERO: Delta := [0, 0, 0, 0, 0]

  ghost predicate Flows(accts: seq<Account>)
  {
    FlowsBut(accts, None, None, ZERO)
  }

  /** delta moved "depth" levels up, cut at the top level. */
  ghost function Shifted(delta: Delta, depth: nat): (v: Delta)
    requires depth <= DEPTH
  {
    seq(depth, _ => 0) + delta[..DEPTH + 1 - depth]
  }

  /** next is accts with account x's levels raised by v and nothing else changed. */
  ghost predicate Raised(accts: seq<Account>, next: seq<Account>, x: nat, v: Delta)
  {
    && x < |accts| == |next|
    && next == accts[x := next[x]]
    && next[x].proxy == accts[x].proxy
    && forall d :: 0 <= d <= DEPTH ==> Level(next[x], d) == Level(accts[x], d) + v[d]
  }

  lemma InflowRaised(accts: seq<Account>, next: seq<Account>, excl: Option<nat>, x: nat, v: Delta, y: nat, d: nat)
    requires Raised(accts, next, x, v) && d <= DEPTH
    ensures Sum(|next|, Inflow(next, excl, y, d))
         == Sum(|accts|, Inflow(accts, excl, y, d)) + (if excl != Some(x) && accts[x].proxy == Some(y) then v[d] else 0)
  {
    SumChange(|accts|, Inflow(accts, excl, y, d), Inflow(next, excl, y, d), x);
  }

  /**
    Adding to account x what it lacks moves the gap one account up the chain
    and one level up.
   */
  lemma PushFlow(accts: seq<Account>, next: seq<Account>, excl: Option<nat>, x: nat, delta: Delta, depth: nat)
    requires depth < DEPTH
    requires Raised(accts, next, x, Shifted(delta, depth + 1))
    requires excl != Some(x) && accts[x].proxy != Some(x)
    requires FlowsBut(accts, excl, Some(x), Shifted(delta, depth))
    ensures FlowsBut(next, excl, next[x].proxy, Shifted(delta, depth + 1))
  {
    var up := Shifted(delta, depth + 1);
    forall y, d | 0 <= y < |next| && 0 <= d < DEPTH
      ensures SlotBut(next, excl, next[x].proxy, up, y, d)
    {
      assert SlotBut(accts, excl, Some(x), Shifted(delta, depth), y, d);
      assert up[d + 1] == Shifted(delta, depth)[d];
      InflowRaised(accts, next, excl, x, up, y, d);
    }
  }

  /** A gap at no account, or of nothing, is no gap. */
  lemma NoGap(accts: seq<Account>, excl: Option<nat>, at: Option<nat>, v: Delta)
    requires FlowsBut(accts, excl, at, v)
    requires at.None? || forall d :: 0 <= d < DEPTH ==> v[d] == 0
    ensures FlowsBut(accts, excl, None, ZERO)
  {
    forall y, d | 0 <= y < |accts| && 0 <= d < DEPTH
      ensures SlotBut(accts, excl, None, ZERO, y, d)
    {
      assert SlotBut(accts, excl, at, v, y, d);
    }
  }

  /** A change of an account's own vests opens a gap at its proxy. */
  lemma OpenGap(accts: seq<Account>, next: seq<Account>, c: nat, own: int)
    requires Flows(accts)
    requires Raised(accts, next, c, ZERO[0 := own])
    requires accts[c].proxy != Some(c)
    ensures FlowsBut(next, None, next[c].proxy, ZERO[0 := own])
  {
    var v: Delta := ZERO[0 := own];
    forall y, d | 0 <= y < |next| && 0 <= d < DEPTH
      ensures SlotBut(next, None, next[c].proxy, v, y, d)
    {
      assert SlotBut(accts, None, None, ZERO, y, d);
      InflowRaised(accts, next, None, c, v, y, d);
    }
  }

  /** Taking c out of its proxy's inflow leaves a gap of minus c's levels there. */
  lemma DetachFlow(accts: seq<Account>, c: nat, v: Delta)
    requires c < |accts| && Flows(accts)
    requires forall d :: 0 <= d <= DEPTH ==> v[d] == -Level(accts[c], d)
    ensures FlowsBut(accts, Some(c), accts[c].proxy, v)
  {
    forall y, d | 0 <= y < |accts| && 0 <= d < DEPTH
      ensures SlotBut(accts, Some(c), accts[c].proxy, v, y, d)
    {
      assert SlotBut(accts, None, None, ZERO, y, d);
      SumChange(|accts|, Inflow(accts, None, y, d), Inflow(accts, Some(c), y, d), c);
    }
  }

  /** Letting c flow to its new proxy leaves a gap of c's levels there. */
  lemma AttachFlow(accts: seq<Account>, c: nat, p: Option<nat>, v: Delta)
    requires c < |accts| && FlowsBut(accts, Some(c), None, ZERO)
    requires forall d :: 0 <= d <= DEPTH ==> v[d] == Level(accts[c], d)
    ensures FlowsBut(accts[c := accts[c].(proxy := p)], None, p, v)
  {
    var next := accts[c := accts[c].(proxy := p)];
    forall y, d | 0 <= y < |next| && 0 <= d < DEPTH
      ensures SlotBut(next, None, p, v, y, d)
    {
      assert SlotBut(accts, Some(c), None, ZERO, y, d);
      SumChange(|accts|, Inflow(accts, Some(c), y, d), Inflow(next, None, y, d), c);
    }
  }

  // ------------------------------------------------------------- witness votes

  /** What account b adds to the votes of witness w: its weight, if it votes for w itself. */
  ghost function Tally(accts: seq<Account>, votes: set<(nat, nat)>, excl: Option<nat>, w: nat): nat -> int
  {
    (b: nat) =>
      if b < |accts| && Some(b) != excl && accts[b].proxy.None? && (b, w) in votes then Weight(accts[b]) else 0
  }

  /**
    Every witness holds the votes a recount would give it -- except that the
    witnesses account "at" votes for still lack "gap".
   */
  ghost predicate TalliedBut(accts: seq<Account>, votes: set<(nat, nat)>, witnesses: seq<int>, excl: Option<nat>,
                             at: Option<nat>, gap: int)
  {
    forall w :: 0 <= w < |witnesses| ==>
      witnesses[w] + (if at.Some? && (at.value, w) in votes then gap else 0)
        == Sum(|accts|, Tally(accts, votes, excl, w))
  }

  ghost predicate Tallied(accts: seq<Account>, votes: set<(nat, nat)>, witnesses: seq<int>)
  {
    TalliedBut(accts, votes, witnesses, None, None, 0)
  }

  /** The account itself when it votes directly, nobody when it has a proxy. */
  ghost function Root(accts: seq<Account>, c: nat): Option<nat>
    requires c < |accts|
  {
    if accts[c].proxy.None? then Some(c) else None
  }

  lemma WeightRaised(accts: seq<Account>, next: seq<Account>, x: nat, v: Delta)
    requires Raised(accts, next, x, v)
    ensures Weight(next[x]) == Weight(accts[x]) + Total(v)
  {
    SumAdds(DEPTH + 1, LevelOf(accts[x]), Entry(v), LevelOf(next[x]));
  }

  lemma PushTally(accts: seq<Account>, next: seq<Account>, votes: set<(nat, nat)>, witnesses: seq<int>,
                  excl: Option<nat>, x: nat, v: Delta)
    requires Raised(accts, next, x, v)
    requires excl != Some(x)
    requires TalliedBut(accts, votes, witnesses, excl, None, 0)
    ensures TalliedBut(next, votes, witnesses, excl, Root(next, x), Total(v))
  {
    WeightRaised(accts, next, x, v);
    forall w | 0 <= w < |witnesses|
      ensures witnesses[w] + (if Root(next, x).Some? && (x, w) in votes then Total(v) else 0)
        == Sum(|next|, Tally(next, votes, excl, w))
    {
      SumChange(|accts|, Tally(accts, votes, excl, w), Tally(next, votes, excl, w), x);
    }
  }

  lemma DetachTally(accts: seq<Account>, votes: set<(nat, nat)>, witnesses: seq<int>, c: nat)
    requires c < |accts|
    requires Tallied(accts, votes, witnesses)
    ensures TalliedBut(accts, votes, witnesses, Some(c), Root(accts, c), -Weight(accts[c]))
  {
    forall w | 0 <= w < |witnesses|
      ensures witnesses[w] + (if Root(accts, c).Some? && (c, w) in votes then -Weight(accts[c]) else 0)
        == Sum(|accts|, Tally(accts, votes, Some(c), w))
    {
      SumChange(|accts|, Tally(accts, votes, None, w), Tally(accts, votes, Some(c), w), c);
    }
  }

  /** Once c has no vote records, leaving it out or letting it in makes no difference. */
  lemma AttachTally(accts: seq<Account>, votes: set<(nat, nat)>, left: set<(nat, nat)>,
                    witnesses: seq<int>, c: nat, p: Option<nat>)
    requires c < |accts|
    requires left == set r | r in votes && r.0 != c
    requires TalliedBut(accts, votes, witnesses, Some(c), None, 0)
    ensures Tallied(accts[c := accts[c].(proxy := p)], left, witnesses)
  {
    var next := accts[c := accts[c].(proxy := p)];
    forall w | 0 <= w < |witnesses|
      ensures witnesses[w] == Sum(|next|, Tally(next, left, None, w))
    {
      SumSame(|accts|, Tally(accts, votes, Some(c), w), Tally(next, left, None, w));
    }
  }

  // --------------------------------------------------- the sum of all votes

  ghost function VestsOf(accts: seq<Account>): nat -> int
  {
    (b: nat) => if b < |accts| then accts[b].vests else 0
  }

  /** What validate_invariants adds up for one account. */
  ghost function VoteShare(accts: seq<Account>): nat -> int
  {
    (b: nat) =>
      if b < |accts| then
        if accts[b].proxy.None? then Weight(accts[b]) else Level(accts[b], DEPTH)
      else 0
  }

  ghost function LevelAt(accts: seq<Account>, d: nat): nat -> int
  {
    (b: nat) => if b < |accts| then Level(accts[b], d) else 0
  }

  ghost function HandedOn(accts: seq<Account>, d: nat): nat -> int
  {
    (b: nat) => if b < |accts| && accts[b].proxy.Some? then Level(accts[b], d) else 0
  }

  ghost function InflowUpTo(accts: seq<Account>, d: nat, n: nat): nat -> int
  {
    (y: nat) => Sum(n, Inflow(accts, None, y, d))
  }

  ghost function InflowFrom(accts: seq<Account>, d: nat, b: nat): nat -> int
  {
    (y: nat) => Inflow(accts, None, y, d)(b)
  }

  /** An account feeds at most one other account: its proxy. */
  lemma FeedsOneProxy(accts: seq<Account>, d: nat, b: nat)
    requires WellFormed(accts) && b < |accts|
    ensures Sum(|accts|, InflowFrom(accts, d, b)) == HandedOn(accts, d)(b)
  {
    var nothing := (y: nat) => 0;
    SumZero(|accts|, nothing);
    forall y | 0 <= y < |accts| && accts[b].proxy != Some(y)
      ensures InflowFrom(accts, d, b)(y) == 0
    {
      assert Inflow(accts, None, y, d)(b) == 0;
    }
    if accts[b].proxy.Some? {
      var p := accts[b].proxy.value;
      SumChange(|accts|, nothing, InflowFrom(accts, d, b), p);
      assert Inflow(accts, None, p, d)(b) == Level(accts[b], d);
    } else {
      SumSame(|accts|, nothing, InflowFrom(accts, d, b));
    }
  }

  lemma NoInflow(accts: seq<Account>, d: nat)
    ensures Sum(|accts|, InflowUpTo(accts, d, 0)) == 0
  {
    SumZero(|accts|, InflowUpTo(accts, d, 0));
  }

  lemma InflowOneMore(accts: seq<Account>, d: nat, n: nat)
    requires 0 < n <= |accts|
    ensures Sum(|accts|, InflowUpTo(accts, d, n))
      == Sum(|accts|, InflowUpTo(accts, d, n - 1)) + Sum(|accts|, InflowFrom(accts, d, n - 1))
  {
    SumAdds(|accts|, InflowUpTo(accts, d, n - 1), InflowFrom(accts, d, n - 1), InflowUpTo(accts, d, n));
  }

  /** Summing inflows over all receivers is summing what the first n accounts hand on. */
  lemma {:induction false} InflowsAreHandedOn(accts: seq<Account>, d: nat, n: nat)
    requires WellFormed(accts) && n <= |accts|
    ensures Sum(|accts|, InflowUpTo(accts, d, n)) == Sum(n, HandedOn(accts, d))
  {
    hide InflowUpTo, InflowFrom, Inflow, WellFormed, HandedOn;
    if n == 0 {
      NoInflow(accts, d);
    } else {
      InflowOneMore(accts, d, n);
      InflowsAreHandedOn(accts, d, n - 1);
      FeedsOneProxy(accts, d, n - 1);
    }
  }

  /** The whole of level d + 1 is what the proxied accounts hand on of level d. */
  lemma LevelFedBelow(accts: seq<Account>, d: nat)
    requires WellFormed(accts) && Flows(accts) && d < DEPTH
    ensures Sum(|accts|, LevelAt(accts, d + 1)) == Sum(|accts|, HandedOn(accts, d))
  {
    InflowsAreHandedOn(accts, d, |accts|);
    forall y | 0 <= y < |accts|
      ensures LevelAt(accts, d + 1)(y) == InflowUpTo(accts, d, |accts|)(y)
    {
      assert SlotBut(accts, None, None, ZERO, y, d);
    }
    SumSame(|accts|, LevelAt(accts, d + 1), InflowUpTo(accts, d, |accts|));
  }

  /** VoteShare computed with only the first k slots in place. */
  ghost function ShareUpTo(accts: seq<Account>, k: nat): nat -> int
  {
    (b: nat) =>
      if b < |accts| then
        if accts[b].proxy.None? then Sum(k + 1, LevelOf(accts[b])) else Level(accts[b], k)
      else 0
  }

  ghost function Minus(f: nat -> int): nat -> int
  {
    (b: nat) => -f(b)
  }

  lemma {:induction false} SumMinus(n: nat, f: nat -> int)
    ensures Sum(n, Minus(f)) == -Sum(n, f)
  {
    if n > 0 {
      SumMinus(n - 1, f);
    }
  }

  lemma {:induction false} SharesTelescope(accts: seq<Account>, k: nat)
    requires WellFormed(accts) && Flows(accts) && k <= DEPTH
    ensures Sum(|accts|, ShareUpTo(accts, k)) == Sum(|accts|, VestsOf(accts))
  {
    if k == 0 {
      forall b | 0 <= b < |accts|
        ensures ShareUpTo(accts, 0)(b) == VestsOf(accts)(b)
      {
        assert Sum(1, LevelOf(accts[b])) == Sum(0, LevelOf(accts[b])) + Level(accts[b], 0);
      }
      SumSame(|accts|, ShareUpTo(accts, 0), VestsOf(accts));
    } else {
      SharesTelescope(accts, k - 1);
      LevelFedBelow(accts, k - 1);
      SumMinus(|accts|, HandedOn(accts, k - 1));
      var step := (b: nat) => LevelAt(accts, k)(b) + Minus(HandedOn(accts, k - 1))(b);
      SumAdds(|accts|, LevelAt(accts, k), Minus(HandedOn(accts, k - 1)), step);
      SumAdds(|accts|, ShareUpTo(accts, k - 1), step, ShareUpTo(accts, k));
    }
  }

  /**
    The vote sum of validate_invariants is the sum of all vests, whatever the
    length of the proxy chains.
   */
  lemma VoteSumIsVestSum(accts: seq<Account>)
    requires WellFormed(accts) && Flows(accts)
    ensures Sum(|accts|, VoteShare(accts)) == Sum(|accts|, VestsOf(accts))
  {
    SharesTelescope(accts, DEPTH);
    SumSame(|accts|, VoteShare(accts), ShareUpTo(accts, DEPTH));
  }

  ghost predicate VestsNonNegative(accts: seq<Account>)
  {
    forall i :: 0 <= i < |accts| ==> 0 <= accts[i].vests
  }

  ghost predicate LevelNonNegative(accts: seq<Account>, d: nat)
  {
    forall y :: 0 <= y < |accts| ==> 0 <= Level(accts[y], d)
  }

  lemma {:induction false} LevelsNonNegative(accts: seq<Account>, d: nat)
    requires Flows(accts) && VestsNonNegative(accts) && d <= DEPTH
    ensures LevelNonNegative(accts, d)
  {
    if d > 0 {
      LevelsNonNegative(accts, d - 1);
      forall y | 0 <= y < |accts|
        ensures 0 <= Level(accts[y], d)
      {
        assert SlotBut(accts, None, None, ZERO, y, d - 1);
        SumNonNegative(|accts|, Inflow(accts, None, y, d - 1));
      }
    }
  }

  lemma SharesNonNegative(accts: seq<Account>)
    requires Flows(accts) && VestsNonNegative(accts)
    ensures forall y :: 0 <= y < |accts| ==> 0 <= Weight(accts[y]) && 0 <= VoteShare(accts)(y)
  {
    forall d | 0 <= d <= DEPTH
      ensures LevelNonNegative(accts, d)
    {
      LevelsNonNegative(accts, d);
    }
    forall y | 0 <= y < |accts|
      ensures 0 <= Weight(accts[y]) && 0 <= VoteShare(accts)(y)
    {
      forall d | 0 <= d <= DEPTH
        ensures 0 <= LevelOf(accts[y])(d)
      {
        assert LevelNonNegative(accts, d);
      }
      SumNonNegative(DEPTH + 1, LevelOf(accts[y]));
    }
  }

  /** A recount over the first n accounts never gives a witness more than all vests. */
  lemma RecountAtMostVests(accts: seq<Account>, votes: set<(nat, nat)>, w: nat, n: nat)
    requires WellFormed(accts) && Flows(accts) && VestsNonNegative(accts)
    requires n <= |accts|
    ensures 0 <= Sum(n, Tally(accts, votes, None, w)) <= Sum(|accts|, VestsOf(accts))
  {
    SharesNonNegative(accts);
    SumNonNegative(n, Tally(accts, votes, None, w));
    SumAtMost(n, Tally(accts, votes, None, w), VoteShare(accts));
    PrefixAtMost(n, |accts|, VoteShare(accts));
    VoteSumIsVestSum(accts);
  }
}
