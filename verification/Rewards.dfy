/**
  Comment votes, curation weights and payouts: the vote evaluator of
  libraries/chain/wls_evaluator.cpp and the cashout of libraries/chain/database.cpp.
 */
module Rewards {
  import opened Sums
  import opened Options
  import opened Arithmetic
  import opened Curves
  import opened Payments

  const ONE_HUNDRED_PERCENT: nat := 10000
  const REVERSE_AUCTION_SECONDS: nat := 1800
  const VOTE_DUST_THRESHOLD: nat := 50
  const MAX_VOTE_CHANGES: int := 5
  const UPVOTE_LOCKOUT: nat := 43200
  const MIN_PAYOUT: nat := 20
  const DECAY_SECONDS: nat := 1296000
  const UINT64_LIMIT: nat := 0x1_0000_0000_0000_0000
  const INT64_MAX: nat := 0x7fff_ffff_ffff_ffff

  datatype Vote = Vote(voter: nat, weight: nat, rshares: int, percent: int, changes: int, lastUpdate: int)

  datatype Beneficiary = Beneficiary(account: nat, weight: nat)

  datatype Comment = Comment(
    author: nat,
    created: int,
    lastPayout: Option<int>,
    cashout: Option<int>,      // None once paid out
    netRshares: int,
    absRshares: int,
    voteRshares: int,
    totalWeight: int,
    rewardWeight: nat,
    maxPayout: nat,
    allowVotes: bool,
    allowCuration: bool,
    beneficiaries: seq<Beneficiary>,
    votes: seq<Vote>)

  ghost function WeightAt(votes: seq<Vote>): nat -> int
  {
    (i: nat) => if i < |votes| then votes[i].weight else 0
  }

  ghost function RsharesAt(votes: seq<Vote>): nat -> int
  {
    (i: nat) => if i < |votes| then votes[i].rshares else 0
  }

  ghost function ShareAt(b: seq<Beneficiary>): nat -> int
  {
    (i: nat) => if i < |b| then b[i].weight else 0
  }

  ghost predicate DistinctVoters(votes: seq<Vote>)
  {
    forall i, j :: 0 <= i < j < |votes| ==> votes[i].voter != votes[j].voter
  }

  /** The reward fund's settings. */
  datatype Settings = Settings(authorCurve: Curve, curationCurve: Curve, constant: nat, curationPercent: nat,
    clearVotes: bool)

  ghost predicate SettingsValid(s: Settings)
  {
    s.constant > 0 && s.curationPercent <= ONE_HUNDRED_PERCENT
  }

  /**
    Until the payout, the weights handed out are within the comment's total,
    the total is within the curve at its upvotes, and the net is the sum of the votes.
   */
  ghost predicate Weighted(c: Comment, s: Settings)
    requires SettingsValid(s)
  {
    && 0 <= c.voteRshares
    && Sum(|c.votes|, WeightAt(c.votes)) <= c.totalWeight <= Evaluate(s.curationCurve, c.voteRshares, s.constant)
    && c.netRshares == Sum(|c.votes|, RsharesAt(c.votes))
  }

  ghost predicate CommentValid(c: Comment, s: Settings)
    requires SettingsValid(s)
  {
    && DistinctVoters(c.votes)
    && c.rewardWeight <= ONE_HUNDRED_PERCENT
    && Sum(|c.beneficiaries|, ShareAt(c.beneficiaries)) <= ONE_HUNDRED_PERCENT
    && (c.cashout.Some? ==> Weighted(c, s))
  }

  // ------------------------------------------------------------- changing one vote

  lemma VoteAdded(votes: seq<Vote>, v: Vote)
    ensures Sum(|votes| + 1, WeightAt(votes + [v])) == Sum(|votes|, WeightAt(votes)) + v.weight
    ensures Sum(|votes| + 1, RsharesAt(votes + [v])) == Sum(|votes|, RsharesAt(votes)) + v.rshares
  {
    SumSame(|votes|, WeightAt(votes), WeightAt(votes + [v]));
    SumSame(|votes|, RsharesAt(votes), RsharesAt(votes + [v]));
  }

  lemma VoteReplaced(votes: seq<Vote>, k: nat, v: Vote)
    requires k < |votes|
    ensures Sum(|votes|, WeightAt(votes[k := v])) == Sum(|votes|, WeightAt(votes)) - votes[k].weight + v.weight
    ensures Sum(|votes|, RsharesAt(votes[k := v])) == Sum(|votes|, RsharesAt(votes)) - votes[k].rshares + v.rshares
    ensures votes[k].weight <= Sum(|votes|, WeightAt(votes))
  {
    SumChange(|votes|, WeightAt(votes), WeightAt(votes[k := v]), k);
    SumChange(|votes|, RsharesAt(votes), RsharesAt(votes[k := v]), k);
    TermAtMostSum(|votes|, WeightAt(votes), k);
  }

  method FindVote(votes: seq<Vote>, voter: nat) returns (r: Option<nat>)
    ensures r == VotePlace(votes, voter)
  {
    var i: nat := 0;
    while i < |votes|
      invariant 0 <= i <= |votes| && VotePlace(votes[..i], voter) == None
    {
      assert votes[..i + 1][..i] == votes[..i];
      if votes[i].voter == voter {
        PlaceStays(votes, i + 1, voter);
        return Some(i);
      }
      i := i + 1;
    }
    assert votes[..i] == votes;
    return None;
  }

  lemma {:induction false} PlaceStays(votes: seq<Vote>, n: nat, voter: nat)
    requires n <= |votes| && VotePlace(votes[..n], voter).Some?
    ensures VotePlace(votes, voter) == VotePlace(votes[..n], voter)
  {
    if n == |votes| {
      assert votes[..n] == votes;
    } else {
      assert votes[..|votes| - 1][..n] == votes[..n];
      PlaceStays(votes[..|votes| - 1], n, voter);
    }
  }

  function MinNat(x: nat, y: nat): (m: nat)
    ensures m <= x && m <= y && (m == x || m == y)
  {
    if x < y then x else y
  }

  /** part is amount * k / d, rounded down. */
  ghost predicate Fraction(part: nat, amount: nat, k: nat, d: nat)
  {
    part * d <= amount * k < (part + 1) * d
  }

  /** The weight left after the reverse auction: all of it from half an hour on. */
  function Discounted(weight: nat, age: nat): (w: nat)
    ensures w <= weight
    ensures age >= REVERSE_AUCTION_SECONDS ==> w == weight
    ensures age < REVERSE_AUCTION_SECONDS ==> Fraction(w, weight, age, REVERSE_AUCTION_SECONDS)
  {
    DiscountBounds(weight, MinNat(age, REVERSE_AUCTION_SECONDS));
    (weight * MinNat(age, REVERSE_AUCTION_SECONDS)) / REVERSE_AUCTION_SECONDS
  }

  lemma DiscountBounds(weight: nat, part: nat)
    requires part <= REVERSE_AUCTION_SECONDS
    ensures 0 <= (weight * part) / REVERSE_AUCTION_SECONDS <= weight
    ensures part == REVERSE_AUCTION_SECONDS ==> (weight * part) / REVERSE_AUCTION_SECONDS == weight
    ensures Fraction((weight * part) / REVERSE_AUCTION_SECONDS, weight, part, REVERSE_AUCTION_SECONDS)
  {
    QuotientBounds(weight * part, REVERSE_AUCTION_SECONDS);
    MulMono(part, REVERSE_AUCTION_SECONDS, weight);
    CancelMul((weight * part) / REVERSE_AUCTION_SECONDS, weight, REVERSE_AUCTION_SECONDS);
  }

  /** A downvote counts against the comment. */
  ghost function Signed(percent: int, absRshares: nat): int
  {
    if percent < 0 then 0 - absRshares else absRshares
  }

  /** What an upvote adds to the total weight: the rise of the curve, if curation pays at all. */
  ghost function WeightGain(c: Comment, s: Settings, percent: int, absRshares: nat): (w: nat)
    requires SettingsValid(s) && 0 <= c.voteRshares
  {
    CurveMonotone(s.curationCurve, c.voteRshares, c.voteRshares + absRshares, s.constant);
    if percent > 0 && c.lastPayout.None? && c.allowCuration && s.curationPercent > 0
    then Evaluate(s.curationCurve, c.voteRshares + absRshares, s.constant) - Evaluate(s.curationCurve, c.voteRshares,
      s.constant)
    else 0
  }

  /** A first vote counts for something, does not raise the comment in its last hours, and its weight fits 64 bits. */
  ghost predicate FirstAllowed(c: Comment, s: Settings, percent: int, absRshares: nat, now: int)
    requires SettingsValid(s) && 0 <= c.voteRshares && c.cashout.Some?
  {
    && percent != 0 && absRshares > 0
    && (percent > 0 ==> now < c.cashout.value - UPVOTE_LOCKOUT)
    && (percent > 0 && c.lastPayout.None? && c.allowCuration && s.curationPercent > 0 ==>
          Evaluate(s.curationCurve, c.voteRshares + absRshares, s.constant) < UINT64_LIMIT)
  }

  /** A changed vote is one of five, a real change, and no raise in the last hours. */
  ghost predicate ChangeAllowed(c: Comment, k: nat, percent: int, absRshares: nat, now: int)
    requires k < |c.votes| && c.cashout.Some?
  {
    && c.votes[k].changes < MAX_VOTE_CHANGES && c.votes[k].percent != percent
    && (c.votes[k].rshares < Signed(percent, absRshares) ==> now < c.cashout.value - UPVOTE_LOCKOUT)
  }

  /** When the vote evaluator accepts a vote. */
  ghost predicate Votable(c: Comment, s: Settings, voter: nat, percent: int, absRshares: nat, now: int)
    requires SettingsValid(s) && (c.cashout.Some? ==> 0 <= c.voteRshares)
  {
    && (percent > 0 ==> c.allowVotes)
    && (c.cashout.Some? ==>
          && (percent != 0 ==> absRshares > VOTE_DUST_THRESHOLD)
          && (forall k :: 0 <= k < |c.votes| && c.votes[k].voter == voter ==>
                c.votes[k].changes != -1 && ChangeAllowed(c, k, percent, absRshares, now))
          && ((forall k :: 0 <= k < |c.votes| ==> c.votes[k].voter != voter) ==>
            FirstAllowed(c, s, percent, absRshares, now)))
  }

  /** The comment with a first vote: the total gains the whole weight, the voter what the auction leaves of it. */
  ghost function WithFirst(c: Comment, s: Settings, voter: nat, percent: int, absRshares: nat, now: int): Comment
    requires SettingsValid(s) && 0 <= c.voteRshares && c.created <= now
  {
    var rshares, gain := Signed(percent, absRshares), WeightGain(c, s, percent, absRshares);
    c.(netRshares := c.netRshares + rshares, absRshares := c.absRshares + absRshares,
       voteRshares := c.voteRshares + (if percent > 0 then absRshares else 0),
       totalWeight := c.totalWeight + gain,
       votes := c.votes + [Vote(voter, Discounted(gain, now - c.created), rshares, percent, 0, now)])
  }

  /** The comment with a changed vote: the new rshares count, the old weight is gone. */
  ghost function WithChange(c: Comment, k: nat, percent: int, absRshares: nat, now: int): Comment
    requires k < |c.votes|
  {
    var v, rshares := c.votes[k], Signed(percent, absRshares);
    c.(netRshares := c.netRshares - v.rshares + rshares, absRshares := c.absRshares + absRshares,
       totalWeight := c.totalWeight - v.weight,
       votes := c.votes[k := Vote(v.voter, 0, rshares, percent, v.changes + 1, now)])
  }

  /** After the payout a vote is only noted down, and not even that when votes are cleared. */
  ghost function WithNote(c: Comment, clearVotes: bool, place: Option<nat>, voter: nat, percent: int, now: int): Comment
    requires place.Some? ==> place.value < |c.votes|
  {
    if clearVotes then c
    else if place.None? then c.(votes := c.votes + [Vote(voter, 0, 0, percent, 0, now)])
    else c.(votes := c.votes[place.value := c.votes[place.value].(percent := percent, lastUpdate := now)])
  }

  /** Where the voter's vote stands. */
  ghost function VotePlace(votes: seq<Vote>, voter: nat): (r: Option<nat>)
    ensures r.Some? ==> r.value < |votes| && votes[r.value].voter == voter
    ensures r.None? <==> forall i :: 0 <= i < |votes| ==> votes[i].voter != voter
  {
    if votes == [] then None
    else
      var before := VotePlace(votes[..|votes| - 1], voter);
      if before.Some? then before
      else if votes[|votes| - 1].voter == voter then Some(|votes| - 1) else None
  }

  /** The comment after a vote that is accepted. */
  ghost function AfterVote(c: Comment, s: Settings, voter: nat, percent: int, absRshares: nat, now: int): Comment
    requires SettingsValid(s) && c.created <= now && (c.cashout.Some? ==> 0 <= c.voteRshares)
  {
    var place := VotePlace(c.votes, voter);
    if c.cashout.None? then WithNote(c, s.clearVotes, place, voter, percent, now)
    else if place.None? then WithFirst(c, s, voter, percent, absRshares, now)
    else WithChange(c, place.value, percent, absRshares, now)
  }

  /** A first vote on a comment: None where the source asserts. */
  method FirstVote(c: Comment, s: Settings, voter: nat, percent: int, absRshares: nat, now: int)
    returns (r: Option<Comment>)
    requires SettingsValid(s) && CommentValid(c, s) && c.cashout.Some? && c.created <= now
    requires forall i :: 0 <= i < |c.votes| ==> c.votes[i].voter != voter
    ensures r.Some? <==> FirstAllowed(c, s, percent, absRshares, now)
    ensures r.Some? ==> CommentValid(r.value, s)
    ensures r.Some? ==> r.value == WithFirst(c, s, voter, percent, absRshares, now)
  {
    hide Evaluate, Sum, WeightAt, RsharesAt, Discounted;
    if percent == 0 { return None; }
    var rshares: int := if percent < 0 then 0 - absRshares else absRshares;
    if rshares > 0 && now >= c.cashout.value - UPVOTE_LOCKOUT { return None; }
    if absRshares == 0 { return None; }
    var voteRshares := c.voteRshares + (if rshares > 0 then rshares else 0);
    var gain: nat := 0;
    CurveMonotone(s.curationCurve, c.voteRshares, voteRshares, s.constant);
    if rshares > 0 && c.lastPayout.None? && c.allowCuration && s.curationPercent > 0 {
      var old_weight := Evaluate(s.curationCurve, c.voteRshares, s.constant);
      var new_weight := Evaluate(s.curationCurve, voteRshares, s.constant);
      if new_weight >= UINT64_LIMIT { return None; }
      gain := new_weight - old_weight;
    }
    var v := Vote(voter, Discounted(gain, now - c.created), rshares, percent, 0, now);
    VoteAdded(c.votes, v);
    r := Some(c.(netRshares := c.netRshares + rshares, absRshares := c.absRshares + absRshares,
                 voteRshares := voteRshares, totalWeight := c.totalWeight + gain, votes := c.votes + [v]));
  }

  /** A changed vote keeps its rshares but loses its weight for good. */
  method ChangeVote(c: Comment, s: Settings, k: nat, percent: int, absRshares: nat, now: int)
    returns (r: Option<Comment>)
    requires SettingsValid(s) && CommentValid(c, s) && c.cashout.Some? && k < |c.votes|
    ensures r.Some? <==> ChangeAllowed(c, k, percent, absRshares, now)
    ensures r.Some? ==> CommentValid(r.value, s)
    ensures r.Some? ==> r.value == WithChange(c, k, percent, absRshares, now)
  {
    hide Evaluate, Sum, WeightAt, RsharesAt;
    var v := c.votes[k];
    if v.changes >= MAX_VOTE_CHANGES || v.percent == percent { return None; }
    var rshares: int := if percent < 0 then 0 - absRshares else absRshares;
    if v.rshares < rshares && now >= c.cashout.value - UPVOTE_LOCKOUT { return None; }
    var w := v.(rshares := rshares, percent := percent, lastUpdate := now, weight := 0, changes := v.changes + 1);
    VoteReplaced(c.votes, k, w);
    r := Some(c.(netRshares := c.netRshares - v.rshares + rshares, absRshares := c.absRshares + absRshares,
                 totalWeight := c.totalWeight - v.weight, votes := c.votes[k := w]));
  }

  // ------------------------------------------------------------- splitting a payout

  /** What each voter claims of the curation budget, in vote order; nothing for a claim of zero. */
  ghost function Claims(votes: seq<Vote>, budget: nat, total: nat, k: nat): seq<(nat, nat)>
    requires total > 0 && k <= |votes|
  {
    if k == 0 then []
    else
      var before := Claims(votes, budget, total, k - 1);
      var claim := Ratio(budget * votes[k - 1].weight, total);
      if claim > 0 then before + [(votes[k - 1].voter, claim)] else before
  }

  ghost function CuratorPayments(c: Comment, budget: nat): seq<(nat, nat)>
  {
    if c.allowCuration && c.totalWeight > 0 then Claims(c.votes, budget, c.totalWeight, |c.votes|) else []
  }

  /** pay_curators: what is not claimed goes back to the author. */
  method PayCurators(c: Comment, budget: nat) returns (unclaimed: nat, paid: nat, payments: seq<(nat, nat)>)
    requires Sum(|c.votes|, WeightAt(c.votes)) <= c.totalWeight
    ensures c.allowCuration ==> paid + unclaimed == budget
    ensures !c.allowCuration ==> paid == 0 && unclaimed == 0
    ensures Paying(payments) == paid
    ensures payments == CuratorPayments(c, budget)
  {
    payments := [];
    if !c.allowCuration { return 0, 0, []; }
    var left: int := budget;
    if c.totalWeight > 0 {
      var i := 0;
      while i < |c.votes|
        invariant 0 <= i <= |c.votes|
        invariant payments == Claims(c.votes, budget, c.totalWeight, i)
        invariant left + Paying(payments) == budget && 0 <= Paying(payments)
        invariant Paying(payments) * c.totalWeight <= budget * Sum(i, WeightAt(c.votes))
      {
        var claim := Ratio(budget * c.votes[i].weight, c.totalWeight);
        ClaimStep(budget, c.votes[i].weight, c.totalWeight, claim, Paying(payments), Sum(i, WeightAt(c.votes)));
        if claim > 0 {
          PayingOne(payments, c.votes[i].voter, claim);
          left := left - claim;
          payments := payments + [(c.votes[i].voter, claim)];
        }
        i := i + 1;
      }
      ClaimsWithinBudget(budget, Paying(payments), Sum(|c.votes|, WeightAt(c.votes)), c.totalWeight);
    }
    unclaimed := left;
    paid := budget - unclaimed;
  }

  lemma ClaimStep(budget: nat, weight: nat, total: nat, claim: nat, paid: int, weights: int)
    requires total > 0 && claim == Ratio(budget * weight, total)
    requires paid * total <= budget * weights
    ensures (paid + claim) * total <= budget * (weights + weight)
  {
    QuotientBounds(budget * weight, total);
    assert (paid + claim) * total == paid * total + claim * total;
    assert budget * (weights + weight) == budget * weights + budget * weight;
  }

  lemma ClaimsWithinBudget(budget: nat, paid: int, weights: int, total: nat)
    requires total > 0 && paid * total <= budget * weights && weights <= total
    ensures paid <= budget
  {
    MulMono(weights, total, budget);
    CancelMul(paid, budget, total);
  }

  ghost function BeneficiaryPayments(b: seq<Beneficiary>, amount: nat, k: nat): seq<(nat, nat)>
    requires k <= |b|
  {
    if k == 0 then []
    else
      BeneficiaryPayments(b, amount, k - 1)
      + [(b[k - 1].account, Ratio(amount * b[k - 1].weight, ONE_HUNDRED_PERCENT))]
  }

  /** The beneficiaries' part of the author's amount. */
  method PayBeneficiaries(b: seq<Beneficiary>, amount: nat) returns (paid: nat, payments: seq<(nat, nat)>)
    requires Sum(|b|, ShareAt(b)) <= ONE_HUNDRED_PERCENT
    ensures paid <= amount && Paying(payments) == paid
    ensures payments == BeneficiaryPayments(b, amount, |b|)
  {
    payments := [];
    paid := 0;
    var i := 0;
    while i < |b|
      invariant 0 <= i <= |b|
      invariant payments == BeneficiaryPayments(b, amount, i) && Paying(payments) == paid
      invariant paid * ONE_HUNDRED_PERCENT <= amount * Sum(i, ShareAt(b))
    {
      var tokens := Ratio(amount * b[i].weight, ONE_HUNDRED_PERCENT);
      ClaimStep(amount, b[i].weight, ONE_HUNDRED_PERCENT, tokens, paid, Sum(i, ShareAt(b)));
      PayingOne(payments, b[i].account, tokens);
      payments := payments + [(b[i].account, tokens)];
      paid := paid + tokens;
      i := i + 1;
    }
    ClaimsWithinBudget(amount, paid, Sum(|b|, ShareAt(b)), ONE_HUNDRED_PERCENT);
  }

  /** The curators' part of a reward. */
  ghost function Budget(percent: nat, reward: nat): nat
  {
    Ratio(reward * percent, ONE_HUNDRED_PERCENT)
  }

  method CurationTokens(percent: nat, reward: nat) returns (part: nat)
    requires percent <= ONE_HUNDRED_PERCENT
    ensures Fraction(part, reward, percent, ONE_HUNDRED_PERCENT)
    ensures part == Budget(percent, reward) <= reward
  {
    CurationAtMostReward(reward, percent);
    part := Ratio(reward * percent, ONE_HUNDRED_PERCENT);
  }

  /** Who is paid what of a reward: the curators by weight, the beneficiaries by share, the author the rest. */
  ghost function Division(c: Comment, s: Settings, reward: nat): seq<(nat, nat)>
  {
    if reward == 0 then []
    else
      var curation := Budget(s.curationPercent, reward);
      var toCurators := CuratorPayments(c, curation);
      var author := reward - curation + (if c.allowCuration then curation - Paying(toCurators) else 0);
      if author < 0 then []
      else
        var toBeneficiaries := BeneficiaryPayments(c.beneficiaries, author, |c.beneficiaries|);
        var rest := author - Paying(toBeneficiaries);
        if rest < 0 then [] else Listed(toCurators, toBeneficiaries, c.author, rest)
  }

  ghost function Listed(toCurators: seq<(nat, nat)>, toBeneficiaries: seq<(nat, nat)>, author: nat,
                  amount: nat): seq<(nat, nat)>
  {
    toCurators + toBeneficiaries + [(author, amount)]
  }

  // ------------------------------------------------------------- who gets what

  /** A reward split up: each voter's claim of the curators' budget, each beneficiary's part, the author's rest. */
  datatype Split = Split(reward: nat, budget: nat, claims: seq<nat>, parts: seq<nat>, rest: nat)

  /** What the author shares with the beneficiaries: all but the budget, and what curators leave of it. */
  ghost function ForAuthor(c: Comment, d: Split): int
  {
    d.reward - d.budget + (if c.allowCuration then d.budget - Total(d.claims) else 0)
  }

  /** The curators' budget is their percentage, and each claim its voter's share of the weights. */
  ghost predicate CuratorsShare(c: Comment, percent: nat, d: Split)
  {
    && Fraction(d.budget, d.reward, percent, ONE_HUNDRED_PERCENT)
    && |d.claims| == |c.votes|
    && forall i :: 0 <= i < |c.votes| ==>
         if c.allowCuration && c.totalWeight > 0
         then Fraction(d.claims[i], d.budget, c.votes[i].weight, c.totalWeight) else d.claims[i] == 0
  }

  /** Each beneficiary gets its percentage of the author's amount, and the author what is left. */
  ghost predicate AuthorShares(c: Comment, d: Split)
  {
    && 0 <= ForAuthor(c, d) && d.rest + Total(d.parts) == ForAuthor(c, d)
    && |d.parts| == |c.beneficiaries|
    && forall j :: 0 <= j < |c.beneficiaries| ==>
         Fraction(d.parts[j], ForAuthor(c, d), c.beneficiaries[j].weight, ONE_HUNDRED_PERCENT)
  }

  /** A comment's reward is its share of the fund by claims, if it is worth paying and as far as it is accepted. */
  ghost predicate Earns(c: Comment, s: Settings, balance: nat, claims: nat, reward: nat)
    requires SettingsValid(s)
  {
    if c.netRshares <= 0 then reward == 0
    else exists weighted: nat, payout: nat ::
      && Fraction(weighted, Evaluate(s.authorCurve, c.netRshares, s.constant), c.rewardWeight, ONE_HUNDRED_PERCENT)
      && Fraction(payout, balance, weighted, claims) && payout <= INT64_MAX
      && reward == MinNat(if payout < MIN_PAYOUT then 0 else payout, c.maxPayout)
  }

  ghost predicate Splits(c: Comment, s: Settings, balance: nat, claims: nat, d: Split)
    requires SettingsValid(s)
  {
    Earns(c, s, balance, claims, d.reward) && CuratorsShare(c, s.curationPercent, d) && AuthorShares(c, d)
  }

  /** Curators get at most their percentage of a reward, the author and the beneficiaries at least the other one. */
  ghost predicate WithinPercent(percent: nat, d: Split)
  {
    && Total(d.claims) * ONE_HUNDRED_PERCENT <= d.reward * percent
    && d.reward * (ONE_HUNDRED_PERCENT - percent) <= (d.rest + Total(d.parts)) * ONE_HUNDRED_PERCENT
  }

  ghost function ClaimTo(votes: seq<Vote>, claims: seq<nat>, x: nat): nat -> int
  {
    (i: nat) => if i < |votes| && i < |claims| && votes[i].voter == x then claims[i] else 0
  }

  ghost function PartTo(b: seq<Beneficiary>, parts: seq<nat>, x: nat): nat -> int
  {
    (j: nat) => if j < |b| && j < |parts| && b[j].account == x then parts[j] else 0
  }

  /** What x gets of a split reward: as a voter, as a beneficiary and as the author. */
  ghost function Receives(c: Comment, d: Split, x: nat): int
  {
    Sum(|c.votes|, ClaimTo(c.votes, d.claims, x)) + Sum(|c.beneficiaries|, PartTo(c.beneficiaries, d.parts, x))
    + (if c.author == x then d.rest else 0)
  }

  /** Everybody is paid what the split gives them. */
  ghost predicate PaidAsSplit(payments: seq<(nat, nat)>, c: Comment, d: Split)
  {
    forall x: nat :: PaidTo(payments, x) == Receives(c, d, x)
  }

  ghost function ClaimsOf(c: Comment, budget: nat): (r: seq<nat>)
    ensures |r| == |c.votes|
  {
    seq(|c.votes|, i requires 0 <= i < |c.votes| =>
      if c.allowCuration && c.totalWeight > 0 then Ratio(budget * c.votes[i].weight, c.totalWeight) else 0)
  }

  ghost function PartsOf(b: seq<Beneficiary>, amount: nat): (r: seq<nat>)
    ensures |r| == |b|
  {
    seq(|b|, j requires 0 <= j < |b| => Ratio(amount * b[j].weight, ONE_HUNDRED_PERCENT))
  }

  lemma {:induction false} ClaimsListed(c: Comment, budget: nat, k: nat, x: nat)
    requires c.allowCuration && c.totalWeight > 0 && k <= |c.votes|
    ensures PaidTo(Claims(c.votes, budget, c.totalWeight, k), x)
      == Sum(k, ClaimTo(c.votes, ClaimsOf(c, budget), x))
    ensures Paying(Claims(c.votes, budget, c.totalWeight, k)) == Sum(k, Entry(ClaimsOf(c, budget)))
  {
    hide Paying, PaidTo, Ratio;
    if k == 0 {
      PaidNothing(x);
      NothingPaid();
    } else {
      ClaimsListed(c, budget, k - 1, x);
      var before, claim := Claims(c.votes, budget, c.totalWeight, k - 1), ClaimsOf(c, budget)[k - 1];
      PaidToOne(before, c.votes[k - 1].voter, claim, x);
      PayingOne(before, c.votes[k - 1].voter, claim);
    }
  }

  lemma CuratorsListed(c: Comment, budget: nat, x: nat)
    ensures PaidTo(CuratorPayments(c, budget), x) == Sum(|c.votes|, ClaimTo(c.votes, ClaimsOf(c, budget), x))
    ensures Paying(CuratorPayments(c, budget)) == Total(ClaimsOf(c, budget))
  {
    if c.allowCuration && c.totalWeight > 0 {
      ClaimsListed(c, budget, |c.votes|, x);
    } else {
      PaidNothing(x);
      SumZero(|c.votes|, ClaimTo(c.votes, ClaimsOf(c, budget), x));
      SumZero(|c.votes|, Entry(ClaimsOf(c, budget)));
    }
  }

  lemma {:induction false} PartsListed(b: seq<Beneficiary>, amount: nat, k: nat, x: nat)
    requires k <= |b|
    ensures PaidTo(BeneficiaryPayments(b, amount, k), x) == Sum(k, PartTo(b, PartsOf(b, amount), x))
    ensures Paying(BeneficiaryPayments(b, amount, k)) == Sum(k, Entry(PartsOf(b, amount)))
  {
    hide Paying, PaidTo, Ratio;
    if k == 0 {
      PaidNothing(x);
      NothingPaid();
    } else {
      PartsListed(b, amount, k - 1, x);
      var before, part := BeneficiaryPayments(b, amount, k - 1), PartsOf(b, amount)[k - 1];
      PaidToOne(before, b[k - 1].account, part, x);
      PayingOne(before, b[k - 1].account, part);
    }
  }

  lemma ListedTo(a: seq<(nat, nat)>, b: seq<(nat, nat)>, author: nat, amount: nat, x: nat)
    ensures PaidTo(Listed(a, b, author, amount), x)
      == PaidTo(a, x) + PaidTo(b, x) + (if author == x then amount else 0)
  {
    PaidToBoth(a, b, x);
    PaidToOne(a + b, author, amount, x);
  }

  /** The split that a division makes. */
  ghost function SplitOf(c: Comment, percent: nat, reward: nat): Split
  {
    var budget := Budget(percent, reward);
    var claims := ClaimsOf(c, budget);
    var author := ForAuthor(c, Split(reward, budget, claims, [], 0));
    var parts := if author >= 0 then PartsOf(c.beneficiaries, author) else [];
    Split(reward, budget, claims, parts, if author - Total(parts) >= 0 then author - Total(parts) else 0)
  }

  lemma SplitShares(c: Comment, percent: nat, reward: nat)
    ensures CuratorsShare(c, percent, SplitOf(c, percent, reward))
  {
    hide Total;
  }

  lemma SplitRest(c: Comment, percent: nat, reward: nat, toCurators: seq<(nat, nat)>, amount: nat)
    requires toCurators == CuratorPayments(c, Budget(percent, reward))
    requires amount == ForAuthor(c, SplitOf(c, percent, reward))
    requires Paying(BeneficiaryPayments(c.beneficiaries, amount, |c.beneficiaries|)) <= amount
    ensures AuthorShares(c, SplitOf(c, percent, reward))
    ensures PaidAsSplit(Listed(toCurators, BeneficiaryPayments(c.beneficiaries, amount, |c.beneficiaries|), c.author,
      SplitOf(c, percent, reward).rest), c, SplitOf(c, percent, reward))
  {
    hide Paying, PaidTo, Listed, Sum, ClaimsOf, CuratorPayments, BeneficiaryPayments, Ratio;
    var d, b := SplitOf(c, percent, reward), BeneficiaryPayments(c.beneficiaries, amount, |c.beneficiaries|);
    PartsListed(c.beneficiaries, amount, |c.beneficiaries|, 0);
    forall x: nat
      ensures PaidTo(Listed(toCurators, b, c.author, d.rest), x) == Receives(c, d, x)
    {
      CuratorsListed(c, d.budget, x);
      PartsListed(c.beneficiaries, amount, |c.beneficiaries|, x);
      ListedTo(toCurators, b, c.author, d.rest, x);
    }
  }

  lemma NothingSplit(c: Comment, percent: nat)
    ensures SplitOf(c, percent, 0).reward == 0 == SplitOf(c, percent, 0).budget
    ensures CuratorsShare(c, percent, SplitOf(c, percent, 0)) && AuthorShares(c, SplitOf(c, percent, 0))
    ensures PaidAsSplit([], c, SplitOf(c, percent, 0))
  {
    hide Sum;
    SplitShares(c, percent, 0);
    var d := SplitOf(c, percent, 0);
    SumZero(|c.votes|, Entry(d.claims));
    SumZero(|c.beneficiaries|, Entry(d.parts));
    forall x: nat
      ensures PaidTo([], x) == Receives(c, d, x)
    {
      PaidNothing(x);
      SumZero(|c.votes|, ClaimTo(c.votes, d.claims, x));
      SumZero(|c.beneficiaries|, PartTo(c.beneficiaries, d.parts, x));
    }
  }

  lemma {:induction false} ClaimsByWeight(votes: seq<Vote>, claims: seq<nat>, budget: nat, total: nat, k: nat)
    requires k <= |votes| == |claims|
    requires forall i :: 0 <= i < |votes| ==> Fraction(claims[i], budget, votes[i].weight, total)
    ensures Sum(k, Entry(claims)) * total <= budget * Sum(k, WeightAt(votes))
  {
    if k > 0 {
      ClaimsByWeight(votes, claims, budget, total, k - 1);
      assert Fraction(claims[k - 1], budget, votes[k - 1].weight, total);
      var paid, weights := Sum(k - 1, Entry(claims)), Sum(k - 1, WeightAt(votes));
      assert (paid + claims[k - 1]) * total == paid * total + claims[k - 1] * total;
      assert budget * (weights + votes[k - 1].weight) == budget * weights + budget * votes[k - 1].weight;
    }
  }

  lemma SplitWithinPercent(c: Comment, percent: nat, d: Split)
    requires Sum(|c.votes|, WeightAt(c.votes)) <= c.totalWeight && percent <= ONE_HUNDRED_PERCENT
    requires CuratorsShare(c, percent, d) && AuthorShares(c, d)
    ensures WithinPercent(percent, d)
  {
    hide Sum, WeightAt, Entry;
    if c.allowCuration && c.totalWeight > 0 {
      ClaimsByWeight(c.votes, d.claims, d.budget, c.totalWeight, |c.votes|);
      ClaimsWithinBudget(d.budget, Total(d.claims), Sum(|c.votes|, WeightAt(c.votes)), c.totalWeight);
    } else {
      NoClaims(d.claims);
    }
  }

  lemma NoClaims(claims: seq<nat>)
    requires forall i :: 0 <= i < |claims| ==> claims[i] == 0
    ensures Total(claims) == 0
  {
    SumZero(|claims|, Entry(claims));
  }

  /** A voter who is neither the author nor a beneficiary gets the claim of the one vote that is theirs. */
  lemma VoterReceives(c: Comment, d: Split, k: nat)
    requires DistinctVoters(c.votes) && |d.claims| == |c.votes| && k < |c.votes| && c.author != c.votes[k].voter
    requires forall j :: 0 <= j < |c.beneficiaries| ==> c.beneficiaries[j].account != c.votes[k].voter
    ensures Receives(c, d, c.votes[k].voter) == d.claims[k]
  {
    var x := c.votes[k].voter;
    SumZero(|c.beneficiaries|, PartTo(c.beneficiaries, d.parts, x));
    SumChange(|c.votes|, ClaimTo(c.votes, d.claims[k := 0], x), ClaimTo(c.votes, d.claims, x), k);
    SumZero(|c.votes|, ClaimTo(c.votes, d.claims[k := 0], x));
  }

  /**
    cashout_comment_helper's division of a reward: curators, beneficiaries,
    author -- and what is claimed from the fund is what they are paid.
   */
  method DivideReward(c: Comment, s: Settings, reward: nat)
    returns (claimed: nat, payments: seq<(nat, nat)>, ghost d: Split)
    requires SettingsValid(s) && CommentValid(c, s) && c.cashout.Some?
    ensures Paying(payments) == claimed == reward - (if c.allowCuration then 0 else d.budget)
    ensures payments == Division(c, s, reward)
    ensures d.reward == reward && CuratorsShare(c, s.curationPercent, d) && AuthorShares(c, d)
    ensures WithinPercent(s.curationPercent, d)
    ensures PaidAsSplit(payments, c, d)
  {
    ValidParts(c, s);
    hide *;
    payments := [];
    d := SplitOf(c, s.curationPercent, reward);
    if reward == 0 {
      NothingPaid();
      DivisionOfNothing(c, s);
      NothingSplit(c, s.curationPercent);
      SplitWithinPercent(c, s.curationPercent, d);
      return 0, [], d;
    }
    var curation := CurationTokens(s.curationPercent, reward);
    var author := reward - curation;
    var unclaimed, curated, toCurators := PayCurators(c, curation);
    author := author + unclaimed;
    claimed := author + curated;
    payments := PayAuthor(c, author, toCurators);
    Divided(c, s, reward, curation, toCurators, author);
  }

  /** All that a division makes of a reward, from its parts. */
  lemma Divided(c: Comment, s: Settings, reward: nat, curation: nat, toCurators: seq<(nat, nat)>, author: nat)
    requires Sum(|c.votes|, WeightAt(c.votes)) <= c.totalWeight && s.curationPercent <= ONE_HUNDRED_PERCENT
    requires reward > 0 && curation == Budget(s.curationPercent, reward) && toCurators == CuratorPayments(c, curation)
    requires author == reward - curation + (if c.allowCuration then curation - Paying(toCurators) else 0)
    requires Paying(BeneficiaryPayments(c.beneficiaries, author, |c.beneficiaries|)) <= author
    ensures var d := SplitOf(c, s.curationPercent, reward);
      && d.reward == reward && d.budget == curation
      && CuratorsShare(c, s.curationPercent, d) && AuthorShares(c, d) && WithinPercent(s.curationPercent, d)
    ensures var toBeneficiaries := BeneficiaryPayments(c.beneficiaries, author, |c.beneficiaries|);
      var payments := Listed(toCurators, toBeneficiaries, c.author, author - Paying(toBeneficiaries));
      payments == Division(c, s, reward) && PaidAsSplit(payments, c, SplitOf(c, s.curationPercent, reward))
  {
    hide *;
    SplitIs(c, s.curationPercent, reward, toCurators, author);
    DivisionIs(c, s, reward, curation, toCurators, author,
      BeneficiaryPayments(c.beneficiaries, author, |c.beneficiaries|));
    SplitShares(c, s.curationPercent, reward);
    SplitRest(c, s.curationPercent, reward, toCurators, author);
    SplitWithinPercent(c, s.curationPercent, SplitOf(c, s.curationPercent, reward));
  }

  lemma SplitIs(c: Comment, percent: nat, reward: nat, toCurators: seq<(nat, nat)>, author: nat)
    requires toCurators == CuratorPayments(c, Budget(percent, reward))
    requires author == reward - Budget(percent, reward)
      + (if c.allowCuration then Budget(percent, reward) - Paying(toCurators) else 0)
    requires Paying(BeneficiaryPayments(c.beneficiaries, author, |c.beneficiaries|)) <= author
    ensures var d := SplitOf(c, percent, reward);
      && d.reward == reward && d.budget == Budget(percent, reward)
      && ForAuthor(c, d) == author
      && d.rest == author - Paying(BeneficiaryPayments(c.beneficiaries, author, |c.beneficiaries|))
  {
    hide Paying, CuratorPayments, BeneficiaryPayments, Ratio, Sum, ClaimsOf, PartsOf;
    CuratorsListed(c, Budget(percent, reward), 0);
    PartsListed(c.beneficiaries, author, |c.beneficiaries|, 0);
  }

  /** The beneficiaries' payments and the author's, after those of the curators. */
  method PayAuthor(c: Comment, amount: nat, toCurators: seq<(nat, nat)>) returns (payments: seq<(nat, nat)>)
    requires Sum(|c.beneficiaries|, ShareAt(c.beneficiaries)) <= ONE_HUNDRED_PERCENT
    ensures Paying(payments) == Paying(toCurators) + amount
    ensures var toBeneficiaries := BeneficiaryPayments(c.beneficiaries, amount, |c.beneficiaries|);
      && Paying(toBeneficiaries) <= amount
      && payments == Listed(toCurators, toBeneficiaries, c.author, amount - Paying(toBeneficiaries))
  {
    var shared, toBeneficiaries := PayBeneficiaries(c.beneficiaries, amount);
    PayingAll(toCurators, toBeneficiaries, c.author, amount - shared);
    payments := toCurators + toBeneficiaries + [(c.author, amount - shared)];
  }

  lemma PayingAll(a: seq<(nat, nat)>, b: seq<(nat, nat)>, x: nat, amount: nat)
    ensures Paying(Listed(a, b, x, amount)) == Paying(a) + Paying(b) + amount
  {
    PayingBoth(a, b);
    PayingOne(a + b, x, amount);
  }

  lemma DivisionOfNothing(c: Comment, s: Settings)
    ensures Division(c, s, 0) == []
  {
  }

  lemma DivisionIs(c: Comment, s: Settings, reward: nat, curation: nat, toCurators: seq<(nat, nat)>, author: nat,
                   toBeneficiaries: seq<(nat, nat)>)
    requires reward > 0 && curation == Budget(s.curationPercent, reward)
    requires toCurators == CuratorPayments(c, curation)
    requires author == reward - curation + (if c.allowCuration then curation - Paying(toCurators) else 0)
    requires toBeneficiaries == BeneficiaryPayments(c.beneficiaries, author, |c.beneficiaries|)
    requires Paying(toBeneficiaries) <= author
    ensures Division(c, s, reward) == Listed(toCurators, toBeneficiaries, c.author, author - Paying(toBeneficiaries))
  {
    hide CuratorPayments, BeneficiaryPayments, Paying, Ratio, Listed;
  }

  lemma ValidParts(c: Comment, s: Settings)
    requires SettingsValid(s) && CommentValid(c, s) && c.cashout.Some?
    ensures Sum(|c.votes|, WeightAt(c.votes)) <= c.totalWeight
    ensures Sum(|c.beneficiaries|, ShareAt(c.beneficiaries)) <= ONE_HUNDRED_PERCENT
    ensures s.curationPercent <= ONE_HUNDRED_PERCENT
  {
  }

  lemma NothingPaid()
    ensures Paying([]) == 0
  {
  }

  lemma CurationAtMostReward(reward: nat, percent: nat)
    requires percent <= ONE_HUNDRED_PERCENT
    ensures Ratio(reward * percent, ONE_HUNDRED_PERCENT) <= reward
  {
    QuotientBounds(reward * percent, ONE_HUNDRED_PERCENT);
    MulMono(percent, ONE_HUNDRED_PERCENT, reward);
    CancelMul(Ratio(reward * percent, ONE_HUNDRED_PERCENT), reward, ONE_HUNDRED_PERCENT);
  }

  /** The comment once it was paid out. */
  ghost function Settled(c: Comment, clearVotes: bool, now: int): Comment
  {
    c.(netRshares := if c.netRshares > 0 then 0 else c.netRshares, absRshares := 0, voteRshares := 0, totalWeight := 0,
       cashout := None, lastPayout := Some(now), votes := if clearVotes then [] else c.votes)
  }

  // ------------------------------------------------------------- one block's payouts

  ghost function ClaimOf(c: Comment, s: Settings): nat
    requires SettingsValid(s)
  {
    if c.netRshares > 0 then Evaluate(s.authorCurve, c.netRshares, s.constant) else 0
  }

  /** a * b / d, rounded down. */
  function Portion(a: nat, b: nat, d: nat): (p: nat)
    requires d > 0
    ensures Fraction(p, a, b, d)
  {
    MulMono(0, a, b);
    Ratio(a * b, d)
  }

  /** get_rshare_reward: None where the source asserts. */
  ghost function RewardOf(c: Comment, s: Settings, balance: nat, claims: nat): (r: Option<nat>)
    requires SettingsValid(s) && c.netRshares > 0
  {
    if claims == 0 then None
    else
      var weighted := Portion(ClaimOf(c, s), c.rewardWeight, ONE_HUNDRED_PERCENT);
      var payout := Portion(balance, weighted, claims);
      if payout > INT64_MAX then None
      else Some(MinNat(if payout < MIN_PAYOUT then 0 else payout, c.maxPayout))
  }

  /** get_rshare_reward: None where the source asserts. */
  method RshareReward(c: Comment, s: Settings, balance: nat, claims: nat) returns (r: Option<nat>)
    requires SettingsValid(s) && c.netRshares > 0
    ensures r == RewardOf(c, s, balance, claims)
    ensures r.Some? ==> Earns(c, s, balance, claims, r.value)
  {
    if claims == 0 { return None; }
    var claim := Evaluate(s.authorCurve, c.netRshares, s.constant);
    var weighted := Portion(claim, c.rewardWeight, ONE_HUNDRED_PERCENT);
    var payout := Portion(balance, weighted, claims);
    RewardIs(c, s, balance, claims, weighted, payout);
    hide *;
    if payout > INT64_MAX { return None; }
    r := Some(MinNat(if payout < MIN_PAYOUT then 0 else payout, c.maxPayout));
  }

  lemma RewardIs(c: Comment, s: Settings, balance: nat, claims: nat, weighted: nat, payout: nat)
    requires SettingsValid(s) && c.netRshares > 0 && claims > 0
    requires weighted ==
      Portion(Evaluate(s.authorCurve, c.netRshares, s.constant), c.rewardWeight, ONE_HUNDRED_PERCENT)
    requires payout == Portion(balance, weighted, claims)
    ensures var reward := MinNat(if payout < MIN_PAYOUT then 0 else payout, c.maxPayout);
      && RewardOf(c, s, balance, claims) == (if payout > INT64_MAX then None else Some(reward))
      && (payout <= INT64_MAX ==> Earns(c, s, balance, claims, reward))
  {
    hide Evaluate, Portion, MinNat, Fraction;
    assert Fraction(weighted, Evaluate(s.authorCurve, c.netRshares, s.constant), c.rewardWeight, ONE_HUNDRED_PERCENT);
    assert Fraction(payout, balance, weighted, claims);
  }

  /** There is no reward exactly when nothing is claimed, or the share does not fit 63 bits. */
  lemma NoReward(c: Comment, s: Settings, balance: nat, claims: nat, weighted: nat)
    requires SettingsValid(s) && c.netRshares > 0
    requires Fraction(weighted, Evaluate(s.authorCurve, c.netRshares, s.constant), c.rewardWeight, ONE_HUNDRED_PERCENT)
    ensures RewardOf(c, s, balance, claims).None? <==> claims == 0 || (INT64_MAX + 1) * claims <= balance * weighted
  {
    hide Evaluate, Ratio;
    var claim := ClaimOf(c, s);
    var portion := Portion(claim, c.rewardWeight, ONE_HUNDRED_PERCENT);
    SameFraction(portion, weighted, claim, c.rewardWeight, ONE_HUNDRED_PERCENT);
    if claims > 0 {
      var payout := Portion(balance, weighted, claims);
      if payout > INT64_MAX {
        MulMono(INT64_MAX + 1, payout, claims);
      } else {
        MulMono(payout + 1, INT64_MAX + 1, claims);
      }
    }
  }

  lemma SameFraction(a: nat, b: nat, amount: nat, k: nat, d: nat)
    requires Fraction(a, amount, k, d) && Fraction(b, amount, k, d)
    ensures a == b
  {
    CancelMulStrict(a, b + 1, d);
    CancelMulStrict(b, a + 1, d);
  }

  /** A reward is at most the comment's share of the fund by claims. */
  lemma RewardWithinShare(c: Comment, s: Settings, balance: nat, claims: nat)
    requires SettingsValid(s) && c.netRshares > 0 && c.rewardWeight <= ONE_HUNDRED_PERCENT
    requires RewardOf(c, s, balance, claims).Some?
    ensures RewardOf(c, s, balance, claims).value * claims <= balance * ClaimOf(c, s)
    ensures claims > 0
  {
    var claim := ClaimOf(c, s);
    var weighted := Portion(claim, c.rewardWeight, ONE_HUNDRED_PERCENT);
    var payout := Portion(balance, weighted, claims);
    CurationAtMostReward(claim, c.rewardWeight);
    QuotientBounds(balance * weighted, claims);
    MulMono(weighted, claim, balance);
    MulMono(RewardOf(c, s, balance, claims).value, payout, claims);
  }

  ghost predicate Due(c: Comment, now: int)
  {
    c.cashout.Some? && c.cashout.value <= now
  }

  ghost function DueClaim(comments: seq<Comment>, s: Settings, now: int): nat -> int
    requires SettingsValid(s)
  {
    (i: nat) => if i < |comments| && Due(comments[i], now) then ClaimOf(comments[i], s) else 0
  }

  ghost function NewComment(author: nat, now: int, cashout: int): Comment
  {
    Comment(author, now, None, Some(cashout), 0, 0, 0, 0, ONE_HUNDRED_PERCENT, 1000000000, true, true, [], [])
  }

  lemma NoteValid(c: Comment, s: Settings, place: Option<nat>, voter: nat, percent: int, now: int)
    requires SettingsValid(s) && CommentValid(c, s) && c.cashout.None? && place == VotePlace(c.votes, voter)
    ensures CommentValid(WithNote(c, s.clearVotes, place, voter, percent, now), s)
  {
  }

  lemma NoteIs(c: Comment, clearVotes: bool, place: Option<nat>, voter: nat, percent: int, now: int)
    requires place.Some? ==> place.value < |c.votes|
    ensures WithNote(c, clearVotes, place, voter, percent, now) ==
      if clearVotes then c
      else if place.None? then c.(votes := c.votes + [Vote(voter, 0, 0, percent, 0, now)])
      else c.(votes := c.votes[place.value := c.votes[place.value].(percent := percent, lastUpdate := now)])
  {
  }

  lemma SettledIs(c: Comment, clearVotes: bool, now: int)
    ensures Settled(c, clearVotes, now) == c.(netRshares := if c.netRshares > 0 then 0 else c.netRshares,
      absRshares := 0, voteRshares := 0, totalWeight := 0, cashout := None, lastPayout := Some(now),
      votes := if clearVotes then [] else c.votes)
  {
  }

  class Content {
    const settings: Settings
    var comments: seq<Comment>
    var balance: nat
    var recentClaims: nat
    var lastUpdate: int

    ghost predicate Valid()
      reads this
    {
      && SettingsValid(settings)
      && forall i :: 0 <= i < |comments| ==> CommentValid(comments[i], settings)
    }

    constructor (settings: Settings, balance: nat, recentClaims: nat, now: int)
      requires SettingsValid(settings)
      ensures Valid() && comments == [] && this.balance == balance && this.settings == settings
      ensures this.recentClaims == recentClaims && lastUpdate == now
    {
      this.settings := settings;
      this.comments := [];
      this.balance := balance;
      this.recentClaims := recentClaims;
      this.lastUpdate := now;
    }

    /** The vote evaluator, given the rshares the voter's power buys. */
    method CastVote(k: nat, voter: nat, percent: int, absRshares: nat, now: int) returns (ok: bool)
      requires Valid() && k < |comments| && comments[k].created <= now
      modifies this`comments
      ensures Valid()
      ensures old(comments)[k].cashout.Some? ==> 0 <= old(comments)[k].voteRshares
      ensures ok <==> Votable(old(comments)[k], settings, voter, percent, absRshares, now)
      ensures comments == if ok
        then old(comments)[k := AfterVote(old(comments)[k], settings, voter, percent, absRshares, now)]
        else old(comments)
    {
      hide Sum, WeightGain, Evaluate, Discounted, FirstAllowed, ChangeAllowed, WithFirst, WithChange, WithNote;
      var c := comments[k];
      assert c.cashout.Some? ==> 0 <= c.voteRshares;
      hide Weighted;
      if percent > 0 && !c.allowVotes { return false; }
      var found := FindVote(c.votes, voter);
      if c.cashout.None? {
        NoteValid(c, settings, found, voter, percent, now);
        NoteIs(c, settings.clearVotes, found, voter, percent, now);
        if !settings.clearVotes {
          var noted := c.votes + [Vote(voter, 0, 0, percent, 0, now)];
          if found.Some? {
            noted := c.votes[found.value := c.votes[found.value].(percent := percent, lastUpdate := now)];
          }
          comments := comments[k := c.(votes := noted)];
        }
        return true;
      }
      if absRshares <= VOTE_DUST_THRESHOLD && percent != 0 { return false; }
      var r;
      if found.None? {
        r := FirstVote(c, settings, voter, percent, absRshares, now);
      } else if c.votes[found.value].changes == -1 {
        return false;
      } else {
        r := ChangeVote(c, settings, found.value, percent, absRshares, now);
      }
      if r.None? { return false; }
      comments := comments[k := r.value];
      return true;
    }

    /** A new comment: nothing voted yet, full reward weight. */
    method Post(author: nat, now: int, cashout: int)
      requires Valid()
      modifies this`comments
      ensures Valid() && comments == old(comments) + [NewComment(author, now, cashout)]
    {
      comments := comments + [Comment(author, now, None, Some(cashout), 0, 0, 0, 0, ONE_HUNDRED_PERCENT, 1000000000,
                                true, true, [], [])];
    }

    /** comment_options, with the beneficiaries extension when there is one. */
    method SetOptions(k: nat, maxPayout: nat, allowVotes: bool, allowCuration: bool, beneficiaries: seq<Beneficiary>)
      returns (ok: bool)
      requires Valid() && k < |comments|
      requires forall i :: 0 <= i < |beneficiaries| ==> beneficiaries[i].weight < 0x1_0000
      modifies this`comments
      ensures Valid() && |comments| == |old(comments)|
      ensures !ok ==> comments == old(comments)
      ensures ok <==> var c := old(comments)[k];
        && ((!allowCuration || !allowVotes || maxPayout < c.maxPayout) ==> c.absRshares == 0)
        && (allowVotes ==> c.allowVotes) && (allowCuration ==> c.allowCuration) && maxPayout <= c.maxPayout
        && (beneficiaries != [] ==>
              && |beneficiaries| < 128 && Ascending(beneficiaries)
                && Sum(|beneficiaries|, ShareAt(beneficiaries)) <= ONE_HUNDRED_PERCENT
              && c.beneficiaries == [] && c.absRshares == 0)
      ensures ok ==> var c := old(comments)[k];
        && (allowVotes ==> c.allowVotes) && (allowCuration ==> c.allowCuration) && maxPayout <= c.maxPayout
        && (beneficiaries != [] ==> c.beneficiaries == [] && c.absRshares == 0)
        && comments == old(comments)[k := c.(maxPayout := maxPayout, allowVotes := allowVotes,
          allowCuration := allowCuration,
             beneficiaries := if beneficiaries == [] then c.beneficiaries else beneficiaries)]
    {
      var c := comments[k];
      if (!allowCuration || !allowVotes || maxPayout < c.maxPayout) && c.absRshares != 0 { return false; }
      if (allowCuration && !c.allowCuration) || (allowVotes && !c.allowVotes)
        || c.maxPayout < maxPayout { return false; }
      c := c.(maxPayout := maxPayout, allowVotes := allowVotes, allowCuration := allowCuration);
      if beneficiaries != [] {
        var valid := ValidateBeneficiaries(beneficiaries);
        if !valid || c.beneficiaries != [] || c.absRshares != 0 { return false; }
        c := c.(beneficiaries := beneficiaries);
      }
      comments := comments[k := c];
      return true;
    }

    /** First half of process_comment_cashout: old claims decay, the due ones are added. */
    method CollectClaims(now: int)
      requires Valid() && lastUpdate <= now
      modifies this`recentClaims, this`lastUpdate
      ensures recentClaims == Decayed(old(recentClaims), now - old(lastUpdate))
                              + Sum(|comments|, DueClaim(comments, settings, now))
      ensures lastUpdate == now
    {
      recentClaims := Decayed(recentClaims, now - lastUpdate);
      lastUpdate := now;
      ghost var decayed := recentClaims;
      var i := 0;
      while i < |comments|
        invariant 0 <= i <= |comments|
        invariant recentClaims == decayed + Sum(i, DueClaim(comments, settings, now)) && lastUpdate == now
      {
        var c := comments[i];
        if c.cashout.Some? && c.cashout.value <= now && c.netRshares > 0 {
          recentClaims := recentClaims + Evaluate(settings.authorCurve, c.netRshares, settings.constant);
        }
        i := i + 1;
      }
    }

    /**
      process_comment_cashout: every due comment is paid from one snapshot of
      the fund, and together the payouts never exceed it.  Each reward is split
      among curators, beneficiaries and author, and everybody gets their shares.
     */
    method ProcessCashout(now: int) returns (ok: bool, payments: seq<(nat, nat)>, ghost splits: seq<Split>)
      requires Valid() && lastUpdate <= now
      modifies this`comments, this`balance, this`recentClaims, this`lastUpdate
      ensures ok ==> Valid() && |comments| == |old(comments)|
      ensures ok ==> balance + Paying(payments) == old(balance)
      ensures var claims := ClaimsAt(old(comments), settings, now, old(recentClaims), now - old(lastUpdate));
        && 0 <= claims && (ok <==> AllRewardable(old(comments), settings, now, old(balance), claims))
        && (ok ==> recentClaims == claims)
        && (ok ==> payments == BlockPayments(old(comments), settings, now, old(balance), claims, |old(comments)|))
        && (ok ==> AllSplit(old(comments), settings, now, old(balance), claims, splits))
      ensures ok ==> |splits| == |old(comments)| && AllReceive(payments, old(comments), splits, now)
      ensures ok ==> forall i :: 0 <= i < |comments| ==>
        comments[i] == if Due(old(comments)[i], now)
          then Settled(old(comments)[i], settings.clearVotes, now) else old(comments)[i]
    {
      hide CommentValid, ClaimOf, DueClaim, Settled, Paying, Sum, PaymentsFor, BlockPayments, RewardOf, Covered,
        Progressed, AllRewardable, RewardableUpTo, Rewardable, Splits, WithinPercent, AllSplit, AllReceive,
        PaidAsSplit;
      payments, splits := [], [];
      ClaimsAtNonNegative(comments, settings, now, recentClaims, now - lastUpdate);
      CollectClaims(now);
      ghost var was := comments;
      ghost var due, claims := DueClaim(comments, settings, now), recentClaims;
      NothingDueYet(was, settings, now, balance, claims);
      var awarded: nat := 0;
      var i := 0;
      while i < |comments|
        invariant 0 <= i <= |comments| == |was| && Progressed(was, comments, settings, now, i)
        invariant recentClaims == claims && balance == old(balance)
        invariant payments == BlockPayments(was, settings, now, balance, claims, i) && Paying(payments) == awarded
        invariant RewardableUpTo(was, settings, now, balance, claims, i)
        invariant Covered(awarded, claims, balance, Sum(i, due))
        invariant |splits| == i && AllSplit(was, settings, now, balance, claims, splits)
        invariant AllReceive(payments, was, splits, now)
      {
        ghost var before := comments;
        var c := comments[i];
        ProgressAt(was, comments, settings, now, i);
        DueStep(was, settings, now, i, i + 1);
        BlockPaymentsStep(was, settings, now, balance, claims, i);
        RewardableStep(was, settings, now, balance, claims, i);
        ghost var d := Split(0, 0, [], [], 0);
        ghost var earlier := payments;
        if c.cashout.Some? && c.cashout.value <= now {
          var claimed, paid;
          ok, claimed, paid, d := CashoutComment(c, settings, balance, recentClaims);
          if !ok { return; }
          ReceiveMore(earlier, paid, was, splits, now, d);
          AwardStep(awarded, claimed, claims, balance, Sum(i, due), ClaimOf(c, settings));
          PayingBoth(payments, paid);
          payments := payments + paid;
          awarded := awarded + claimed;
          SettledIs(c, settings.clearVotes, now);
          comments := comments[i := c.(netRshares := if c.netRshares > 0 then 0 else c.netRshares, absRshares := 0,
            voteRshares := 0, totalWeight := 0, cashout := None, lastPayout := Some(now),
            votes := if settings.clearVotes then [] else c.votes)];
        } else {
          ReceiveSame(payments, was, splits, now, d);
        }
        SplitMore(was, settings, now, balance, claims, splits, d);
        splits := splits + [d];
        ProgressStep(was, before, comments, settings, now, i);
        i := i + 1;
      }
      ProgressEnd(was, comments, settings, now, balance, claims);
      DueWithinClaims(awarded, recentClaims, balance, Sum(|was|, due));
      balance := balance - awarded;
      ok := true;
    }

    /** The cashout of a block: all of it, or nothing. */
    method Cashout(now: int) returns (payments: seq<(nat, nat)>)
      requires Valid()
      modifies this
      ensures Valid() && |comments| == |old(comments)| && balance + Paying(payments) == old(balance)
      ensures old(lastUpdate) > now ==> payments == []
      ensures old(lastUpdate) <= now ==>
        var claims := ClaimsAt(old(comments), settings, now, old(recentClaims), now - old(lastUpdate));
        && 0 <= claims
        && payments == if AllRewardable(old(comments), settings, now, old(balance), claims)
           then BlockPayments(old(comments), settings, now, old(balance), claims, |old(comments)|) else []
    {
      hide CommentValid;
      payments := [];
      if lastUpdate <= now {
        var kept, fund, claims, last := comments, balance, recentClaims, lastUpdate;
        var ok;
        ghost var splits;
        ok, payments, splits := ProcessCashout(now);
        if !ok {
          comments, balance, recentClaims, lastUpdate, payments := kept, fund, claims, last, [];
        }
      }
    }

    /**
      Over any run of posts, votes, options, funding and cashouts the weights stay
      in order, and the fund pays out exactly what it no longer has.
     */
    method Run(events: seq<Event>) returns (funded: nat, payments: seq<(nat, nat)>)
      requires Valid()
      modifies this
      ensures Valid() && old(balance) + funded == balance + Paying(payments)
    {
      hide CommentValid;
      funded, payments := 0, [];
      for i := 0 to |events|
        invariant Valid() && old(balance) + funded == balance + Paying(payments)
      {
        match events[i] {
          case Posted(author, now, cashout) => Post(author, now, cashout);
          case Voted(k, voter, percent, absRshares, now) =>
            if k < |comments| && comments[k].created <= now {
              var _ := CastVote(k, voter, percent, absRshares, now);
            }
          case OptionsSet(k, maxPayout, allowVotes, allowCuration, beneficiaries) =>
            if k < |comments| && forall b :: b in beneficiaries ==> b.weight < 0x1_0000 {
              var _ := SetOptions(k, maxPayout, allowVotes, allowCuration, beneficiaries);
            }
          case Funded(amount) =>
            balance, funded := balance + amount, funded + amount;
          case CashedOut(now) =>
            var more := Cashout(now);
            PayingBoth(payments, more);
            payments := payments + more;
        }
      }
    }
  }

  datatype Event =
    | Posted(author: nat, now: int, cashout: int)
    | Voted(comment: nat, voter: nat, percent: int, absRshares: nat, now: int)
    | OptionsSet(comment: nat, maxPayout: nat, allowVotes: bool, allowCuration: bool, beneficiaries: seq<Beneficiary>)
    | Funded(amount: nat)
    | CashedOut(now: int)

  /** What one comment's payout pays, against a snapshot of fund and claims. */
  ghost function PaymentsFor(c: Comment, s: Settings, balance: nat, claims: nat): seq<(nat, nat)>
    requires SettingsValid(s)
  {
    if c.netRshares > 0 && RewardOf(c, s, balance, claims).Some?
      then Division(c, s, RewardOf(c, s, balance, claims).value) else []
  }

  /** What a block's payouts pay: the due comments one after the other, all against the same snapshot. */
  ghost function BlockPayments(comments: seq<Comment>, s: Settings, now: int, balance: nat, claims: nat,
                               n: nat): seq<(nat, nat)>
    requires SettingsValid(s) && n <= |comments|
  {
    if n == 0 then []
    else BlockPayments(comments, s, now, balance, claims, n - 1)
         + (if Due(comments[n - 1], now) then PaymentsFor(comments[n - 1], s, balance, claims) else [])
  }

  /** The claims that a block's payouts are measured by: the old ones, decayed, and the due ones. */
  ghost function ClaimsAt(comments: seq<Comment>, s: Settings, now: int, recent: nat, elapsed: nat): int
    requires SettingsValid(s)
  {
    Decayed(recent, elapsed) + Sum(|comments|, DueClaim(comments, s, now))
  }

  lemma ClaimsAtPositive(comments: seq<Comment>, s: Settings, now: int, recent: nat, elapsed: nat, i: nat)
    requires SettingsValid(s) && i < |comments| && Due(comments[i], now)
    ensures ClaimOf(comments[i], s) <= ClaimsAt(comments, s, now, recent, elapsed)
  {
    TermAtMostSum(|comments|, DueClaim(comments, s, now), i);
  }

  lemma ClaimsAtNonNegative(comments: seq<Comment>, s: Settings, now: int, recent: nat, elapsed: nat)
    requires SettingsValid(s)
    ensures 0 <= ClaimsAt(comments, s, now, recent, elapsed)
  {
    SumNonNegative(|comments|, DueClaim(comments, s, now));
  }

  /** Every due comment with support has a reward that fits. */
  ghost predicate AllRewardable(comments: seq<Comment>, s: Settings, now: int, balance: nat, claims: nat)
    requires SettingsValid(s)
  {
    forall i :: 0 <= i < |comments| ==> Rewardable(comments[i], s, now, balance, claims)
  }

  ghost predicate Rewardable(c: Comment, s: Settings, now: int, balance: nat, claims: nat)
    requires SettingsValid(s)
  {
    Due(c, now) && c.netRshares > 0 ==> RewardOf(c, s, balance, claims).Some?
  }

  ghost predicate RewardableUpTo(comments: seq<Comment>, s: Settings, now: int, balance: nat, claims: nat, n: nat)
    requires SettingsValid(s) && n <= |comments|
  {
    forall i :: 0 <= i < n ==> Rewardable(comments[i], s, now, balance, claims)
  }

  lemma RewardableStep(comments: seq<Comment>, s: Settings, now: int, balance: nat, claims: nat, i: nat)
    requires SettingsValid(s) && i < |comments| && RewardableUpTo(comments, s, now, balance, claims, i)
    ensures RewardableUpTo(comments, s, now, balance, claims, i + 1) <==>
      Rewardable(comments[i], s, now, balance, claims)
    ensures Rewardable(comments[i], s, now, balance, claims) <==>
      (Due(comments[i], now) && comments[i].netRshares > 0 ==> RewardOf(comments[i], s, balance, claims).Some?)
    ensures !Rewardable(comments[i], s, now, balance, claims) ==> !AllRewardable(comments, s, now, balance, claims)
  {
    hide Rewardable;
    RewardableIs(comments[i], s, now, balance, claims);
  }

  lemma RewardableIs(c: Comment, s: Settings, now: int, balance: nat, claims: nat)
    requires SettingsValid(s)
    ensures Rewardable(c, s, now, balance, claims) <==>
      (Due(c, now) && c.netRshares > 0 ==> RewardOf(c, s, balance, claims).Some?)
  {
  }

  /** The first n comments are settled where they were due; the others wait. */
  ghost predicate Progressed(was: seq<Comment>, comments: seq<Comment>, s: Settings, now: int, n: nat)
    requires SettingsValid(s)
  {
    && |comments| == |was|
    && forall j :: 0 <= j < |was| ==>
         && CommentValid(comments[j], s)
         && comments[j] == if j < n && Due(was[j], now) then Settled(was[j], s.clearVotes, now) else was[j]
  }

  lemma ProgressAt(was: seq<Comment>, comments: seq<Comment>, s: Settings, now: int, i: nat)
    requires SettingsValid(s) && Progressed(was, comments, s, now, i) && i < |was|
    ensures |comments| == |was| && comments[i] == was[i] && CommentValid(was[i], s)
    ensures was[i].rewardWeight <= ONE_HUNDRED_PERCENT
  {
    CashoutValid(was[i], s, now);
  }

  lemma ProgressStep(was: seq<Comment>, before: seq<Comment>, after: seq<Comment>, s: Settings, now: int, i: nat)
    requires SettingsValid(s) && Progressed(was, before, s, now, i) && i < |was| == |before|
    requires after == if Due(was[i], now) then before[i := Settled(was[i], s.clearVotes, now)] else before
    ensures Progressed(was, after, s, now, i + 1)
  {
    hide CommentValid, Settled;
    ProgressAt(was, before, s, now, i);
    CashoutValid(was[i], s, now);
  }

  lemma ProgressEnd(was: seq<Comment>, comments: seq<Comment>, s: Settings, now: int, balance: nat, claims: nat)
    requires SettingsValid(s) && Progressed(was, comments, s, now, |was|)
    requires RewardableUpTo(was, s, now, balance, claims, |was|)
    ensures |comments| == |was| && AllRewardable(was, s, now, balance, claims)
    ensures forall i :: 0 <= i < |comments| ==>
      && CommentValid(comments[i], s)
      && comments[i] == if Due(was[i], now) then Settled(was[i], s.clearVotes, now) else was[i]
  {
    hide CommentValid, Settled;
  }

  lemma BlockPaymentsStep(comments: seq<Comment>, s: Settings, now: int, balance: nat, claims: nat, i: nat)
    requires SettingsValid(s) && i < |comments|
    ensures BlockPayments(comments, s, now, balance, claims, i + 1)
      == BlockPayments(comments, s, now, balance, claims, i)
         + (if Due(comments[i], now) then PaymentsFor(comments[i], s, balance, claims) else [])
  {
  }

  /** A cashout cannot fail while the fund fits 63 bits and every comment with support has a claim. */
  lemma CashoutCannotFail(comments: seq<Comment>, s: Settings, now: int, balance: nat, recent: nat, elapsed: nat,
                          claims: nat)
    requires SettingsValid(s) && balance <= INT64_MAX && claims == ClaimsAt(comments, s, now, recent, elapsed)
    requires forall i :: 0 <= i < |comments| ==> comments[i].rewardWeight <= ONE_HUNDRED_PERCENT
    requires forall i :: 0 <= i < |comments| && Due(comments[i], now) && comments[i].netRshares > 0 ==>
      ClaimOf(comments[i], s) > 0
    ensures AllRewardable(comments, s, now, balance, claims)
  {
    forall i | 0 <= i < |comments| && Due(comments[i], now) && comments[i].netRshares > 0
      ensures RewardOf(comments[i], s, balance, claims).Some?
    {
      hide ClaimOf, ClaimsAt;
      ClaimsAtPositive(comments, s, now, recent, elapsed, i);
      RewardFits(comments[i], s, balance, claims);
    }
  }

  lemma RewardFits(c: Comment, s: Settings, balance: nat, claims: nat)
    requires SettingsValid(s) && c.netRshares > 0 && c.rewardWeight <= ONE_HUNDRED_PERCENT
    requires 0 < ClaimOf(c, s) <= claims && balance <= INT64_MAX
    ensures RewardOf(c, s, balance, claims).Some?
  {
    hide ClaimOf;
    var claim := ClaimOf(c, s);
    var weighted := Portion(claim, c.rewardWeight, ONE_HUNDRED_PERCENT);
    CurationAtMostReward(claim, c.rewardWeight);
    QuotientBounds(balance * weighted, claims);
    MulMono(weighted, claims, balance);
    CancelMul((balance * weighted) / claims, balance, claims);
  }

  /** One comment's payout against a snapshot of fund and claims. */
  method CashoutComment(c: Comment, s: Settings, balance: nat, claims: nat)
    returns (ok: bool, claimed: nat, payments: seq<(nat, nat)>, ghost d: Split)
    requires SettingsValid(s) && CommentValid(c, s) && c.cashout.Some?
    ensures ok <==> c.netRshares > 0 ==> RewardOf(c, s, balance, claims).Some?
    ensures ok ==> Paying(payments) == claimed && claimed * claims <= balance * ClaimOf(c, s)
    ensures ok ==> claimed > 0 ==> claims > 0
    ensures ok ==> claimed == d.reward - (if c.allowCuration then 0 else d.budget)
    ensures ok ==> payments == PaymentsFor(c, s, balance, claims)
    ensures ok ==> Splits(c, s, balance, claims, d) && WithinPercent(s.curationPercent, d)
    ensures ok ==> PaidAsSplit(payments, c, d)
  {
    hide Division, ClaimOf, RewardOf, CuratorsShare, AuthorShares, WithinPercent, PaidAsSplit, Evaluate;
    var reward: nat := 0;
    if c.netRshares > 0 {
      var earned := RshareReward(c, s, balance, claims);
      d := SplitOf(c, s.curationPercent, 0);
      if earned.None? { return false, 0, [], d; }
      reward := earned.value;
      RewardWithinShare(c, s, balance, claims);
    }
    claimed, payments, d := DivideReward(c, s, reward);
    if c.netRshares > 0 {
      MulMono(claimed, reward, claims);
    } else {
      DivisionOfNothing(c, s);
    }
    ok := true;
  }

  /** What was awarded so far is within the share of the claims met so far. */
  ghost predicate Covered(awarded: nat, claims: nat, balance: nat, sum: int)
  {
    awarded * claims <= balance * sum && (claims == 0 ==> awarded == 0)
  }

  /** Each of the first comments that is due has its reward split as it should be. */
  ghost predicate AllSplit(comments: seq<Comment>, s: Settings, now: int, balance: nat, claims: nat, splits: seq<Split>)
    requires SettingsValid(s)
  {
    && |splits| <= |comments|
    && forall i :: 0 <= i < |splits| && Due(comments[i], now) ==>
         Splits(comments[i], s, balance, claims, splits[i]) && WithinPercent(s.curationPercent, splits[i])
  }

  /** What x gets of the comments that are due. */
  ghost function BlockReceives(comments: seq<Comment>, splits: seq<Split>, now: int, x: nat): int
    requires |splits| <= |comments|
  {
    if splits == [] then 0
    else
      var k := |splits| - 1;
      BlockReceives(comments, splits[..k], now, x) + if Due(comments[k], now) then Receives(comments[k], splits[k], x)
        else 0
  }

  /** Everybody is paid what the splits give them. */
  ghost predicate AllReceive(payments: seq<(nat, nat)>, comments: seq<Comment>, splits: seq<Split>, now: int)
  {
    |splits| <= |comments| && forall x: nat :: PaidTo(payments, x) == BlockReceives(comments, splits, now, x)
  }

  lemma SplitMore(comments: seq<Comment>, s: Settings, now: int, balance: nat, claims: nat, splits: seq<Split>,
                  d: Split)
    requires SettingsValid(s) && |splits| < |comments| && AllSplit(comments, s, now, balance, claims, splits)
    requires Due(comments[|splits|], now) ==>
      Splits(comments[|splits|], s, balance, claims, d) && WithinPercent(s.curationPercent, d)
    ensures AllSplit(comments, s, now, balance, claims, splits + [d])
  {
    hide Splits, WithinPercent;
  }

  lemma ReceiveMore(payments: seq<(nat, nat)>, more: seq<(nat, nat)>, comments: seq<Comment>, splits: seq<Split>,
                    now: int, d: Split)
    requires |splits| < |comments| && AllReceive(payments, comments, splits, now) && Due(comments[|splits|], now)
    requires PaidAsSplit(more, comments[|splits|], d)
    ensures AllReceive(payments + more, comments, splits + [d], now)
  {
    hide PaidTo, Receives;
    forall x: nat
      ensures PaidTo(payments + more, x) == BlockReceives(comments, splits + [d], now, x)
    {
      PaidToBoth(payments, more, x);
      assert (splits + [d])[..|splits|] == splits;
    }
  }

  lemma ReceiveSame(payments: seq<(nat, nat)>, comments: seq<Comment>, splits: seq<Split>, now: int, d: Split)
    requires |splits| < |comments| && AllReceive(payments, comments, splits, now) && !Due(comments[|splits|], now)
    ensures AllReceive(payments, comments, splits + [d], now)
  {
    hide PaidTo, Receives;
    forall x: nat
      ensures PaidTo(payments, x) == BlockReceives(comments, splits + [d], now, x)
    {
      assert (splits + [d])[..|splits|] == splits;
    }
  }

  lemma NothingDueYet(comments: seq<Comment>, s: Settings, now: int, balance: nat, claims: nat)
    requires SettingsValid(s) && forall i :: 0 <= i < |comments| ==> CommentValid(comments[i], s)
    ensures Covered(0, claims, balance, Sum(0, DueClaim(comments, s, now))) && Paying([]) == 0
    ensures Progressed(comments, comments, s, now, 0) && RewardableUpTo(comments, s, now, balance, claims, 0)
    ensures BlockPayments(comments, s, now, balance, claims, 0) == []
    ensures AllSplit(comments, s, now, balance, claims, []) && AllReceive([], comments, [], now)
  {
    hide CommentValid;
  }

  lemma DueStep(comments: seq<Comment>, s: Settings, now: int, i: nat, m: nat)
    requires SettingsValid(s) && i < |comments| && m == i + 1
    ensures Sum(m, DueClaim(comments, s, now))
      == Sum(i, DueClaim(comments, s, now)) + (if Due(comments[i], now) then ClaimOf(comments[i], s) else 0)
  {
  }

  /** Recent claims fade linearly; after a full period of silence the source skips the decay. */
  function Decayed(claims: nat, elapsed: nat): (r: nat)
    ensures r <= claims
    ensures elapsed < DECAY_SECONDS ==> Fraction(claims - r, claims, elapsed, DECAY_SECONDS)
    ensures elapsed >= DECAY_SECONDS ==> r == claims
  {
    if elapsed < DECAY_SECONDS then
      DecayAtMost(claims, elapsed);
      claims - Ratio(claims * elapsed, DECAY_SECONDS)
    else claims
  }

  lemma DecayAtMost(claims: nat, elapsed: nat)
    requires elapsed < DECAY_SECONDS
    ensures Ratio(claims * elapsed, DECAY_SECONDS) <= claims
  {
    QuotientBounds(claims * elapsed, DECAY_SECONDS);
    MulMono(elapsed, DECAY_SECONDS, claims);
    CancelMul(Ratio(claims * elapsed, DECAY_SECONDS), claims, DECAY_SECONDS);
  }

  lemma CashoutValid(c: Comment, s: Settings, now: int)
    requires SettingsValid(s) && CommentValid(c, s)
    ensures c.rewardWeight <= ONE_HUNDRED_PERCENT
    ensures CommentValid(Settled(c, s.clearVotes, now), s)
  {
  }

  lemma AwardStep(awarded: nat, claimed: nat, claims: nat, balance: nat, sum: int, claim: nat)
    requires Covered(awarded, claims, balance, sum) && claimed * claims <= balance * claim
      && (claims == 0 ==> claimed == 0)
    ensures Covered(awarded + claimed, claims, balance, sum + claim)
  {
    assert (awarded + claimed) * claims == awarded * claims + claimed * claims;
    assert balance * (sum + claim) == balance * sum + balance * claim;
  }

  lemma DueWithinClaims(awarded: nat, claims: nat, balance: nat, sum: int)
    requires Covered(awarded, claims, balance, sum) && sum <= claims
    ensures awarded <= balance
  {
    if claims > 0 {
      MulMono(sum, claims, balance);
      CancelMul(awarded, balance, claims);
    }
  }

  // ------------------------------------------------------------- beneficiaries

  ghost predicate Ascending(b: seq<Beneficiary>)
  {
    forall i :: 0 < i < |b| ==> b[i - 1].account < b[i].account
  }

  /** comment_payout_beneficiaries::validate, with its 32-bit running sum. */
  method ValidateBeneficiaries(b: seq<Beneficiary>) returns (ok: bool)
    requires forall i :: 0 <= i < |b| ==> b[i].weight < 0x1_0000
    ensures ok <==> 0 < |b| < 128 && Ascending(b) && Sum(|b|, ShareAt(b)) <= ONE_HUNDRED_PERCENT
    ensures ok ==> forall i, j :: 0 <= i < j < |b| ==> b[i].account != b[j].account
  {
    if |b| == 0 || |b| >= 128 { return false; }
    var sum: nat := 0;
    var i := 0;
    while i < |b|
      invariant 0 <= i <= |b|
      invariant sum == Sum(i, ShareAt(b)) && sum <= ONE_HUNDRED_PERCENT
      invariant forall k :: 0 < k < i ==> b[k - 1].account < b[k].account
    {
      PrefixOfShares(b, i + 1);
      if b[i].weight > ONE_HUNDRED_PERCENT { return false; }
      sum := (sum + b[i].weight) % 0x1_0000_0000;
      if sum > ONE_HUNDRED_PERCENT { return false; }
      if i > 0 && !(b[i - 1].account < b[i].account) { return false; }
      i := i + 1;
    }
    AscendingDistinct(b);
    return true;
  }

  lemma PrefixOfShares(b: seq<Beneficiary>, k: nat)
    requires 0 < k <= |b|
    ensures Sum(k, ShareAt(b)) <= Sum(|b|, ShareAt(b))
    ensures b[k - 1].weight <= Sum(k, ShareAt(b))
  {
    SumNonNegative(k - 1, ShareAt(b));
    PrefixAtMost(k, |b|, ShareAt(b));
  }

  lemma AscendingDistinct(b: seq<Beneficiary>)
    requires Ascending(b)
    ensures forall i, j :: 0 <= i < j < |b| ==> b[i].account < b[j].account
  {
    forall i, j | 0 <= i < j < |b|
      ensures b[i].account < b[j].account
    {
      AscendingPair(b, i, j);
    }
  }

  lemma {:induction false} AscendingPair(b: seq<Beneficiary>, i: nat, j: nat)
    requires Ascending(b) && i < j < |b|
    ensures b[i].account < b[j].account
    decreases j
  {
    if i < j - 1 {
      AscendingPair(b, i, j - 1);
    }
  }
}
