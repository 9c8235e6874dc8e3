/**
  The ledger and the content rewards as one chain: what a block's cashout pays
  leaves the reward fund of the ledger (process_comment_cashout and process_funds in
  libraries/chain/database.cpp).
 */
module Economy {
  import opened Options
  import opened Payments
  import opened Stake
  import opened Vesting
  import opened Books
  import opened Snapshots
  import opened Operations
  import opened Ledger
  import Rewards

  /** Author, voters and beneficiaries of a comment are among the first n accounts. */
  ghost predicate Known(c: Rewards.Comment, n: nat)
  {
    && c.author < n
    && (forall i :: 0 <= i < |c.votes| ==> c.votes[i].voter < n)
    && (forall i :: 0 <= i < |c.beneficiaries| ==> c.beneficiaries[i].account < n)
  }

  ghost predicate AllKnown(comments: seq<Rewards.Comment>, n: nat)
  {
    forall i :: 0 <= i < |comments| ==> Known(comments[i], n)
  }

  ghost predicate PayeesBelow(payments: seq<(nat, nat)>, n: nat)
  {
    forall k :: 0 <= k < |payments| ==> payments[k].0 < n
  }

  lemma PayeesJoin(a: seq<(nat, nat)>, b: seq<(nat, nat)>, n: nat)
    requires PayeesBelow(a, n) && PayeesBelow(b, n)
    ensures PayeesBelow(a + b, n)
  {
  }

  lemma {:induction false} ClaimsBelow(votes: seq<Rewards.Vote>, budget: nat, total: nat, k: nat, n: nat)
    requires total > 0 && k <= |votes| && forall i :: 0 <= i < |votes| ==> votes[i].voter < n
    ensures PayeesBelow(Rewards.Claims(votes, budget, total, k), n)
  {
    if k > 0 {
      ClaimsBelow(votes, budget, total, k - 1, n);
    }
  }

  lemma {:induction false} BeneficiariesBelow(b: seq<Rewards.Beneficiary>, amount: nat, k: nat, n: nat)
    requires k <= |b| && forall i :: 0 <= i < |b| ==> b[i].account < n
    ensures PayeesBelow(Rewards.BeneficiaryPayments(b, amount, k), n)
  {
    if k > 0 {
      BeneficiariesBelow(b, amount, k - 1, n);
    }
  }

  lemma DivisionBelow(c: Rewards.Comment, s: Rewards.Settings, reward: nat, n: nat)
    requires Known(c, n)
    ensures PayeesBelow(Rewards.Division(c, s, reward), n)
  {
    hide Rewards.Claims, Rewards.BeneficiaryPayments, Rewards.Listed, Paying;
    if reward > 0 {
      var curation := Rewards.Budget(s.curationPercent, reward);
      var toCurators := Rewards.CuratorPayments(c, curation);
      if c.allowCuration && c.totalWeight > 0 {
        ClaimsBelow(c.votes, curation, c.totalWeight, |c.votes|, n);
      }
      var author := reward - curation + (if c.allowCuration then curation - Paying(toCurators) else 0);
      if author >= 0 {
        var toBeneficiaries := Rewards.BeneficiaryPayments(c.beneficiaries, author, |c.beneficiaries|);
        BeneficiariesBelow(c.beneficiaries, author, |c.beneficiaries|, n);
        if author - Paying(toBeneficiaries) >= 0 {
          ListedBelow(toCurators, toBeneficiaries, c.author, author - Paying(toBeneficiaries), n);
        }
      }
    }
  }

  lemma ListedBelow(a: seq<(nat, nat)>, b: seq<(nat, nat)>, x: nat, amount: nat, n: nat)
    requires PayeesBelow(a, n) && PayeesBelow(b, n) && x < n
    ensures PayeesBelow(Rewards.Listed(a, b, x, amount), n)
  {
  }

  /** Whoever a block's cashout pays exists. */
  lemma {:induction false} PaymentsBelow(comments: seq<Rewards.Comment>, s: Rewards.Settings, now: int, balance: nat,
                                         claims: nat, k: nat, n: nat)
    requires Rewards.SettingsValid(s) && k <= |comments| && AllKnown(comments, n)
    ensures PayeesBelow(Rewards.BlockPayments(comments, s, now, balance, claims, k), n)
  {
    hide Known, Rewards.Division, Rewards.RewardOf;
    if k > 0 {
      PaymentsBelow(comments, s, now, balance, claims, k - 1, n);
      var c := comments[k - 1];
      if Rewards.Due(c, now) && c.netRshares > 0 && Rewards.RewardOf(c, s, balance, claims).Some? {
        DivisionBelow(c, s, Rewards.RewardOf(c, s, balance, claims).value, n);
      }
      PayeesJoin(Rewards.BlockPayments(comments, s, now, balance, claims, k - 1),
                 if Rewards.Due(c, now) then Rewards.PaymentsFor(c, s, balance, claims) else [], n);
    }
  }

  // ------------------------------------------------------- what keeps the parties known

  lemma VoteKnown(c: Rewards.Comment, s: Rewards.Settings, voter: nat, percent: int, absRshares: nat, now: int, n: nat)
    requires Rewards.SettingsValid(s) && c.created <= now && (c.cashout.Some? ==> 0 <= c.voteRshares)
    requires Known(c, n) && voter < n
    ensures Known(Rewards.AfterVote(c, s, voter, percent, absRshares, now), n)
  {
    hide Rewards.WeightGain, Rewards.Discounted, Rewards.VotePlace;
  }

  lemma SettledKnown(c: Rewards.Comment, clearVotes: bool, now: int, n: nat)
    requires Known(c, n)
    ensures Known(Rewards.Settled(c, clearVotes, now), n)
  {
  }

  lemma MoreKnown(comments: seq<Rewards.Comment>, n: nat, m: nat)
    requires AllKnown(comments, n) && n <= m
    ensures AllKnown(comments, m)
  {
    forall i | 0 <= i < |comments|
      ensures Known(comments[i], m)
    {
      assert Known(comments[i], n);
    }
  }

  /** The payments of a pass never touch the reward fund. */
  lemma {:induction false} PassFund(s: Snapshot, cur: Option<nat>, now: int, t: Snapshot)
    requires Passes(s, cur, now, t)
    ensures t.rewardFund == s.rewardFund && |t.accounts| == |s.accounts|
    decreases Left(s.accounts)
  {
    hide Left, IsDue, Successor, Payable, InstalmentPaid, StakeHolds;
    if cur.Some? && cur.value < |s.accounts| && IsDue(s.accounts[cur.value], now) {
      DueHasNext(s.accounts[cur.value], now);
      var u :| Pays(s, cur.value, u) && Left(u.accounts) < Left(s.accounts)
               && Passes(u, Successor(s.accounts, cur.value), now, t);
      PaysInstalment(s, cur.value, u);
      PassFund(u, Successor(s.accounts, cur.value), now, t);
    }
  }

  lemma EffectFund(s: Snapshot, op: Operation)
    requires Admits(op, s) && !op.PayRewards? && !op.ProcessWithdrawals?
    ensures |s.accounts| <= |Effect(op, s).accounts|
    ensures Effect(op, s).rewardFund == s.rewardFund + Funding(op, s)
  {
    hide ToVests, ToSteem, SharePrice, PercentOf, ChainFree, Weight, ClaimedSteem, IssueOf;
  }

  /** What a step puts into the reward fund. */
  ghost function Funding(op: Operation, s: Snapshot): nat
  {
    if op.ProcessFunds? && Admits(op, s) then IssueOf(s.gpo.supply, op.rate, op.weight, op.normalization).content else 0
  }

  /** Apart from reward payments only the issue of a block moves the reward fund, and only up. */
  lemma StepFund(s: Snapshot, op: Operation, t: Snapshot)
    requires Step(s, op, t) && !op.PayRewards?
    ensures |s.accounts| <= |t.accounts| && t.rewardFund == s.rewardFund + Funding(op, s)
  {
    hide Consistent, Admits, Effect, Passes, NextAmong, IssueOf;
    if Admits(op, s) {
      if op.ProcessWithdrawals? {
        PassFund(s, NextAmong(s.accounts, None, |s.accounts|), op.now, t);
      } else {
        EffectFund(s, op);
      }
    }
  }

  datatype Event =
    | Operated(op: Operation)
    | Posted(author: nat, now: int, cashout: int)
    | Voted(comment: nat, voter: nat, percent: int, absRshares: nat, now: int)
    | OptionsSet(comment: nat, maxPayout: nat, allowVotes: bool, allowCuration: bool,
      beneficiaries: seq<Rewards.Beneficiary>)
    | CashedOut(now: int)

  class Node {
    const db: Database
    const content: Rewards.Content

    /** The content module's fund is the ledger's, and everybody that content names has an account. */
    ghost predicate Valid()
      reads this, db, content
    {
      && db.Valid() && content.Valid()
      && db.rewardFund == content.balance
      && AllKnown(content.comments, |db.accounts|)
    }

    constructor (supply: nat, settings: Rewards.Settings, now: int)
      requires supply >= 1000 && Rewards.SettingsValid(settings)
      ensures Valid() && fresh(db) && fresh(content)
    {
      hide StakeHolds, AccountsValid, BooksBut, RoutesValid, Owned;
      var d := new Database(supply);
      var c := new Rewards.Content(settings, 0, 0, now);
      db, content := d, c;
    }

    /** Any step of the ledger but reward payments; the issue of a block also reaches the content fund. */
    method Operate(op: Operation) returns (ok: bool)
      requires Valid()
      modifies db, content`balance
      ensures Valid()
      ensures op.PayRewards? ==> !ok && db.Now() == old(db.Now())
      ensures !op.PayRewards? ==> (ok <==> Admits(op, old(db.Now()))) && Step(old(db.Now()), op, db.Now())
      ensures content.balance == old(content.balance) + Funding(op, old(db.Now()))
    {
      hide StakeHolds, AccountsValid, BooksBut, RoutesValid, Owned, Step, Admits, WorthStep, Rewards.CommentValid,
        Known, IssueOf;
      if op.PayRewards? {
        NoFunding(op, db.Now());
        return false;
      }
      ghost var s := db.Now();
      ok := db.Apply(op);
      StepFund(s, op, db.Now());
      MoreKnown(content.comments, |s.accounts|, |db.accounts|);
      content.balance := db.rewardFund;
    }

    /** Every due comment with support has a reward that fits, against the fund and the claims of this block. */
    ghost predicate Rewardable(now: int)
      requires Valid() && content.lastUpdate <= now
      reads this, db, content
    {
      var claims := ClaimsNow(now);
      Rewards.AllRewardable(content.comments, content.settings, now, content.balance, claims)
    }

    ghost function ClaimsNow(now: int): nat
      requires Valid() && content.lastUpdate <= now
      reads this, db, content
    {
      Rewards.ClaimsAtNonNegative(content.comments, content.settings, now, content.recentClaims,
        now - content.lastUpdate);
      Rewards.ClaimsAt(content.comments, content.settings, now, content.recentClaims, now - content.lastUpdate)
    }

    /** What the comments due earn, receiver by receiver. */
    ghost function PaymentsNow(now: int): seq<(nat, nat)>
      requires Valid() && content.lastUpdate <= now
      reads this, db, content
    {
      Rewards.BlockPayments(content.comments, content.settings, now, content.balance, ClaimsNow(now),
        |content.comments|)
    }

    /**
      The cashout of a block: what the comments earn leaves the fund, which covers
      it, and is pending for its receivers, who exist. It fails only if a reward or
      a price does not fit.
     */
    method Cashout(now: int) returns (ok: bool, payments: seq<(nat, nat)>)
      requires Valid() && content.lastUpdate <= now
      modifies db, content
      ensures Valid()
      ensures ok <==>
        old(Rewardable(now)) && RewardGlobals(old(db.gpo), old(PaymentsNow(now)), |old(PaymentsNow(now))|).Some?
      ensures ok ==> payments == old(PaymentsNow(now)) && CanReward(old(db.Now()), payments)
      ensures ok ==> db.Now() == RewardsPaid(old(db.Now()), payments)
      ensures ok ==> 0 <= db.rewardFund == old(db.rewardFund) - Paying(payments)
      ensures ok ==> db.gpo.pendingSteem == old(db.gpo).pendingSteem + Paying(payments)
      ensures !ok ==> db.Now() == old(db.Now()) && content.comments == old(content.comments)
      ensures !ok ==> content.recentClaims == old(content.recentClaims) && content.lastUpdate == old(content.lastUpdate)
    {
      hide StakeHolds, AccountsValid, BooksBut, RoutesValid, Owned, Rewards.CommentValid, Known, Rewards.AllRewardable,
        Rewards.BlockPayments, Rewards.ClaimsAt, Rewards.Settled, RewardGlobals, WithRewards, Paying;
      var a, w, v, r, g, f := db.accounts, db.witnesses, db.votes, db.routes, db.gpo, db.rewardFund;
      var comments, balance, claims, last := content.comments, content.balance, content.recentClaims,
        content.lastUpdate;
      ghost var due := PaymentsNow(now);
      PaymentsBelow(comments, content.settings, now, balance, ClaimsNow(now), |comments|, |a|);
      ghost var splits;
      ok, payments, splits := content.ProcessCashout(now);
      if ok {
        AllSettledKnown(comments, content.comments, content.settings.clearVotes, now, |a|);
        ok := db.PayRewards(payments);
      }
      if !ok {
        db.accounts, db.witnesses, db.votes, db.routes, db.gpo, db.rewardFund := a, w, v, r, g, f;
        content.comments, content.balance, content.recentClaims, content.lastUpdate := comments, balance, claims, last;
      }
    }

    method Post(author: nat, now: int, cashout: int) returns (ok: bool)
      requires Valid()
      modifies content
      ensures Valid() && content.balance == old(content.balance) && ok == (author < |db.accounts|)
      ensures content.comments == if ok then old(content.comments) + [Rewards.NewComment(author, now, cashout)]
        else old(content.comments)
    {
      hide StakeHolds, AccountsValid, BooksBut, RoutesValid, Owned, Rewards.CommentValid;
      ok := author < |db.accounts|;
      if ok {
        content.Post(author, now, cashout);
      }
    }

    /** When a vote reaches a comment that exists, from an account that exists, and the evaluator accepts it. */
    ghost predicate CanVote(k: nat, voter: nat, percent: int, absRshares: nat, now: int)
      requires Valid()
      reads this, db, content
    {
      && voter < |db.accounts| && k < |content.comments| && content.comments[k].created <= now
      && (content.comments[k].cashout.Some? ==> 0 <= content.comments[k].voteRshares)
      && Rewards.Votable(content.comments[k], content.settings, voter, percent, absRshares, now)
    }

    method Vote(k: nat, voter: nat, percent: int, absRshares: nat, now: int) returns (ok: bool)
      requires Valid()
      modifies content
      ensures Valid() && content.balance == old(content.balance)
      ensures ok <==> old(CanVote(k, voter, percent, absRshares, now))
      ensures content.comments == if ok
        then old(content.comments)[k := Rewards.AfterVote(old(content.comments)[k], content.settings, voter, percent,
          absRshares, now)]
        else old(content.comments)
    {
      hide StakeHolds, AccountsValid, BooksBut, RoutesValid, Owned, Rewards.CommentValid, Known, Rewards.AfterVote,
        Rewards.Votable;
      if voter >= |db.accounts| || k >= |content.comments| || now < content.comments[k].created {
        return false;
      }
      ghost var c := content.comments[k];
      ok := content.CastVote(k, voter, percent, absRshares, now);
      VoteKnown(c, content.settings, voter, percent, absRshares, now, |db.accounts|);
    }

    method SetOptions(k: nat, maxPayout: nat, allowVotes: bool, allowCuration: bool,
                      beneficiaries: seq<Rewards.Beneficiary>)
      returns (ok: bool)
      requires Valid()
      modifies content
      ensures Valid() && content.balance == old(content.balance)
      ensures !ok ==> content.comments == old(content.comments)
      ensures ok ==> k < |old(content.comments)|
      ensures ok ==> var c := old(content.comments)[k]; content.comments == old(content.comments)[k :=
        c.(maxPayout := maxPayout, allowVotes := allowVotes, allowCuration := allowCuration,
           beneficiaries := if beneficiaries == [] then c.beneficiaries else beneficiaries)]
    {
      hide StakeHolds, AccountsValid, BooksBut, RoutesValid, Owned, Rewards.CommentValid;
      if k >= |content.comments|
        || !(forall b :: b in beneficiaries ==> b.weight < 0x1_0000 && b.account < |db.accounts|) {
        return false;
      }
      ok := content.SetOptions(k, maxPayout, allowVotes, allowCuration, beneficiaries);
    }

    /**
      Over any run the reward fund of the ledger is that of the content, never
      negative, and holds what was issued to it less what was paid.
     */
    method Run(events: seq<Event>) returns (issued: nat, payments: seq<(nat, nat)>)
      requires Valid()
      modifies db, content
      ensures Valid() && 0 <= db.rewardFund
      ensures old(db.rewardFund) + issued == db.rewardFund + Paying(payments)
    {
      hide StakeHolds, AccountsValid, BooksBut, RoutesValid, Owned, Rewards.CommentValid, Known, Step, Admits, Paying;
      issued, payments := 0, [];
      NothingPays();
      for i := 0 to |events|
        invariant Valid() && old(db.rewardFund) + issued == db.rewardFund + Paying(payments)
      {
        match events[i] {
          case Operated(op) =>
            var before := content.balance;
            var _ := Operate(op);
            issued := issued + (content.balance - before);
          case Posted(author, now, cashout) => var _ := Post(author, now, cashout);
          case Voted(k, voter, percent, absRshares, now) => var _ := Vote(k, voter, percent, absRshares, now);
          case OptionsSet(k, maxPayout, allowVotes, allowCuration, beneficiaries) =>
            var _ := SetOptions(k, maxPayout, allowVotes, allowCuration, beneficiaries);
          case CashedOut(now) =>
            if content.lastUpdate <= now {
              var ok, more := Cashout(now);
              if ok {
                PayingBoth(payments, more);
                payments := payments + more;
              }
            }
        }
      }
    }
  }

  lemma NothingPays()
    ensures Paying([]) == 0
  {
  }

  lemma NoFunding(op: Operation, s: Snapshot)
    requires !op.ProcessFunds?
    ensures Funding(op, s) == 0
  {
  }

  lemma AllSettledKnown(was: seq<Rewards.Comment>, comments: seq<Rewards.Comment>, clearVotes: bool, now: int, n: nat)
    requires AllKnown(was, n) && |comments| == |was|
    requires forall i :: 0 <= i < |comments| ==>
      comments[i] == if Rewards.Due(was[i], now) then Rewards.Settled(was[i], clearVotes, now) else was[i]
    ensures AllKnown(comments, n)
  {
    hide Rewards.Settled, Known;
    forall i | 0 <= i < |comments|
      ensures Known(comments[i], n)
    {
      SettledKnown(was[i], clearVotes, now, n);
    }
  }
}
