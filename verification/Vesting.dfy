/**
  Converting between WLS and vesting shares, with the rounding of
  libraries/protocol/asset.cpp and the prices of the global properties
  (libraries/chain/include/wls/chain/global_property_object.hpp).
 */
module Vesting {
  import opened Options
  import opened Arithmetic

  datatype Symbol = WLS | VESTS

  datatype Asset = Asset(amount: int, symbol: Symbol)

  datatype Price = Price(base: Asset, quote: Asset)

  const INT64_LIMIT: int := 0x8000_0000_0000_0000

  /** asset * price: None where the source asserts. */
  function Times(a: Asset, p: Price): (r: Option<Asset>)
    requires 0 <= a.amount
  {
    if a.symbol == p.base.symbol then
      Converted(a.amount, p.quote, p.base)
    else if a.symbol == p.quote.symbol then
      Converted(a.amount, p.base, p.quote)
    else None
  }

  /** amount * to / from, rounded down; asserts a positive divisor and a result in range. */
  function Converted(amount: nat, to: Asset, from: Asset): (r: Option<Asset>)
    ensures r.Some? ==> from.amount > 0 && 0 <= r.value.amount && r.value.symbol == to.symbol
    ensures r.Some? ==> r.value.amount * from.amount <= amount * to.amount < (r.value.amount + 1) * from.amount
    ensures r.None? <==> from.amount <= 0 || to.amount < 0 || amount * to.amount >= INT64_LIMIT * from.amount
  {
    if from.amount <= 0 || to.amount < 0 then None
    else
      var result := (amount * to.amount) / from.amount;
      QuotientBounds(amount * to.amount, from.amount);
      WithinLimit(amount * to.amount, from.amount);
      if result < INT64_LIMIT then Some(Asset(result, to.symbol)) else None
  }

  lemma WithinLimit(n: nat, d: nat)
    requires d > 0
    ensures n / d < INT64_LIMIT <==> n < INT64_LIMIT * d
  {
    QuotientBounds(n, d);
    if n / d < INT64_LIMIT {
      MulMono(n / d + 1, INT64_LIMIT, d);
    } else {
      MulMono(INT64_LIMIT, n / d, d);
    }
  }

  /** The totals kept in the dynamic global properties. */
  datatype Globals = Globals(
    supply: int,
    fund: int,            // total_vesting_fund_steem
    shares: int,          // total_vesting_shares
    pendingShares: int,   // pending_rewarded_vesting_shares
    pendingSteem: int)    // pending_rewarded_vesting_steem

  function SharePrice(g: Globals): (p: Price)
  {
    if g.fund == 0 || g.shares == 0
    then Price(Asset(1, WLS), Asset(1000, VESTS))
    else Price(Asset(g.shares, VESTS), Asset(g.fund, WLS))
  }

  function RewardSharePrice(g: Globals): (p: Price)
  {
    if g.pendingShares == 0 || g.pendingSteem == 0
    then SharePrice(g)
    else Price(Asset(g.shares + g.pendingShares, VESTS), Asset(g.fund + g.pendingSteem, WLS))
  }

  function ToVests(steem: nat, p: Price): (r: Option<int>)
    ensures r.Some? ==> 0 <= r.value
  {
    var a := Times(Asset(steem, WLS), p);
    if a.Some? then Some(a.value.amount) else None
  }

  function ToSteem(vests: nat, p: Price): (r: Option<int>)
    ensures r.Some? ==> 0 <= r.value
  {
    var a := Times(Asset(vests, VESTS), p);
    if a.Some? then Some(a.value.amount) else None
  }

  /** What a number of WLS buys of a fund: its part of the shares, rounded down, or a thousand each to begin with. */
  ghost predicate Buys(steem: nat, fund: int, shares: int, vests: int)
  {
    if fund == 0 || shares == 0 then vests == steem * 1000
    else vests * fund <= steem * shares < (vests + 1) * fund
  }

  /** What a number of vests is worth: its part of the fund, rounded down, or a thousandth each to begin with. */
  ghost predicate Sells(vests: nat, fund: int, shares: int, steem: int)
  {
    if fund == 0 || shares == 0 then steem * 1000 <= vests < (steem + 1) * 1000
    else steem * shares <= vests * fund < (steem + 1) * shares
  }

  /** The share price buys and sells shares at what the fund is worth, as long as the result fits. */
  lemma SharePriceIs(g: Globals, amount: nat)
    requires 0 <= g.fund && 0 <= g.shares
    ensures var v := ToVests(amount, SharePrice(g));
      && (v.Some? ==> Buys(amount, g.fund, g.shares, v.value))
      && (v.None? <==> if g.fund == 0 || g.shares == 0 then amount * 1000 >= INT64_LIMIT
                       else amount * g.shares >= INT64_LIMIT * g.fund)
    ensures var w := ToSteem(amount, SharePrice(g));
      && (w.Some? ==> Sells(amount, g.fund, g.shares, w.value))
      && (w.None? <==> if g.fund == 0 || g.shares == 0 then amount >= INT64_LIMIT * 1000
                       else amount * g.fund >= INT64_LIMIT * g.shares)
  {
  }

  /** Whatever the fund, vests are bought at the share price. */
  lemma SharePriceBuys(g: Globals, steem: nat, vests: int)
    requires ToVests(steem, SharePrice(g)) == Some(vests)
    ensures Buys(steem, g.fund, g.shares, vests)
  {
  }

  /** A reward buys pending shares at the worth of all shares, the pending ones and what is behind them included. */
  lemma RewardPriceBuys(g: Globals, steem: nat, vests: int)
    requires ToVests(steem, RewardSharePrice(g)) == Some(vests)
    ensures if g.pendingShares == 0 || g.pendingSteem == 0 then Buys(steem, g.fund, g.shares, vests)
      else
        && vests * (g.fund + g.pendingSteem) <= steem * (g.shares + g.pendingShares)
        && steem * (g.shares + g.pendingShares) < (vests + 1) * (g.fund + g.pendingSteem)
  {
  }

  /** So rewards never lower what all shares together are worth. */
  lemma RewardKeepsWorth(g: Globals, steem: nat, vests: int)
    requires ToVests(steem, RewardSharePrice(g)) == Some(vests) && g.pendingShares > 0 && g.pendingSteem > 0
    ensures (g.fund + g.pendingSteem) * (g.shares + g.pendingShares + vests)
      <= (g.fund + g.pendingSteem + steem) * (g.shares + g.pendingShares)
  {
    RewardPriceBuys(g, steem, vests);
    var f, s := g.fund + g.pendingSteem, g.shares + g.pendingShares;
    assert f * (s + vests) == f * s + vests * f && (f + steem) * s == f * s + steem * s;
  }

  // ------------------------------------------------------------- share value

  /** fund / shares does not fall, compared by cross-multiplication. */
  ghost predicate WorthNoLess(g: Globals, h: Globals)
  {
    g.fund * h.shares <= h.fund * g.shares
  }

  /** The fund backs the shares: never negative, and not empty while shares exist. */
  ghost predicate Backed(g: Globals)
  {
    0 <= g.fund && 0 <= g.shares && (g.shares > 0 ==> g.fund > 0)
  }

  /** No fund is without owners: it is empty, or overdrawn, while there are no shares. */
  ghost predicate Owned(g: Globals)
  {
    0 <= g.shares && (g.shares == 0 ==> g.fund <= 0)
  }

  ghost function Deposit(g: Globals, steem: int, vests: int): Globals
  {
    g.(fund := g.fund + steem, shares := g.shares + vests)
  }

  ghost function Withdraw(g: Globals, steem: int, vests: int): Globals
  {
    g.(fund := g.fund - steem, shares := g.shares - vests)
  }

  lemma DepositKeepsWorth(g: Globals, steem: nat, vests: int)
    requires ToVests(steem, SharePrice(g)) == Some(vests)
    requires Backed(g)
    ensures Backed(Deposit(g, steem, vests))
    ensures g.shares > 0 ==> WorthNoLess(g, Deposit(g, steem, vests))
  {
    if g.fund == 0 || g.shares == 0 {
      assert vests == steem * 1000;
    } else {
      assert vests * g.fund <= steem * g.shares;
      assert g.fund * (g.shares + vests) == g.fund * g.shares + vests * g.fund;
      assert (g.fund + steem) * g.shares == g.fund * g.shares + steem * g.shares;
    }
  }

  lemma WithdrawKeepsWorth(g: Globals, vests: nat, steem: int)
    requires ToSteem(vests, SharePrice(g)) == Some(steem)
    requires Backed(g) && vests <= g.shares
    ensures steem <= g.fund
    ensures Backed(Withdraw(g, steem, vests))
    ensures WorthNoLess(g, Withdraw(g, steem, vests))
  {
    if g.shares == 0 {
      assert vests == 0 && steem == 0;
    } else {
      assert steem * g.shares <= vests * g.fund;
      assert g.fund * (g.shares - vests) == g.fund * g.shares - vests * g.fund;
      assert (g.fund - steem) * g.shares == g.fund * g.shares - steem * g.shares;
      MulMono(vests, g.shares, g.fund);
      CancelMul(steem, g.fund, g.shares);
      if vests < g.shares {
        MulMonoStrict(vests, g.shares, g.fund);
      }
    }
  }

  /** A withdrawal takes more than there is exactly where an empty fund is priced at the default rate. */
  lemma WithdrawWithinFund(g: Globals, vests: nat, steem: int)
    requires ToSteem(vests, SharePrice(g)) == Some(steem) && 0 <= g.fund && vests <= g.shares
    ensures steem <= g.fund <==> g.fund > 0 || vests < 1000
  {
    if g.fund > 0 && g.shares > 0 {
      assert steem * g.shares <= vests * g.fund;
      MulMono(vests, g.shares, g.fund);
      CancelMul(steem, g.fund, g.shares);
    }
  }

  lemma DepositOwned(g: Globals, steem: nat, vests: int)
    requires ToVests(steem, SharePrice(g)) == Some(vests) && Owned(g)
    ensures Owned(Deposit(g, steem, vests))
  {
    if g.shares == 0 {
      assert vests == steem * 1000;
    }
  }

  /** The last share takes the last WLS with it. */
  lemma WithdrawOwned(g: Globals, vests: nat, steem: int)
    requires ToSteem(vests, SharePrice(g)) == Some(steem) && Owned(g) && vests <= g.shares
    ensures Owned(Withdraw(g, steem, vests))
  {
    if g.shares > 0 && vests == g.shares && g.fund > 0 {
      CancelMulStrict(g.fund, steem + 1, g.shares);
    }
  }

  /**
    Powering up and straight back down returns at most what was put in, except
    where there is a fund without shares, which the first deposit then owns.
   */
  lemma RoundTripLoses(g: Globals, steem: nat, vests: int, back: int)
    requires 0 <= g.shares
    requires ToVests(steem, SharePrice(g)) == Some(vests)
    requires ToSteem(vests, SharePrice(Deposit(g, steem, vests))) == Some(back)
    ensures back <= steem <==> g.shares > 0 || g.fund <= 0 || steem == 0
  {
    if g.fund > 0 && g.shares > 0 {
      RoundTripWithShares(g, steem, vests, back);
    } else {
      assert vests == steem * 1000;
      RoundTripAtDefault(g, steem, back);
    }
  }

  lemma RoundTripAtDefault(g: Globals, steem: nat, back: int)
    requires 0 <= g.shares && (g.fund == 0 || g.shares == 0)
    requires ToSteem(steem * 1000, SharePrice(Deposit(g, steem, steem * 1000))) == Some(back)
    ensures back <= steem <==> g.shares > 0 || g.fund <= 0 || steem == 0
  {
    var vests, h := steem * 1000, Deposit(g, steem, steem * 1000);
    if steem > 0 && h.fund != 0 {
      assert back * h.shares <= vests * h.fund < (back + 1) * h.shares;
      if g.shares == 0 {
        CancelMul(back, h.fund, h.shares);
        if back < h.fund {
          MulMono(back + 1, h.fund, h.shares);
        }
      } else {
        MulMono(vests, h.shares, steem);
        CancelMul(back, steem, h.shares);
      }
    }
  }

  lemma RoundTripWithShares(g: Globals, steem: nat, vests: int, back: int)
    requires g.fund > 0 && g.shares > 0
    requires ToVests(steem, SharePrice(g)) == Some(vests)
    requires ToSteem(vests, SharePrice(Deposit(g, steem, vests))) == Some(back)
    ensures back <= steem
  {
    var h := Deposit(g, steem, vests);
    assert vests * g.fund <= steem * g.shares;
    assert back * h.shares <= vests * h.fund;
    calc {
      vests * h.fund;
      vests * g.fund + vests * steem;
    <=
      steem * g.shares + vests * steem;
      steem * h.shares;
    }
    CancelMul(back, steem, h.shares);
  }

  /** A backed fund that fits 63 bits converts any part of its shares. */
  lemma BackedConverts(g: Globals, vests: nat)
    requires Backed(g) && g.fund < INT64_LIMIT && vests <= g.shares
    ensures ToSteem(vests, SharePrice(g)).Some? && ToSteem(vests, SharePrice(g)).value <= g.fund
    ensures Backed(Withdraw(g, ToSteem(vests, SharePrice(g)).value, vests))
    ensures Withdraw(g, ToSteem(vests, SharePrice(g)).value, vests).fund < INT64_LIMIT
  {
    if g.shares > 0 {
      QuotientBounds(vests * g.fund, g.shares);
      MulMono(vests, g.shares, g.fund);
      CancelMul((vests * g.fund) / g.shares, g.fund, g.shares);
    }
    WithdrawKeepsWorth(g, vests, ToSteem(vests, SharePrice(g)).value);
  }

  /**
    Claiming a reward adds vests and steem in the ratio of the time they were
    granted: a share keeps its worth exactly when that ratio is no worse than today's.
   */
  lemma ClaimKeepsWorth(g: Globals, steem: int, vests: int)
    ensures WorthNoLess(g, Deposit(g, steem, vests)) <==> vests * g.fund <= steem * g.shares
  {
    assert g.fund * (g.shares + vests) == g.fund * g.shares + vests * g.fund;
    assert (g.fund + steem) * g.shares == g.fund * g.shares + steem * g.shares;
  }

  lemma WorthTransitive(a: Globals, b: Globals, c: Globals)
    requires WorthNoLess(a, b) && WorthNoLess(b, c)
    requires 0 <= a.shares && 0 < b.shares && 0 <= c.shares && 0 <= a.fund && 0 <= c.fund
    ensures WorthNoLess(a, c)
  {
    calc {
      (a.fund * c.shares) * b.shares;
      (a.fund * b.shares) * c.shares;
    <= { assert a.fund * b.shares <= b.fund * a.shares; MulMono(a.fund * b.shares, b.fund * a.shares, c.shares); }
      (b.fund * a.shares) * c.shares;
      (b.fund * c.shares) * a.shares;
    <= { MulMono(b.fund * c.shares, c.fund * b.shares, a.shares); }
      (c.fund * b.shares) * a.shares;
      (c.fund * a.shares) * b.shares;
    }
    CancelMul(a.fund * c.shares, c.fund * a.shares, b.shares);
  }

  /** A fund with owners keeps them, a backed one stays backed, and a share of it never loses worth. */
  ghost predicate KeepsWorth(g: Globals, h: Globals)
  {
    && (Owned(g) ==> Owned(h))
    && (Backed(g) ==> Backed(h) && (g.shares > 0 ==> WorthNoLess(g, h)))
  }

  /** Withdrawing once more keeps worth as well. */
  lemma WithdrawMore(g: Globals, h: Globals, vests: nat, steem: int)
    requires KeepsWorth(g, h)
    requires ToSteem(vests, SharePrice(h)) == Some(steem) && vests <= h.shares
    ensures KeepsWorth(g, Withdraw(h, steem, vests))
  {
    if Owned(h) {
      WithdrawOwned(h, vests, steem);
    }
    if Backed(g) {
      WithdrawKeepsWorth(h, vests, steem);
      if g.shares > 0 && h.shares > 0 {
        WorthTransitive(g, h, Withdraw(h, steem, vests));
      }
    }
  }

  lemma DepositKeeps(g: Globals, steem: nat, vests: int)
    requires ToVests(steem, SharePrice(g)) == Some(vests)
    ensures KeepsWorth(g, Deposit(g, steem, vests))
  {
    if Owned(g) {
      DepositOwned(g, steem, vests);
    }
    if Backed(g) {
      DepositKeepsWorth(g, steem, vests);
    }
  }

  /** Worth is kept along a chain of steps that never add shares. */
  lemma KeepsTransitive(g: Globals, h: Globals, k: Globals)
    requires KeepsWorth(g, h) && KeepsWorth(h, k) && k.shares <= h.shares
    ensures KeepsWorth(g, k)
  {
    if Backed(g) && g.shares > 0 && h.shares > 0 {
      WorthTransitive(g, h, k);
    }
  }
}
