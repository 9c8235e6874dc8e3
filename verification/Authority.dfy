/**
  Who may sign for whom: the recursive authority check with its cache
  (libraries/protocol/sign_state.cpp) and the check of a whole transaction
  (verify_authority in libraries/protocol/transaction.cpp).
 */
module Authority {
  import opened Options

  type Key = nat
  type Name = string

  const TWO32: nat := 0x1_0000_0000

  type Weight = x: nat | x < 0x1_0000
  type Threshold = x: nat | x < 0x1_0000_0000

  datatype Authority = Authority(
    threshold: Threshold,
    keys: seq<(Key, Weight)>,
    accounts: seq<(Name, Weight)>)

  // ---- What an authority means ----

  /** The weight of the keys that signed. */
  ghost function KeyWeight(keys: seq<(Key, Weight)>, signed: set<Key>): nat
  {
    if keys == [] then 0
    else KeyWeight(keys[..|keys| - 1], signed)
         + (if keys[|keys| - 1].0 in signed then keys[|keys| - 1].1 else 0)
  }

  /** The weight of the accounts that agree. */
  ghost function AccountWeight(accounts: seq<(Name, Weight)>, agree: iset<Name>): nat
  {
    if accounts == [] then 0
    else AccountWeight(accounts[..|accounts| - 1], agree)
         + (if accounts[|accounts| - 1].0 in agree then accounts[|accounts| - 1].1 else 0)
  }

  /** The signatures, and the accounts that agree, reach the threshold. */
  ghost predicate Satisfied(auth: Authority, signed: set<Key>, agree: iset<Name>)
  {
    KeyWeight(auth.keys, signed) + AccountWeight(auth.accounts, agree) >= auth.threshold
  }

  /** What a check starts from: each account's authority, the signing keys, the accounts approved beforehand. */
  datatype World = World(get: Name -> Authority, signed: set<Key>, base: set<Name>)

  /** The accounts that the plain recursion of depth n finds in agreement. */
  ghost function Level(w: World, n: nat): iset<Name>
  {
    if n == 0 then iset a | a in w.base
    else iset a | a in w.base || Satisfied(w.get(a), w.signed, Level(w, n - 1))
  }

  /** A set of accounts with no way left to bring in another one. */
  ghost predicate Closed(w: World, s: iset<Name>)
  {
    (forall a :: a in w.base ==> a in s)
    && forall a :: Satisfied(w.get(a), w.signed, s) ==> a in s
  }

  /** The least such set: agreement at any depth, and no agreement out of thin air on a cycle. */
  ghost function Least(w: World): iset<Name>
  {
    iset a | Compelled(w, a)
  }

  ghost predicate Compelled(w: World, a: Name)
  {
    forall s: iset<Name> :: Closed(w, s) ==> a in s
  }

  /** The authority is satisfied in the least fixed point. */
  ghost predicate Holds(w: World, auth: Authority)
  {
    Satisfied(auth, w.signed, Least(w))
  }

  /** The second world only has more signatures. */
  ghost predicate Grows(u: World, w: World)
  {
    u.get == w.get && u.base == w.base && u.signed <= w.signed
  }

  /** The key stands in the authority, or in one reached from it in at most n steps. */
  ghost predicate Mentions(get: Name -> Authority, auth: Authority, n: nat, k: Key)
    decreases n
  {
    || (exists i :: 0 <= i < |auth.keys| && auth.keys[i].0 == k)
    || (n > 0 && exists i :: 0 <= i < |auth.accounts| && Mentions(get, get(auth.accounts[i].0), n - 1, k))
  }

  /** Thirty-two bits hold every sum that the check can form. */
  ghost predicate NoWrap(auth: Authority)
  {
    auth.threshold + 0xffff <= TWO32 || FullWeight(auth) < TWO32
  }

  ghost function FullWeight(auth: Authority): nat
  {
    KeyWeight(auth.keys, set e | e in auth.keys :: e.0)
      + AccountWeight(auth.accounts, iset e | e in auth.accounts :: e.0)
  }

  /** An authority must have more than 65537 entries before its weights can wrap. */
  lemma FewEntriesDoNotWrap(auth: Authority)
    requires |auth.keys| + |auth.accounts| <= 0x1_0001
    ensures NoWrap(auth)
  {
    KeyWeightBound(auth.keys, set e | e in auth.keys :: e.0);
    AccountWeightBound(auth.accounts, iset e | e in auth.accounts :: e.0);
  }

  lemma {:induction false} KeyWeightBound(keys: seq<(Key, Weight)>, signed: set<Key>)
    ensures KeyWeight(keys, signed) <= 0xffff * |keys|
  {
    if keys != [] {
      KeyWeightBound(keys[..|keys| - 1], signed);
    }
  }

  lemma {:induction false} AccountWeightBound(accounts: seq<(Name, Weight)>, agree: iset<Name>)
    ensures AccountWeight(accounts, agree) <= 0xffff * |accounts|
  {
    if accounts != [] {
      AccountWeightBound(accounts[..|accounts| - 1], agree);
    }
  }

  lemma {:induction false} AccountWeightMonotone(accounts: seq<(Name, Weight)>, s: iset<Name>, t: iset<Name>)
    requires forall i :: 0 <= i < |accounts| && accounts[i].0 in s ==> accounts[i].0 in t
    ensures AccountWeight(accounts, s) <= AccountWeight(accounts, t)
  {
    if accounts != [] {
      AccountWeightMonotone(accounts[..|accounts| - 1], s, t);
    }
  }

  lemma {:induction false} KeyWeightMonotone(keys: seq<(Key, Weight)>, s: set<Key>, t: set<Key>)
    requires forall i :: 0 <= i < |keys| && keys[i].0 in s ==> keys[i].0 in t
    ensures KeyWeight(keys, s) <= KeyWeight(keys, t)
  {
    if keys != [] {
      KeyWeightMonotone(keys[..|keys| - 1], s, t);
    }
  }

  lemma {:induction false} KeyPrefix(keys: seq<(Key, Weight)>, i: nat, s: set<Key>)
    requires i <= |keys|
    ensures KeyWeight(keys[..i], s) <= KeyWeight(keys, s)
    decreases |keys|
  {
    if i < |keys| {
      var short := keys[..|keys| - 1];
      KeyPrefix(short, i, s);
      assert short[..i] == keys[..i];
    } else {
      assert keys[..i] == keys;
    }
  }

  lemma {:induction false} AccountPrefix(accounts: seq<(Name, Weight)>, i: nat, s: iset<Name>)
    requires i <= |accounts|
    ensures AccountWeight(accounts[..i], s) <= AccountWeight(accounts, s)
    decreases |accounts|
  {
    if i < |accounts| {
      var short := accounts[..|accounts| - 1];
      AccountPrefix(short, i, s);
      assert short[..i] == accounts[..i];
    } else {
      assert accounts[..i] == accounts;
    }
  }

  lemma KeyStep(keys: seq<(Key, Weight)>, i: nat, s: set<Key>)
    requires i < |keys|
    ensures KeyWeight(keys[..i + 1], s) == KeyWeight(keys[..i], s) + (if keys[i].0 in s then keys[i].1 else 0)
  {
    assert keys[..i + 1][..i] == keys[..i];
  }

  lemma AccountStep(accounts: seq<(Name, Weight)>, i: nat, s: iset<Name>)
    requires i < |accounts|
    ensures AccountWeight(accounts[..i + 1], s)
      == AccountWeight(accounts[..i], s) + (if accounts[i].0 in s then accounts[i].1 else 0)
  {
    assert accounts[..i + 1][..i] == accounts[..i];
  }

  lemma SatisfiedMonotone(auth: Authority, signed: set<Key>, s: iset<Name>, t: iset<Name>)
    requires s <= t && Satisfied(auth, signed, s)
    ensures Satisfied(auth, signed, t)
  {
    AccountWeightMonotone(auth.accounts, s, t);
  }

  lemma SignedMonotone(auth: Authority, s: set<Key>, t: set<Key>, agree: iset<Name>)
    requires s <= t && Satisfied(auth, s, agree)
    ensures Satisfied(auth, t, agree)
  {
    KeyWeightMonotone(auth.keys, s, t);
  }

  // ---- The two meanings compared ----

  /** More signatures bring more accounts in agreement, and lose none. */
  lemma LeastGrows(u: World, w: World)
    requires Grows(u, w)
    ensures Least(u) <= Least(w)
  {
    hide Satisfied;
    forall a, s: iset<Name> | a in Least(u) && Closed(w, s)
      ensures a in s
    {
      forall b | Satisfied(u.get(b), u.signed, s)
        ensures b in s
      {
        SignedMonotone(u.get(b), u.signed, w.signed, s);
      }
      assert Closed(u, s);
    }
  }

  lemma HoldsGrows(u: World, w: World, auth: Authority)
    requires Grows(u, w) && Holds(u, auth)
    ensures Holds(w, auth)
  {
    hide Satisfied, Least;
    LeastGrows(u, w);
    SatisfiedMonotone(auth, u.signed, Least(u), Least(w));
    SignedMonotone(auth, u.signed, w.signed, Least(w));
  }

  /** The least closed set is itself closed: it is the least fixed point. */
  lemma LeastIsClosed(w: World)
    ensures Closed(w, Least(w))
  {
    forall a | Satisfied(w.get(a), w.signed, Least(w))
      ensures a in Least(w)
    {
      forall s: iset<Name> | Closed(w, s)
        ensures a in s
      {
        assert Least(w) <= s;
        SatisfiedMonotone(w.get(a), w.signed, Least(w), s);
      }
    }
  }

  lemma {:induction false} LevelsGrow(w: World, n: nat)
    ensures Level(w, n) <= Level(w, n + 1)
  {
    if n > 0 {
      LevelsGrow(w, n - 1);
      forall a | a in Level(w, n)
        ensures a in Level(w, n + 1)
      {
        if a !in w.base {
          SatisfiedMonotone(w.get(a), w.signed, Level(w, n - 1), Level(w, n));
        }
      }
    }
  }

  lemma {:induction false} LevelsOrdered(w: World, m: nat, n: nat)
    requires m <= n
    ensures Level(w, m) <= Level(w, n)
    decreases n
  {
    if m < n {
      LevelsOrdered(w, m, n - 1);
      LevelsGrow(w, n - 1);
    }
  }

  /** Every depth of the plain recursion stays inside the least fixed point. */
  lemma {:induction false} LevelInLeast(w: World, n: nat)
    ensures Level(w, n) <= Least(w)
  {
    LeastIsClosed(w);
    if n > 0 {
      LevelInLeast(w, n - 1);
      forall a | a in Level(w, n)
        ensures a in Least(w)
      {
        if a !in w.base {
          SatisfiedMonotone(w.get(a), w.signed, Level(w, n - 1), Least(w));
        }
      }
    }
  }

  ghost function AnyLevel(w: World): iset<Name>
  {
    iset a | AtSomeLevel(w, a)
  }

  ghost predicate AtSomeLevel(w: World, a: Name)
  {
    exists n: nat :: a in Level(w, n)
  }

  /** Finitely many accounts that agree at some depth agree at one common depth. */
  lemma {:induction false} CommonDepth(w: World, accounts: seq<(Name, Weight)>) returns (n: nat)
    ensures AccountWeight(accounts, AnyLevel(w)) == AccountWeight(accounts, Level(w, n))
    ensures forall i :: 0 <= i < |accounts| && accounts[i].0 in AnyLevel(w) ==> accounts[i].0 in Level(w, n)
  {
    if accounts == [] {
      n := 0;
    } else {
      var last := |accounts| - 1;
      var m := CommonDepth(w, accounts[..last]);
      n := m;
      if accounts[last].0 in AnyLevel(w) {
        var own: nat :| accounts[last].0 in Level(w, own);
        n := if own > m then own else m;
        LevelsOrdered(w, own, n);
      }
      LevelsOrdered(w, m, n);
      AccountWeightMonotone(accounts[..last], Level(w, m), Level(w, n));
      AccountWeightMonotone(accounts[..last], Level(w, n), AnyLevel(w));
    }
  }

  /** The least fixed point is what the plain recursion finds with no limit on its depth. */
  lemma LeastIsAnyLevel(w: World)
    ensures Least(w) == AnyLevel(w)
  {
    forall a | a in AnyLevel(w)
      ensures a in Least(w)
    {
      var n: nat :| a in Level(w, n);
      LevelInLeast(w, n);
    }
    forall a | Satisfied(w.get(a), w.signed, AnyLevel(w))
      ensures a in AnyLevel(w)
    {
      var n := CommonDepth(w, w.get(a).accounts);
      assert a in Level(w, n + 1);
    }
    forall a | a in w.base
      ensures a in AnyLevel(w)
    {
      assert a in Level(w, 0);
    }
    assert Closed(w, AnyLevel(w));
  }

  /** Whatever is satisfied in the least fixed point is accepted by the plain recursion at some depth. */
  lemma SatisfiedAtSomeDepth(w: World, auth: Authority) returns (n: nat)
    requires Satisfied(auth, w.signed, Least(w))
    ensures Satisfied(auth, w.signed, Level(w, n))
  {
    LeastIsAnyLevel(w);
    n := CommonDepth(w, auth.accounts);
  }

  lemma FullWeightBounds(auth: Authority, i: nat, j: nat, signed: set<Key>, agree: iset<Name>)
    requires i <= |auth.keys| && j <= |auth.accounts|
    ensures KeyWeight(auth.keys[..i], signed) + AccountWeight(auth.accounts[..j], agree) <= FullWeight(auth)
  {
    var all := set e | e in auth.keys :: e.0;
    KeyPrefix(auth.keys, i, signed);
    assert forall k :: 0 <= k < |auth.keys| ==> auth.keys[k] in auth.keys;
    KeyWeightMonotone(auth.keys, signed, all);
    AccountPrefix(auth.accounts, j, agree);
    assert forall k :: 0 <= k < |auth.accounts| ==> auth.accounts[k] in auth.accounts;
    AccountWeightMonotone(auth.accounts, agree, iset e | e in auth.accounts :: e.0);
  }

  lemma MentionsKey(get: Name -> Authority, auth: Authority, n: nat, i: nat)
    requires i < |auth.keys|
    ensures Mentions(get, auth, n, auth.keys[i].0)
  {
  }

  lemma MentionsThrough(get: Name -> Authority, auth: Authority, n: nat, i: nat, k: Key)
    requires i < |auth.accounts| && n > 0 && Mentions(get, get(auth.accounts[i].0), n - 1, k)
    ensures Mentions(get, auth, n, k)
  {
  }

  lemma NoWeight(a: Name, s: iset<Name>)
    requires a !in s
    ensures AccountWeight([(a, 1)], s) == 0
  {
    AccountStep([(a, 1)], 0, s);
    assert [(a, 1)][..1] == [(a, 1)];
  }

  ghost predicate Outside(x: Name, a: Name, b: Name)
  {
    x != a && x != b
  }

  /** Accounts that only vouch for each other never agree, at any depth. */
  lemma CycleIsNotSatisfied(a: Name, b: Name, w: World)
    requires a !in w.base && b !in w.base
    requires w.get(a) == Authority(1, [], [(b, 1)]) && w.get(b) == Authority(1, [], [(a, 1)])
    ensures a !in Least(w) && b !in Least(w)
  {
    var others := iset x | Outside(x, a, b) && (x in w.base || x in Least(w));
    LeastIsClosed(w);
    NoWeight(b, others);
    NoWeight(a, others);
    forall x | Satisfied(w.get(x), w.signed, others)
      ensures x in others
    {
      SatisfiedMonotone(w.get(x), w.signed, others, Least(w));
    }
    assert Closed(w, others);
  }

  // ---- The check itself ----

  /** What a check of auth may do to the record of consulted signatures. */
  ghost predicate Consulted(before: map<Key, bool>, after: map<Key, bool>, get: Name -> Authority, auth: Authority,
                            n: nat)
  {
    && (forall k :: k in before ==> k in after && (before[k] ==> after[k]))
    && (forall k :: k in after && k !in before ==> after[k])
    && (forall k :: k in after && after[k] && !(k in before && before[k]) ==> Mentions(get, auth, n, k))
  }

  lemma ConsultedTransitive(a: map<Key, bool>, b: map<Key, bool>, c: map<Key, bool>, get: Name -> Authority,
                            auth: Authority, n: nat)
    requires Consulted(a, b, get, auth, n) && Consulted(b, c, get, auth, n)
    ensures Consulted(a, c, get, auth, n)
  {
    hide Mentions;
  }

  lemma ConsultedNothing(a: map<Key, bool>, get: Name -> Authority, auth: Authority, n: nat)
    ensures Consulted(a, a, get, auth, n)
  {
    hide Mentions;
  }

  lemma ConsultedKey(a: map<Key, bool>, get: Name -> Authority, auth: Authority, n: nat, i: nat)
    requires i < |auth.keys|
    ensures Consulted(a, a[auth.keys[i].0 := true], get, auth, n)
  {
    MentionsKey(get, auth, n, i);
    hide Mentions;
  }

  lemma ConsultedThrough(a: map<Key, bool>, b: map<Key, bool>, get: Name -> Authority, auth: Authority, n: nat, i: nat)
    requires i < |auth.accounts| && n > 0 && Consulted(a, b, get, get(auth.accounts[i].0), n - 1)
    ensures Consulted(a, b, get, auth, n)
  {
    hide Mentions;
    forall k | k in b && b[k] && !(k in a && a[k])
      ensures Mentions(get, auth, n, k)
    {
      MentionsThrough(get, auth, n, i, k);
    }
  }

  /**
    The running total is between the two meanings of what was looked at so far, and below the threshold: at most
    what the keys consulted so far bring (u), at least what the plain recursion finds with all signatures (w).
   */
  ghost predicate Between(w: World, u: World, auth: Authority, n: nat, i: nat, j: nat, total: nat, exact: bool)
    requires i <= |auth.keys| && j <= |auth.accounts|
  {
    && total <= KeyWeight(auth.keys[..i], u.signed) + AccountWeight(auth.accounts[..j], Least(u))
    && (exact ==> total >= KeyWeight(auth.keys[..i], w.signed) + AccountWeight(auth.accounts[..j], Level(w, n)))
    && total < TWO32
    && (total < auth.threshold || total == 0)
  }

  lemma BetweenGrows(w: World, u: World, v: World, auth: Authority, n: nat, i: nat, j: nat, total: nat, exact: bool)
    requires i <= |auth.keys| && j <= |auth.accounts|
    requires Grows(u, v) && Between(w, u, auth, n, i, j, total, exact)
    ensures Between(w, v, auth, n, i, j, total, exact)
  {
    hide Least, Level;
    LeastGrows(u, v);
    KeyWeightMonotone(auth.keys[..i], u.signed, v.signed);
    AccountWeightMonotone(auth.accounts[..j], Least(u), Least(v));
  }

  /** uint32_t addition. */
  function Plus(total: nat, weight: Weight): (r: nat)
    ensures r < TWO32 && r <= total + weight
  {
    (total + weight) % TWO32
  }

  /** The sum of two 32-bit numbers is cut by 2^32 at most once. */
  lemma PlusIs(total: nat, weight: Weight)
    ensures Plus(total, weight) == (total + weight) % TWO32
    ensures total < TWO32 ==> Plus(total, weight) == total + weight || Plus(total, weight) == total + weight - TWO32
  {
  }

  lemma NoWrapPlus(auth: Authority, total: nat, weight: Weight)
    requires NoWrap(auth) && (total < auth.threshold || total == 0) && total + weight <= FullWeight(auth)
    ensures Plus(total, weight) == total + weight
  {
    hide FullWeight;
  }

  /** One key looked at: signed says whether its weight was taken. */
  lemma KeyCounted(w: World, u: World, auth: Authority, n: nat, i: nat, total: nat, exact: bool, signed: bool)
    requires i < |auth.keys| && Between(w, u, auth, n, i, 0, total, exact) && (exact ==> NoWrap(auth))
    requires if signed then auth.keys[i].0 in u.signed else auth.keys[i].0 !in w.signed
    ensures !signed ==> Between(w, u, auth, n, i + 1, 0, total, exact)
    ensures var sum := Plus(total, auth.keys[i].1);
            signed ==> if sum >= auth.threshold then Holds(u, auth) else Between(w, u, auth, n, i + 1, 0, sum, exact)
  {
    hide Holds, FullWeight, NoWrap, Level, Least;
    KeyStep(auth.keys, i, u.signed);
    KeyStep(auth.keys, i, w.signed);
    if signed {
      FullWeightBounds(auth, i + 1, 0, u.signed, Least(u));
      if exact {
        NoWrapPlus(auth, total, auth.keys[i].1);
      }
      if Plus(total, auth.keys[i].1) >= auth.threshold {
        EnoughSoFar(u, auth, i + 1, 0);
      }
    }
  }

  lemma EnoughSoFar(w: World, auth: Authority, i: nat, j: nat)
    requires i <= |auth.keys| && j <= |auth.accounts|
    requires KeyWeight(auth.keys[..i], w.signed) + AccountWeight(auth.accounts[..j], Least(w)) >= auth.threshold
    ensures Holds(w, auth)
  {
    KeyPrefix(auth.keys, i, w.signed);
    AccountPrefix(auth.accounts, j, Least(w));
  }

  /** One account looked at: counted says whether its weight was taken. */
  lemma AccountCounted(w: World, u: World, auth: Authority, n: nat, j: nat, total: nat, exact: bool, counted: bool)
    requires j < |auth.accounts| && Between(w, u, auth, n, |auth.keys|, j, total, exact) && (exact ==> NoWrap(auth))
    requires counted ==> auth.accounts[j].0 in Least(u)
    requires exact && !counted ==> auth.accounts[j].0 !in Level(w, n)
    ensures !counted ==> Between(w, u, auth, n, |auth.keys|, j + 1, total, exact)
    ensures var sum := Plus(total, auth.accounts[j].1);
            counted ==>
            if sum >= auth.threshold
              then Holds(u, auth) else Between(w, u, auth, n, |auth.keys|, j + 1, sum, exact)
  {
    hide Holds, FullWeight, NoWrap, Level, Least;
    AccountStep(auth.accounts, j, Least(u));
    AccountStep(auth.accounts, j, Level(w, n));
    if counted {
      FullWeightBounds(auth, |auth.keys|, j + 1, u.signed, Least(u));
      if exact {
        NoWrapPlus(auth, total, auth.accounts[j].1);
      }
      if Plus(total, auth.accounts[j].1) >= auth.threshold {
        EnoughSoFar(u, auth, |auth.keys|, j + 1);
      }
    }
  }

  lemma AllCounted(w: World, u: World, auth: Authority, n: nat, total: nat, exact: bool)
    requires Between(w, u, auth, n, |auth.keys|, |auth.accounts|, total, exact)
    ensures total >= auth.threshold ==> Holds(u, auth)
    ensures exact && Satisfied(auth, w.signed, Level(w, n)) ==> total >= auth.threshold
  {
    assert auth.keys[..|auth.keys|] == auth.keys && auth.accounts[..|auth.accounts|] == auth.accounts;
  }

  lemma NothingCounted(w: World, u: World, auth: Authority, n: nat, exact: bool)
    ensures Between(w, u, auth, n, 0, 0, 0, exact)
  {
  }

  lemma BaseAgrees(w: World, n: nat)
    ensures forall a :: a in w.base ==> a in Level(w, n) && a in Least(w)
  {
    LeastIsClosed(w);
  }

  // ---- What the check does to its records, step by step ----

  /** What does not change during a check: the authorities, the keys that could sign, the depth limit. */
  datatype Setting = Setting(get: Name -> Authority, available: set<Key>, limit: nat)

  /** The signatures with their marks, and the accounts found to agree. */
  datatype Record = Record(provided: map<Key, bool>, approved: set<Name>)

  datatype Outcome = Outcome(yes: bool, record: Record)

  /** The keys of an authority from the i-th on, then its accounts; done as soon as the threshold is reached. */
  ghost function FromKeys(p: Setting, auth: Authority, depth: nat, i: nat, total: nat, r: Record): Outcome
    requires depth <= p.limit && i <= |auth.keys|
    decreases p.limit - depth, 2, |auth.keys| - i
  {
    if i == |auth.keys| then FromAccounts(p, auth, depth, 0, total, r)
    else
      var k := auth.keys[i].0;
      if k in r.provided || k in p.available then
        var sum := (total + auth.keys[i].1) % TWO32;
        var marked := r.(provided := r.provided[k := true]);
        if sum >= auth.threshold then Outcome(true, marked) else FromKeys(p, auth, depth, i + 1, sum, marked)
      else FromKeys(p, auth, depth, i + 1, total, r)
  }

  ghost function FromAccounts(p: Setting, auth: Authority, depth: nat, j: nat, total: nat, r: Record): Outcome
    requires depth <= p.limit && j <= |auth.accounts|
    decreases p.limit - depth, 1, |auth.accounts| - j
  {
    if j == |auth.accounts| then Outcome(total >= auth.threshold, r)
    else
      var asked := Asked(p, auth.accounts[j].0, depth, r);
      if asked.yes then
        var sum := (total + auth.accounts[j].1) % TWO32;
        if sum >= auth.threshold then Outcome(true, asked.record)
        else FromAccounts(p, auth, depth, j + 1, sum, asked.record)
      else FromAccounts(p, auth, depth, j + 1, total, asked.record)
  }

  /** An account of an authority: known to agree, too deep to ask, or asked and remembered. */
  ghost function Asked(p: Setting, a: Name, depth: nat, r: Record): Outcome
    requires depth <= p.limit
    decreases p.limit - depth, 0
  {
    if a in r.approved then Outcome(true, r)
    else if depth == p.limit then Outcome(false, r)
    else
      var o := FromKeys(p, p.get(a), depth + 1, 0, 0, r);
      if o.yes then Outcome(true, o.record.(approved := o.record.approved + {a})) else o
  }

  ghost function Checked(p: Setting, auth: Authority, r: Record): Outcome
  {
    FromKeys(p, auth, 0, 0, 0, r)
  }

  ghost function CheckedName(p: Setting, id: Name, r: Record): Outcome
  {
    if id in r.approved then Outcome(true, r) else Checked(p, p.get(id), r)
  }

  /** The marks after the first i keys of an authority were looked up. */
  ghost function LookedUp(provided: map<Key, bool>, available: set<Key>, keys: seq<(Key, Weight)>,
                          i: nat): map<Key, bool>
    requires i <= |keys|
  {
    if i == 0 then provided
    else
      var before := LookedUp(provided, available, keys, i - 1);
      if keys[i - 1].0 in provided || keys[i - 1].0 in available then before[keys[i - 1].0 := true] else before
  }

  lemma {:induction false} LookedUpKeys(provided: map<Key, bool>, available: set<Key>, keys: seq<(Key, Weight)>,
                                        i: nat)
    requires i <= |keys|
    ensures forall k :: k in LookedUp(provided, available, keys, i) <==>
      k in provided || (k in available && exists m :: 0 <= m < i && keys[m].0 == k)
    ensures forall k :: k in provided && !LookedUp(provided, available, keys, i)[k] <==>
      k in provided && !provided[k] && forall m :: 0 <= m < i ==> keys[m].0 != k
  {
    if i > 0 {
      LookedUpKeys(provided, available, keys, i - 1);
    }
  }

  /**
    An authority whose keys suffice asks no account and stops at the key that reaches the threshold: the
    signatures of later keys stay unconsulted.
   */
  lemma {:induction false} StopsAtThreshold(p: Setting, auth: Authority, r: Record, i: nat)
    requires i < |auth.keys| && NoWrap(auth)
    requires KeyWeight(auth.keys[..i], r.provided.Keys + p.available) < auth.threshold
      <= KeyWeight(auth.keys[..i + 1], r.provided.Keys + p.available)
    ensures Checked(p, auth, r) == Outcome(true, r.(provided := LookedUp(r.provided, p.available, auth.keys, i + 1)))
  {
    assert auth.keys[..0] == [];
    StopsLater(p, auth, r, i, 0);
  }

  /** The state of the loop over the keys before the m-th, as long as the threshold is not reached. */
  ghost function AtKey(p: Setting, auth: Authority, r: Record, m: nat): Outcome
    requires m <= |auth.keys|
  {
    FromKeys(p, auth, 0, m, KeyWeight(auth.keys[..m], r.provided.Keys + p.available),
      r.(provided := LookedUp(r.provided, p.available, auth.keys, m)))
  }

  lemma {:induction false} StopsLater(p: Setting, auth: Authority, r: Record, i: nat, m: nat)
    requires m <= i < |auth.keys| && NoWrap(auth)
    requires KeyWeight(auth.keys[..i], r.provided.Keys + p.available) < auth.threshold
      <= KeyWeight(auth.keys[..i + 1], r.provided.Keys + p.available)
    ensures AtKey(p, auth, r, m)
      == Outcome(true, r.(provided := LookedUp(r.provided, p.available, auth.keys, i + 1)))
    decreases i - m
  {
    hide AtKey, NoWrap, LookedUp;
    var s := r.provided.Keys + p.available;
    WeightBefore(auth.keys, m, i, s);
    OneKey(p, auth, r, m);
    if m < i {
      WeightBefore(auth.keys, m + 1, i, s);
      StopsLater(p, auth, r, i, m + 1);
    }
  }

  lemma WeightBefore(keys: seq<(Key, Weight)>, m: nat, i: nat, s: set<Key>)
    requires m <= i <= |keys|
    ensures KeyWeight(keys[..m], s) <= KeyWeight(keys[..i], s)
  {
    assert keys[..i][..m] == keys[..m];
    KeyPrefix(keys[..i], m, s);
  }

  lemma OneKey(p: Setting, auth: Authority, r: Record, m: nat)
    requires m < |auth.keys| && NoWrap(auth)
    requires KeyWeight(auth.keys[..m], r.provided.Keys + p.available) < auth.threshold
    ensures AtKey(p, auth, r, m) ==
      if KeyWeight(auth.keys[..m + 1], r.provided.Keys + p.available) < auth.threshold then AtKey(p, auth, r, m + 1)
      else Outcome(true, r.(provided := LookedUp(r.provided, p.available, auth.keys, m + 1)))
  {
    hide FullWeight, NoWrap, KeyWeight;
    var s := r.provided.Keys + p.available;
    KeyStep(auth.keys, m, s);
    LookedUpKeys(r.provided, p.available, auth.keys, m);
    FullWeightBounds(auth, m + 1, 0, s, iset{});
    NoAccountsWeigh(auth.accounts[..0]);
    if auth.keys[m].0 in s {
      WrapsNot(auth, KeyWeight(auth.keys[..m], s), auth.keys[m].1);
    }
  }

  lemma NoAccountsWeigh(accounts: seq<(Name, Weight)>)
    requires accounts == []
    ensures AccountWeight(accounts, iset{}) == 0
  {
  }

  lemma WrapsNot(auth: Authority, total: nat, weight: Weight)
    requires NoWrap(auth) && (total < auth.threshold || total == 0) && total + weight <= FullWeight(auth)
    ensures (total + weight) % TWO32 == total + weight
  {
    NoWrapPlus(auth, total, weight);
  }

  /** Before any check no signature has been consulted. */
  ghost function Unused(sigs: set<Key>): map<Key, bool>
  {
    map k | k in sigs :: false
  }

  /** The signatures that were consulted. */
  ghost function Marked(provided: map<Key, bool>): set<Key>
  {
    set k | k in provided && provided[k]
  }

  class SignState {
    const get: Name -> Authority
    const available: set<Key>
    const maxRecursion: nat
    var provided: map<Key, bool>
    var approved: set<Name>
    ghost const signers: set<Key>
    ghost const base: set<Name>

    ghost function Start(): World
    {
      World(get, signers, base)
    }

    /** What can be told from the signatures consulted so far. */
    ghost function Using(): World
      reads this
    {
      World(get, Marked(provided), base)
    }

    ghost function Setup(): Setting
    {
      Setting(get, available, maxRecursion)
    }

    ghost function Now(): Record
      reads this
    {
      Record(provided, approved)
    }

    /** The cache only ever holds accounts that agree by the signatures consulted so far. */
    ghost predicate Valid()
      reads this
    {
      && provided.Keys + available == signers
      && base <= approved
      && (forall a :: a in approved ==> a in Least(Using()))
    }

    /** No authority in play can overflow the sum. */
    ghost predicate Sane()
    {
      forall a :: NoWrap(get(a))
    }

    constructor (sigs: set<Key>, get: Name -> Authority, available: set<Key>, approvals: set<Name>, maxRecursion: nat)
      ensures Valid() && this.get == get && this.available == available && this.maxRecursion == maxRecursion
      ensures signers == sigs + available && base == approvals + {"temp"} && approved == base
      ensures provided.Keys == sigs && forall k :: k in sigs ==> !provided[k]
    {
      this.get, this.available, this.maxRecursion := get, available, maxRecursion;
      provided := map k | k in sigs :: false;
      approved := {"temp"} + approvals;
      signers, base := sigs + available, approvals + {"temp"};
      new;
      BaseAgrees(Using(), 0);
    }

    /** More marks keep the cache right. */
    twostate lemma MarksGrow()
      requires old(Valid()) && provided.Keys + available == signers && approved == old(approved)
      requires forall k :: k in old(provided) ==> k in provided && (old(provided)[k] ==> provided[k])
      ensures Valid() && Grows(old(Using()), Using())
    {
      LeastGrows(old(Using()), Using());
    }

    method SignedBy(k: Key) returns (yes: bool)
      requires Valid()
      modifies this`provided
      ensures Valid() && yes == (k in signers) && (yes ==> k in Using().signed)
      ensures provided == if yes then old(provided)[k := true] else old(provided)
    {
      hide Least;
      if k !in provided {
        if k in available {
          provided := provided[k := true];
          MarksGrow();
          return true;
        }
        return false;
      }
      provided := provided[k := true];
      MarksGrow();
      yes := true;
    }

    /** check_authority by account name: approved already, or its own authority holds. */
    method CheckName(id: Name) returns (yes: bool)
      requires Valid()
      modifies this
      ensures Valid() && Grows(old(Using()), Using())
      ensures yes ==> id in Least(Using())
      ensures Sane() && id in Level(Start(), maxRecursion + 1) ==> yes
      ensures Consulted(old(provided), provided, get, get(id), maxRecursion)
      ensures Outcome(yes, Now()) == CheckedName(Setup(), id, old(Now()))
    {
      hide Least, Satisfied, Consulted, NoWrap, FromKeys;
      ConsultedNothing(provided, get, get(id), maxRecursion);
      if id in approved {
        return true;
      }
      yes := Check(get(id), 0);
      if yes {
        LeastTakesIn(Using(), id);
      }
    }

    /**
      The recursive check, accepting everything the plain recursion accepts, and nothing outside the fixed point of
      the signatures that it consulted.
     */
    method Check(auth: Authority, depth: nat) returns (yes: bool)
      requires Valid() && depth <= maxRecursion
      modifies this
      ensures Valid() && Grows(old(Using()), Using())
      ensures yes ==> Holds(Using(), auth)
      ensures Sane() && NoWrap(auth) && Satisfied(auth, signers, Level(Start(), maxRecursion - depth)) ==> yes
      ensures Consulted(old(provided), provided, get, auth, maxRecursion - depth)
      ensures Outcome(yes, Now()) == FromKeys(Setup(), auth, depth, 0, 0, old(Now()))
      decreases maxRecursion - depth, 1
    {
      hide Least, Level, Holds, Satisfied, Consulted, Between, NoWrap, Plus, Asked;
      ghost var w, n := Start(), maxRecursion - depth;
      ghost var exact := Sane() && NoWrap(auth);
      ghost var end := FromKeys(Setup(), auth, depth, 0, 0, Now());
      var total: nat := 0;
      ConsultedNothing(provided, get, auth, n);
      NothingCounted(w, Using(), auth, n, exact);
      var i := 0;
      while i < |auth.keys|
        invariant i <= |auth.keys| && Valid() && Grows(old(Using()), Using())
        invariant Between(w, Using(), auth, n, i, 0, total, exact)
        invariant Consulted(old(provided), provided, get, auth, n)
        invariant FromKeys(Setup(), auth, depth, i, total, Now()) == end
      {
        ghost var before, u := provided, Using();
        ConsultedKey(provided, get, auth, n, i);
        ConsultedNothing(provided, get, auth, n);
        var signed := SignedBy(auth.keys[i].0);
        ConsultedTransitive(old(provided), before, provided, get, auth, n);
        BetweenGrows(w, u, Using(), auth, n, i, 0, total, exact);
        KeyCounted(w, Using(), auth, n, i, total, exact, signed);
        PlusIs(total, auth.keys[i].1);
        if signed {
          total := Plus(total, auth.keys[i].1);
          if total >= auth.threshold {
            return true;
          }
        }
        i := i + 1;
      }
      var j := 0;
      while j < |auth.accounts|
        invariant j <= |auth.accounts| && Valid() && Grows(old(Using()), Using())
        invariant Between(w, Using(), auth, n, |auth.keys|, j, total, exact)
        invariant Consulted(old(provided), provided, get, auth, n)
        invariant FromAccounts(Setup(), auth, depth, j, total, Now()) == end
      {
        ghost var before, u := provided, Using();
        var agrees := Agrees(auth, j, depth);
        ConsultedTransitive(old(provided), before, provided, get, auth, n);
        BetweenGrows(w, u, Using(), auth, n, |auth.keys|, j, total, exact);
        AccountCounted(w, Using(), auth, n, j, total, exact, agrees);
        PlusIs(total, auth.accounts[j].1);
        if agrees {
          total := Plus(total, auth.accounts[j].1);
          if total >= auth.threshold {
            return true;
          }
        }
        j := j + 1;
      }
      AllCounted(w, Using(), auth, n, total, exact);
      yes := total >= auth.threshold;
    }

    /** One account of an authority: in the cache, or checked one level down and then cached. */
    method Agrees(auth: Authority, j: nat, depth: nat) returns (yes: bool)
      requires Valid() && depth <= maxRecursion && j < |auth.accounts|
      modifies this
      ensures Valid() && Grows(old(Using()), Using())
      ensures yes ==> auth.accounts[j].0 in Least(Using())
      ensures Sane() && auth.accounts[j].0 in Level(Start(), maxRecursion - depth) ==> yes
      ensures Consulted(old(provided), provided, get, auth, maxRecursion - depth)
      ensures Outcome(yes, Now()) == Asked(Setup(), auth.accounts[j].0, depth, old(Now()))
      decreases maxRecursion - depth, 0
    {
      hide Least, Satisfied, Consulted, NoWrap, FromKeys;
      var a := auth.accounts[j].0;
      ConsultedNothing(provided, get, auth, maxRecursion - depth);
      if a in approved {
        return true;
      }
      if depth == maxRecursion {
        return false;
      }
      yes := Check(get(a), depth + 1);
      ConsultedThrough(old(provided), provided, get, auth, maxRecursion - depth, j);
      if yes {
        LeastTakesIn(Using(), a);
        approved := approved + {a};
      }
    }

    /** Says whether some signature was never consulted, and drops those. */
    method RemoveUnusedSignatures() returns (some: bool)
      requires Valid()
      modifies this`provided
      ensures some <==> exists k :: k in old(provided) && !old(provided)[k]
      ensures provided == map k | k in old(provided) && old(provided)[k] :: true
    {
      some := exists k :: k in provided && !provided[k];
      provided := map k | k in provided && provided[k] :: true;
    }
  }

  lemma LeastTakesIn(w: World, a: Name)
    requires Holds(w, w.get(a))
    ensures a in Least(w)
  {
    LeastIsClosed(w);
  }

  // ---- A whole transaction ----

  /** What the operations of a transaction ask for. */
  datatype Required = Required(posting: seq<Name>, active: seq<Name>, owner: seq<Name>, other: seq<Authority>)

  datatype Verdict =
    | Accepted
    | MixedAuthorities
    | MissingPosting(id: Name)
    | MissingOther(auth: Authority)
    | MissingActive(id: Name)
    | MissingOwner(id: Name)
    | IrrelevantSignature

  /** The authorities on record. */
  datatype Getters = Getters(active: Name -> Authority, owner: Name -> Authority, posting: Name -> Authority)

  ghost predicate AllSane(g: Getters)
  {
    forall a :: NoWrap(g.active(a)) && NoWrap(g.owner(a)) && NoWrap(g.posting(a))
  }

  /** Where the authorities of a transaction start from. */
  ghost function Roots(g: Getters, need: Required): iset<Authority>
  {
    iset auth | IsRoot(g, need, auth)
  }

  ghost predicate IsRoot(g: Getters, need: Required, auth: Authority)
  {
    || auth in need.other
    || (exists id :: id in need.posting && (auth == g.posting(id) || auth == g.active(id) || auth == g.owner(id)))
    || (exists id :: id in need.active && (auth == g.active(id) || auth == g.owner(id)))
    || (exists id :: id in need.owner && auth == g.owner(id))
  }

  /** Every signature newly counted as consulted is mentioned by, or below, one of the roots. */
  ghost predicate ConsultedBy(before: map<Key, bool>, after: map<Key, bool>, get: Name -> Authority,
                              roots: iset<Authority>, n: nat)
  {
    && (forall k :: k in before ==> k in after && (before[k] ==> after[k]))
    && (forall k :: k in after && k !in before ==> after[k])
    && (forall k :: k in after && after[k] && !(k in before && before[k]) ==> MentionedBy(get, roots, n, k))
  }

  ghost predicate MentionedBy(get: Name -> Authority, roots: iset<Authority>, n: nat, k: Key)
  {
    exists auth :: auth in roots && Mentions(get, auth, n, k)
  }

  lemma ConsultedByMore(a: map<Key, bool>, b: map<Key, bool>, c: map<Key, bool>, get: Name -> Authority,
                        roots: iset<Authority>, auth: Authority, n: nat)
    requires ConsultedBy(a, b, get, roots, n) && Consulted(b, c, get, auth, n) && auth in roots
    ensures ConsultedBy(a, c, get, roots, n)
  {
    hide Mentions;
  }

  ghost predicate SatisfiedAt(w: World, auth: Authority, n: nat)
  {
    Satisfied(auth, w.signed, Level(w, n))
  }

  ghost predicate PostingHolds(w: World, g: Getters, id: Name)
  {
    id in Least(w) || Holds(w, g.active(id)) || Holds(w, g.owner(id))
  }

  ghost predicate ActiveHolds(w: World, g: Getters, id: Name)
  {
    id in Least(w) || Holds(w, g.owner(id))
  }

  ghost predicate OwnerHolds(w: World, g: Getters, ownerApprovals: set<Name>, id: Name)
  {
    id in ownerApprovals || Holds(w, g.owner(id))
  }

  /** The world the posting branch works in: accounts named by an authority answer by their posting authority. */
  ghost function PostingWorld(g: Getters, sigs: set<Key>, approvals: set<Name>): World
  {
    World(g.posting, sigs, approvals + {"temp"})
  }

  ghost function ActiveWorld(g: Getters, sigs: set<Key>, active: set<Name>, owner: set<Name>): World
  {
    World(g.active, sigs, active + owner + {"temp"})
  }

  /** The authorities that the operations need hold, in the fixed point of these signatures. */
  ghost predicate Met(need: Required, sigs: set<Key>, g: Getters, active: set<Name>, owner: set<Name>,
                      posting: set<Name>)
  {
    if need.posting != [] then AllPosting(PostingWorld(g, sigs, posting), g, need.posting)
    else AllActive(ActiveWorld(g, sigs, active, owner), g, need, owner)
  }

  /** Without any one of the signatures something would not hold. */
  ghost predicate EachNeeded(need: Required, sigs: set<Key>, g: Getters, active: set<Name>, owner: set<Name>,
                             posting: set<Name>)
  {
    forall k :: k in sigs ==> !Met(need, sigs - {k}, g, active, owner, posting)
  }

  ghost predicate AllPosting(w: World, g: Getters, ids: seq<Name>)
  {
    forall id :: id in ids ==> PostingHolds(w, g, id)
  }

  ghost predicate AllActive(w: World, g: Getters, need: Required, ownerApprovals: set<Name>)
  {
    && (forall auth :: auth in need.other ==> Holds(w, auth))
    && (forall id :: id in need.active ==> ActiveHolds(w, g, id))
    && (forall id :: id in need.owner ==> OwnerHolds(w, g, ownerApprovals, id))
  }

  /** They hold within the depth limit. */
  ghost predicate MetWithin(need: Required, sigs: set<Key>, g: Getters, limit: nat, active: set<Name>,
                            owner: set<Name>, posting: set<Name>)
  {
    var w := if need.posting != [] then PostingWorld(g, sigs, posting) else ActiveWorld(g, sigs, active, owner);
    && (forall id :: id in need.posting ==>
          id in Level(w, limit + 1) || SatisfiedAt(w, g.active(id), limit) || SatisfiedAt(w, g.owner(id), limit))
    && (forall auth :: auth in need.other ==> NoWrap(auth) && SatisfiedAt(w, auth, limit))
    && (forall id :: id in need.active ==> id in Level(w, limit + 1) || SatisfiedAt(w, g.owner(id), limit))
    && (forall id :: id in need.owner ==> id in owner || SatisfiedAt(w, g.owner(id), limit))
  }

  lemma PostingGrows(u: World, w: World, g: Getters, ids: seq<Name>)
    requires Grows(u, w) && AllPosting(u, g, ids)
    ensures AllPosting(w, g, ids)
  {
    hide Holds, Least;
    LeastGrows(u, w);
    forall id | id in ids
      ensures PostingHolds(w, g, id)
    {
      if Holds(u, g.active(id)) { HoldsGrows(u, w, g.active(id)); }
      if Holds(u, g.owner(id)) { HoldsGrows(u, w, g.owner(id)); }
    }
  }

  lemma ActiveGrows(u: World, w: World, g: Getters, need: Required, ownerApprovals: set<Name>)
    requires Grows(u, w) && AllActive(u, g, need, ownerApprovals)
    ensures AllActive(w, g, need, ownerApprovals)
  {
    hide Holds, Least;
    LeastGrows(u, w);
    forall auth | Holds(u, auth)
      ensures Holds(w, auth)
    {
      HoldsGrows(u, w, auth);
    }
  }

  // ---- What the check of a transaction answers, step by step ----

  /** After all authorities were found: whether some signature was never consulted. */
  ghost function Finally(r: Record): Verdict
  {
    if exists k :: k in r.provided && !r.provided[k] then IrrelevantSignature else Accepted
  }

  ghost function AskedPosting(p: Setting, g: Getters, id: Name, r: Record): Outcome
  {
    var posting := CheckedName(p, id, r);
    if posting.yes then posting
    else
      var active := Checked(p, g.active(id), posting.record);
      if active.yes then active else Checked(p, g.owner(id), active.record)
  }

  ghost function PostingVerdict(p: Setting, g: Getters, ids: seq<Name>, i: nat, r: Record): Verdict
    requires i <= |ids|
    decreases |ids| - i
  {
    if i == |ids| then Finally(r)
    else
      var asked := AskedPosting(p, g, ids[i], r);
      if asked.yes then PostingVerdict(p, g, ids, i + 1, asked.record) else MissingPosting(ids[i])
  }

  ghost function OwnerVerdict(p: Setting, g: Getters, ids: seq<Name>, approvals: set<Name>, i: nat,
                              r: Record): Verdict
    requires i <= |ids|
    decreases |ids| - i
  {
    if i == |ids| then Finally(r)
    else if ids[i] in approvals then OwnerVerdict(p, g, ids, approvals, i + 1, r)
    else
      var asked := Checked(p, g.owner(ids[i]), r);
      if asked.yes then OwnerVerdict(p, g, ids, approvals, i + 1, asked.record) else MissingOwner(ids[i])
  }

  ghost function AskedActive(p: Setting, g: Getters, id: Name, r: Record): Outcome
  {
    var active := CheckedName(p, id, r);
    if active.yes then active else Checked(p, g.owner(id), active.record)
  }

  ghost function ActiveVerdict(p: Setting, g: Getters, need: Required, approvals: set<Name>, i: nat,
                               r: Record): Verdict
    requires i <= |need.active|
    decreases |need.active| - i
  {
    if i == |need.active| then OwnerVerdict(p, g, need.owner, approvals, 0, r)
    else
      var asked := AskedActive(p, g, need.active[i], r);
      if asked.yes then ActiveVerdict(p, g, need, approvals, i + 1, asked.record) else MissingActive(need.active[i])
  }

  ghost function OtherVerdict(p: Setting, g: Getters, need: Required, approvals: set<Name>, i: nat,
                              r: Record): Verdict
    requires i <= |need.other|
    decreases |need.other| - i
  {
    if i == |need.other| then ActiveVerdict(p, g, need, approvals, 0, r)
    else
      var asked := Checked(p, need.other[i], r);
      if asked.yes then OtherVerdict(p, g, need, approvals, i + 1, asked.record) else MissingOther(need.other[i])
  }

  /**
    A post by one account whose keys reach the threshold at the i-th is accepted if and only if every signature
    is by one of the keys up to that one.
   */
  lemma PostBySufficientKeys(p: Setting, g: Getters, id: Name, sigs: set<Key>, base: set<Name>, i: nat)
    requires p.get == g.posting && p.available == {} && id !in base
    requires i < |g.posting(id).keys| && NoWrap(g.posting(id))
    requires KeyWeight(g.posting(id).keys[..i], sigs) < g.posting(id).threshold
      <= KeyWeight(g.posting(id).keys[..i + 1], sigs)
    ensures PostingVerdict(p, g, [id], 0, Record(Unused(sigs), base)) ==
      if forall k :: k in sigs ==> k in KeysOf(g.posting(id), i + 1) then Accepted else IrrelevantSignature
  {
    hide FromKeys, KeyWeight;
    var r, auth := Record(Unused(sigs), base), g.posting(id);
    assert r.provided.Keys + p.available == sigs;
    StopsAtThreshold(p, auth, r, i);
    LookedUpKeys(r.provided, p.available, auth.keys, i + 1);
    var after := r.(provided := LookedUp(r.provided, p.available, auth.keys, i + 1));
    assert PostingVerdict(p, g, [id], 0, r) == PostingVerdict(p, g, [id], 1, after) == Finally(after);
  }

  /** The first n keys of an authority. */
  ghost function KeysOf(auth: Authority, n: nat): set<Key>
    requires n <= |auth.keys|
  {
    set m | 0 <= m < n :: auth.keys[m].0
  }

  /** A state that serves one transaction: all signatures consulted so far lead to the roots. */
  ghost predicate Serving(s: SignState, sigs: set<Key>, roots: iset<Authority>, w: World, limit: nat)
    reads s
  {
    && s.Valid() && s.Start() == w && s.Setup() == Setting(w.get, {}, limit)
    && ConsultedBy(Unused(sigs), s.provided, s.get, roots, limit)
  }

  /** check_authority on an authority that the transaction needs. */
  method CheckRoot(s: SignState, auth: Authority, ghost sigs: set<Key>, ghost roots: iset<Authority>, ghost w: World,
                   ghost limit: nat)
    returns (yes: bool)
    requires Serving(s, sigs, roots, w, limit) && auth in roots
    modifies s
    ensures Serving(s, sigs, roots, w, limit) && Grows(old(s.Using()), s.Using())
    ensures yes ==> Holds(s.Using(), auth)
    ensures (forall a :: NoWrap(w.get(a))) && NoWrap(auth) && SatisfiedAt(w, auth, limit) ==> yes
    ensures Outcome(yes, s.Now()) == Checked(Setting(w.get, {}, limit), auth, old(s.Now()))
  {
    hide Least, Level, Satisfied, Consulted, ConsultedBy, NoWrap, FromKeys;
    ghost var before := s.provided;
    yes := s.Check(auth, 0);
    ConsultedByMore(Unused(sigs), before, s.provided, s.get, roots, auth, limit);
  }

  method CheckRootName(s: SignState, id: Name, ghost sigs: set<Key>, ghost roots: iset<Authority>, ghost w: World,
                       ghost limit: nat)
    returns (yes: bool)
    requires Serving(s, sigs, roots, w, limit) && w.get(id) in roots
    modifies s
    ensures Serving(s, sigs, roots, w, limit) && Grows(old(s.Using()), s.Using())
    ensures yes ==> id in Least(s.Using())
    ensures (forall a :: NoWrap(w.get(a))) && id in Level(w, limit + 1) ==> yes
    ensures Outcome(yes, s.Now()) == CheckedName(Setting(w.get, {}, limit), id, old(s.Now()))
  {
    hide Least, Level, Satisfied, Consulted, ConsultedBy, NoWrap, FromKeys, CheckedName;
    ghost var before := s.provided;
    yes := s.CheckName(id);
    ConsultedByMore(Unused(sigs), before, s.provided, s.get, roots, w.get(id), limit);
  }

  /** Some signature is left over exactly when it was never consulted. */
  method NoneUnused(s: SignState, sigs: set<Key>, ghost roots: iset<Authority>, ghost w: World, ghost limit: nat)
    returns (yes: bool)
    requires Serving(s, sigs, roots, w, limit) && w.signed == sigs
    modifies s
    ensures (if yes then Accepted else IrrelevantSignature) == Finally(old(s.Now()))
    ensures yes ==> forall k :: k in sigs ==> MentionedBy(w.get, roots, limit, k)
    ensures !yes ==> exists k :: k in sigs && Grows(old(s.Using()), w.(signed := sigs - {k}))
  {
    hide Least, Level, Satisfied, MentionedBy;
    ghost var provided := s.provided;
    var some := s.RemoveUnusedSignatures();
    yes := !some;
    if some {
      ghost var k :| k in provided && !provided[k];
      assert Marked(provided) <= sigs - {k};
    }
  }

  /**
    verify_authority: accepts only when every required authority holds in the
    least fixed point and every signature belongs to it; refuses for a missing
    authority only when the plain recursion refuses it too, and for an irrelevant
    signature only when everything holds without one.
   */
  method VerifyAuthority(need: Required, sigs: set<Key>, g: Getters, limit: nat,
                         activeApprovals: set<Name>, ownerApprovals: set<Name>, postingApprovals: set<Name>)
    returns (v: Verdict)
    ensures v.MixedAuthorities? <==> need.posting != [] && (need.active != [] || need.owner != [] || need.other != [])
    ensures v.Accepted? || v.IrrelevantSignature? ==>
      Met(need, sigs, g, activeApprovals, ownerApprovals, postingApprovals)
    ensures v.Accepted? ==>
      forall k :: k in sigs ==>
        MentionedBy(if need.posting != [] then g.posting else g.active, Roots(g, need), limit, k)
    ensures v.IrrelevantSignature? ==>
      !EachNeeded(need, sigs, g, activeApprovals, ownerApprovals, postingApprovals)
    ensures AllSane(g) && !v.MixedAuthorities? ==>
      MetWithin(need, sigs, g, limit, activeApprovals, ownerApprovals, postingApprovals) ==>
      v.Accepted? || v.IrrelevantSignature?
    ensures AllSane(g) && v.MissingPosting? ==>
      var w := PostingWorld(g, sigs, postingApprovals);
      v.id in need.posting && v.id !in Level(w, limit + 1)
      && !SatisfiedAt(w, g.active(v.id), limit) && !SatisfiedAt(w, g.owner(v.id), limit)
    ensures AllSane(g) && v.MissingOther? ==>
      var w := ActiveWorld(g, sigs, activeApprovals, ownerApprovals);
      v.auth in need.other && (NoWrap(v.auth) ==> !SatisfiedAt(w, v.auth, limit))
    ensures AllSane(g) && v.MissingActive? ==>
      var w := ActiveWorld(g, sigs, activeApprovals, ownerApprovals);
      v.id in need.active && v.id !in Level(w, limit + 1) && !SatisfiedAt(w, g.owner(v.id), limit)
    ensures AllSane(g) && v.MissingOwner? ==>
      var w := ActiveWorld(g, sigs, activeApprovals, ownerApprovals);
      v.id in need.owner && v.id !in ownerApprovals && !SatisfiedAt(w, g.owner(v.id), limit)
    ensures need.posting != [] && !v.MixedAuthorities? ==>
      v == PostingVerdict(Setting(g.posting, {}, limit), g, need.posting, 0,
                          Record(Unused(sigs), postingApprovals + {"temp"}))
    ensures need.posting == [] ==>
      v == OtherVerdict(Setting(g.active, {}, limit), g, need, ownerApprovals, 0,
                        Record(Unused(sigs), activeApprovals + ownerApprovals + {"temp"}))
  {
    hide MentionedBy, Roots, Level, Satisfied, SatisfiedAt, NoWrap, PostingVerdict, OtherVerdict, AllPosting, AllActive;
    if need.posting != [] {
      if need.active != [] || need.owner != [] || need.other != [] {
        return MixedAuthorities;
      }
      v := VerifyPosting(need, sigs, g, limit, postingApprovals);
    } else {
      v := VerifyActive(need, sigs, g, limit, activeApprovals, ownerApprovals);
    }
  }

  method VerifyPosting(need: Required, sigs: set<Key>, g: Getters, limit: nat, approvals: set<Name>)
    returns (v: Verdict)
    ensures v.Accepted? || v.IrrelevantSignature? || v.MissingPosting?
    ensures v.Accepted? || v.IrrelevantSignature? ==> AllPosting(PostingWorld(g, sigs, approvals), g, need.posting)
    ensures v.Accepted? ==> forall k :: k in sigs ==> MentionedBy(g.posting, Roots(g, need), limit, k)
    ensures v.IrrelevantSignature? ==>
      exists k :: k in sigs && AllPosting(PostingWorld(g, sigs - {k}, approvals), g, need.posting)
    ensures AllSane(g) && v.MissingPosting? ==>
      var w := PostingWorld(g, sigs, approvals);
      v.id in need.posting && v.id !in Level(w, limit + 1)
      && !SatisfiedAt(w, g.active(v.id), limit) && !SatisfiedAt(w, g.owner(v.id), limit)
    ensures v == PostingVerdict(Setting(g.posting, {}, limit), g, need.posting, 0,
                                Record(Unused(sigs), approvals + {"temp"}))
  {
    hide Least, Level, Satisfied, Holds, SatisfiedAt, ConsultedBy, MentionedBy, NoWrap, Checked, CheckedName, Finally;
    ghost var w, roots, p := PostingWorld(g, sigs, approvals), Roots(g, need), Setting(g.posting, {}, limit);
    var s := new SignState(sigs, g.posting, {}, approvals, limit);
    Unconsulted(sigs, g.posting, roots, limit);
    assert s.provided == Unused(sigs) && s.signers == sigs && s.Start() == w;
    assert Serving(s, sigs, roots, w, limit);
    for i := 0 to |need.posting|
      invariant fresh(s) && Serving(s, sigs, roots, w, limit)
      invariant AllPosting(s.Using(), g, need.posting[..i])
      invariant PostingVerdict(p, g, need.posting, i, s.Now())
        == PostingVerdict(p, g, need.posting, 0, Record(Unused(sigs), approvals + {"temp"}))
    {
      hide Serving, AllPosting, PostingHolds;
      var id := need.posting[i];
      assert id in need.posting;
      ghost var u := s.Using();
      var yes := CheckRootName(s, id, sigs, roots, w, limit);
      if !yes {
        yes := CheckRoot(s, g.active(id), sigs, roots, w, limit);
      }
      if !yes {
        yes := CheckRoot(s, g.owner(id), sigs, roots, w, limit);
      }
      if !yes {
        return MissingPosting(id);
      }
      PostingGrows(u, s.Using(), g, need.posting[..i]);
      OneMorePosting(s.Using(), g, need.posting, i);
    }
    assert need.posting[..|need.posting|] == need.posting;
    UsingGrows(s, sigs, roots, w, limit);
    PostingGrows(s.Using(), w, g, need.posting);
    ghost var u := s.Using();
    var clean := NoneUnused(s, sigs, roots, w, limit);
    if !clean {
      ghost var k :| k in sigs && Grows(u, w.(signed := sigs - {k}));
      PostingGrows(u, PostingWorld(g, sigs - {k}, approvals), g, need.posting);
    }
    v := if clean then Accepted else IrrelevantSignature;
  }

  lemma OneMorePosting(u: World, g: Getters, ids: seq<Name>, i: nat)
    requires i < |ids| && AllPosting(u, g, ids[..i])
    requires ids[i] in Least(u) || Holds(u, g.active(ids[i])) || Holds(u, g.owner(ids[i]))
    ensures AllPosting(u, g, ids[..i + 1])
  {
    hide Least, Holds;
  }

  lemma UsingGrows(s: SignState, sigs: set<Key>, roots: iset<Authority>, w: World, limit: nat)
    requires Serving(s, sigs, roots, w, limit)
    ensures Grows(s.Using(), w)
  {
  }

  method VerifyActive(need: Required, sigs: set<Key>, g: Getters, limit: nat, activeApprovals: set<Name>,
                      ownerApprovals: set<Name>)
    returns (v: Verdict)
    ensures v.Accepted? || v.IrrelevantSignature? || v.MissingOther? || v.MissingActive? || v.MissingOwner?
    ensures v.Accepted? || v.IrrelevantSignature? ==>
      AllActive(ActiveWorld(g, sigs, activeApprovals, ownerApprovals), g, need, ownerApprovals)
    ensures v.Accepted? ==> forall k :: k in sigs ==> MentionedBy(g.active, Roots(g, need), limit, k)
    ensures v.IrrelevantSignature? ==>
      exists k :: k in sigs && AllActive(ActiveWorld(g, sigs - {k}, activeApprovals, ownerApprovals), g, need,
                                         ownerApprovals)
    ensures AllSane(g) && v.MissingOther? ==>
      var w := ActiveWorld(g, sigs, activeApprovals, ownerApprovals);
      v.auth in need.other && (NoWrap(v.auth) ==> !SatisfiedAt(w, v.auth, limit))
    ensures AllSane(g) && v.MissingActive? ==>
      var w := ActiveWorld(g, sigs, activeApprovals, ownerApprovals);
      v.id in need.active && v.id !in Level(w, limit + 1) && !SatisfiedAt(w, g.owner(v.id), limit)
    ensures AllSane(g) && v.MissingOwner? ==>
      var w := ActiveWorld(g, sigs, activeApprovals, ownerApprovals);
      v.id in need.owner && v.id !in ownerApprovals && !SatisfiedAt(w, g.owner(v.id), limit)
    ensures v == OtherVerdict(Setting(g.active, {}, limit), g, need, ownerApprovals, 0,
                              Record(Unused(sigs), activeApprovals + ownerApprovals + {"temp"}))
  {
    hide Least, Level, Satisfied, Holds, SatisfiedAt, ConsultedBy, MentionedBy, NoWrap, OtherVerdict, ActiveVerdict,
      OwnerVerdict, Finally;
    ghost var w, roots := ActiveWorld(g, sigs, activeApprovals, ownerApprovals), Roots(g, need);
    var s := new SignState(sigs, g.active, {}, activeApprovals + ownerApprovals, limit);
    Unconsulted(sigs, g.active, roots, limit);
    assert s.provided == Unused(sigs) && s.signers == sigs && s.Start() == w;
    assert Serving(s, sigs, roots, w, limit);
    RootsOf(g, need);
    hide IsRoot, Roots, ActiveHolds, OwnerHolds, Grows, AllActive;
    hide Serving;
    var other := FindMissingOther(s, need, g, ownerApprovals, sigs, roots, w, limit);
    if other.Some? {
      return MissingOther(other.value);
    }
    ghost var one := s.Using();
    var active := FindMissingActive(s, need, g, ownerApprovals, sigs, roots, w, limit);
    if active.Some? {
      return MissingActive(active.value);
    }
    ghost var two := s.Using();
    var owner := FindMissingOwner(s, need.owner, g, ownerApprovals, sigs, roots, w, limit);
    if owner.Some? {
      return MissingOwner(owner.value);
    }
    ghost var u := s.Using();
    AllFound(one, two, u, g, need, ownerApprovals);
    UsingGrows(s, sigs, roots, w, limit);
    ActiveGrows(u, w, g, need, ownerApprovals);
    var clean := NoneUnused(s, sigs, roots, w, limit);
    if !clean {
      ghost var k :| k in sigs && Grows(u, w.(signed := sigs - {k}));
      ActiveGrows(u, ActiveWorld(g, sigs - {k}, activeApprovals, ownerApprovals), g, need, ownerApprovals);
    }
    v := if clean then Accepted else IrrelevantSignature;
  }

  /** What was found along the way still holds with the signatures consulted in the end. */
  lemma AllFound(one: World, two: World, u: World, g: Getters, need: Required, approvals: set<Name>)
    requires Grows(one, two) && Grows(two, u)
    requires forall auth :: auth in need.other ==> Holds(one, auth)
    requires forall id :: id in need.active ==> ActiveHolds(two, g, id)
    requires forall id :: id in need.owner ==> OwnerHolds(u, g, approvals, id)
    ensures AllActive(u, g, need, approvals)
  {
    hide Holds, Least;
    ActiveGrows(one, u, g, Required([], [], [], need.other), approvals);
    ActiveGrows(two, u, g, Required([], need.active, [], []), approvals);
  }

  /** The first of the explicit authorities that does not hold. */
  method FindMissingOther(s: SignState, need: Required, ghost g: Getters, ghost approvals: set<Name>,
                          ghost sigs: set<Key>, ghost roots: iset<Authority>, ghost w: World, ghost limit: nat)
    returns (missing: Option<Authority>)
    requires Serving(s, sigs, roots, w, limit) && forall auth :: auth in need.other ==> auth in roots
    modifies s
    ensures Serving(s, sigs, roots, w, limit) && Grows(old(s.Using()), s.Using())
    ensures missing.None? ==> forall auth :: auth in need.other ==> Holds(s.Using(), auth)
    ensures missing.Some? ==> missing.value in need.other
    ensures missing.Some? && (forall a :: NoWrap(w.get(a))) && NoWrap(missing.value) ==>
      !SatisfiedAt(w, missing.value, limit)
    ensures OtherVerdict(Setting(w.get, {}, limit), g, need, approvals, 0, old(s.Now())) ==
      if missing.Some? then MissingOther(missing.value)
      else ActiveVerdict(Setting(w.get, {}, limit), g, need, approvals, 0, s.Now())
  {
    hide Holds, SatisfiedAt, NoWrap, Serving, Checked, ActiveVerdict;
    ghost var p := Setting(w.get, {}, limit);
    var other := need.other;
    for i := 0 to |other|
      invariant Serving(s, sigs, roots, w, limit) && Grows(old(s.Using()), s.Using())
      invariant forall k :: 0 <= k < i ==> Holds(s.Using(), other[k])
      invariant OtherVerdict(p, g, need, approvals, i, s.Now())
        == OtherVerdict(p, g, need, approvals, 0, old(s.Now()))
    {
      assert other[i] in other;
      ghost var u := s.Using();
      var yes := CheckRoot(s, other[i], sigs, roots, w, limit);
      if !yes {
        return Some(other[i]);
      }
      forall k | 0 <= k < i
        ensures Holds(s.Using(), other[k])
      {
        HoldsGrows(u, s.Using(), other[k]);
      }
    }
    missing := None;
  }

  lemma RootsOf(g: Getters, need: Required)
    ensures forall auth :: auth in need.other ==> auth in Roots(g, need)
    ensures forall id :: id in need.active ==> g.active(id) in Roots(g, need) && g.owner(id) in Roots(g, need)
    ensures forall id :: id in need.owner ==> g.owner(id) in Roots(g, need)
  {
  }

  lemma ActiveHoldsGrows(u: World, w: World, g: Getters, id: Name)
    requires Grows(u, w) && ActiveHolds(u, g, id)
    ensures ActiveHolds(w, g, id)
  {
    hide Least, Holds;
    LeastGrows(u, w);
    if Holds(u, g.owner(id)) {
      HoldsGrows(u, w, g.owner(id));
    }
  }

  /** The first account neither whose active nor whose owner authority holds. */
  method FindMissingActive(s: SignState, need: Required, g: Getters, ghost approvals: set<Name>, ghost sigs: set<Key>,
                           ghost roots: iset<Authority>, ghost w: World, ghost limit: nat)
    returns (missing: Option<Name>)
    requires Serving(s, sigs, roots, w, limit)
    requires forall id :: id in need.active ==> w.get(id) in roots && g.owner(id) in roots
    modifies s
    ensures Serving(s, sigs, roots, w, limit) && Grows(old(s.Using()), s.Using())
    ensures missing.None? ==> forall id :: id in need.active ==> ActiveHolds(s.Using(), g, id)
    ensures missing.Some? ==> missing.value in need.active
    ensures missing.Some? && (forall a :: NoWrap(w.get(a))) ==> missing.value !in Level(w, limit + 1)
    ensures missing.Some? && (forall a :: NoWrap(w.get(a))) && NoWrap(g.owner(missing.value)) ==>
      !SatisfiedAt(w, g.owner(missing.value), limit)
    ensures ActiveVerdict(Setting(w.get, {}, limit), g, need, approvals, 0, old(s.Now())) ==
      if missing.Some? then MissingActive(missing.value)
      else OwnerVerdict(Setting(w.get, {}, limit), g, need.owner, approvals, 0, s.Now())
  {
    hide Holds, SatisfiedAt, NoWrap, Serving, Level, Least, Checked, CheckedName, OwnerVerdict;
    ghost var p := Setting(w.get, {}, limit);
    var accounts := need.active;
    for i := 0 to |accounts|
      invariant Serving(s, sigs, roots, w, limit) && Grows(old(s.Using()), s.Using())
      invariant forall k :: 0 <= k < i ==> ActiveHolds(s.Using(), g, accounts[k])
      invariant ActiveVerdict(p, g, need, approvals, i, s.Now())
        == ActiveVerdict(p, g, need, approvals, 0, old(s.Now()))
    {
      var id := accounts[i];
      assert id in accounts;
      ghost var u := s.Using();
      var yes := CheckRootName(s, id, sigs, roots, w, limit);
      if !yes {
        yes := CheckRoot(s, g.owner(id), sigs, roots, w, limit);
      }
      if !yes {
        return Some(id);
      }
      forall k | 0 <= k < i
        ensures ActiveHolds(s.Using(), g, accounts[k])
      {
        ActiveHoldsGrows(u, s.Using(), g, accounts[k]);
      }
    }
    missing := None;
  }

  /** The first account whose owner authority does not hold. */
  method FindMissingOwner(s: SignState, owners: seq<Name>, g: Getters, approvals: set<Name>, ghost sigs: set<Key>,
                          ghost roots: iset<Authority>, ghost w: World, ghost limit: nat)
    returns (missing: Option<Name>)
    requires Serving(s, sigs, roots, w, limit) && forall id :: id in owners ==> g.owner(id) in roots
    modifies s
    ensures Serving(s, sigs, roots, w, limit) && Grows(old(s.Using()), s.Using())
    ensures missing.None? ==> forall id :: id in owners ==> OwnerHolds(s.Using(), g, approvals, id)
    ensures missing.Some? ==> missing.value in owners && missing.value !in approvals
    ensures missing.Some? && (forall a :: NoWrap(w.get(a))) && NoWrap(g.owner(missing.value)) ==>
      !SatisfiedAt(w, g.owner(missing.value), limit)
    ensures OwnerVerdict(Setting(w.get, {}, limit), g, owners, approvals, 0, old(s.Now())) ==
      if missing.Some? then MissingOwner(missing.value) else Finally(s.Now())
  {
    hide Holds, SatisfiedAt, NoWrap, Serving, Checked, Finally;
    ghost var p := Setting(w.get, {}, limit);
    for i := 0 to |owners|
      invariant Serving(s, sigs, roots, w, limit) && Grows(old(s.Using()), s.Using())
      invariant forall k :: 0 <= k < i ==> OwnerHolds(s.Using(), g, approvals, owners[k])
      invariant OwnerVerdict(p, g, owners, approvals, i, s.Now())
        == OwnerVerdict(p, g, owners, approvals, 0, old(s.Now()))
    {
      var id := owners[i];
      assert id in owners;
      ghost var u := s.Using();
      var yes := id in approvals;
      if !yes {
        yes := CheckRoot(s, g.owner(id), sigs, roots, w, limit);
      }
      if !yes {
        return Some(id);
      }
      forall k | 0 <= k < i
        ensures OwnerHolds(s.Using(), g, approvals, owners[k])
      {
        if owners[k] !in approvals {
          HoldsGrows(u, s.Using(), g.owner(owners[k]));
        }
      }
    }
    missing := None;
  }

  lemma Unconsulted(sigs: set<Key>, get: Name -> Authority, roots: iset<Authority>, n: nat)
    ensures ConsultedBy(Unused(sigs), Unused(sigs), get, roots, n)
  {
    hide MentionedBy;
  }
}
