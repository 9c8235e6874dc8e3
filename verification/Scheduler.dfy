/**
  The virtual-time witness scheduler: libraries/chain/witness_schedule.cpp and
  adjust_witness_vote in libraries/chain/database.cpp.

  Virtual time is a 128-bit unsigned number; sums and products wrap around.
 */
module Scheduler {
  import opened Sums
  import opened Options
  import opened Arithmetic

  const TWO_128: nat := 0x1_0000_0000_0000_0000_0000_0000_0000_0000
  /** VIRTUAL_SCHEDULE_LAP_LENGTH2: the largest virtual time. */
  const MAX_TIME: nat := TWO_128 - 1
  /** VIRTUAL_SCHEDULE_LAP_LENGTH */
  const LAP: nat := 0xffff_ffff_ffff_ffff
  const MAX_WITNESSES: nat := 21
  const MAX_VOTED: nat := 20

  datatype Kind = Top19 | Timeshare | Miner | Idle

  datatype Witness = Witness(votes: nat, lastUpdate: nat, position: nat, scheduled: nat, hasKey: bool, kind: Kind)

  function Wrap(x: nat): (r: nat)
    ensures r <= MAX_TIME
    ensures x <= MAX_TIME ==> r == x
  {
    x % TWO_128
  }

  /** No witness was updated in the future or is due in the past. */
  ghost predicate InStep(w: Witness, now: nat)
  {
    w.lastUpdate <= now <= w.scheduled <= MAX_TIME && w.position <= MAX_TIME
  }

  ghost predicate AllInStep(witnesses: seq<Witness>, now: nat)
  {
    forall i :: 0 <= i < |witnesses| ==> InStep(witnesses[i], now)
  }

  /** How far the witness has come since its last update. */
  function Advanced(position: nat, votes: nat, elapsed: nat): (r: nat)
    ensures r <= MAX_TIME
  {
    Wrap(position + Wrap(votes * elapsed))
  }

  /** When a witness at that position finishes its lap; past the end of time this wraps. */
  function LapEnd(now: nat, position: nat, votes: nat): (r: nat)
    requires position <= MAX_TIME
    ensures r <= MAX_TIME
  {
    QuotientAtMost(MAX_TIME - position, votes + 1);
    Wrap(now + (MAX_TIME - position) / (votes + 1))
  }

  /** A witness whose votes change: one whose lap end wraps around is parked at the end of time. */
  function Revoted(w: Witness, delta: int, now: nat): (r: Witness)
    requires InStep(w, now) && 0 <= w.votes + delta
    ensures InStep(r, now) && r.votes == w.votes + delta && r.lastUpdate == now
    ensures r.hasKey == w.hasKey && r.kind == w.kind
  {
    hide Advanced, LapEnd;
    var position := Advanced(w.position, w.votes, now - w.lastUpdate);
    var scheduled := LapEnd(now, position, w.votes + delta);
    w.(position := position, lastUpdate := now, votes := w.votes + delta,
       scheduled := if scheduled < now then MAX_TIME else scheduled)
  }

  /** The witness stands at the start of a lap: it is due when its votes will have carried it over that length. */
  ghost predicate OnLap(w: Witness, now: nat, length: nat)
  {
    && w.position == 0 && w.lastUpdate == now <= w.scheduled
    && (w.scheduled - now) * (w.votes + 1) <= length < (w.scheduled - now + 1) * (w.votes + 1)
  }

  /** Of two witnesses that start a lap together the one with more votes is due no later. */
  lemma MoreVotesSooner(a: Witness, b: Witness, now: nat, length: nat)
    requires OnLap(a, now, length) && OnLap(b, now, length) && b.votes <= a.votes
    ensures a.scheduled <= b.scheduled
  {
    var x, y := a.scheduled - now, b.scheduled - now;
    if y < x {
      MulMono(y + 1, x, a.votes + 1);
      MulMono(b.votes + 1, a.votes + 1, y + 1);
    }
  }

  /**
    What a change of votes makes of a witness, told from its lap: the position
    moves on with the old votes, modulo 2^128, and the rest of the lap takes
    as long as the new votes need, up to the end of time.
   */
  lemma RevotedExact(w: Witness, delta: int, now: nat)
    requires InStep(w, now) && now <= MAX_TIME && 0 <= w.votes + delta
    ensures var r := Revoted(w, delta, now); var rest := MAX_TIME - r.position;
      && r.position == (w.position + w.votes * (now - w.lastUpdate)) % TWO_128
      && (r.scheduled < MAX_TIME ==>
            && (r.scheduled - now) * (r.votes + 1) <= rest < (r.scheduled - now + 1) * (r.votes + 1))
      && (r.scheduled == MAX_TIME ==> (MAX_TIME - now) * (r.votes + 1) <= rest)
  {
    var r := Revoted(w, delta, now);
    var rest, q := MAX_TIME - r.position, (MAX_TIME - r.position) / (r.votes + 1);
    WrapTwice(w.position, w.votes * (now - w.lastUpdate));
    QuotientBounds(rest, r.votes + 1);
    QuotientAtMost(rest, r.votes + 1);
    LapEndIs(now, r.position, r.votes);
    if r.scheduled == MAX_TIME {
      MulMono(MAX_TIME - now, q, r.votes + 1);
    }
  }

  lemma WrapTwice(x: nat, y: nat)
    ensures Wrap(x + Wrap(y)) == (x + y) % TWO_128
  {
    assert y == y / TWO_128 * TWO_128 + y % TWO_128;
  }

  /** Past the end of time a lap end wraps to before now. */
  lemma LapEndIs(now: nat, position: nat, votes: nat)
    requires position <= MAX_TIME && now <= MAX_TIME
    ensures var q := (MAX_TIME - position) / (votes + 1);
      && 0 <= q <= MAX_TIME
      && (now + q <= MAX_TIME ==> LapEnd(now, position, votes) == now + q)
      && (now + q > MAX_TIME ==> LapEnd(now, position, votes) < now)
  {
    QuotientAtMost(MAX_TIME - position, votes + 1);
  }

  /** A fresh lap from time zero. */
  function Restarted(w: Witness): (r: Witness)
    ensures InStep(r, 0) && OnLap(r, 0, MAX_TIME)
    ensures r.votes == w.votes && r.hasKey == w.hasKey && r.kind == w.kind
  {
    QuotientBounds(MAX_TIME, w.votes + 1);
    QuotientAtMost(MAX_TIME, w.votes + 1);
    w.(position := 0, lastUpdate := 0, scheduled := MAX_TIME / (w.votes + 1))
  }

  // ------------------------------------------------------------- choosing the witnesses

  /** order lists every witness once. */
  ghost predicate Lists(order: seq<nat>, n: nat)
  {
    && (forall i :: 0 <= i < |order| ==> order[i] < n)
    && (forall i, j :: 0 <= i < j < |order| ==> order[i] != order[j])
    && (forall w :: 0 <= w < n ==> w in order)
  }

  /** The index by votes: most votes first. */
  ghost predicate ByVotes(order: seq<nat>, witnesses: seq<Witness>)
  {
    && Lists(order, |witnesses|)
    && forall i, j :: 0 <= i < j < |order| ==> witnesses[order[j]].votes <= witnesses[order[i]].votes
  }

  /** The index by scheduled time: earliest first. */
  ghost predicate BySchedule(order: seq<nat>, witnesses: seq<Witness>)
  {
    && Lists(order, |witnesses|)
    && forall i, j :: 0 <= i < j < |order| ==> witnesses[order[i]].scheduled <= witnesses[order[j]].scheduled
  }

  ghost predicate Distinct(s: seq<nat>)
  {
    forall i, j :: 0 <= i < j < |s| ==> s[i] != s[j]
  }

  /** The entries of order that want holds of, in order. */
  ghost function Filtered(order: seq<nat>, want: nat -> bool): (r: seq<nat>)
    ensures forall x :: x in r <==> x in order && want(x)
  {
    if order == [] then []
    else
      var before := Filtered(order[..|order| - 1], want);
      var last := order[|order| - 1];
      if want(last) then before + [last] else before
  }

  lemma FilteredStep(order: seq<nat>, k: nat, want: nat -> bool)
    requires k < |order|
    ensures Filtered(order[..k + 1], want) == Filtered(order[..k], want) + (if want(order[k]) then [order[k]] else [])
  {
    assert order[..k + 1][..k] == order[..k];
  }

  lemma {:induction false} FilteredDistinct(order: seq<nat>, want: nat -> bool)
    requires Distinct(order)
    ensures Distinct(Filtered(order, want))
  {
    if order != [] {
      FilteredDistinct(order[..|order| - 1], want);
    }
  }

  function HasKey(witnesses: seq<Witness>): nat -> bool
  {
    (w: nat) => w < |witnesses| && witnesses[w].hasKey
  }

  function Runner(witnesses: seq<Witness>, elected: seq<nat>): nat -> bool
  {
    (w: nat) => w < |witnesses| && witnesses[w].hasKey && w !in elected
  }

  /** The first slots entries of what a whole scan would find. */
  ghost function Taken(found: seq<nat>, slots: nat): seq<nat>
  {
    if |found| <= slots then found else found[..slots]
  }

  /** Walks an index until enough wanted witnesses were met; p entries were looked at. */
  method Scan(order: seq<nat>, want: nat -> bool, slots: nat) returns (found: seq<nat>, p: nat)
    ensures p <= |order| && found == Filtered(order[..p], want)
    ensures |found| <= slots && (p < |order| ==> |found| == slots)
    ensures found != [] && |found| == slots ==> p > 0 && order[p - 1] == found[slots - 1]
    ensures found == Taken(Filtered(order, want), slots)
  {
    found, p := [], 0;
    while p < |order| && |found| < slots
      invariant 0 <= p <= |order|
      invariant found == Filtered(order[..p], want) && |found| <= slots
      invariant found != [] && |found| == slots ==> p > 0 && order[p - 1] == found[slots - 1]
    {
      FilteredStep(order, p, want);
      if want(order[p]) {
        found := found + [order[p]];
      }
      p := p + 1;
    }
    FilteredPrefix(order, p, want);
    assert order[..|order|] == order;
  }

  lemma {:induction false} FilteredPrefix(order: seq<nat>, p: nat, want: nat -> bool)
    requires p <= |order|
    ensures Filtered(order[..p], want) <= Filtered(order, want)
  {
    if p < |order| {
      FilteredPrefix(order[..|order| - 1], p, want);
      assert order[..|order| - 1][..p] == order[..p];
    } else {
      assert order[..p] == order;
    }
  }

  /** Filtering keeps the order of the index. */
  lemma {:induction false} FilteredOrdered(order: seq<nat>, want: nat -> bool, i: nat, j: nat) returns (a: nat, b: nat)
    requires i < j < |Filtered(order, want)|
    ensures a < b < |order| && order[a] == Filtered(order, want)[i] && order[b] == Filtered(order, want)[j]
  {
    var n := |order| - 1;
    var before := Filtered(order[..n], want);
    if j < |before| {
      a, b := FilteredOrdered(order[..n], want, i, j);
    } else {
      assert before[i] in order[..n];
      a :| 0 <= a < n && order[..n][a] == before[i];
      b := n;
    }
  }

  /** A wanted witness that was not taken comes later in the index than every one that was. */
  lemma TakenComeFirst(order: seq<nat>, want: nat -> bool, slots: nat, e: nat, w: nat) returns (a: nat, b: nat)
    requires e in Taken(Filtered(order, want), slots)
    requires w in order && want(w) && w !in Taken(Filtered(order, want), slots)
    ensures a < b < |order| && order[a] == e && order[b] == w
  {
    var found := Filtered(order, want);
    var i :| 0 <= i < |Taken(found, slots)| && Taken(found, slots)[i] == e;
    var j :| 0 <= j < |found| && found[j] == w;
    assert Taken(found, slots) == found[..|Taken(found, slots)|];
    a, b := FilteredOrdered(order, want, i, j);
  }

  /** Nobody left out has more votes than anybody elected. */
  lemma ElectedHaveMostVotes(witnesses: seq<Witness>, byVotes: seq<nat>, e: nat, w: nat)
    requires ByVotes(byVotes, witnesses)
    requires e in Taken(Filtered(byVotes, HasKey(witnesses)), MAX_VOTED)
    requires w < |witnesses| && witnesses[w].hasKey && w !in Taken(Filtered(byVotes, HasKey(witnesses)), MAX_VOTED)
    ensures e < |witnesses| && witnesses[e].hasKey && witnesses[w].votes <= witnesses[e].votes
  {
    assert w in byVotes;
    assert e in Filtered(byVotes, HasKey(witnesses));
    var a, b := TakenComeFirst(byVotes, HasKey(witnesses), MAX_VOTED, e, w);
  }

  /** Nobody left out is due earlier than anybody who got a timeshare slot. */
  lemma RunnersAreDueFirst(witnesses: seq<Witness>, bySchedule: seq<nat>, elected: seq<nat>, slots: nat, e: nat, w: nat)
    requires BySchedule(bySchedule, witnesses)
    requires e in Taken(Filtered(bySchedule, Runner(witnesses, elected)), slots)
    requires w < |witnesses| && witnesses[w].hasKey && w !in elected
    requires w !in Taken(Filtered(bySchedule, Runner(witnesses, elected)), slots)
    ensures e < |witnesses| && witnesses[e].hasKey && e !in elected && witnesses[e].scheduled <= witnesses[w].scheduled
  {
    assert w in bySchedule;
    assert e in Filtered(bySchedule, Runner(witnesses, elected));
    var a, b := TakenComeFirst(bySchedule, Runner(witnesses, elected), slots, e, w);
  }

  ghost function SetOf(s: seq<nat>): set<nat>
  {
    set x | x in s
  }

  lemma {:induction false} DistinctSize(s: seq<nat>)
    requires Distinct(s)
    ensures |SetOf(s)| == |s|
  {
    if s != [] {
      var front, last := s[..|s| - 1], s[|s| - 1];
      DistinctSize(front);
      assert SetOf(s) == SetOf(front) + {last};
      assert last !in SetOf(front);
    }
  }

  ghost function Keyed(witnesses: seq<Witness>): set<nat>
  {
    set w: nat | w < |witnesses| && witnesses[w].hasKey
  }

  lemma TakenDistinct(found: seq<nat>, slots: nat)
    requires Distinct(found)
    ensures Distinct(Taken(found, slots)) && SetOf(Taken(found, slots)) <= SetOf(found)
    ensures |Taken(found, slots)| == if |found| < slots then |found| else slots
  {
  }

  lemma ElectedCount(witnesses: seq<Witness>, byVotes: seq<nat>)
    requires Lists(byVotes, |witnesses|)
    ensures var all := Filtered(byVotes, HasKey(witnesses)); Distinct(all) && |all| == |Keyed(witnesses)|
    ensures SetOf(Filtered(byVotes, HasKey(witnesses))) == Keyed(witnesses)
  {
    var all := Filtered(byVotes, HasKey(witnesses));
    FilteredDistinct(byVotes, HasKey(witnesses));
    DistinctSize(all);
    assert SetOf(all) == Keyed(witnesses);
  }

  lemma RunnerCount(witnesses: seq<Witness>, bySchedule: seq<nat>, elected: seq<nat>)
    requires Lists(bySchedule, |witnesses|) && Distinct(elected) && SetOf(elected) <= Keyed(witnesses)
    ensures var rest := Filtered(bySchedule, Runner(witnesses, elected));
      Distinct(rest) && |rest| == |Keyed(witnesses)| - |elected|
  {
    var rest := Filtered(bySchedule, Runner(witnesses, elected));
    FilteredDistinct(bySchedule, Runner(witnesses, elected));
    DistinctSize(rest);
    DistinctSize(elected);
    assert SetOf(rest) == Keyed(witnesses) - SetOf(elected);
  }

  lemma DistinctJoin(a: seq<nat>, b: seq<nat>)
    requires Distinct(a) && Distinct(b) && forall x :: x in b ==> x !in a
    ensures Distinct(a + b)
  {
    forall i, j | 0 <= i < j < |a + b|
      ensures (a + b)[i] != (a + b)[j]
    {
      if i < |a| <= j {
        assert b[j - |a|] in b;
      }
    }
  }

  /** Elected and runners together fill the schedule, or exhaust the witnesses that can sign. */
  lemma ActiveCount(witnesses: seq<Witness>, byVotes: seq<nat>, bySchedule: seq<nat>, elected: seq<nat>,
                    runners: seq<nat>)
    requires Lists(byVotes, |witnesses|) && Lists(bySchedule, |witnesses|)
    requires elected == Taken(Filtered(byVotes, HasKey(witnesses)), MAX_VOTED)
    requires runners == Taken(Filtered(bySchedule, Runner(witnesses, elected)), MAX_WITNESSES - |elected|)
    ensures Distinct(elected + runners)
    ensures |elected + runners| == if |Keyed(witnesses)| < MAX_WITNESSES then |Keyed(witnesses)| else MAX_WITNESSES
  {
    ElectedCount(witnesses, byVotes);
    TakenDistinct(Filtered(byVotes, HasKey(witnesses)), MAX_VOTED);
    RunnerCount(witnesses, bySchedule, elected);
    TakenDistinct(Filtered(bySchedule, Runner(witnesses, elected)), MAX_WITNESSES - |elected|);
    assert forall x :: x in runners ==> x in SetOf(runners);
    DistinctJoin(elected, runners);
  }

  /** As many of the witnesses that can sign as may be elected, and none with fewer votes than one left out. */
  ghost predicate MostVoted(witnesses: seq<Witness>, elected: seq<nat>)
  {
    && |elected| == (if |Keyed(witnesses)| < MAX_VOTED then |Keyed(witnesses)| else MAX_VOTED)
    && forall e, w :: e in elected && w in Keyed(witnesses) && w !in elected ==>
      e in Keyed(witnesses) && witnesses[w].votes <= witnesses[e].votes
  }

  /** Others that can sign, in the remaining slots, and none due later than one left out. */
  ghost predicate DueFirst(witnesses: seq<Witness>, elected: seq<nat>, runners: seq<nat>)
  {
    forall e, w :: e in runners && w in Keyed(witnesses) && w !in elected + runners ==>
      e in Keyed(witnesses) && witnesses[e].scheduled <= witnesses[w].scheduled
  }

  /** What the two scans choose, without mention of the indexes they walk. */
  lemma ChosenAreBest(witnesses: seq<Witness>, byVotes: seq<nat>, bySchedule: seq<nat>, elected: seq<nat>,
                      runners: seq<nat>)
    requires ByVotes(byVotes, witnesses) && BySchedule(bySchedule, witnesses)
    requires elected == Taken(Filtered(byVotes, HasKey(witnesses)), MAX_VOTED)
    requires runners == Taken(Filtered(bySchedule, Runner(witnesses, elected)), MAX_WITNESSES - |elected|)
    ensures MostVoted(witnesses, elected) && DueFirst(witnesses, elected, runners)
    ensures forall x :: x in elected + runners ==> x in Keyed(witnesses)
  {
    ElectedCount(witnesses, byVotes);
    TakenDistinct(Filtered(byVotes, HasKey(witnesses)), MAX_VOTED);
    assert forall x :: x in elected ==> x in SetOf(elected);
    forall e, w | e in elected && w in Keyed(witnesses) && w !in elected
      ensures e in Keyed(witnesses) && witnesses[w].votes <= witnesses[e].votes
    {
      ElectedHaveMostVotes(witnesses, byVotes, e, w);
    }
    forall e, w | e in runners && w in Keyed(witnesses) && w !in elected + runners
      ensures e in Keyed(witnesses) && witnesses[e].scheduled <= witnesses[w].scheduled
    {
      RunnersAreDueFirst(witnesses, bySchedule, elected, MAX_WITNESSES - |elected|, e, w);
    }
    forall x | x in runners
      ensures x in Keyed(witnesses)
    {
      assert x in Filtered(bySchedule, Runner(witnesses, elected));
    }
  }

  /** new witnesses start parked at the end of time. */
  const NEW_WITNESS: Witness := Witness(0, 0, 0, MAX_TIME, true, Idle)

  /** The xorshift generator that draws the i-th swap of the shuffle. */
  function Draw(nowHi: bv64, i: nat): bv64
    requires i < MAX_WITNESSES
  {
    var k := nowHi + (i as bv64) * 2685821657736338717;
    var k1 := k ^ (k >> 12);
    var k2 := k1 ^ (k1 << 25);
    var k3 := k2 ^ (k2 >> 27);
    k3 * 2685821657736338717
  }

  /** The list after the first i swaps. */
  ghost function Swapped<T>(s: seq<T>, nowHi: bv64, i: nat): (r: seq<T>)
    requires i <= |s| <= MAX_WITNESSES
    ensures |r| == |s| && multiset(r) == multiset(s)
  {
    if i == 0 then s
    else
      var before, j := Swapped(s, nowHi, i - 1), i - 1 + (Draw(nowHi, i - 1) as nat) % (|s| - (i - 1));
      SwapKeepsAll(before, i - 1, j);
      before[i - 1 := before[j]][j := before[i - 1]]
  }

  lemma SwappedNone<T>(s: seq<T>, nowHi: bv64)
    requires |s| <= MAX_WITNESSES
    ensures Swapped(s, nowHi, 0) == s
  {
  }

  lemma SwappedStep<T>(s: seq<T>, nowHi: bv64, i: nat, k: bv64, j: nat)
    requires i < |s| <= MAX_WITNESSES && k == Draw(nowHi, i) && j == i + (k as nat) % (|s| - i)
    ensures i <= j < |s|
    ensures var before := Swapped(s, nowHi, i);
      Swapped(s, nowHi, i + 1) == before[i := before[j]][j := before[i]]
  {
    hide Draw;
  }

  lemma SwapKeepsAll<T>(s: seq<T>, i: nat, j: nat)
    requires i < |s| && j < |s|
    ensures multiset(s[i := s[j]][j := s[i]]) == multiset(s)
  {
  }

  class WitnessSchedule {
    var witnesses: seq<Witness>
    var now: nat
    const shuffled: array<Option<nat>>
    var numScheduled: nat

    ghost predicate Valid()
      reads this
    {
      && AllInStep(witnesses, now) && now <= MAX_TIME
      && shuffled.Length == MAX_WITNESSES && 1 <= numScheduled <= MAX_WITNESSES
    }

    constructor (count: nat)
      requires count > 0
      ensures Valid() && |witnesses| == count && now == 0 && fresh(shuffled)
      ensures shuffled[0] == Some(0)
    {
      witnesses := seq(count, _ => Restarted(NEW_WITNESS));
      now := 0;
      numScheduled := 1;
      shuffled := new Option<nat>[MAX_WITNESSES](i => if i == 0 then Some(0) else None);
    }

    method CreateWitness()
      requires Valid()
      modifies this`witnesses
      ensures Valid() && witnesses == old(witnesses) + [NEW_WITNESS]
    {
      witnesses := witnesses + [NEW_WITNESS];
    }

    method SetKey(w: nat, hasKey: bool)
      requires Valid() && w < |witnesses|
      modifies this`witnesses
      ensures Valid() && witnesses == old(witnesses)[w := old(witnesses)[w].(hasKey := hasKey)]
    {
      witnesses := witnesses[w := witnesses[w].(hasKey := hasKey)];
    }

    /** adjust_witness_vote */
    method AdjustVote(w: nat, delta: int)
      requires Valid() && w < |witnesses| && 0 <= witnesses[w].votes + delta
      modifies this`witnesses
      ensures Valid() && |witnesses| == |old(witnesses)| && witnesses == old(witnesses)[w := witnesses[w]]
      ensures var a, b := old(witnesses)[w], witnesses[w]; var rest := MAX_TIME - b.position;
        && b.votes == a.votes + delta && b.lastUpdate == now && b.hasKey == a.hasKey && b.kind == a.kind
        && b.position == (a.position + a.votes * (now - a.lastUpdate)) % TWO_128
        && (b.scheduled < MAX_TIME ==>
              && (b.scheduled - now) * (b.votes + 1) <= rest < (b.scheduled - now + 1) * (b.votes + 1))
        && (b.scheduled == MAX_TIME ==> (MAX_TIME - now) * (b.votes + 1) <= rest)
    {
      hide Revoted;
      RevotedExact(witnesses[w], delta, now);
      witnesses := witnesses[w := Revoted(witnesses[w], delta, now)];
    }

    /** reset_virtual_schedule_time */
    method ResetVirtualTime()
      modifies this`witnesses, this`now
      ensures AllInStep(witnesses, 0) && now == 0
      ensures |witnesses| == |old(witnesses)|
      ensures forall w :: 0 <= w < |witnesses| ==>
        OnLap(witnesses[w], 0, MAX_TIME) && SameStanding(witnesses[w], old(witnesses)[w])
    {
      hide Restarted, OnLap;
      now := 0;
      var i := 0;
      while i < |witnesses|
        invariant 0 <= i <= |witnesses| == |old(witnesses)| && now == 0
        invariant forall w :: 0 <= w < |witnesses| ==>
          witnesses[w] == if w < i then Restarted(old(witnesses)[w]) else old(witnesses)[w]
        invariant forall w :: 0 <= w < i ==> InStep(witnesses[w], 0)
      {
        witnesses := witnesses[i := Restarted(witnesses[i])];
        i := i + 1;
      }
    }

    /** Records how the chosen witnesses were scheduled. */
    method Mark(chosen: seq<nat>, kind: Kind)
      requires forall x :: x in chosen ==> x < |witnesses|
      modifies this`witnesses
      ensures |witnesses| == |old(witnesses)|
      ensures forall w :: 0 <= w < |witnesses| ==>
        witnesses[w] == if w in chosen then old(witnesses)[w].(kind := kind) else old(witnesses)[w]
    {
      var i := 0;
      while i < |chosen|
        invariant 0 <= i <= |chosen| && |witnesses| == |old(witnesses)|
        invariant forall w :: 0 <= w < |witnesses| ==>
          witnesses[w] == if w in chosen[..i] then old(witnesses)[w].(kind := kind) else old(witnesses)[w]
      {
        assert chosen[i] in chosen;
        witnesses := witnesses[chosen[i] := witnesses[chosen[i]].(kind := kind)];
        assert chosen[..i + 1] == chosen[..i] + [chosen[i]];
        i := i + 1;
      }
      assert chosen[..i] == chosen;
    }

    /** Starts the next lap of every witness the scan passed; reports an overflow of virtual time. */
    method StartLaps(passed: seq<nat>, time: nat) returns (overflow: bool)
      requires time <= MAX_TIME && Distinct(passed)
      requires forall i :: 0 <= i < |passed| ==> passed[i] < |witnesses|
      modifies this`witnesses
      ensures |witnesses| == |old(witnesses)|
      ensures forall w :: 0 <= w < |witnesses| ==> SameStanding(witnesses[w], old(witnesses)[w])
      ensures overflow <==> Overflows(old(witnesses), passed, time)
      ensures !overflow ==> forall w :: 0 <= w < |witnesses| ==>
        witnesses[w] == Lapped(old(witnesses)[w], w in passed, time)
    {
      var i := 0;
      while i < |passed|
        invariant 0 <= i <= |passed| && |witnesses| == |old(witnesses)|
        invariant forall w :: 0 <= w < |witnesses| ==> witnesses[w] == Lapped(old(witnesses)[w], w in passed[..i], time)
        invariant forall k :: 0 <= k < i ==> NextLap(old(witnesses)[passed[k]], time) <= MAX_TIME
      {
        var w := passed[i];
        assert w !in passed[..i];
        var next := Wrap(NextLap(witnesses[w], time));
        WrapsIffOver(witnesses[w], time);
        if next < time { return true; }
        witnesses := witnesses[w := Lapped(witnesses[w], true, time)];
        assert passed[..i + 1] == passed[..i] + [w];
        i := i + 1;
      }
      assert passed[..i] == passed;
      return false;
    }

    /** Writes the chosen witnesses to the front of the schedule and blanks the rest. */
    method Fill(active: seq<nat>)
      requires shuffled.Length == MAX_WITNESSES && |active| <= MAX_WITNESSES
      modifies shuffled
      ensures forall i :: 0 <= i < MAX_WITNESSES ==> shuffled[i] == if i < |active| then Some(active[i]) else None
    {
      var i := 0;
      while i < MAX_WITNESSES
        invariant 0 <= i <= MAX_WITNESSES
        invariant forall k :: 0 <= k < i ==> shuffled[k] == if k < |active| then Some(active[k]) else None
      {
        shuffled[i] := if i < |active| then Some(active[i]) else None;
        i := i + 1;
      }
    }

    /** One number from the generator; its arithmetic stays inside. */
    method NextRandom(nowHi: bv64, i: nat) returns (k: bv64)
      requires i < MAX_WITNESSES
      ensures k == Draw(nowHi, i)
    {
      hide Draw;
      k := Draw(nowHi, i);
    }

    /** Swaps each scheduled position with a later or equal one drawn from the head block time. */
    method Shuffle(nowHi: bv64)
      requires shuffled.Length == MAX_WITNESSES && numScheduled <= MAX_WITNESSES
      modifies shuffled
      ensures shuffled[..numScheduled] == Swapped(old(shuffled[..numScheduled]), nowHi, numScheduled)
      ensures multiset(shuffled[..numScheduled]) == multiset(old(shuffled[..numScheduled]))
      ensures shuffled[numScheduled..] == old(shuffled[numScheduled..])
    {
      hide Draw, Swapped;
      ghost var all := shuffled[..numScheduled];
      SwappedNone(all, nowHi);
      var i := 0;
      while i < numScheduled
        invariant 0 <= i <= numScheduled
        invariant shuffled[..numScheduled] == Swapped(all, nowHi, i)
        invariant shuffled[numScheduled..] == old(shuffled[numScheduled..])
      {
        var k := NextRandom(nowHi, i);
        var j := i + (k as nat) % (numScheduled - i);
        SwappedStep(all, nowHi, i, k, j);
        ghost var s := shuffled[..numScheduled];
        shuffled[i], shuffled[j] := shuffled[j], shuffled[i];
        assert shuffled[..numScheduled] == s[i := s[j]][j := s[i]];
        i := i + 1;
      }
    }

    /** Puts the chosen witnesses on the schedule, in an order drawn from the head block time. */
    method Arrange(active: seq<nat>, nowHi: bv64)
      requires shuffled.Length == MAX_WITNESSES && |active| <= MAX_WITNESSES
      modifies shuffled, this`numScheduled
      ensures numScheduled == if |active| == 0 then 1 else |active|
      ensures |active| > 0 ==> shuffled[..numScheduled] == Swapped(Named(active), nowHi, |active|)
      ensures shuffled[numScheduled..] == seq(MAX_WITNESSES - numScheduled, _ => None)
    {
      hide Swapped;
      Fill(active);
      numScheduled := if |active| == 0 then 1 else |active|;
      assert |active| > 0 ==> shuffled[..numScheduled] == Named(active);
      Shuffle(nowHi);
      assert shuffled[numScheduled..] == seq(MAX_WITNESSES - numScheduled, _ => None);
    }

    /** Moves virtual time on to where the scan stopped, or resets it when a lap would pass the end of time. */
    method AdvanceTime(bySchedule: seq<nat>, p: nat) returns (time: nat)
      requires AllInStep(witnesses, now) && now <= MAX_TIME && BySchedule(bySchedule, witnesses) && p <= |bySchedule|
      modifies this`witnesses, this`now
      ensures |witnesses| == |old(witnesses)| && AllInStep(witnesses, time) && time <= MAX_TIME
      ensures forall w :: 0 <= w < |witnesses| ==> SameStanding(witnesses[w], old(witnesses)[w])
      ensures var reached := Reached(old(witnesses), bySchedule, p, old(now));
        if Overflows(old(witnesses), bySchedule[..p], reached)
          then time == 0 && forall w :: 0 <= w < |witnesses| ==> OnLap(witnesses[w], 0, MAX_TIME)
          else time == reached >= old(now) && forall w :: 0 <= w < |witnesses| ==>
            if w in bySchedule[..p] then OnLap(witnesses[w], time, LAP) else SameRace(witnesses[w], old(witnesses)[w])
    {
      hide NextLap, Restarted, Overflows, BySchedule, InStep, OnLap;
      ListedBelow(bySchedule, witnesses, p);
      time := if p == 0 then now else witnesses[bySchedule[p - 1]].scheduled;
      ReachedInTime(witnesses, bySchedule, p, now);
      ghost var was := witnesses;
      var overflow := StartLaps(bySchedule[..p], time);
      if overflow {
        time := 0;
        ResetVirtualTime();
      } else {
        PassedInStep(was, witnesses, bySchedule, p, now, time);
        PassedOnLap(was, witnesses, bySchedule[..p], time);
      }
    }

    /**
      update_witness_schedule4: the most voted witnesses that can sign, then
      those next in virtual time; fails exactly when too few can sign.
     */
    method UpdateSchedule(byVotes: seq<nat>, bySchedule: seq<nat>, nowHi: bv64)
      returns (ok: bool, elected: seq<nat>, runners: seq<nat>, ghost passed: set<nat>, ghost time: nat)
      requires Valid() && ByVotes(byVotes, witnesses) && BySchedule(bySchedule, witnesses)
      modifies this, shuffled
      ensures ok <==>
        |Keyed(old(witnesses))| >= if |old(witnesses)| < MAX_WITNESSES then |old(witnesses)| else MAX_WITNESSES
      ensures ok ==> Valid() && |witnesses| == |old(witnesses)|
      ensures ok ==> now == 0 || old(now) <= now
      ensures PassedBy(old(witnesses), elected, runners, passed) && Clock(old(witnesses), old(now), passed, time)
      ensures ok ==> Raced(old(witnesses), witnesses, now, passed, time)
      ensures ok ==> Marked(old(witnesses), witnesses, elected, runners)
      ensures elected == Taken(Filtered(byVotes, HasKey(old(witnesses))), MAX_VOTED)
      ensures runners == Taken(Filtered(bySchedule, Runner(old(witnesses), elected)), MAX_WITNESSES - |elected|)
      ensures ok ==> Distinct(elected + runners) && |elected + runners| <= MAX_WITNESSES
      ensures ok ==> numScheduled == if |elected + runners| == 0 then 1 else |elected + runners|
      ensures ok && |elected + runners| > 0 ==>
        shuffled[..numScheduled] == Swapped(Named(elected + runners), nowHi, |elected + runners|)
      ensures ok ==> shuffled[numScheduled..] == seq(MAX_WITNESSES - numScheduled, _ => None)
      ensures !ok ==> shuffled[..] == old(shuffled[..])
    {
      hide Filtered, ByVotes, BySchedule, Keyed, InStep, HasKey, Runner, SetOf, PassedBy, Clock, Raced, Marked, OnLap,
        Overflows, Swapped, Taken, OutOfTime, SameRace, SameStanding;
      ListsOf(byVotes, bySchedule, witnesses);
      ghost var was := witnesses;
      var p;
      elected, runners, p := Choose(byVotes, bySchedule);
      ghost var marked := witnesses;
      var reached := AdvanceTime(bySchedule, p);
      passed, time := PassedSet(bySchedule, p), Reached(was, bySchedule, p, old(now));
      RacedIs(was, marked, witnesses, elected, runners, bySchedule, p, old(now), reached);
      StandingKept(was, marked, witnesses, elected, runners);
      var active := elected + runners;
      ActiveCount(was, byVotes, bySchedule, elected, runners);
      KeyedAtMost(was);
      if |active| != (if |witnesses| < MAX_WITNESSES then |witnesses| else MAX_WITNESSES) {
        ok := false;
        return;
      }
      Arrange(active, nowHi);
      now := reached;
      ok := true;
    }

    /** The two scans: elects, finds the runners, and marks both. */
    method Choose(byVotes: seq<nat>, bySchedule: seq<nat>) returns (elected: seq<nat>, runners: seq<nat>, p: nat)
      requires AllInStep(witnesses, now) && ByVotes(byVotes, witnesses) && BySchedule(bySchedule, witnesses)
      modifies this`witnesses
      ensures AllInStep(witnesses, now) && BySchedule(bySchedule, witnesses) && p <= |bySchedule|
      ensures |witnesses| == |old(witnesses)| && Marked(old(witnesses), witnesses, elected, runners)
      ensures forall w :: 0 <= w < |witnesses| ==> SameRace(witnesses[w], old(witnesses)[w])
      ensures elected == Taken(Filtered(byVotes, HasKey(old(witnesses))), MAX_VOTED)
      ensures runners == Taken(Filtered(bySchedule, Runner(old(witnesses), elected)), MAX_WITNESSES - |elected|)
      ensures PassedBy(old(witnesses), elected, runners, PassedSet(bySchedule, p))
      ensures p > 0 ==> bySchedule[p - 1] < |witnesses|
      ensures Clock(old(witnesses), now, PassedSet(bySchedule, p), Reached(old(witnesses), bySchedule, p, now))
    {
      hide Filtered, ByVotes, BySchedule, InStep, HasKey, Runner, PassedBy, Clock, Marked, Taken;
      ListsOf(byVotes, bySchedule, witnesses);
      var q;
      elected, q := Scan(byVotes, HasKey(witnesses), MAX_VOTED);
      ChosenListed(byVotes, q, HasKey(witnesses), |witnesses|);
      ghost var was := witnesses;
      Mark(elected, Top19);
      MarkedSame(was, witnesses, bySchedule, now);
      runners, p := Scan(bySchedule, Runner(witnesses, elected), MAX_WITNESSES - |elected|);
      SameRunners(was, witnesses, bySchedule, elected);
      SameRunners(was, witnesses, bySchedule[..p], elected);
      ChosenListed(bySchedule, p, Runner(witnesses, elected), |witnesses|);
      ghost var mid := witnesses;
      Mark(runners, Timeshare);
      MarkedSame(mid, witnesses, bySchedule, now);
      PassedAre(was, bySchedule, elected, runners, p, now);
      MarkedIs(was, mid, witnesses, elected, runners);
    }

    /**
      One round as a block makes it: all of it, or nothing. It happens exactly
      when enough witnesses can sign, and puts the most voted and the first due
      on the schedule, once each.
     */
    method Round(nowHi: bv64)
      returns (ok: bool, elected: seq<nat>, runners: seq<nat>, ghost passed: set<nat>, ghost time: nat)
      requires Valid()
      modifies this, shuffled
      ensures Valid() && |witnesses| == |old(witnesses)|
      ensures ok <==>
        |Keyed(old(witnesses))| >= if |old(witnesses)| < MAX_WITNESSES then |old(witnesses)| else MAX_WITNESSES
      ensures now == old(now) || now == 0 || (ok && old(now) < now)
      ensures !ok ==> witnesses == old(witnesses) && now == old(now) && numScheduled == old(numScheduled)
      ensures !ok ==> shuffled[..] == old(shuffled[..])
      ensures MostVoted(old(witnesses), elected) && DueFirst(old(witnesses), elected, runners)
      ensures forall x :: x in elected + runners ==> x in Keyed(old(witnesses))
      ensures ok ==>
        && Distinct(elected + runners)
        && |elected + runners| == if |witnesses| < MAX_WITNESSES then |witnesses| else MAX_WITNESSES
      ensures ok && |witnesses| > 0 ==>
        && numScheduled == |elected + runners|
        && shuffled[..numScheduled] == Swapped(Named(elected + runners), nowHi, numScheduled)
        && multiset(shuffled[..numScheduled]) == multiset(Named(elected + runners))
      ensures PassedBy(old(witnesses), elected, runners, passed) && Clock(old(witnesses), old(now), passed, time)
      ensures ok ==> Raced(old(witnesses), witnesses, now, passed, time)
      ensures ok ==> Marked(old(witnesses), witnesses, elected, runners)
    {
      hide Filtered, HasKey, Runner, Keyed, InStep, MostVoted, DueFirst, Distinct, Named, PassedBy, Clock, Raced,
        Marked;
      var kept, clock, count := witnesses, now, numScheduled;
      var byVotes := OrderBy(|witnesses|, FewestVotes(witnesses));
      var bySchedule := OrderBy(|witnesses|, DueTime(witnesses));
      OrdersFit(byVotes, bySchedule, witnesses);
      ok, elected, runners, passed, time := UpdateSchedule(byVotes, bySchedule, nowHi);
      ListsOf(byVotes, bySchedule, kept);
      ChosenAreBest(kept, byVotes, bySchedule, elected, runners);
      ActiveCount(kept, byVotes, bySchedule, elected, runners);
      KeyedAtMost(kept);
      if !ok {
        witnesses, now, numScheduled := kept, clock, count;
      }
    }

    /**
      Any run of new witnesses, key changes, vote changes and rounds: nobody is
      ever updated in the future or due in the past, and between two steps the clock
      goes back only to zero.
     */
    method Run(events: seq<Event>) returns (clocks: seq<nat>)
      requires Valid()
      modifies this, shuffled
      ensures Valid()
      ensures |clocks| == |events| + 1 && clocks[0] == old(now) && clocks[|events|] == now
      ensures forall k :: 0 <= k < |events| ==> clocks[k] <= clocks[k + 1] || clocks[k + 1] == 0
    {
      clocks := [now];
      for k := 0 to |events|
        invariant Valid()
        invariant |clocks| == k + 1 && clocks[0] == old(now) && clocks[k] == now
        invariant forall j :: 0 <= j < k ==> clocks[j] <= clocks[j + 1] || clocks[j + 1] == 0
      {
        hide InStep, Revoted;
        match events[k] {
          case Created => CreateWitness();
          case KeySet(w, hasKey) =>
            if w < |witnesses| {
              SetKey(w, hasKey);
            }
          case Voted(w, delta) =>
            if w < |witnesses| && 0 <= witnesses[w].votes + delta {
              AdjustVote(w, delta);
            }
          case Rescheduled(nowHi) => var _, _, _, _, _ := Round(nowHi);
        }
        clocks := clocks + [now];
      }
    }
  }

  datatype Event = Created | KeySet(w: nat, hasKey: bool) | Voted(w: nat, delta: int) | Rescheduled(nowHi: bv64)

  function FewestVotes(witnesses: seq<Witness>): nat -> int
  {
    (w: nat) => if w < |witnesses| then 0 - witnesses[w].votes else 0
  }

  function DueTime(witnesses: seq<Witness>): nat -> int
  {
    (w: nat) => if w < |witnesses| then witnesses[w].scheduled else 0
  }

  ghost predicate OrderedBy(order: seq<nat>, key: nat -> int)
  {
    forall i, j :: 0 <= i < j < |order| ==> key(order[i]) <= key(order[j])
  }

  lemma OrdersFit(byVotes: seq<nat>, bySchedule: seq<nat>, witnesses: seq<Witness>)
    requires Lists(byVotes, |witnesses|) && OrderedBy(byVotes, FewestVotes(witnesses))
    requires Lists(bySchedule, |witnesses|) && OrderedBy(bySchedule, DueTime(witnesses))
    ensures ByVotes(byVotes, witnesses) && BySchedule(bySchedule, witnesses)
  {
    forall i, j | 0 <= i < j < |byVotes|
      ensures witnesses[byVotes[j]].votes <= witnesses[byVotes[i]].votes
    {
      assert FewestVotes(witnesses)(byVotes[i]) <= FewestVotes(witnesses)(byVotes[j]);
    }
    forall i, j | 0 <= i < j < |bySchedule|
      ensures witnesses[bySchedule[i]].scheduled <= witnesses[bySchedule[j]].scheduled
    {
      assert DueTime(witnesses)(bySchedule[i]) <= DueTime(witnesses)(bySchedule[j]);
    }
  }

  /** An ordered index over all witnesses. */
  method OrderBy(n: nat, key: nat -> int) returns (order: seq<nat>)
    ensures Lists(order, n) && OrderedBy(order, key)
  {
    order := [];
    for w := 0 to n
      invariant Lists(order, w) && OrderedBy(order, key)
    {
      var i := |order|;
      while i > 0 && key(order[i - 1]) > key(w)
        invariant 0 <= i <= |order|
        invariant forall k :: i <= k < |order| ==> key(order[k]) > key(w)
      {
        i := i - 1;
      }
      assert forall k :: 0 <= k < i ==> key(order[k]) <= key(w);
      PlacedLists(order, i, w);
      PlacedOrdered(order, i, w, key);
      order := order[..i] + [w] + order[i..];
    }
  }

  lemma PlacedLists(order: seq<nat>, i: nat, w: nat)
    requires Lists(order, w) && i <= |order|
    ensures Lists(order[..i] + [w] + order[i..], w + 1)
  {
    var r := order[..i] + [w] + order[i..];
    forall a | 0 <= a < |r|
      ensures r[a] == (if a < i then order[a] else if a == i then w else order[a - 1]) && r[a] < w + 1
    {
    }
    forall a, b | 0 <= a < b < |r|
      ensures r[a] != r[b]
    {
      assert a != i ==> r[a] == order[if a < i then a else a - 1];
      assert b != i ==> r[b] == order[if b < i then b else b - 1];
    }
    forall x | 0 <= x < w + 1
      ensures x in r
    {
      if x == w {
        assert r[i] == w;
      } else {
        assert x in order;
        var k :| 0 <= k < |order| && order[k] == x;
        assert r[if k < i then k else k + 1] == x;
      }
    }
  }

  lemma PlacedOrdered(order: seq<nat>, i: nat, w: nat, key: nat -> int)
    requires OrderedBy(order, key) && i <= |order|
    requires forall k :: 0 <= k < i ==> key(order[k]) <= key(w)
    requires forall k :: i <= k < |order| ==> key(order[k]) > key(w)
    ensures OrderedBy(order[..i] + [w] + order[i..], key)
  {
    var r := order[..i] + [w] + order[i..];
    forall a, b | 0 <= a < b < |r|
      ensures key(r[a]) <= key(r[b])
    {
      assert a != i ==> r[a] == order[if a < i then a else a - 1];
      assert b != i ==> r[b] == order[if b < i then b else b - 1];
    }
  }

  ghost function Named(s: seq<nat>): seq<Option<nat>>
  {
    seq(|s|, (i: nat) requires i < |s| => Some(s[i]))
  }

  lemma ListsOf(byVotes: seq<nat>, bySchedule: seq<nat>, witnesses: seq<Witness>)
    requires ByVotes(byVotes, witnesses) && BySchedule(bySchedule, witnesses)
    ensures Lists(byVotes, |witnesses|) && Lists(bySchedule, |witnesses|)
  {
  }

  lemma ChosenListed(order: seq<nat>, p: nat, want: nat -> bool, n: nat)
    requires Lists(order, n) && p <= |order|
    ensures forall x :: x in Filtered(order[..p], want) ==> x < n
  {
  }

  /** Marking changes nothing the scheduler orders or filters by. */
  lemma MarkedSame(was: seq<Witness>, witnesses: seq<Witness>, bySchedule: seq<nat>, now: nat)
    requires |witnesses| == |was|
    requires forall w :: 0 <= w < |was| ==> was[w] == witnesses[w].(kind := was[w].kind)
    requires AllInStep(was, now) && BySchedule(bySchedule, was)
    ensures AllInStep(witnesses, now) && BySchedule(bySchedule, witnesses)
  {
  }

  lemma {:induction false} FilteredSame(order: seq<nat>, f: nat -> bool, g: nat -> bool)
    requires forall i :: 0 <= i < |order| ==> f(order[i]) == g(order[i])
    ensures Filtered(order, f) == Filtered(order, g)
  {
    if order != [] {
      FilteredSame(order[..|order| - 1], f, g);
    }
  }

  lemma SameRunners(was: seq<Witness>, witnesses: seq<Witness>, order: seq<nat>, elected: seq<nat>)
    requires |witnesses| == |was|
    requires forall w :: 0 <= w < |was| ==> was[w] == witnesses[w].(kind := was[w].kind)
    ensures Filtered(order, Runner(witnesses, elected)) == Filtered(order, Runner(was, elected))
  {
    FilteredSame(order, Runner(witnesses, elected), Runner(was, elected));
  }

  lemma {:induction false} KeyedAtMost(witnesses: seq<Witness>)
    ensures |Keyed(witnesses)| <= |witnesses|
  {
    if witnesses == [] {
      assert Keyed(witnesses) == {};
    } else {
      var n := |witnesses| - 1;
      KeyedAtMost(witnesses[..n]);
      assert Keyed(witnesses) == Keyed(witnesses[..n]) + (if witnesses[n].hasKey then {n} else {});
    }
  }

  /** Where the scan of the first p entries takes virtual time. */
  ghost function Reached(witnesses: seq<Witness>, bySchedule: seq<nat>, p: nat, now: nat): nat
    requires p <= |bySchedule| && (p > 0 ==> bySchedule[p - 1] < |witnesses|)
  {
    if p == 0 then now else witnesses[bySchedule[p - 1]].scheduled
  }

  lemma ListedBelow(bySchedule: seq<nat>, witnesses: seq<Witness>, p: nat)
    requires BySchedule(bySchedule, witnesses) && p <= |bySchedule|
    ensures Distinct(bySchedule[..p])
    ensures forall i :: 0 <= i < |bySchedule| ==> bySchedule[i] < |witnesses|
  {
  }

  lemma ReachedInTime(witnesses: seq<Witness>, bySchedule: seq<nat>, p: nat, now: nat)
    requires AllInStep(witnesses, now) && now <= MAX_TIME && p <= |bySchedule|
      && (p > 0 ==> bySchedule[p - 1] < |witnesses|)
    ensures now <= Reached(witnesses, bySchedule, p, now) <= MAX_TIME
  {
  }

  /** After a lap without overflow nobody is updated in the future or due in the past. */
  lemma PassedInStep(was: seq<Witness>, witnesses: seq<Witness>, bySchedule: seq<nat>, p: nat, now: nat, time: nat)
    requires AllInStep(was, now) && now <= MAX_TIME && BySchedule(bySchedule, was)
    requires p <= |bySchedule| && |witnesses| == |was|
    requires time == Reached(was, bySchedule, p, now)
    requires forall w :: 0 <= w < |was| ==> witnesses[w] == Lapped(was[w], w in bySchedule[..p], time)
    requires !Overflows(was, bySchedule[..p], time)
    ensures AllInStep(witnesses, time)
  {
    hide NextLap;
    forall w | 0 <= w < |was|
      ensures InStep(witnesses[w], time)
    {
      if w in bySchedule[..p] {
        var i :| 0 <= i < p && bySchedule[..p][i] == w;
        LapForward(was[w], time);
      } else {
        assert w in bySchedule;
        var j :| 0 <= j < |bySchedule| && bySchedule[j] == w;
        assert p <= j;
      }
    }
  }

  lemma PassedOnLap(was: seq<Witness>, witnesses: seq<Witness>, passed: seq<nat>, time: nat)
    requires |witnesses| == |was|
    requires forall w :: 0 <= w < |was| ==> witnesses[w] == Lapped(was[w], w in passed, time)
    ensures forall w :: 0 <= w < |was| ==>
      if w in passed then OnLap(witnesses[w], time, LAP) else SameRace(witnesses[w], was[w])
  {
    forall w | 0 <= w < |was|
      ensures if w in passed then OnLap(witnesses[w], time, LAP) else SameRace(witnesses[w], was[w])
    {
      QuotientBounds(LAP, was[w].votes + 1);
    }
  }

  lemma LapForward(w: Witness, time: nat)
    ensures time <= NextLap(w, time)
  {
    QuotientAtMost(LAP, w.votes + 1);
  }

  /** Some passed witness would finish its next lap past the end of time. */
  ghost predicate Overflows(witnesses: seq<Witness>, passed: seq<nat>, time: nat)
  {
    exists i :: 0 <= i < |passed| && passed[i] < |witnesses| && NextLap(witnesses[passed[i]], time) > MAX_TIME
  }

  /** A lap from that time on ends past the end of time exactly when it is longer than the votes cover until then. */
  lemma OverflowsWhen(w: Witness, time: nat)
    requires time <= MAX_TIME
    ensures NextLap(w, time) > MAX_TIME <==> LAP >= (MAX_TIME - time + 1) * (w.votes + 1)
  {
    var left, q := MAX_TIME - time + 1, LAP / (w.votes + 1);
    QuotientBounds(LAP, w.votes + 1);
    if left <= q {
      MulMono(left, q, w.votes + 1);
    } else {
      MulMono(q + 1, left, w.votes + 1);
    }
  }

  ghost predicate SameRace(a: Witness, b: Witness)
  {
    a.position == b.position && a.lastUpdate == b.lastUpdate && a.scheduled == b.scheduled
  }

  /** These witnesses were passed: the first by due time, as far as the last runner, or all when the runners run out. */
  ghost predicate PassedBy(was: seq<Witness>, elected: seq<nat>, runners: seq<nat>, passed: set<nat>)
  {
    && (forall x :: x in passed ==> 0 <= x < |was|)
    && (forall i :: 0 <= i < |runners| ==> runners[i] in passed)
    && (forall x, y :: x in passed && 0 <= y < |was| && y !in passed ==> was[x].scheduled <= was[y].scheduled)
    && (|runners| < MAX_WITNESSES - |elected| ==> forall y :: 0 <= y < |was| ==> y in passed)
    && (|runners| == MAX_WITNESSES - |elected| > 0 ==>
          forall x :: x in passed ==> was[x].scheduled <= was[runners[|runners| - 1]].scheduled)
  }

  /** The last due time among those passed; without any, time stands still. */
  ghost predicate Clock(was: seq<Witness>, now: nat, passed: set<nat>, time: nat)
    requires forall x :: x in passed ==> 0 <= x < |was|
  {
    && (passed == {} ==> time == now)
    && (passed != {} ==> exists x :: x in passed && was[x].scheduled == time)
    && (forall x :: x in passed ==> was[x].scheduled <= time)
  }

  /** The next lap of some witness that was passed would end past the end of time. */
  ghost predicate OutOfTime(was: seq<Witness>, passed: set<nat>, time: nat)
    requires forall x :: x in passed ==> 0 <= x < |was|
  {
    exists x :: x in passed && LAP >= (MAX_TIME - time + 1) * (was[x].votes + 1)
  }

  /** After a round those passed start a lap, and the others go on; out of time, everybody starts from zero. */
  ghost predicate Raced(was: seq<Witness>, witnesses: seq<Witness>, now: nat, passed: set<nat>, time: nat)
    requires forall x :: x in passed ==> 0 <= x < |was|
  {
    && |witnesses| == |was|
    && if OutOfTime(was, passed, time)
       then now == 0 && forall w :: 0 <= w < |was| ==> OnLap(witnesses[w], 0, MAX_TIME)
       else now == time && forall w :: 0 <= w < |was| ==>
              if w in passed then OnLap(witnesses[w], now, LAP) else SameRace(witnesses[w], was[w])
  }

  /** Votes and keys stay; who is scheduled is marked so. */
  ghost predicate Marked(was: seq<Witness>, witnesses: seq<Witness>, elected: seq<nat>, runners: seq<nat>)
  {
    && |witnesses| == |was|
    && forall w :: 0 <= w < |was| ==>
         && witnesses[w].votes == was[w].votes && witnesses[w].hasKey == was[w].hasKey
         && witnesses[w].kind == if w in runners then Timeshare else if w in elected then Top19 else was[w].kind
  }

  ghost predicate SameStanding(a: Witness, b: Witness)
  {
    a.votes == b.votes && a.hasKey == b.hasKey && a.kind == b.kind
  }

  function NextLap(w: Witness, time: nat): nat
  {
    QuotientAtMost(LAP, w.votes + 1);
    time + LAP / (w.votes + 1)
  }

  function Lapped(w: Witness, passed: bool, time: nat): Witness
  {
    if passed then w.(position := 0, lastUpdate := time, scheduled := NextLap(w, time)) else w
  }

  lemma WrapsIffOver(w: Witness, time: nat)
    requires time <= MAX_TIME
    ensures Wrap(NextLap(w, time)) < time <==> NextLap(w, time) > MAX_TIME
  {
    QuotientAtMost(LAP, w.votes + 1);
  }

  /** The witnesses among the first p entries of an index. */
  ghost function PassedSet(order: seq<nat>, p: nat): set<nat>
    requires p <= |order|
  {
    set x | x in order[..p]
  }

  lemma PassedAre(was: seq<Witness>, bySchedule: seq<nat>, elected: seq<nat>, runners: seq<nat>, p: nat, now: nat)
    requires BySchedule(bySchedule, was) && p <= |bySchedule|
    requires runners == Filtered(bySchedule[..p], Runner(was, elected))
    requires p < |bySchedule| ==> |runners| == MAX_WITNESSES - |elected|
    requires runners != [] && |runners| == MAX_WITNESSES - |elected| ==>
      p > 0 && bySchedule[p - 1] == runners[MAX_WITNESSES - |elected| - 1]
    ensures PassedBy(was, elected, runners, PassedSet(bySchedule, p))
    ensures p > 0 ==> bySchedule[p - 1] < |was|
    ensures Clock(was, now, PassedSet(bySchedule, p), Reached(was, bySchedule, p, now))
  {
    hide Runner;
    var passed := PassedSet(bySchedule, p);
    FirstPassed(bySchedule, p);
    forall x | x in passed
      ensures 0 <= x < |was| && was[x].scheduled <= Reached(was, bySchedule, p, now)
    {
      var i :| 0 <= i < p && bySchedule[..p][i] == x;
      assert bySchedule[i] == x;
    }
    forall x, y | x in passed && 0 <= y < |was| && y !in passed
      ensures was[x].scheduled <= was[y].scheduled
    {
      var i :| 0 <= i < p && bySchedule[..p][i] == x;
      assert y in bySchedule;
      var j :| 0 <= j < |bySchedule| && bySchedule[j] == y;
      assert p <= j;
    }
    if p == |bySchedule| {
      assert bySchedule[..p] == bySchedule;
    }
  }

  lemma FirstPassed(order: seq<nat>, p: nat)
    requires p <= |order|
    ensures forall i :: 0 <= i < p ==> order[i] in PassedSet(order, p)
  {
    forall i | 0 <= i < p
      ensures order[i] in PassedSet(order, p)
    {
      assert order[..p][i] == order[i];
    }
  }

  lemma RacedIs(was: seq<Witness>, marked: seq<Witness>, witnesses: seq<Witness>, elected: seq<nat>, runners: seq<nat>,
                bySchedule: seq<nat>, p: nat, now: nat, reached: nat)
    requires |was| == |marked| == |witnesses| && BySchedule(bySchedule, was) && p <= |bySchedule|
    requires AllInStep(was, now) && now <= MAX_TIME
    requires forall w :: 0 <= w < |was| ==> SameRace(marked[w], was[w])
    requires Marked(was, marked, elected, runners)
    requires p > 0 ==> bySchedule[p - 1] < |was|
    requires var time := Reached(marked, bySchedule, p, now);
      if Overflows(marked, bySchedule[..p], time)
        then reached == 0 && forall w :: 0 <= w < |was| ==> OnLap(witnesses[w], 0, MAX_TIME)
        else reached == time && forall w :: 0 <= w < |was| ==>
          if w in bySchedule[..p] then OnLap(witnesses[w], time, LAP) else SameRace(witnesses[w], marked[w])
    ensures forall x :: x in PassedSet(bySchedule, p) ==> 0 <= x < |was|
    ensures Raced(was, witnesses, reached, PassedSet(bySchedule, p), Reached(was, bySchedule, p, now))
  {
    hide OnLap, NextLap;
    var passed, time := PassedSet(bySchedule, p), Reached(was, bySchedule, p, now);
    ReachedInTime(was, bySchedule, p, now);
    assert Reached(marked, bySchedule, p, now) == time;
    forall x | x in passed
      ensures 0 <= x < |was|
    {
      var i :| 0 <= i < p && bySchedule[..p][i] == x;
      assert bySchedule[i] == x;
    }
    forall x | x in passed
      ensures NextLap(marked[x], time) > MAX_TIME <==> LAP >= (MAX_TIME - time + 1) * (was[x].votes + 1)
    {
      OverflowsWhen(marked[x], time);
    }
    OverflowsIs(was, marked, bySchedule[..p], passed, time);
  }

  lemma OverflowsIs(was: seq<Witness>, marked: seq<Witness>, order: seq<nat>, passed: set<nat>, time: nat)
    requires |was| == |marked| && (forall x :: x in passed <==> x in order) && (forall x :: x in passed ==> x < |was|)
    requires forall x :: x in passed ==>
      (NextLap(marked[x], time) > MAX_TIME <==> LAP >= (MAX_TIME - time + 1) * (was[x].votes + 1))
    ensures Overflows(marked, order, time) <==> OutOfTime(was, passed, time)
  {
    hide NextLap;
    if Overflows(marked, order, time) {
      var i :| 0 <= i < |order| && order[i] < |marked| && NextLap(marked[order[i]], time) > MAX_TIME;
      assert order[i] in passed;
    }
    if OutOfTime(was, passed, time) {
      var x :| x in passed && LAP >= (MAX_TIME - time + 1) * (was[x].votes + 1);
      var i :| 0 <= i < |order| && order[i] == x;
    }
  }

  lemma MarkedIs(was: seq<Witness>, mid: seq<Witness>, marked: seq<Witness>, elected: seq<nat>, runners: seq<nat>)
    requires |was| == |mid| == |marked|
    requires forall w :: 0 <= w < |was| ==> mid[w] == if w in elected then was[w].(kind := Top19) else was[w]
    requires forall w :: 0 <= w < |was| ==> marked[w] == if w in runners then mid[w].(kind := Timeshare) else mid[w]
    ensures Marked(was, marked, elected, runners)
    ensures forall w :: 0 <= w < |was| ==> SameRace(marked[w], was[w])
  {
  }

  lemma StandingKept(was: seq<Witness>, marked: seq<Witness>, witnesses: seq<Witness>, elected: seq<nat>,
                     runners: seq<nat>)
    requires Marked(was, marked, elected, runners) && |witnesses| == |marked|
    requires forall w :: 0 <= w < |marked| ==> SameStanding(witnesses[w], marked[w])
    ensures Marked(was, witnesses, elected, runners)
  {
  }
}
