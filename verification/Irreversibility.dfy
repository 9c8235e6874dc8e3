/** How the last irreversible block advances: update_last_irreversible_block in libraries/chain/database.cpp. */
module Irreversibility {
  import opened Arithmetic

  const MAX_WITNESSES: nat := 21
  const START_MINER_VOTING_BLOCK: nat := 30
  const ONE_HUNDRED_PERCENT: nat := 10000
  const IRREVERSIBLE_THRESHOLD: nat := 7500

  /** How many entries are at least b. */
  ghost function AtLeast(s: seq<nat>, b: nat): nat
  {
    if s == [] then 0 else AtLeast(s[..|s| - 1], b) + (if s[|s| - 1] >= b then 1 else 0)
  }

  ghost predicate Sorted(s: seq<nat>)
  {
    forall i, j :: 0 <= i < j < |s| ==> s[i] <= s[j]
  }

  lemma {:induction false} AtLeastAppend(s: seq<nat>, t: seq<nat>, b: nat)
    ensures AtLeast(s + t, b) == AtLeast(s, b) + AtLeast(t, b)
  {
    if t == [] {
      assert s + t == s;
    } else {
      AtLeastAppend(s, t[..|t| - 1], b);
      assert (s + t)[..|s + t| - 1] == s + t[..|t| - 1];
    }
  }

  lemma {:induction false} AtLeastBounds(s: seq<nat>, b: nat)
    ensures AtLeast(s, b) <= |s|
    ensures (forall i :: 0 <= i < |s| ==> s[i] >= b) ==> AtLeast(s, b) == |s|
    ensures (forall i :: 0 <= i < |s| ==> s[i] < b) ==> AtLeast(s, b) == 0
  {
    if s != [] {
      AtLeastBounds(s[..|s| - 1], b);
    }
  }

  lemma AtLeastCut(s: seq<nat>, cut: nat, b: nat)
    requires cut <= |s|
    ensures AtLeast(s, b) == AtLeast(s[..cut], b) + AtLeast(s[cut..], b)
  {
    hide AtLeast;
    AtLeastAppend(s[..cut], s[cut..], b);
    assert s == s[..cut] + s[cut..];
  }

  /** In ascending order, the entries at least b are those from some position on. */
  lemma AtLeastSorted(s: seq<nat>, k: nat, b: nat)
    requires Sorted(s) && k < |s|
    ensures AtLeast(s, b) >= |s| - k <==> b <= s[k]
  {
    hide AtLeast;
    if b <= s[k] {
      AtLeastCut(s, k, b);
      AtLeastBounds(s[k..], b);
    } else {
      AtLeastCut(s, k + 1, b);
      AtLeastBounds(s[..k + 1], b);
      AtLeastBounds(s[k + 1..], b);
    }
  }

  /** Puts x in its place in an ascending sequence. */
  method Insert(s: seq<nat>, x: nat) returns (r: seq<nat>)
    requires Sorted(s)
    ensures Sorted(r) && |r| == |s| + 1
    ensures forall b: nat :: AtLeast(r, b) == AtLeast(s, b) + (if x >= b then 1 else 0)
    ensures forall i :: 0 <= i < |r| ==> r[i] == x || r[i] in s
  {
    var i := 0;
    while i < |s| && s[i] < x
      invariant 0 <= i <= |s|
      invariant forall k :: 0 <= k < i ==> s[k] < x
    {
      i := i + 1;
    }
    r := s[..i] + [x] + s[i..];
    forall b: nat
      ensures AtLeast(r, b) == AtLeast(s, b) + (if x >= b then 1 else 0)
    {
      AtLeastAppend(s[..i] + [x], s[i..], b);
      AtLeastAppend(s[..i], [x], b);
      AtLeastCut(s, i, b);
      assert [x][..0] == [];
    }
  }

  /**
    The element std::nth_element leaves at position k: the largest number that
    all but k of the entries reach.
   */
  method NthElement(s: seq<nat>, k: nat) returns (v: nat)
    requires k < |s|
    ensures v in s
    ensures forall b: nat :: AtLeast(s, b) >= |s| - k <==> b <= v
  {
    var sorted: seq<nat> := [];
    var i := 0;
    while i < |s|
      invariant 0 <= i <= |s| && |sorted| == i && Sorted(sorted)
      invariant forall b: nat :: AtLeast(sorted, b) == AtLeast(s[..i], b)
      invariant forall j :: 0 <= j < |sorted| ==> sorted[j] in s
    {
      ghost var before := sorted;
      sorted := Insert(sorted, s[i]);
      assert s[..i + 1][..i] == s[..i];
      assert forall j :: 0 <= j < |before| ==> before[j] in s;
      i := i + 1;
    }
    assert s[..i] == s;
    v := sorted[k];
    forall b: nat
      ensures AtLeast(s, b) >= |s| - k <==> b <= v
    {
      AtLeastSorted(sorted, k, b);
    }
  }

  /** How many scheduled witnesses may lag behind: all but three quarters, rounded down. */
  function Offset(n: nat): (k: nat)
    requires n > 0
    ensures k < n
    ensures forall a: nat :: a >= n - k <==> a * ONE_HUNDRED_PERCENT >= IRREVERSIBLE_THRESHOLD * n
  {
    ((ONE_HUNDRED_PERCENT - IRREVERSIBLE_THRESHOLD) * n) / ONE_HUNDRED_PERCENT
  }

  /** The places on the schedule whose witness confirmed block b or a later one. */
  ghost function Confirmers(confirmed: seq<nat>, schedule: seq<nat>, b: nat): set<nat>
    requires forall i :: 0 <= i < |schedule| ==> schedule[i] < |confirmed|
  {
    set i: nat | i < |schedule| && confirmed[schedule[i]] >= b
  }

  lemma {:induction false} ConfirmersCounted(confirmed: seq<nat>, schedule: seq<nat>, b: nat)
    requires forall i :: 0 <= i < |schedule| ==> schedule[i] < |confirmed|
    ensures |Confirmers(confirmed, schedule, b)| == AtLeast(Confirmations(confirmed, schedule), b)
  {
    if schedule == [] {
      assert Confirmers(confirmed, schedule, b) == {};
    } else {
      var n := |schedule| - 1;
      ConfirmersCounted(confirmed, schedule[..n], b);
      assert Confirmations(confirmed, schedule)[..n] == Confirmations(confirmed, schedule[..n]);
      assert Confirmers(confirmed, schedule, b)
        == Confirmers(confirmed, schedule[..n], b) + (if confirmed[schedule[n]] >= b then {n} else {});
    }
  }

  /** These places are a quorum of n. */
  ghost predicate Quorum(places: set<nat>, n: nat)
  {
    |places| * ONE_HUNDRED_PERCENT >= IRREVERSIBLE_THRESHOLD * n
  }

  /** Any two quorums of a schedule share at least half of it, so that more than a third confirmed both. */
  lemma QuorumsOverlap(a: set<nat>, b: set<nat>, n: nat)
    requires Quorum(a, n) && Quorum(b, n) && n > 0
    requires forall i :: i in a + b ==> i < n
    ensures 2 * |a * b| >= n && 3 * |a * b| > n
  {
    var all := Places(n);
    assert a + b <= all;
    SubsetSize(a + b, all);
    assert |a + b| + |a * b| == |a| + |b|;
  }

  ghost function Places(n: nat): (all: set<nat>)
    ensures |all| == n && forall i :: i in all <==> 0 <= i < n
  {
    if n == 0 then {} else Places(n - 1) + {n - 1}
  }

  lemma SubsetSize(a: set<nat>, b: set<nat>)
    requires a <= b
    ensures |a| <= |b|
  {
    assert b == a + (b - a);
  }

  /** The last blocks the scheduled witnesses confirmed. */
  function Confirmations(confirmed: seq<nat>, schedule: seq<nat>): (r: seq<nat>)
    requires forall i :: 0 <= i < |schedule| ==> schedule[i] < |confirmed|
    ensures |r| == |schedule| && forall i :: 0 <= i < |r| ==> r[i] == confirmed[schedule[i]]
  {
    seq(|schedule|, (i: nat) requires i < |schedule| => confirmed[schedule[i]])
  }

  class Chain {
    var head: nat
    var lib: nat
    var confirmed: seq<nat>

    /** Nobody confirmed the future, and the early rule trails the head by a full round. */
    ghost predicate Valid()
      reads this
    {
      && lib <= head
      && (forall w :: 0 <= w < |confirmed| ==> confirmed[w] <= head)
      && (head < START_MINER_VOTING_BLOCK ==> lib == if head > MAX_WITNESSES then head - MAX_WITNESSES else 0)
    }

    constructor (witnesses: nat)
      ensures Valid() && head == 0 && lib == 0 && |confirmed| == witnesses
    {
      head, lib, confirmed := 0, 0, seq(witnesses, _ => 0);
    }

    /** One block: the head moves on, its producer confirms it, irreversibility follows. */
    method ApplyBlock(producer: nat, schedule: seq<nat>)
      requires Valid() && producer < |confirmed| && |schedule| > 0
      requires forall i :: 0 <= i < |schedule| ==> schedule[i] < |confirmed|
      modifies this
      ensures Valid() && head == old(head) + 1 && confirmed == old(confirmed)[producer := head]
      ensures old(lib) <= lib
      ensures head >= START_MINER_VOTING_BLOCK ==>
        forall b: nat :: old(lib) < b ==>
          (b <= lib <==> Quorum(Confirmers(confirmed, schedule, b), |schedule|))
      ensures head < START_MINER_VOTING_BLOCK ==> lib == if head > MAX_WITNESSES then head - MAX_WITNESSES else 0
    {
      head := head + 1;
      confirmed := confirmed[producer := head];
      if head < START_MINER_VOTING_BLOCK {
        if head > MAX_WITNESSES {
          lib := head - MAX_WITNESSES;
        }
      } else {
        var all := Confirmations(confirmed, schedule);
        var quorum := NthElement(all, Offset(|schedule|));
        forall b: nat
          ensures b <= quorum <==> Quorum(Confirmers(confirmed, schedule, b), |schedule|)
        {
          ConfirmersCounted(confirmed, schedule, b);
        }
        if quorum > lib {
          lib := quorum;
        }
      }
    }

    /** Along any run of blocks the irreversible block only moves forward and never passes the head. */
    method Run(blocks: seq<(nat, seq<nat>)>) returns (libs: seq<nat>)
      requires Valid()
      requires forall k :: 0 <= k < |blocks| ==> blocks[k].0 < |confirmed| && |blocks[k].1| > 0
      requires forall k, i :: 0 <= k < |blocks| && 0 <= i < |blocks[k].1| ==> blocks[k].1[i] < |confirmed|
      modifies this
      ensures Valid() && head == old(head) + |blocks|
      ensures |libs| == |blocks| + 1 && libs[0] == old(lib) && libs[|blocks|] == lib
      ensures Sorted(libs)
      ensures forall k :: 0 <= k <= |blocks| ==> libs[k] <= old(head) + k
    {
      libs := [lib];
      for k := 0 to |blocks|
        invariant Valid() && head == old(head) + k && |confirmed| == |old(confirmed)|
        invariant |libs| == k + 1 && libs[0] == old(lib) && libs[k] == lib
        invariant Sorted(libs)
        invariant forall j :: 0 <= j <= k ==> libs[j] <= old(head) + j
      {
        ApplyBlock(blocks[k].0, blocks[k].1);
        libs := libs + [lib];
      }
    }
  }
}
