/**
  The tree of recent blocks (libraries/chain/fork_database.cpp). Items are
  numbered in the order of their creation and refer to their predecessors by
  number; a weak reference can be followed while the index, the head or a caller
  still holds its item.
 */
module Forks {
  import opened Options

  /** A block id carries the number of its block. */
  datatype Id = Id(num: nat, hash: nat)

  const NO_BLOCK := Id(0, 0)

  datatype Block = Block(id: Id, previous: Id)

  datatype Item = Item(block: Block, prev: Option<nat>)

  /** Ids identify blocks, and a block is numbered one above its predecessor. */
  ghost predicate Identifying(blockOf: Id -> Block)
  {
    forall x: Id :: x.num > 0 ==> blockOf(x).id == x && blockOf(x).previous.num + 1 == x.num
  }

  /** The ancestor of x with number n; x itself when n is not below it. */
  ghost function At(blockOf: Id -> Block, x: Id, n: nat): Id
    requires Identifying(blockOf)
    decreases x.num
  {
    if x.num <= n then x else At(blockOf, blockOf(x).previous, n)
  }

  lemma {:induction false} AtNumber(blockOf: Id -> Block, x: Id, n: nat)
    requires Identifying(blockOf) && n <= x.num
    ensures At(blockOf, x, n).num == n
    decreases x.num
  {
    if n < x.num {
      AtNumber(blockOf, blockOf(x).previous, n);
    }
  }

  lemma {:induction false} AtCompose(blockOf: Id -> Block, x: Id, n: nat, m: nat)
    requires Identifying(blockOf) && m <= n <= x.num
    ensures At(blockOf, At(blockOf, x, n), m) == At(blockOf, x, m)
    decreases x.num
  {
    if n < x.num {
      AtCompose(blockOf, blockOf(x).previous, n, m);
    }
  }

  lemma AtItself(blockOf: Id -> Block, x: Id)
    requires Identifying(blockOf)
    ensures At(blockOf, x, x.num) == x
  {
  }

  lemma AtPrevious(blockOf: Id -> Block, x: Id, n: nat)
    requires Identifying(blockOf) && 0 < n <= x.num
    ensures At(blockOf, x, n).num == n
    ensures blockOf(At(blockOf, x, n)).previous == At(blockOf, x, n - 1)
  {
    AtNumber(blockOf, x, n);
    AtCompose(blockOf, x, n, n - 1);
  }

  /** Two blocks with a common ancestor share all the ancestors below it. */
  lemma CommonBelow(blockOf: Id -> Block, x: Id, y: Id, n: nat, m: nat)
    requires Identifying(blockOf) && m <= n <= x.num && n <= y.num
    requires At(blockOf, x, n) == At(blockOf, y, n)
    ensures At(blockOf, x, m) == At(blockOf, y, m)
  {
    AtCompose(blockOf, x, n, m);
    AtCompose(blockOf, y, n, m);
  }

  ghost predicate ItemValid(items: seq<Item>, blockOf: Id -> Block, s: nat)
    requires s < |items|
  {
    && items[s].block.id.num > 0
    && items[s].block == blockOf(items[s].block.id)
    && (items[s].prev.Some? ==>
          items[s].prev.value < s && items[items[s].prev.value].block.id == items[s].block.previous)
  }

  /** Item s is still held by the index or is the head. */
  ghost predicate Alive(items: seq<Item>, index: map<Id, nat>, head: Option<nat>, s: nat)
  {
    s < |items| && (head == Some(s) || (items[s].block.id in index && index[items[s].block.id] == s))
  }

  /** What following the weak reference of item s gives. */
  function Lock(items: seq<Item>, index: map<Id, nat>, head: Option<nat>, s: nat): (p: Option<nat>)
    requires s < |items| && (items[s].prev.Some? ==> items[s].prev.value < s)
    ensures p.Some? ==> p.value < s && p == items[s].prev
    ensures p.Some? <==> items[s].prev.Some? && Alive(items, index, head, items[s].prev.value)
  {
    if items[s].prev.None? then None
    else
      var k := items[s].prev.value;
      if head == Some(k) || (items[k].block.id in index && index[items[k].block.id] == k) then Some(k) else None
  }

  /** A walk upwards: each item's predecessor is the next one, starting at item s. */
  ghost predicate Branch(items: seq<Item>, path: seq<nat>)
  {
    && (forall i :: 0 <= i < |path| ==> path[i] < |items|)
    && (forall i :: 0 <= i < |path| - 1 ==> items[path[i]].prev == Some(path[i + 1]))
  }

  /** A branch holds the ancestors of its first block, one number after the other. */
  lemma {:induction false} BranchIds(items: seq<Item>, blockOf: Id -> Block, path: seq<nat>, i: nat)
    requires Identifying(blockOf) && (forall s :: 0 <= s < |items| ==> ItemValid(items, blockOf, s))
    requires Branch(items, path) && i < |path|
    ensures var x := items[path[0]].block.id;
            i < x.num && items[path[i]].block.id == At(blockOf, x, x.num - i)
  {
    var x := items[path[0]].block.id;
    assert ItemValid(items, blockOf, path[0]);
    if i > 0 {
      BranchIds(items, blockOf, path, i - 1);
      assert ItemValid(items, blockOf, path[i - 1]) && ItemValid(items, blockOf, path[i]);
      AtPrevious(blockOf, x, x.num - (i - 1));
      assert items[path[i - 1]].prev == Some(path[i - 1 + 1]);
    }
  }

  /** A branch whose items, after the first, are all still held. */
  ghost predicate Climb(items: seq<Item>, index: map<Id, nat>, head: Option<nat>, path: seq<nat>)
  {
    |path| > 0 && Branch(items, path) && forall i :: 1 <= i < |path| ==> Alive(items, index, head, path[i])
  }

  ghost predicate ItemsValid(items: seq<Item>, blockOf: Id -> Block)
  {
    Identifying(blockOf) && forall s :: 0 <= s < |items| ==> ItemValid(items, blockOf, s)
  }

  /** From item s the references lead all the way up to number n. */
  ghost predicate Climbable(items: seq<Item>, index: map<Id, nat>, head: Option<nat>, s: nat, n: nat)
    decreases s
  {
    s < |items|
    && (items[s].block.id.num <= n
        || (items[s].prev.Some? && items[s].prev.value < s && Alive(items, index, head, items[s].prev.value)
            && Climbable(items, index, head, items[s].prev.value, n)))
  }

  /** Whatever can be reached from s, and is not below t, can be reached from t. */
  ghost predicate Follows(items: seq<Item>, index: map<Id, nat>, head: Option<nat>, s: nat, t: nat)
    requires t < |items|
  {
    forall m: nat :: m <= items[t].block.id.num && Climbable(items, index, head, s, m) ==>
      Climbable(items, index, head, t, m)
  }

  lemma Numbered(items: seq<Item>, blockOf: Id -> Block, s: nat)
    requires ItemsValid(items, blockOf) && s < |items|
    ensures items[s].block.id.num > 0
  {
    assert ItemValid(items, blockOf, s);
  }

  lemma FollowsStep(items: seq<Item>, index: map<Id, nat>, head: Option<nat>, blockOf: Id -> Block, s: nat, t: nat)
    requires ItemsValid(items, blockOf) && t < |items| && Follows(items, index, head, s, t)
    requires items[t].prev.Some? && items[t].prev.value < t && Alive(items, index, head, items[t].prev.value)
    ensures Follows(items, index, head, s, items[t].prev.value)
  {
    assert ItemValid(items, blockOf, t) && ItemValid(items, blockOf, items[t].prev.value);
  }

  lemma ClimbStep(items: seq<Item>, index: map<Id, nat>, head: Option<nat>, path: seq<nat>, top: nat, next: nat)
    requires Climb(items, index, head, path + [top]) && top < |items| && items[top].prev == Some(next)
    requires Alive(items, index, head, next)
    ensures Climb(items, index, head, path + [top] + [next])
  {
    var longer := path + [top] + [next];
    forall i | 0 <= i < |longer| - 1
      ensures items[longer[i]].prev == Some(longer[i + 1])
    {
      if i < |path| {
        assert longer[i] == (path + [top])[i] && longer[i + 1] == (path + [top])[i + 1];
      }
    }
    forall i | 1 <= i < |longer|
      ensures Alive(items, index, head, longer[i])
    {
      if i <= |path| {
        assert longer[i] == (path + [top])[i];
      }
    }
  }

  /** With a dead reference at x or y, no common ancestor can be reached on both sides. */
  lemma NoWayUp(items: seq<Item>, index: map<Id, nat>, head: Option<nat>, blockOf: Id -> Block, x0: nat, y0: nat,
                x: nat, y: nat)
    requires ItemsValid(items, blockOf) && x0 < |items| && y0 < |items| && x < |items| && y < |items|
    requires items[x].block.id.num == items[y].block.id.num <= items[x0].block.id.num == items[y0].block.id.num
    requires Follows(items, index, head, x0, x) && Follows(items, index, head, y0, y)
    requires items[x].block.id == At(blockOf, items[x0].block.id, items[x].block.id.num)
    requires items[y].block.id == At(blockOf, items[y0].block.id, items[y].block.id.num)
    requires items[x].block.previous != items[y].block.previous
    requires ItemValid(items, blockOf, x) && ItemValid(items, blockOf, y)
    requires Lock(items, index, head, x).None? || Lock(items, index, head, y).None?
    ensures forall m: nat ::
        m < items[x0].block.id.num
        && At(blockOf, items[x0].block.id, m) == At(blockOf, items[y0].block.id, m) ==>
          !Climbable(items, index, head, x0, m + 1) || !Climbable(items, index, head, y0, m + 1)
  {
    forall m: nat | m < items[x0].block.id.num
        && At(blockOf, items[x0].block.id, m) == At(blockOf, items[y0].block.id, m)
      ensures !Climbable(items, index, head, x0, m + 1) || !Climbable(items, index, head, y0, m + 1)
    {
      var level := items[x].block.id.num;
      AtPrevious(blockOf, items[x0].block.id, level);
      AtPrevious(blockOf, items[y0].block.id, level);
      if m >= level - 1 {
        CommonBelow(blockOf, items[x0].block.id, items[y0].block.id, m, level - 1);
      }
    }
  }

  /** A branch that was climbed is climbable. */
  lemma {:induction false} WayUp(items: seq<Item>, index: map<Id, nat>, head: Option<nat>, blockOf: Id -> Block,
                                 path: seq<nat>)
    requires ItemsValid(items, blockOf) && Climb(items, index, head, path)
    ensures Climbable(items, index, head, path[0], items[path[|path| - 1]].block.id.num)
    decreases |path|
  {
    if |path| > 1 {
      assert items[path[0]].prev == Some(path[0 + 1]);
      assert ItemValid(items, blockOf, path[0]);
      var rest := path[1..];
      forall i | 0 <= i < |rest| - 1
        ensures items[rest[i]].prev == Some(rest[i + 1])
      {
        assert items[path[i + 1]].prev == Some(path[i + 1 + 1]);
      }
      WayUp(items, index, head, blockOf, rest);
    }
  }

  /**
    Number n is where two blocks part: they have the same ancestor there, and
    different ones above it, as far as both reach beyond it. When neither block is
    an ancestor of the other this is their highest common ancestor; otherwise it
    is the predecessor of the lower one.
   */
  ghost predicate HighestCommon(blockOf: Id -> Block, x: Id, y: Id, n: nat)
    requires Identifying(blockOf)
  {
    var low := if x.num <= y.num then x.num else y.num;
    && n < low
    && At(blockOf, x, n) == At(blockOf, y, n)
    && (forall k :: n < k < low ==> At(blockOf, x, k) != At(blockOf, y, k))
    && (At(blockOf, x, low) == At(blockOf, y, low) ==> n == low - 1)
  }

  /** The highest number up to n at which two blocks have the same ancestor. */
  ghost function PartingFrom(blockOf: Id -> Block, x: Id, y: Id, n: nat): nat
    requires Identifying(blockOf)
  {
    if n == 0 || At(blockOf, x, n) == At(blockOf, y, n) then n else PartingFrom(blockOf, x, y, n - 1)
  }

  /** Where two blocks part. */
  ghost function Parting(blockOf: Id -> Block, x: Id, y: Id): nat
    requires Identifying(blockOf)
  {
    var low := if x.num <= y.num then x.num else y.num;
    if low == 0 then 0 else PartingFrom(blockOf, x, y, low - 1)
  }

  lemma {:induction false} PartingFound(blockOf: Id -> Block, x: Id, y: Id, n: nat, k: nat)
    requires Identifying(blockOf) && n <= k && At(blockOf, x, n) == At(blockOf, y, n)
    requires forall j :: n < j <= k ==> At(blockOf, x, j) != At(blockOf, y, j)
    ensures PartingFrom(blockOf, x, y, k) == n
    decreases k
  {
    hide At, Identifying;
    if n < k {
      PartingFound(blockOf, x, y, n, k - 1);
    }
  }

  lemma HighestIsParting(blockOf: Id -> Block, x: Id, y: Id, n: nat)
    requires Identifying(blockOf) && HighestCommon(blockOf, x, y, n)
    ensures n == Parting(blockOf, x, y)
  {
    hide At, Identifying;
    var low := if x.num <= y.num then x.num else y.num;
    PartingFound(blockOf, x, y, n, low - 1);
  }

  /** The items from s upwards whose numbers are above n. */
  ghost function Trail(items: seq<Item>, s: nat, n: nat): seq<nat>
    decreases s
  {
    if s >= |items| || items[s].block.id.num <= n then []
    else [s] + (if items[s].prev.Some? && items[s].prev.value < s then Trail(items, items[s].prev.value, n) else [])
  }

  /** A branch down to number n + 1 is the trail of its first item. */
  lemma {:induction false} BranchIsTrail(items: seq<Item>, blockOf: Id -> Block, path: seq<nat>, n: nat)
    requires ItemsValid(items, blockOf) && Branch(items, path) && path != []
    requires items[path[0]].block.id.num == n + |path|
    ensures path == Trail(items, path[0], n)
    decreases |path|
  {
    hide Identifying;
    assert ItemValid(items, blockOf, path[0]);
    if |path| == 1 {
      if items[path[0]].prev.Some? {
        PrevNumber(items, blockOf, path[0]);
      }
    } else {
      var rest := path[1..];
      assert items[path[0]].prev == Some(path[0 + 1]);
      PrevNumber(items, blockOf, path[0]);
      forall i | 0 <= i < |rest| - 1
        ensures items[rest[i]].prev == Some(rest[i + 1])
      {
        assert items[path[i + 1]].prev == Some(path[i + 1 + 1]);
      }
      BranchIsTrail(items, blockOf, rest, n);
      assert path == [path[0]] + rest;
    }
  }

  lemma PrevNumber(items: seq<Item>, blockOf: Id -> Block, s: nat)
    requires ItemsValid(items, blockOf) && s < |items| && items[s].prev.Some?
    ensures items[s].prev.value < s && items[items[s].prev.value].block.id == items[s].block.previous
    ensures items[items[s].prev.value].block.id.num == items[s].block.id.num - 1
  {
    assert ItemValid(items, blockOf, s);
  }

  /** Number m is a common ancestor of both blocks that the references reach from either side. */
  ghost predicate MeetAt(items: seq<Item>, index: map<Id, nat>, head: Option<nat>, blockOf: Id -> Block, first: Id,
                         second: Id, m: nat)
    requires Identifying(blockOf) && first in index && second in index
  {
    && m < first.num && m < second.num && At(blockOf, first, m) == At(blockOf, second, m)
    && Climbable(items, index, head, index[first], m + 1) && Climbable(items, index, head, index[second], m + 1)
  }

  /** The branches of two blocks can be followed to where they meet. */
  ghost predicate Meet(items: seq<Item>, index: map<Id, nat>, head: Option<nat>, blockOf: Id -> Block, first: Id,
                       second: Id)
    requires Identifying(blockOf)
  {
    first in index && second in index && exists m: nat :: MeetAt(items, index, head, blockOf, first, second, m)
  }

  /** From position i of one branch and j of the other, up to position n of the first, the predecessors differ. */
  ghost predicate Apart(items: seq<Item>, a: seq<nat>, b: seq<nat>, i: nat, j: nat, n: int)
  {
    forall k :: i <= k < n ==>
      && k < |a| && 0 <= k - i + j < |b| && a[k] < |items| && b[k - i + j] < |items|
      && items[a[k]].block.previous != items[b[k - i + j]].block.previous
  }

  lemma PartedCommon(items: seq<Item>, index: map<Id, nat>, head: Option<nat>, blockOf: Id -> Block,
                     first: Id, second: Id, a: seq<nat>, b: seq<nat>, i: nat, j: nat)
    requires ItemsValid(items, blockOf) && Climb(items, index, head, a) && Climb(items, index, head, b)
    requires items[a[0]].block.id == first && items[b[0]].block.id == second
    requires i < |a| && j < |b| && |a| - i == |b| - j && first.num - i == second.num - j
    requires i == 0 || j == 0
    requires items[a[|a| - 1]].block.previous == items[b[|b| - 1]].block.previous
    requires Apart(items, a, b, i, j, |a| - 1)
    ensures |a| <= first.num && |b| <= second.num && first.num - |a| == second.num - |b|
    ensures HighestCommon(blockOf, first, second, first.num - |a|)
    ensures items[a[|a| - 1]].block.id.num == items[b[|b| - 1]].block.id.num == first.num - |a| + 1
  {
    hide Identifying;
    BranchPrevious(items, blockOf, a, |a| - 1);
    BranchPrevious(items, blockOf, b, |b| - 1);
    var n := first.num - |a|;
    var low := first.num - i;
    forall m | n < m < low
      ensures At(blockOf, first, m) != At(blockOf, second, m)
    {
      var k := first.num - m - 1;
      BranchPrevious(items, blockOf, a, k);
      BranchPrevious(items, blockOf, b, k - i + j);
    }
    if At(blockOf, first, low) == At(blockOf, second, low) && n < low - 1 {
      CommonBelow(blockOf, first, second, low, low - 1);
    }
  }

  lemma BranchPrevious(items: seq<Item>, blockOf: Id -> Block, path: seq<nat>, i: nat)
    requires ItemsValid(items, blockOf) && Branch(items, path) && i < |path|
    ensures var x := items[path[0]].block.id;
            i < x.num && items[path[i]].block.id.num == x.num - i
            && items[path[i]].block.previous == At(blockOf, x, x.num - i - 1)
  {
    BranchIds(items, blockOf, path, i);
    assert ItemValid(items, blockOf, path[i]);
    AtPrevious(blockOf, items[path[0]].block.id, items[path[0]].block.id.num - i);
  }

  lemma Found(items: seq<Item>, index: map<Id, nat>, head: Option<nat>, blockOf: Id -> Block,
              a0: seq<nat>, b0: seq<nat>, x: nat, y: nat, a: seq<nat>, b: seq<nat>)
    requires ItemsValid(items, blockOf) && x < |items| && y < |items|
    requires Climb(items, index, head, a0 + [x]) && Climb(items, index, head, b0 + [y])
    requires Climb(items, index, head, a) && Climb(items, index, head, b) && (a0 == [] || b0 == [])
    requires a0 + [x] <= a && b0 + [y] <= b && |a| - |a0| == |b| - |b0|
    requires items[x].block.id.num == items[y].block.id.num
    requires items[a[|a| - 1]].block.previous == items[b[|b| - 1]].block.previous
    requires Apart(items, a, b, |a0|, |b0|, |a| - 1)
    ensures |a0 + [x]| > 0 && |b0 + [y]| > 0 && a[0] == (a0 + [x])[0] && b[0] == (b0 + [y])[0]
    ensures a[0] < |items| && b[0] < |items|
    ensures var first, second := items[a[0]].block.id, items[b[0]].block.id;
            && |a| <= first.num && |b| <= second.num && first.num - |a| == second.num - |b|
            && HighestCommon(blockOf, first, second, first.num - |a|)
            && At(blockOf, first, first.num - |a|) == At(blockOf, second, first.num - |a|)
            && Climbable(items, index, head, a[0], first.num - |a| + 1)
            && Climbable(items, index, head, b[0], first.num - |a| + 1)
  {
    hide Climbable, At, Apart, Alive, ItemValid, Branch, Identifying;
    TopId(items, index, head, blockOf, a0, x);
    TopId(items, index, head, blockOf, b0, y);
    var first, second := items[a[0]].block.id, items[b[0]].block.id;
    PartedCommon(items, index, head, blockOf, first, second, a, b, |a0|, |b0|);
    WayUp(items, index, head, blockOf, a);
    WayUp(items, index, head, blockOf, b);
  }

  lemma FoundTrails(items: seq<Item>, index: map<Id, nat>, head: Option<nat>, blockOf: Id -> Block, first: Id,
                    second: Id, a: seq<nat>, b: seq<nat>)
    requires ItemsValid(items, blockOf) && Climb(items, index, head, a) && Climb(items, index, head, b)
    requires items[a[0]].block.id == first && items[b[0]].block.id == second
    requires |a| <= first.num && |b| <= second.num && first.num - |a| == second.num - |b|
    requires HighestCommon(blockOf, first, second, first.num - |a|)
    ensures var n := Parting(blockOf, first, second);
            n == first.num - |a| && a == Trail(items, a[0], n) && b == Trail(items, b[0], n)
  {
    hide ItemValid, Branch, HighestCommon, Identifying, Alive, At, Trail, Parting;
    HighestIsParting(blockOf, first, second, first.num - |a|);
    BranchIsTrail(items, blockOf, a, first.num - |a|);
    BranchIsTrail(items, blockOf, b, first.num - |a|);
  }

  /** The last item of a branch is the ancestor with its number. */
  lemma TopId(items: seq<Item>, index: map<Id, nat>, head: Option<nat>, blockOf: Id -> Block, path: seq<nat>, top: nat)
    requires ItemsValid(items, blockOf) && top < |items| && Climb(items, index, head, path + [top])
    ensures (path + [top])[0] < |items|
    ensures var x := items[(path + [top])[0]].block.id;
            && |path| < x.num && items[top].block.id.num == x.num - |path|
            && items[top].block.id == At(blockOf, x, items[top].block.id.num)
  {
    hide Alive, At;
    BranchIds(items, blockOf, path + [top], |path|);
    AtNumber(blockOf, items[(path + [top])[0]].block.id, items[(path + [top])[0]].block.id.num - |path|);
  }

  lemma NotFound(items: seq<Item>, index: map<Id, nat>, head: Option<nat>, blockOf: Id -> Block,
                 s: nat, t: nat, a0: seq<nat>, b0: seq<nat>, x: nat, y: nat)
    requires ItemsValid(items, blockOf) && x < |items| && y < |items| && s < |items| && t < |items|
    requires Climb(items, index, head, a0 + [x]) && Climb(items, index, head, b0 + [y])
    requires (a0 + [x])[0] == s && (b0 + [y])[0] == t
    requires Follows(items, index, head, s, x) && Follows(items, index, head, t, y)
    requires var low := items[x].block.id.num;
             && low == items[y].block.id.num && low <= items[s].block.id.num && low <= items[t].block.id.num
             && (low == items[s].block.id.num || low == items[t].block.id.num)
    requires forall m: nat ::
        m < items[x].block.id.num
        && At(blockOf, items[x].block.id, m) == At(blockOf, items[y].block.id, m) ==>
          !Climbable(items, index, head, x, m + 1) || !Climbable(items, index, head, y, m + 1)
    ensures forall m: nat ::
        m < items[s].block.id.num && m < items[t].block.id.num
        && At(blockOf, items[s].block.id, m) == At(blockOf, items[t].block.id, m) ==>
          !Climbable(items, index, head, s, m + 1) || !Climbable(items, index, head, t, m + 1)
  {
    hide Climbable, Alive, At, ItemValid, Branch, Identifying;
    TopId(items, index, head, blockOf, a0, x);
    TopId(items, index, head, blockOf, b0, y);
    var low := items[x].block.id.num;
    var first, second := items[s].block.id, items[t].block.id;
    forall m: nat | m < first.num && m < second.num && At(blockOf, first, m) == At(blockOf, second, m)
      ensures !Climbable(items, index, head, s, m + 1) || !Climbable(items, index, head, t, m + 1)
    {
      AtCompose(blockOf, first, low, m);
      AtCompose(blockOf, second, low, m);
    }
  }

  /** Two climbs in step: from x0 and y0 the walks have come to x and y, with different predecessors on the way. */
  ghost predicate Abreast(items: seq<Item>, index: map<Id, nat>, head: Option<nat>, blockOf: Id -> Block, a0: seq<nat>,
                          b0: seq<nat>, x0: nat, y0: nat, a: seq<nat>, b: seq<nat>, x: nat, y: nat)
  {
    && ItemsValid(items, blockOf) && x0 < |items| && y0 < |items| && x < |items| && y < |items|
    && items[x].block.id.num == items[y].block.id.num <= items[x0].block.id.num == items[y0].block.id.num
    && Climb(items, index, head, a + [x]) && Climb(items, index, head, b + [y])
    && a0 + [x0] <= a + [x] && b0 + [y0] <= b + [y] && |a| - |a0| == |b| - |b0|
    && Apart(items, a, b, |a0|, |b0|, |a|)
    && Follows(items, index, head, x0, x) && Follows(items, index, head, y0, y)
    && items[x].block.id == At(blockOf, items[x0].block.id, items[x].block.id.num)
    && items[y].block.id == At(blockOf, items[y0].block.id, items[y].block.id.num)
  }

  lemma PrevBelow(items: seq<Item>, blockOf: Id -> Block, s: nat)
    requires ItemsValid(items, blockOf) && s < |items|
    ensures items[s].prev.Some? ==> items[s].prev.value < s
  {
    assert ItemValid(items, blockOf, s);
  }

  lemma AbreastStart(items: seq<Item>, index: map<Id, nat>, head: Option<nat>, blockOf: Id -> Block, a0: seq<nat>,
                     b0: seq<nat>, x0: nat, y0: nat)
    requires ItemsValid(items, blockOf) && x0 < |items| && y0 < |items|
    requires items[x0].block.id.num == items[y0].block.id.num
    requires Climb(items, index, head, a0 + [x0]) && Climb(items, index, head, b0 + [y0])
    ensures Abreast(items, index, head, blockOf, a0, b0, x0, y0, a0, b0, x0, y0)
  {
    hide Climb, Climbable, ItemValid;
    AtItself(blockOf, items[x0].block.id);
    AtItself(blockOf, items[y0].block.id);
  }

  lemma AbreastStuck(items: seq<Item>, index: map<Id, nat>, head: Option<nat>, blockOf: Id -> Block, a0: seq<nat>,
                     b0: seq<nat>, x0: nat, y0: nat, a: seq<nat>, b: seq<nat>, x: nat, y: nat)
    requires Abreast(items, index, head, blockOf, a0, b0, x0, y0, a, b, x, y)
    requires items[x].block.previous != items[y].block.previous
    requires (items[x].prev.Some? ==> items[x].prev.value < x) && (items[y].prev.Some? ==> items[y].prev.value < y)
    requires Lock(items, index, head, x).None? || Lock(items, index, head, y).None?
    ensures forall m: nat ::
        m < items[x0].block.id.num
        && At(blockOf, items[x0].block.id, m) == At(blockOf, items[y0].block.id, m) ==>
          !Climbable(items, index, head, x0, m + 1) || !Climbable(items, index, head, y0, m + 1)
  {
    hide Climb, Climbable, At, Alive, Apart, Follows;
    assert ItemValid(items, blockOf, x) && ItemValid(items, blockOf, y);
    NoWayUp(items, index, head, blockOf, x0, y0, x, y);
  }

  lemma AbreastStep(items: seq<Item>, index: map<Id, nat>, head: Option<nat>, blockOf: Id -> Block, a0: seq<nat>,
                    b0: seq<nat>, x0: nat, y0: nat, a: seq<nat>, b: seq<nat>, x: nat, y: nat)
    requires Abreast(items, index, head, blockOf, a0, b0, x0, y0, a, b, x, y)
    requires items[x].block.previous != items[y].block.previous
    requires (items[x].prev.Some? ==> items[x].prev.value < x) && (items[y].prev.Some? ==> items[y].prev.value < y)
    requires Lock(items, index, head, x).Some? && Lock(items, index, head, y).Some?
    ensures Abreast(items, index, head, blockOf, a0, b0, x0, y0, a + [x], b + [y], items[x].prev.value,
      items[y].prev.value)
  {
    hide Climbable, At, Follows, Climb, Alive, Identifying;
    var p, q := items[x].prev.value, items[y].prev.value;
    LockedNext(items, index, head, blockOf, x0, a, x);
    LockedNext(items, index, head, blockOf, y0, b, y);
    ApartStep(items, a, b, |a0|, |b0|, x, y);
  }

  /** One side of a step. */
  lemma LockedNext(items: seq<Item>, index: map<Id, nat>, head: Option<nat>, blockOf: Id -> Block, x0: nat, a: seq<nat>,
                   x: nat)
    requires ItemsValid(items, blockOf) && x0 < |items| && x < |items|
    requires items[x].block.id.num <= items[x0].block.id.num
    requires Climb(items, index, head, a + [x]) && Follows(items, index, head, x0, x)
    requires items[x].block.id == At(blockOf, items[x0].block.id, items[x].block.id.num)
    requires items[x].prev.Some? && items[x].prev.value < x && Lock(items, index, head, x).Some?
    ensures var p := items[x].prev.value;
            && p < |items| && items[p].block.id.num == items[x].block.id.num - 1
            && Climb(items, index, head, a + [x] + [p]) && Follows(items, index, head, x0, p)
            && items[p].block.id == At(blockOf, items[x0].block.id, items[p].block.id.num)
  {
    hide Climb, Climbable, At;
    var p := items[x].prev.value;
    assert ItemValid(items, blockOf, x) && ItemValid(items, blockOf, p);
    FollowsStep(items, index, head, blockOf, x0, x);
    ClimbStep(items, index, head, a, x, p);
    AtPrevious(blockOf, items[x0].block.id, items[x].block.id.num);
  }

  lemma ApartStep(items: seq<Item>, a: seq<nat>, b: seq<nat>, i: nat, j: nat, x: nat, y: nat)
    requires Apart(items, a, b, i, j, |a|) && i <= |a| && |a| - i == |b| - j
    requires x < |items| && y < |items| && items[x].block.previous != items[y].block.previous
    ensures Apart(items, a + [x], b + [y], i, j, |a| + 1)
  {
    var a', b' := a + [x], b + [y];
    forall k | i <= k < |a| + 1
      ensures k < |a'| && 0 <= k - i + j < |b'| && a'[k] < |items| && b'[k - i + j] < |items|
              && items[a'[k]].block.previous != items[b'[k - i + j]].block.previous
    {
      if k < |a| {
        assert items[a[k]].block.previous != items[b[k - i + j]].block.previous;
      }
    }
  }

  lemma AbreastEnd(items: seq<Item>, index: map<Id, nat>, head: Option<nat>, blockOf: Id -> Block, a0: seq<nat>,
                   b0: seq<nat>, x0: nat, y0: nat, a: seq<nat>, b: seq<nat>, x: nat, y: nat)
    requires Abreast(items, index, head, blockOf, a0, b0, x0, y0, a, b, x, y)
    ensures Climb(items, index, head, a + [x]) && Climb(items, index, head, b + [y])
    ensures a0 + [x0] <= a + [x] && b0 + [y0] <= b + [y] && |a| - |a0| == |b| - |b0|
    ensures Apart(items, a + [x], b + [y], |a0|, |b0|, |a|)
  {
    hide Climb, Climbable, At, Follows, ItemsValid;
    var a', b' := a + [x], b + [y];
    forall k | |a0| <= k < |a|
      ensures k < |a'| && 0 <= k - |a0| + |b0| < |b'| && a'[k] < |items| && b'[k - |a0| + |b0|] < |items|
              && items[a'[k]].block.previous != items[b'[k - |a0| + |b0|]].block.previous
    {
      assert items[a[k]].block.previous != items[b[k - |a0| + |b0|]].block.previous;
    }
  }

  class ForkDatabase {
    var items: seq<Item>
    var index: map<Id, nat>
    var head: Option<nat>
    var maxSize: nat
    ghost const blockOf: Id -> Block

    ghost predicate Valid()
      reads this
    {
      && ItemsValid(items, blockOf)
      && (forall id :: id in index ==> index[id] < |items| && items[index[id]].block.id == id)
      && (head.Some? ==> head.value < |items|)
      && (index != map[] ==> head.Some?)
    }

    constructor (ghost blockOf: Id -> Block)
      requires Identifying(blockOf)
      ensures Valid() && this.blockOf == blockOf && items == [] && index == map[] && head == None && maxSize == 1024
    {
      this.blockOf := blockOf;
      items, index, head, maxSize := [], map[], None, 1024;
    }

    /** The number of the oldest block the database keeps. */
    function Bound(): (n: int)
      requires head.Some? ==> head.value < |items|
      reads this
      ensures 0 <= n && (head.None? ==> n == 0)
      ensures head.Some? ==>
        var top := items[head.value].block.id.num; n >= top - maxSize && (n == 0 || n == top - maxSize)
    {
      if head.None? || items[head.value].block.id.num <= maxSize then 0 else items[head.value].block.id.num - maxSize
    }

    /** push_block: a block that is recent enough and links to a known one joins the tree. */
    method PushBlock(b: Block) returns (ok: bool)
      requires Valid() && b.id.num > 0 && b == blockOf(b.id)
      modifies this
      ensures Valid() && maxSize == old(maxSize)
      ensures ok <==>
        old(head).None? || (b.id.num > old(Bound()) && (b.previous == NO_BLOCK || b.previous in old(index)))
      ensures !ok ==> items == old(items) && index == old(index) && head == old(head)
      ensures ok ==>
        |items| == |old(items)| + 1 && items[..|old(items)|] == old(items) && items[|old(items)|].block == b
      ensures ok ==> items[|old(items)|].prev ==
                       if old(head).Some? && b.previous != NO_BLOCK then Some(old(index)[b.previous]) else None
      ensures ok ==> index == if b.id in old(index) then old(index) else old(index)[b.id := |old(items)|]
      ensures ok ==>
        head == if old(head).Some?
          && b.id.num <= old(items)[old(head).value].block.id.num then old(head) else Some(|old(items)|)
    {
      if head.Some? && b.id.num <= Bound() {
        return false;
      }
      var prev: Option<nat> := None;
      if head.Some? && b.previous != NO_BLOCK {
        if b.previous !in index {
          return false;
        }
        prev := Some(index[b.previous]);
      }
      var s := |items|;
      forall k | 0 <= k < |items| + 1
        ensures ItemValid(items + [Item(b, prev)], blockOf, k)
      {
        assert k < |items| ==> ItemValid(items, blockOf, k);
      }
      items := items + [Item(b, prev)];
      if b.id !in index {
        index := index[b.id := s];
      }
      if head.None? || b.id.num > items[head.value].block.id.num {
        head := Some(s);
      }
      ok := true;
    }

    /** An entry with the smallest number. */
    method FirstByNumber() returns (first: Id)
      requires index != map[]
      ensures first in index && forall id :: id in index ==> first.num <= id.num
    {
      var rest := index.Keys;
      var start :| start in rest;
      first, rest := start, rest - {start};
      while rest != {}
        invariant first in index && rest <= index.Keys
        invariant forall id :: id in index && id !in rest ==> first.num <= id.num
        decreases rest
      {
        var id :| id in rest;
        if id.num < first.num {
          first := id;
        }
        rest := rest - {id};
      }
    }

    /** set_max_size: drops the oldest entries until none is out of range. */
    method SetMaxSize(size: nat)
      requires Valid()
      modifies this`maxSize, this`index
      ensures Valid() && maxSize == size
      ensures index == map id | id in old(index) && id.num >= Bound() :: old(index)[id]
    {
      hide ItemValid, Identifying;
      maxSize := size;
      if head.None? {
        return;
      }
      var bound := Bound();
      while index != map[]
        invariant maxSize == size
        invariant forall id :: id in old(index) && id.num >= bound ==> id in index
        invariant forall id :: id in index ==> id in old(index) && index[id] == old(index)[id]
        decreases index.Keys
      {
        var first := FirstByNumber();
        if first.num >= bound {
          break;
        }
        index := index - {first};
      }
    }

    /** pop_block: the head steps back if its predecessor is still held, by anyone. */
    method PopBlock(held: seq<nat>) returns (ok: bool)
      requires Valid()
      modifies this`head
      ensures Valid()
      ensures ok <==> old(head).Some? && items[old(head).value].prev.Some?
                      && (Alive(items, index, old(head), items[old(head).value].prev.value)
                        || items[old(head).value].prev.value in held)
      ensures head == if ok then items[old(head).value].prev else old(head)
    {
      if head.None? {
        return false;
      }
      assert ItemValid(items, blockOf, head.value);
      var prev := items[head.value].prev;
      if prev.None? || !(prev.value in held
          || (items[prev.value].block.id in index && index[items[prev.value].block.id] == prev.value)) {
        return false;
      }
      head := prev;
      ok := true;
    }

    method Remove(id: Id)
      requires Valid()
      modifies this`index
      ensures Valid() && index == old(index) - {id}
    {
      index := index - {id};
    }

    method SetHead(s: nat)
      requires Valid() && s < |items|
      modifies this`head
      ensures Valid() && head == Some(s)
    {
      head := Some(s);
    }

    /** Climbs from item s to number n, as far as the references can be followed. */
    method ClimbTo(s: nat, n: nat) returns (ok: bool, path: seq<nat>, top: nat)
      requires Valid() && s < |items| && n > 0
      ensures ok ==> top < |items| && Climb(items, index, head, path + [top]) && (path + [top])[0] == s
      ensures ok ==> items[top].block.id.num == if items[s].block.id.num <= n then items[s].block.id.num else n
      ensures ok ==> |path| == items[s].block.id.num - items[top].block.id.num
      ensures ok ==> Follows(items, index, head, s, top)
      ensures !ok ==> forall m: nat :: m <= n ==> !Climbable(items, index, head, s, m)
    {
      path, top := [], s;
      assert ItemValid(items, blockOf, s);
      while items[top].block.id.num > n
        invariant top < |items|
        invariant Climb(items, index, head, path + [top]) && (path + [top])[0] == s
        invariant items[s].block.id.num > n ==> items[top].block.id.num >= n
        invariant |path| == items[s].block.id.num - items[top].block.id.num
        invariant items[s].block.id.num <= n ==> top == s
        invariant Follows(items, index, head, s, top)
        decreases top
      {
        assert ItemValid(items, blockOf, top);
        var next := Lock(items, index, head, top);
        if next.None? {
          return false, path, top;
        }
        FollowsStep(items, index, head, blockOf, s, top);
        ClimbStep(items, index, head, path, top, next.value);
        path, top := path + [top], next.value;
      }
      ok := true;
    }

    /** Climbs two branches in step until their next block is the same. */
    method ClimbTogether(a0: seq<nat>, b0: seq<nat>, x0: nat, y0: nat) returns (ok: bool, a: seq<nat>, b: seq<nat>)
      requires Valid() && x0 < |items| && y0 < |items|
      requires items[x0].block.id.num == items[y0].block.id.num
      requires Climb(items, index, head, a0 + [x0]) && Climb(items, index, head, b0 + [y0])
      ensures ok ==> Climb(items, index, head, a) && Climb(items, index, head, b)
      ensures ok ==> a0 + [x0] <= a && b0 + [y0] <= b && |a| - |a0| == |b| - |b0|
      ensures ok ==>
        && items[a[|a| - 1]].block.previous == items[b[|b| - 1]].block.previous
        && Apart(items, a, b, |a0|, |b0|, |a| - 1)
      ensures !ok ==> forall m: nat ::
        m < items[x0].block.id.num
        && At(blockOf, items[x0].block.id, m) == At(blockOf, items[y0].block.id, m) ==>
          !Climbable(items, index, head, x0, m + 1) || !Climbable(items, index, head, y0, m + 1)
    {
      hide Climb, Climbable, At, Identifying, Alive, ItemsValid, Apart, Abreast;
      var x: nat, y: nat := x0, y0;
      a, b := a0, b0;
      AbreastStart(items, index, head, blockOf, a0, b0, x0, y0);
      while items[x].block.previous != items[y].block.previous
        invariant x < |items| && y < |items|
        invariant Abreast(items, index, head, blockOf, a0, b0, x0, y0, a, b, x, y)
        decreases x
      {
        PrevBelow(items, blockOf, x);
        PrevBelow(items, blockOf, y);
        var p, q := Lock(items, index, head, x), Lock(items, index, head, y);
        if p.None? || q.None? {
          AbreastStuck(items, index, head, blockOf, a0, b0, x0, y0, a, b, x, y);
          return false, a, b;
        }
        AbreastStep(items, index, head, blockOf, a0, b0, x0, y0, a, b, x, y);
        a, b, x, y := a + [x], b + [y], p.value, q.value;
      }
      AbreastEnd(items, index, head, blockOf, a0, b0, x0, y0, a, b, x, y);
      a, b, ok := a + [x], b + [y], true;
    }

    /**
      The two branches that lead from two blocks back to the block where they
      part; it fails exactly when a block on the way is no longer held.
     */
    method FetchBranchFrom(first: Id, second: Id) returns (ok: bool, a: seq<nat>, b: seq<nat>)
      requires Valid()
      ensures ok ==> first in index && second in index
      ensures ok ==>
        Climb(items, index, head, a) && Climb(items, index, head, b) && a[0] == index[first] && b[0] == index[second]
      ensures ok ==> |a| <= first.num && |b| <= second.num && first.num - |a| == second.num - |b|
      ensures ok ==> HighestCommon(blockOf, first, second, first.num - |a|)
      ensures ok ==> var n := Parting(blockOf, first, second);
        && n == first.num - |a| == second.num - |b| && n < first.num && n < second.num
        && a == Trail(items, index[first], n) && b == Trail(items, index[second], n)
      ensures ok <==> Meet(items, index, head, blockOf, first, second)
    {
      hide Climb, Climbable, At, Branch, Follows, ItemValid, Identifying, Apart, Alive, HighestCommon, Trail, Parting;
      a, b := [], [];
      if first !in index || second !in index {
        return false, a, b;
      }
      var s, t := index[first], index[second];
      Numbered(items, blockOf, s);
      Numbered(items, blockOf, t);
      var x: nat, y: nat;
      ok, a, x := ClimbTo(s, second.num);
      if !ok {
        return;
      }
      ok, b, y := ClimbTo(t, items[x].block.id.num);
      if !ok {
        return;
      }
      ghost var a0, b0 := a, b;
      ok, a, b := ClimbTogether(a, b, x, y);
      if ok {
        Found(items, index, head, blockOf, a0, b0, x, y, a, b);
        assert MeetAt(items, index, head, blockOf, first, second, first.num - |a|);
        FoundTrails(items, index, head, blockOf, first, second, a, b);
      } else {
        NotFound(items, index, head, blockOf, s, t, a0, b0, x, y);
      }
    }

    /** walk_main_branch_to_num: the head's ancestor with that number, if it can be reached. */
    method WalkMainBranchToNum(num: nat) returns (r: Option<nat>)
      requires Valid() && head.Some?
      ensures r.Some? ==> r.value < |items| && items[r.value].block.id == At(blockOf, items[head.value].block.id, num)
      ensures r.Some? ==> items[r.value].block.id.num == num
      ensures r.Some? <==> num <= items[head.value].block.id.num && Climbable(items, index, head, head.value, num)
    {
      hide Identifying, At;
      if num > items[head.value].block.id.num {
        return None;
      }
      var x := items[head.value].block.id;
      AtItself(blockOf, x);
      var next: nat := head.value;
      while items[next].block.id.num > num
        invariant next < |items| && num <= items[next].block.id.num <= x.num
        invariant items[next].block.id == At(blockOf, x, items[next].block.id.num)
        invariant Climbable(items, index, head, head.value, num) <==> Climbable(items, index, head, next, num)
        decreases next
      {
        assert ItemValid(items, blockOf, next);
        var p := Lock(items, index, head, next);
        if p.None? {
          return None;
        }
        assert ItemValid(items, blockOf, p.value);
        AtPrevious(blockOf, x, items[next].block.id.num);
        AtNumber(blockOf, x, items[next].block.id.num - 1);
        next := p.value;
      }
      r := Some(next);
    }

    /**
      fetch_block_on_main_branch_by_number: with several blocks of that number
      it is the head's ancestor; a lone one is taken as it is.
     */
    method FetchOnMainBranchByNumber(num: nat) returns (r: Option<nat>)
      requires Valid()
      ensures r.Some? ==> r.value < |items| && items[r.value].block.id.num == num
      ensures r.Some? ==>
        && head.Some?
        && (items[r.value].block.id == At(blockOf, items[head.value].block.id, num)
            || forall id :: id in index && id.num == num ==> id == items[r.value].block.id)
      ensures forall id ::
        id in index && id.num == num && (forall other :: other in index && other.num == num ==> other == id)
        ==> r == Some(index[id])
      ensures (forall id :: id in index ==> id.num != num) ==> r == None
    {
      hide ItemsValid, At, Climbable, Alive;
      var ids := set id | id in index && id.num == num;
      assert forall id :: id in index && id.num == num ==> id in ids;
      if ids == {} {
        return None;
      }
      var id :| id in ids;
      if ids == {id} {
        return Some(index[id]);
      }
      assert exists other :: other in ids && other != id;
      r := WalkMainBranchToNum(num);
    }
  }
}
