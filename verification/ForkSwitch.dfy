/**
  Pushing a block and switching forks (_push_block, pop_block in
  libraries/chain/database.cpp) over a stack of chain states: undo is exact,
  applying a block to a state always has the same outcome.
 */
module ForkSwitch {
  import opened Options
  import opened Forks

  /** A chain state: its head block, its last irreversible block, and everything else. */
  datatype State = State(headId: Id, lib: nat, content: nat)

  type Rules = (State, Block) -> Option<State>

  /** A block applies only on top of its predecessor; irreversibility moves forward, up to the head at most. */
  ghost predicate Lawful(apply: Rules)
  {
    forall s, b :: apply(s, b).Some? ==>
      var t := apply(s, b).value;
      s.headId == b.previous && t.headId == b.id && s.lib <= t.lib <= b.id.num
  }

  /** Each state comes from the one before by its own head block. */
  ghost predicate Played(apply: Rules, blockOf: Id -> Block, states: seq<State>)
  {
    forall i :: 0 <= i < |states| - 1 ==> apply(states[i], blockOf(states[i + 1].headId)) == Some(states[i + 1])
  }

  ghost predicate Counted(states: seq<State>)
  {
    |states| > 0 && states[0].headId == NO_BLOCK && forall i :: 0 <= i < |states| ==> states[i].headId.num == i
  }

  /** The heads along a run of states are the ancestors of the last one. */
  lemma {:induction false} HeadsAreAncestors(apply: Rules, blockOf: Id -> Block, states: seq<State>, k: nat)
    requires Identifying(blockOf) && Lawful(apply) && Counted(states) && Played(apply, blockOf, states) && k < |states|
    ensures states[k].headId == At(blockOf, states[|states| - 1].headId, k)
    decreases |states| - k
  {
    if k + 1 < |states| {
      HeadsAreAncestors(apply, blockOf, states, k + 1);
      var x := states[|states| - 1].headId;
      AtPrevious(blockOf, x, k + 1);
      assert apply(states[k], blockOf(states[k + 1].headId)) == Some(states[k + 1]);
    }
  }

  /** Two runs from one state over the same blocks are the same run. */
  lemma {:induction false} SameRun(apply: Rules, blockOf: Id -> Block, s: seq<State>, t: seq<State>, n: nat, k: nat)
    requires Played(apply, blockOf, s) && Played(apply, blockOf, t) && |s| == |t|
    requires n <= k < |s| && s[..n + 1] == t[..n + 1]
    requires forall i :: n <= i < |s| ==> s[i].headId == t[i].headId
    ensures s[k] == t[k]
    decreases k
  {
    if k == n {
      assert s[..n + 1][n] == t[..n + 1][n];
    } else {
      SameRun(apply, blockOf, s, t, n, k - 1);
      assert apply(s[k - 1], blockOf(s[k - 1 + 1].headId)) == Some(s[k - 1 + 1]);
      assert apply(t[k - 1], blockOf(t[k - 1 + 1].headId)) == Some(t[k - 1 + 1]);
    }
  }

  /** After state t, with the fork head at number h, set_max_size leaves this number in the index. */
  ghost predicate Keeps(h: nat, t: State, num: nat)
  {
    num as int >= h - (t.headId.num - t.lib + 1)
  }

  ghost predicate KeptFrom(h: nat, states: seq<State>, n: nat, num: nat)
  {
    forall k :: n <= k < |states| ==> Keeps(h, states[k], num)
  }

  /** What is left of the index after all the states from position n on were reached. */
  ghost predicate Thinned(before: map<Id, nat>, after: map<Id, nat>, h: nat, states: seq<State>, n: nat)
  {
    && (forall id :: id in after <==> id in before && KeptFrom(h, states, n, id.num))
    && (forall id :: id in after ==> after[id] == before[id])
  }

  lemma ThinnedStep(a: map<Id, nat>, b: map<Id, nat>, c: map<Id, nat>, h: nat, states: seq<State>, n: nat, t: State)
    requires Thinned(a, b, h, states, n) && n <= |states|
    requires c == map id | id in b && Keeps(h, t, id.num) :: b[id]
    ensures Thinned(a, c, h, states + [t], n)
  {
    var longer := states + [t];
    forall id
      ensures id in c <==> id in a && KeptFrom(h, longer, n, id.num)
    {
      if id in c {
        forall k | n <= k < |longer|
          ensures Keeps(h, longer[k], id.num)
        {
          assert k < |states| ==> longer[k] == states[k];
        }
      }
      if id in a && KeptFrom(h, longer, n, id.num) {
        assert Keeps(h, longer[|states|], id.num);
        forall k | n <= k < |states|
          ensures Keeps(h, states[k], id.num)
        {
          assert Keeps(h, longer[k], id.num);
        }
      }
    }
  }

  lemma PlayedStep(apply: Rules, blockOf: Id -> Block, states: seq<State>, b: Block)
    requires Identifying(blockOf) && Lawful(apply) && Counted(states) && Played(apply, blockOf, states)
    requires b.id.num > 0 && b == blockOf(b.id) && apply(states[|states| - 1], b).Some?
    ensures Played(apply, blockOf, states + [apply(states[|states| - 1], b).value])
    ensures Counted(states + [apply(states[|states| - 1], b).value])
  {
    var t := apply(states[|states| - 1], b).value;
    var longer := states + [t];
    forall i | 0 <= i < |longer| - 1
      ensures apply(longer[i], blockOf(longer[i + 1].headId)) == Some(longer[i + 1])
    {
      if i < |states| - 1 {
        assert apply(states[i], blockOf(states[i + 1].headId)) == Some(states[i + 1]);
      }
    }
  }

  lemma PlayedPrefix(apply: Rules, blockOf: Id -> Block, states: seq<State>, n: nat)
    requires Counted(states) && Played(apply, blockOf, states) && 0 < n <= |states|
    ensures Played(apply, blockOf, states[..n]) && Counted(states[..n])
  {
    var shorter := states[..n];
    forall i | 0 <= i < |shorter| - 1
      ensures apply(shorter[i], blockOf(shorter[i + 1].headId)) == Some(shorter[i + 1])
    {
      assert apply(states[i], blockOf(states[i + 1].headId)) == Some(states[i + 1]);
    }
  }

  /**
    What the rules make of the branch that ends in newHead, starting from a
    state at number n: the states of its blocks, up to the first one refused.
   */
  ghost function RunOn(apply: Rules, blockOf: Id -> Block, newHead: Id, s: State, n: nat): seq<State>
    requires Identifying(blockOf)
    decreases if n < newHead.num then newHead.num - n else 0
  {
    if n >= newHead.num then []
    else
      var next := apply(s, blockOf(At(blockOf, newHead, n + 1)));
      if next.None? then [] else [next.value] + RunOn(apply, blockOf, newHead, next.value, n + 1)
  }

  /** States along the branch that stop at its end or at a refused block are that run. */
  lemma {:induction false} RunIs(apply: Rules, blockOf: Id -> Block, newHead: Id, states: seq<State>, n: nat)
    requires Identifying(blockOf) && Played(apply, blockOf, states) && n < |states| <= newHead.num + 1
    requires forall k :: n < k < |states| ==> states[k].headId == At(blockOf, newHead, k)
    requires |states| <= newHead.num ==> apply(states[|states| - 1], blockOf(At(blockOf, newHead, |states|))).None?
    ensures RunOn(apply, blockOf, newHead, states[n], n) == states[n + 1..]
    decreases |states| - n
  {
    hide At, Identifying;
    if n + 1 < |states| {
      RunIs(apply, blockOf, newHead, states, n + 1);
      assert apply(states[n], blockOf(states[n + 1].headId)) == Some(states[n + 1]);
      assert states[n + 1..] == [states[n + 1]] + states[n + 2..];
    }
  }

  datatype Outcome =
    | Extended
    | Ignored
    | Switched
    | Refused
    | Restored
    | Broken

  /** A fork switch as it begins: the fork database, the chain, and the branches from where they part. */
  datatype Plan = Plan(
    items: seq<Item>,
    index: map<Id, nat>,
    head: Option<nat>,
    blockOf: Id -> Block,
    apply: Rules,
    all: seq<State>,
    kept: nat,
    newHead: Id,
    first: seq<nat>,
    second: seq<nat>,
    parting: nat)

  ghost function PlanOf(items: seq<Item>, index: map<Id, nat>, head: Option<nat>, blockOf: Id -> Block, apply: Rules,
                        all: seq<State>, kept: nat, newHead: Id): Plan
    requires Identifying(blockOf) && |all| > 0
  {
    var last := all[|all| - 1].headId;
    var n := Parting(blockOf, newHead, last);
    Plan(items, index, head, blockOf, apply, all, kept, newHead,
         if newHead in index then Trail(items, index[newHead], n) else [],
         if last in index then Trail(items, index[last], n) else [], n)
  }

  /** The states that the new branch gives. */
  ghost function Reached(c: Plan): seq<State>
    requires Identifying(c.blockOf) && c.parting < |c.all|
  {
    RunOn(c.apply, c.blockOf, c.newHead, c.all[c.parting], c.parting)
  }

  /** Every block of the new branch applies. */
  ghost predicate Complete(c: Plan)
    requires Identifying(c.blockOf) && c.parting < |c.all|
  {
    c.parting + |Reached(c)| >= c.newHead.num
  }

  /**
    The states above number n can be popped one by one: each head block is in
    the index, and so is, or is held, the predecessor of the fork head, which
    steps back with every pop.
   */
  ghost predicate CanPop(items: seq<Item>, index: map<Id, nat>, held: seq<nat>, states: seq<State>, head: Option<nat>,
                         n: nat)
    decreases |states|
  {
    |states| - 1 <= n
    || (&& states[|states| - 1].headId in index
        && head.Some? && head.value < |items| && items[head.value].prev.Some?
        && (Alive(items, index, head, items[head.value].prev.value) || items[head.value].prev.value in held)
        && CanPop(items, index, held, states[..|states| - 1], items[head.value].prev, n))
  }

  /** The old branch can be left: nothing above the parting is committed, and it can be popped. */
  ghost predicate CanLeave(c: Plan)
  {
    c.kept <= c.parting && CanPop(c.items, c.index, c.first + c.second, c.all, c.head, c.parting)
  }

  /** The number of the fork head once the old branch is popped. */
  ghost function Height(c: Plan): nat
  {
    var h := (if c.head.Some? && c.head.value < |c.items| then c.items[c.head.value].block.id.num else 0) - |c.second|;
    if h >= 0 then h else 0
  }

  /** What applying the new branch leaves in the index. */
  ghost function Trimmed(c: Plan): map<Id, nat>
    requires Identifying(c.blockOf) && c.parting < |c.all|
  {
    map id | id in c.index && KeptFrom(Height(c), Reached(c), 0, id.num) :: c.index[id]
  }

  /** The refused block and its successors go too. */
  ghost function Cut(c: Plan): map<Id, nat>
    requires Identifying(c.blockOf) && c.parting < |c.all|
  {
    map id | id in Trimmed(c) && !InTail(c.blockOf, c.newHead, c.parting + |Reached(c)|, id) :: c.index[id]
  }

  /** A block of the new branch numbered above n. */
  ghost predicate InTail(blockOf: Id -> Block, newHead: Id, n: nat, id: Id)
    requires Identifying(blockOf)
  {
    n < id.num <= newHead.num && id == At(blockOf, newHead, id.num)
  }

  /** The oldest revision kept once these states were reached. */
  ghost function CommittedBy(kept: nat, run: seq<State>): nat
  {
    if run != [] && run[|run| - 1].lib > kept then run[|run| - 1].lib else kept
  }

  /** The new branch can be left again after a refusal. */
  ghost predicate CanReturn(c: Plan)
    requires Identifying(c.blockOf) && c.parting < |c.all|
  {
    && CommittedBy(c.kept, Reached(c)) <= c.parting && c.second != []
    && CanPop(c.items, Cut(c), c.first + c.second, c.all[..c.parting + 1] + Reached(c), Some(c.second[0]), c.parting)
  }

  /** What a failed switch leaves in the index: applying the old branch again trims it once more. */
  ghost function Survivors(c: Plan): map<Id, nat>
    requires Identifying(c.blockOf) && c.parting < |c.all|
  {
    map id | id in Cut(c) && KeptFrom(Lowered(c), c.all, c.parting + 1, id.num) :: c.index[id]
  }

  /** The number of the fork head while the old branch is applied again. */
  ghost function Lowered(c: Plan): nat
    requires Identifying(c.blockOf) && c.parting < |c.all|
  {
    if |Reached(c)| < |c.all| then |c.all| - 1 - |Reached(c)| else 0
  }

  /** The item reached by stepping back n times. */
  ghost function Back(items: seq<Item>, head: Option<nat>, n: nat): Option<nat>
    decreases n
  {
    if n == 0 || head.None? || head.value >= |items| then head else Back(items, items[head.value].prev, n - 1)
  }

  /** How many blocks the fork database is to keep after a state was reached. */
  ghost function SizeFor(t: State): nat
  {
    if t.lib <= t.headId.num then t.headId.num - t.lib + 1 else 0
  }

  /** The fork database after a switch: along the new branch, its head stepped back as often as a block was popped. */
  ghost function SwitchedTree(c: Plan): Tree
    requires Identifying(c.blockOf) && c.parting < |c.all| && Reached(c) != []
  {
    Tree(c.items, Trimmed(c), Back(c.items, c.head, |c.second|), SizeFor(Reached(c)[|Reached(c)| - 1]))
  }

  /** The fork database after a failed switch: its head stepped back from the old one for each block that applied. */
  ghost function RestoredTree(c: Plan): Tree
    requires Identifying(c.blockOf) && c.parting < |c.all| && c.second != []
  {
    Tree(c.items, Survivors(c), Back(c.items, Some(c.second[0]), |Reached(c)|), SizeFor(c.all[|c.all| - 1]))
  }

  /** The oldest revision kept after a failed switch. */
  ghost function RestoredKept(c: Plan): nat
    requires Identifying(c.blockOf) && c.parting < |c.all|
  {
    CommittedBy(CommittedBy(c.kept, Reached(c)), c.all)
  }

  /** How a switch one above the chain ends: back again, unless something beyond the parting is committed. */
  ghost function UsualOutcome(c: Plan): Outcome
    requires Identifying(c.blockOf) && c.parting < |c.all|
  {
    if c.kept > c.parting then Broken
    else if Complete(c) then Switched
    else if CommittedBy(c.kept, Reached(c)) > c.parting then Broken
    else Restored
  }

  /** How a switch ends, told from the state it starts in. */
  ghost function SwitchOutcome(c: Plan): Outcome
    requires Identifying(c.blockOf) && |c.all| > 0
  {
    if !Meet(c.items, c.index, c.head, c.blockOf, c.newHead, c.all[|c.all| - 1].headId) || c.parting >= |c.all|
      then Refused
    else if !CanLeave(c) then Broken
    else if Complete(c) then Switched
    else if CanReturn(c) then Restored
    else Broken
  }

  class Chain {
    const fork: ForkDatabase
    const apply: Rules
    /** Every state since genesis; those from revision oldest on can be undone to. */
    var states: seq<State>
    var oldest: nat

    ghost predicate Valid()
      reads this, fork
    {
      && fork.Valid() && Lawful(apply)
      && Counted(states) && Played(apply, fork.blockOf, states)
      && oldest < |states|
    }

    function Head(): Id
      requires |states| > 0
      reads this
    {
      states[|states| - 1].headId
    }

    ghost function PlanFor(newHead: Id): Plan
      requires Valid()
      reads this, fork
    {
      PlanOf(fork.items, fork.index, fork.head, fork.blockOf, apply, states, oldest, newHead)
    }

    constructor (fork: ForkDatabase, apply: Rules, genesis: State)
      requires fork.Valid() && Lawful(apply) && genesis.headId == NO_BLOCK
      ensures Valid() && this.fork == fork && this.apply == apply && states == [genesis] && oldest == 0
    {
      this.fork, this.apply, states, oldest := fork, apply, [genesis], 0;
    }

    /** apply_block inside its undo session: commits what became irreversible and trims the fork database. */
    method ApplyBlock(b: Block) returns (ok: bool)
      requires Valid() && b.id.num > 0 && b == fork.blockOf(b.id)
      requires fork.head.Some?
      modifies this, fork`maxSize, fork`index
      ensures Valid()
      ensures ok <==> apply(old(states)[|old(states)| - 1], b).Some?
      ensures !ok ==>
        && states == old(states)
        && oldest == old(oldest)
        && fork.index == old(fork.index)
        && fork.maxSize == old(fork.maxSize)
      ensures ok ==> states == old(states) + [apply(old(states)[|old(states)| - 1], b).value]
      ensures ok ==> var t := states[|states| - 1];
        && oldest == (if t.lib > old(oldest) then t.lib else old(oldest)) && fork.maxSize == SizeFor(t)
        && fork.index == map id | id in old(fork.index)
          && Keeps(fork.items[fork.head.value].block.id.num, t, id.num) :: old(fork.index)[id]
    {
      var result := apply(states[|states| - 1], b);
      if result.None? {
        return false;
      }
      var t := result.value;
      PlayedStep(apply, fork.blockOf, states, b);
      assert states[|states| - 1].headId == b.previous && t.headId == b.id && t.lib <= b.id.num;
      hide Played, ItemsValid, Lawful;
      states := states + [t];
      if t.lib > oldest {
        oldest := t.lib;
      }
      fork.SetMaxSize(t.headId.num - t.lib + 1);
      ok := true;
    }

    /** pop_block: needs the head block and its predecessor to be around; undo does nothing on committed states. */
    method PopBlock(held: seq<nat>) returns (ok: bool)
      requires Valid()
      modifies this`states, fork`head
      ensures Valid()
      ensures ok <==> old(Head()) in fork.index && old(fork.head).Some? && fork.items[old(fork.head).value].prev.Some?
                      && (Alive(fork.items, fork.index, old(fork.head), fork.items[old(fork.head).value].prev.value)
                          || fork.items[old(fork.head).value].prev.value in held)
      ensures !ok ==> states == old(states) && fork.head == old(fork.head)
      ensures ok ==> fork.head == fork.items[old(fork.head).value].prev && fork.head.value < old(fork.head).value
      ensures ok ==> states == if |old(states)| - 1 > oldest then old(states)[..|old(states)| - 1] else old(states)
    {
      hide ItemsValid, Played, Lawful, Counted, Alive;
      CountedNonempty(states);
      if Head() !in fork.index {
        return false;
      }
      if fork.head.Some? {
        PrevEarlier(fork.items, fork.blockOf, fork.head.value);
      }
      ok := fork.PopBlock(held);
      if ok && |states| - 1 > oldest {
        PlayedPrefix(apply, fork.blockOf, states, |states| - 1);
        states := states[..|states| - 1];
      }
    }

    /** pop_block until the head is the block of state n. */
    method PopTo(n: nat, held: seq<nat>) returns (ok: bool)
      requires Valid() && n < |states| && fork.head.Some?
      modifies this`states, fork`head
      ensures Valid()
      ensures ok <==> oldest <= n && CanPop(fork.items, fork.index, held, old(states), old(fork.head), n)
      ensures ok ==> states == old(states)[..n + 1]
      ensures ok ==> fork.head.Some? && fork.head.value < |fork.items|
      ensures ok ==> fork.head == Back(fork.items, old(fork.head), |old(states)| - 1 - n)
      ensures ok ==>
        fork.items[fork.head.value].block.id.num
          == fork.items[old(fork.head).value].block.id.num - (|old(states)| - 1 - n)
    {
      hide ItemsValid, Played, Lawful, Counted, Alive;
      var all := states;
      HeadNumber(states);
      while Head() != all[n].headId
        invariant Valid() && states <= all && |states| > 0
        invariant fork.head.Some? && fork.head.value < |fork.items|
        invariant oldest <= n ==> n < |states|
        invariant oldest <= n ==>
          fork.items[fork.head.value].block.id.num == fork.items[old(fork.head).value].block.id.num - (|all| - |states|)
        invariant oldest <= n ==>
          Back(fork.items, old(fork.head), |all| - 1 - n) == Back(fork.items, fork.head, |states| - 1 - n)
        invariant oldest <= n ==>
          (CanPop(fork.items, fork.index, held, all, old(fork.head), n)
           <==> CanPop(fork.items, fork.index, held, states, fork.head, n))
        decreases fork.head.value
      {
        PopsLeft(all, states, n);
        if fork.items[fork.head.value].prev.Some? {
          PrevNumber(fork.items, fork.blockOf, fork.head.value);
        }
        ok := PopBlock(held);
        if !ok {
          return;
        }
        HeadNumber(states);
      }
      HeadOnce(all, states, n);
      ok := true;
    }

    /** Applies the blocks of a branch from its far end on, until one is refused. */
    method ApplyPath(path: seq<nat>) returns (done: nat)
      requires Valid() && fork.head.Some? && Branch(fork.items, path)
      modifies this, fork`maxSize, fork`index
      ensures Valid()
      ensures done <= |path| && |states| == |old(states)| + done && old(states) <= states
      ensures HeadsAlong(fork.items, path, states, |old(states)|)
      ensures done < |path| ==> Refuses(fork.items, apply, states, path, done)
      ensures oldest == Committed(old(oldest), states, done)
      ensures |states| > 0 && fork.maxSize == if done > 0 then SizeFor(states[|states| - 1]) else old(fork.maxSize)
      ensures Thinned(old(fork.index), fork.index, fork.items[fork.head.value].block.id.num, states, |old(states)|)
    {
      hide Thinned, Played, Lawful, Counted, ItemsValid, HeadsAlong, Branch, Refuses, Keeps;
      ghost var before, start := fork.index, states;
      ghost var h := fork.items[fork.head.value].block.id.num;
      CountedNonempty(states);
      ThinnedStart(before, h, states);
      HeadsStart(fork.items, path, states);
      done := 0;
      while done < |path|
        invariant Valid()
        invariant done <= |path| && |states| == |start| + done && start <= states
        invariant HeadsAlong(fork.items, path, states, |start|)
        invariant oldest == Committed(old(oldest), states, done)
        invariant |states| > 0 && fork.maxSize == if done > 0 then SizeFor(states[|states| - 1]) else old(fork.maxSize)
        invariant Thinned(before, fork.index, h, states, |start|)
      {
        BranchItem(fork.items, fork.blockOf, path, |path| - 1 - done);
        var b := fork.items[Nth(path, done)].block;
        ghost var between, from := fork.index, states;
        CountedNonempty(states);
        var ok := ApplyBlock(b);
        if !ok {
          RefusesNow(fork.items, apply, states, path, done);
          return;
        }
        LibGrows(apply, from[|from| - 1], b);
        HeadsStep(fork.items, path, from, states, |start|);
        ThinnedStep(before, between, fork.index, h, from, |start|, states[|states| - 1]);
        done := done + 1;
      }
    }

    /** Drops the first count items of a branch from the index. */
    method RemoveAll(path: seq<nat>, count: nat)
      requires fork.Valid() && count <= |path| && (forall i :: 0 <= i < |path| ==> path[i] < |fork.items|)
      modifies fork`index
      ensures fork.Valid()
      ensures fork.index == map id | id in old(fork.index)
        && !OnPart(fork.items, path, count, id) :: old(fork.index)[id]
    {
      hide ItemsValid;
      var i := count;
      while i > 0
        invariant 0 <= i <= count && fork.Valid()
        invariant forall id :: id in fork.index <==>
          id in old(fork.index) && !OnPart(fork.items, path[i..], count - i, id)
        invariant forall id :: id in fork.index ==> fork.index[id] == old(fork.index)[id]
      {
        i := i - 1;
        PartStep(fork.items, path, i, count);
        fork.Remove(fork.items[path[i]].block.id);
      }
      assert path[0..] == path;
    }

    /**
      Leaves the current branch for the one that ends in newHead, or comes back.
      How it ends, and what is left, is a matter of the state it starts in.
     */
    method SwitchFork(newHead: Id) returns (outcome: Outcome)
      requires Valid() && fork.head.Some? && newHead.num >= |states|
      modifies this, fork
      ensures Valid() && fork.items == old(fork.items)
      ensures outcome == SwitchOutcome(old(PlanFor(newHead)))
      ensures !outcome.Refused? ==> Setting(old(PlanFor(newHead)))
      ensures outcome.Refused? ==> states == old(states) && oldest == old(oldest) && TreeNow() == old(TreeNow())
      ensures outcome.Switched? ==> var c := old(PlanFor(newHead));
        && c.parting < |c.all| && Reached(c) != [] && states == c.all[..c.parting + 1] + Reached(c)
        && |states| == newHead.num + 1 && Head() == newHead
        && TreeNow() == SwitchedTree(c) && oldest == CommittedBy(c.kept, Reached(c))
        && fork.head.Some? && fork.head.value < |fork.items| && fork.items[fork.head.value].block.id.num == Height(c)
      ensures outcome.Restored? ==> var c := old(PlanFor(newHead));
        && c.parting < |c.all| && c.second != [] && states == old(states)
        && TreeNow() == RestoredTree(c) && oldest == RestoredKept(c)
    {
      hide Played, Lawful, ItemsValid, Branch, Alive, At, Climb, HighestCommon, Identifying, Thinned, Refuses, Setting,
        HeadsAlong, OnPart, CanPop, Parting, Trail, Meet, Reached, Cut, Survivors, Trimmed, CommittedBy, KeptFrom;
      HeadNumber(states);
      ghost var c := PlanFor(newHead);
      var found, first, second := fork.FetchBranchFrom(newHead, Head());
      if !found {
        return Refused;
      }
      MakeSetting(fork, c);
      Basics(c);
      PartingFacts(c);
      var n := Head().num - |second|;
      var ok := PopTo(n, first + second);
      if !ok {
        return Broken;
      }
      ghost var start := states;
      var done := ApplyPath(first);
      AfterFirst(c, start, states, done, fork.index, oldest);
      if done == |first| {
        return Switched;
      }
      outcome := Return(n, first, second, done, c);
    }

    /** The way back after a block of the new branch was refused. */
    method Return(n: nat, first: seq<nat>, second: seq<nat>, done: nat, ghost c: Plan) returns (outcome: Outcome)
      requires Valid() && Setting(c) && c.items == fork.items && c.blockOf == fork.blockOf && c.apply == apply
      requires c.first == first && c.second == second && c.parting == n < |c.all| && second != []
      requires second[0] < |fork.items|
      requires Identifying(c.blockOf) && done == |Reached(c)| < |first|
      requires states == c.all[..n + 1] + Reached(c) && fork.index == Trimmed(c)
      requires oldest == CommittedBy(c.kept, Reached(c))
      modifies this, fork
      ensures Valid() && fork.items == old(fork.items)
      ensures outcome == if CanReturn(c) then Restored else Broken
      ensures outcome.Restored? ==> states == c.all && TreeNow() == RestoredTree(c) && oldest == RestoredKept(c)
    {
      hide Played, Lawful, Counted, ItemsValid, Branch, Alive, At, Climb, Identifying, Thinned, Refuses, Setting,
        HeadsAlong,
        OnPart, CanPop, Reached, Cut, Survivors, Trimmed, CommittedBy, InTail, KeptFrom, Lowered;
      Basics(c);
      RemoveAll(first, |first| - done);
      CutIs(c, fork.index);
      fork.SetHead(second[0]);
      var ok := PopTo(n, first + second);
      if !ok {
        return Broken;
      }
      assert states == c.all[..n + 1];
      var redone := ApplyPath(second);
      RestoreCannotFail(c, states, redone);
      SurvivorsAre(c, fork.index, fork.items[fork.head.value].block.id.num);
      KeptIs(c, states, redone);
      outcome := Restored;
    }

    ghost function TreeNow(): Tree
      reads fork
    {
      Tree(fork.items, fork.index, fork.head, fork.maxSize)
    }

    /** The state that every push but a refused or restored one keeps. */
    ghost predicate Anchored()
      reads this, fork
    {
      AnchoredIn(TreeNow(), states, oldest)
    }

    /** _push_block: the block extends the head, or makes another branch the longest one, or waits. */
    method PushBlock(b: Block) returns (outcome: Outcome)
      requires Valid() && b.id.num > 0 && b == fork.blockOf(b.id)
      modifies this, fork
      ensures Valid()
      ensures outcome == old(PushOutcome(TreeNow(), fork.blockOf, apply, states, oldest, b))
      ensures outcome.Extended? ==> var t := apply(old(states)[|old(states)| - 1], b).value;
        && states == old(states) + [t] && Head() == b.id && oldest == CommittedBy(old(oldest), [t])
        && TreeNow() == ExtendedTree(Pushed(old(TreeNow()), b), t)
      ensures outcome.Ignored? ==>
        states == old(states) && oldest == old(oldest) && TreeNow() == Pushed(old(TreeNow()), b)
      ensures outcome.Refused? ==>
        && states == old(states) && oldest == old(oldest)
        && TreeNow() == RefusedTree(old(TreeNow()), old(states)[|old(states)| - 1].headId, b)
      ensures outcome.Switched? ==>
        var c := PlanAfter(old(TreeNow()), fork.blockOf, apply, old(states), old(oldest), b);
        && c.parting < |c.all| && Reached(c) != [] && states == old(states)[..c.parting + 1] + Reached(c)
        && Head() == NewHead(Pushed(old(TreeNow()), b)).id
        && TreeNow() == SwitchedTree(c) && oldest == CommittedBy(c.kept, Reached(c))
      ensures outcome.Restored? ==>
        var c := PlanAfter(old(TreeNow()), fork.blockOf, apply, old(states), old(oldest), b);
        && c.parting < |c.all| && c.second != [] && states == old(states)
        && TreeNow() == RestoredTree(c) && oldest == RestoredKept(c)
      ensures old(Anchored()) && b.previous != NO_BLOCK && outcome in {Extended, Ignored, Switched} ==> Anchored()
      ensures old(|states| == 1 && fork.index == map[] && fork.head == None) && outcome.Extended? ==> Anchored()
      ensures old(Anchored()) && (outcome.Switched? || outcome.Restored? || outcome.Broken?) ==>
        var c := PlanAfter(old(TreeNow()), fork.blockOf, apply, old(states), old(oldest), b);
        && NewHead(Pushed(old(TreeNow()), b)) == b && b.id.num == |old(states)| && c.parting < |c.all|
        && (c.parting > 0 ==> outcome == UsualOutcome(c))
    {
      hide Played, Lawful, ItemsValid, Alive, Identifying, AnchoredIn, Accepts, SwitchOutcome, Reached, Survivors,
        Setting, CommittedBy, Complete, Neat, Pushed, Parting, Trail, UsualOutcome, Trimmed, Counted, Height,
        SwitchedTree,
        RestoredTree, RestoredKept, ExtendedTree;
      ghost var t := TreeNow();
      HeadNumber(states);
      var pushed := PushToTree(b);
      if !pushed {
        return Refused;
      }
      var newHead := fork.items[fork.head.value].block;
      if newHead.previous != Head() {
        if newHead.id.num > Head().num {
          outcome := SwitchTo(b, newHead.id, t);
        } else {
          if AnchoredIn(t, states, oldest) && b.previous != NO_BLOCK {
            AnchoredPushed(t, fork.blockOf, states, oldest, b);
          }
          outcome := Ignored;
        }
      } else {
        outcome := ExtendTo(b, t);
      }
    }

    method PushToTree(b: Block) returns (pushed: bool)
      requires Valid() && b.id.num > 0 && b == fork.blockOf(b.id)
      modifies fork
      ensures Valid() && pushed == Accepts(old(TreeNow()), b)
      ensures TreeNow() == if pushed then Pushed(old(TreeNow()), b) else old(TreeNow())
      ensures pushed ==> fork.head.Some?
    {
      hide Played, Lawful, ItemsValid, Counted, Accepts, Pushed;
      ghost var t := TreeNow();
      pushed := fork.PushBlock(b);
      AcceptsIs(t, b, pushed);
      if pushed {
        PushedIs(t, TreeNow(), b);
      }
    }

    /** The branch of _push_block that switches forks. */
    method SwitchTo(b: Block, newHead: Id, ghost t: Tree) returns (outcome: Outcome)
      requires Valid() && b.id.num > 0 && b == fork.blockOf(b.id) && TreeNow() == Pushed(t, b)
      requires TreeValid(t, fork.blockOf)
      requires fork.head.Some? && newHead == NewHead(TreeNow()).id && newHead.num >= |states| && Accepts(t, b)
      modifies this, fork
      ensures Valid()
      ensures outcome == SwitchOutcome(old(PlanFor(newHead))) && !outcome.Extended? && !outcome.Ignored?
      ensures outcome.Refused? ==> states == old(states) && oldest == old(oldest) && TreeNow() == old(TreeNow())
      ensures outcome.Switched? ==> var c := old(PlanFor(newHead));
        && c.parting < |c.all| && Reached(c) != [] && states == c.all[..c.parting + 1] + Reached(c) && Head() == newHead
        && TreeNow() == SwitchedTree(c) && oldest == CommittedBy(c.kept, Reached(c))
      ensures outcome.Restored? ==> var c := old(PlanFor(newHead));
        && c.parting < |c.all| && c.second != [] && states == old(states)
        && TreeNow() == RestoredTree(c) && oldest == RestoredKept(c)
      ensures AnchoredIn(t, old(states), old(oldest)) && b.previous != NO_BLOCK && outcome.Switched? ==> Anchored()
      ensures AnchoredIn(t, old(states), old(oldest)) && !outcome.Refused? ==>
        var c := old(PlanFor(newHead));
        NewHead(Pushed(t, b)) == b && b.id.num == |old(states)| && c.parting < |c.all|
          && (c.parting > 0 ==> outcome == UsualOutcome(c))
    {
      hide Played, Lawful, ItemsValid, Alive, Identifying, AnchoredIn, Accepts, Reached, Survivors, Setting,
        CommittedBy, Complete,
        Neat, Pushed, Trimmed, Counted, Height, CanLeave, CanReturn, Meet, Parting, Trail, RestoredTree, RestoredKept;
      ghost var c := PlanFor(newHead);
      HeadNumber(states);
      ghost var anchored := AnchoredIn(t, states, oldest);
      if anchored {
        AnchoredHead(t, fork.blockOf, states, oldest, b);
        if b.previous != NO_BLOCK {
          AnchoredPushed(t, fork.blockOf, states, oldest, b);
        }
      }
      outcome := SwitchFork(newHead);
      if anchored && !outcome.Refused? {
        AnchoredSwitch(t, c, b);
        if outcome.Switched? && b.previous != NO_BLOCK {
          AnchoredSwitched(t, c, b, TreeNow(), states, oldest);
        }
      }
    }

    /** The branch of _push_block that extends the chain. */
    method ExtendTo(b: Block, ghost t: Tree) returns (outcome: Outcome)
      requires Valid() && b.id.num > 0 && b == fork.blockOf(b.id) && TreeNow() == Pushed(t, b)
      requires TreeValid(t, fork.blockOf)
      requires fork.head.Some? && NewHead(TreeNow()).previous == Head() && Accepts(t, b)
      modifies this, fork
      ensures Valid()
      ensures outcome == if apply(old(states)[|old(states)| - 1], b).Some? then Extended else Refused
      ensures outcome.Extended? ==> var s := apply(old(states)[|old(states)| - 1], b).value;
        && states == old(states) + [s] && Head() == b.id && oldest == CommittedBy(old(oldest), [s])
        && TreeNow() == ExtendedTree(Pushed(t, b), s)
      ensures outcome.Refused? ==>
        && states == old(states) && oldest == old(oldest)
        && TreeNow() == Pushed(t, b).(index := Pushed(t, b).index - {b.id})
      ensures AnchoredIn(t, old(states), old(oldest)) && b.previous != NO_BLOCK && outcome.Extended? ==> Anchored()
      ensures |old(states)| == 1 && t.index == map[] && t.head == None && outcome.Extended? ==> Anchored()
    {
      hide Played, Lawful, ItemsValid, Alive, Identifying, AnchoredIn, Accepts, Neat, Counted, Keeps, Pushed;
      ghost var last, u, before, kept := states[|states| - 1], TreeNow(), states, oldest;
      HeadNumber(states);
      BlockNumbers(fork.items, fork.blockOf, b);
      HeadBlockNumber(u, fork.blockOf);
      var ok := ApplyBlock(b);
      if ok {
        LibGrows(apply, last, b);
        AppliesNext(apply, last, b);
        ExtensionAnchored(t, u, fork.blockOf, b, before, kept, TreeNow(), states[|states| - 1], oldest);
        outcome := Extended;
      } else {
        fork.Remove(b.id);
        outcome := Refused;
      }
    }
  }

  // ---- Pushing a block ----

  datatype Tree = Tree(items: seq<Item>, index: map<Id, nat>, head: Option<nat>, maxSize: nat)

  ghost predicate TreeValid(t: Tree, blockOf: Id -> Block)
  {
    && ItemsValid(t.items, blockOf)
    && (forall id :: id in t.index ==> t.index[id] < |t.items| && t.items[t.index[id]].block.id == id)
    && (t.head.Some? ==> t.head.value < |t.items|)
    && (t.index != map[] ==> t.head.Some?)
  }

  ghost function HeadNum(t: Tree): nat
  {
    if t.head.Some? && t.head.value < |t.items| then t.items[t.head.value].block.id.num else 0
  }

  /** The fork database takes the block: recent enough, and linked. */
  ghost predicate Accepts(t: Tree, b: Block)
  {
    t.head.None?
    || (b.id.num > (if HeadNum(t) <= t.maxSize then 0 else HeadNum(t) - t.maxSize)
      && (b.previous == NO_BLOCK || b.previous in t.index))
  }

  /** The fork database with the block in it. */
  ghost function Pushed(t: Tree, b: Block): Tree
  {
    var prev := if t.head.Some? && b.previous != NO_BLOCK
      && b.previous in t.index then Some(t.index[b.previous]) else None;
    Tree(t.items + [Item(b, prev)],
         if b.id in t.index then t.index else t.index[b.id := |t.items|],
         if t.head.Some? && b.id.num <= HeadNum(t) then t.head else Some(|t.items|),
         t.maxSize)
  }

  /** The fork database after its new head block was applied. */
  ghost function ExtendedTree(u: Tree, t: State): Tree
  {
    Tree(u.items, map id | id in u.index && Keeps(HeadNum(u), t, id.num) :: u.index[id], u.head, SizeFor(t))
  }

  /**
    The fork database after a refused push: it did not take the block, or its head does not
    meet the chain, or the block was taken out of the index again. The fork head stays.
   */
  ghost function RefusedTree(t: Tree, head: Id, b: Block): Tree
  {
    var u := Pushed(t, b);
    if !Accepts(t, b) then t
    else if NewHead(u).previous != head then u
    else u.(index := u.index - {b.id})
  }

  /** The head block of the fork database. */
  ghost function NewHead(t: Tree): Block
  {
    if t.head.Some? && t.head.value < |t.items| then t.items[t.head.value].block else Block(NO_BLOCK, NO_BLOCK)
  }

  /** The switch that a pushed block sets off. */
  ghost function PlanAfter(t: Tree, blockOf: Id -> Block, apply: Rules, states: seq<State>, oldest: nat, b: Block): Plan
    requires Identifying(blockOf) && |states| > 0
  {
    var u := Pushed(t, b);
    PlanOf(u.items, u.index, u.head, blockOf, apply, states, oldest, NewHead(u).id)
  }

  /** How a push ends, told from the state it starts in. */
  ghost function PushOutcome(t: Tree, blockOf: Id -> Block, apply: Rules, states: seq<State>, oldest: nat,
                             b: Block): Outcome
    requires Identifying(blockOf) && |states| > 0
  {
    var last := states[|states| - 1];
    var h := NewHead(Pushed(t, b));
    if !Accepts(t, b) then Refused
    else if h.previous != last.headId then
      if h.id.num > last.headId.num then SwitchOutcome(PlanAfter(t, blockOf, apply, states, oldest, b)) else Ignored
    else if apply(last, b).Some? then Extended
    else Refused
  }

  lemma BlockNumbers(items: seq<Item>, blockOf: Id -> Block, b: Block)
    requires ItemsValid(items, blockOf) && b.id.num > 0 && b == blockOf(b.id)
    ensures b.previous.num + 1 == b.id.num
  {
  }

  lemma HeadBlockNumber(t: Tree, blockOf: Id -> Block)
    requires TreeValid(t, blockOf) && t.head.Some?
    ensures NewHead(t).previous.num + 1 == NewHead(t).id.num == HeadNum(t)
  {
    assert ItemValid(t.items, blockOf, t.head.value);
  }

  lemma AppliesNext(apply: Rules, s: State, b: Block)
    requires Lawful(apply) && apply(s, b).Some?
    ensures s.headId == b.previous
  {
  }

  lemma AcceptsIs(t: Tree, b: Block, pushed: bool)
    requires t.head.Some? ==> t.head.value < |t.items|
    requires t.head.None? ==> pushed
    requires t.head.Some? ==>
      var num := t.items[t.head.value].block.id.num;
      pushed == (b.id.num > (if num <= t.maxSize then 0 else num - t.maxSize)
        && (b.previous == NO_BLOCK || b.previous in t.index))
    ensures pushed == Accepts(t, b)
  {
  }

  lemma PushedIs(t: Tree, u: Tree, b: Block)
    requires t.head.Some? ==> t.head.value < |t.items|
    requires Accepts(t, b) && |u.items| == |t.items| + 1 && u.items[..|t.items|] == t.items
    requires u.items[|t.items|].block == b
    requires u.items[|t.items|].prev == if t.head.Some?
      && b.previous != NO_BLOCK then Some(t.index[b.previous]) else None
    requires u.index == if b.id in t.index then t.index else t.index[b.id := |t.items|]
    requires u.head == if t.head.Some?
      && b.id.num <= t.items[t.head.value].block.id.num then t.head else Some(|t.items|)
    requires u.maxSize == t.maxSize
    ensures u == Pushed(t, b)
  {
    assert u.items == t.items + [u.items[|t.items|]];
  }

  /**
    Every indexed block refers to the very item that is indexed for its
    predecessor; only the lowest blocks have a predecessor that is not indexed.
   */
  ghost predicate Neat(items: seq<Item>, index: map<Id, nat>)
  {
    forall x :: x in index ==> NeatAt(items, index, x)
  }

  ghost predicate NeatAt(items: seq<Item>, index: map<Id, nat>, x: Id)
    requires x in index
  {
    && index[x] < |items|
    && var it := items[index[x]];
       if it.block.previous in index then it.prev == Some(index[it.block.previous])
       else x.num == 1 || forall y :: y in index ==> x.num <= y.num
  }

  /**
    No block is above the chain's, the fork head included, and the chain's own from the oldest
    revision on are indexed.
   */
  ghost predicate AnchoredIn(t: Tree, states: seq<State>, oldest: nat)
  {
    && |states| > 1 && t.head.Some? && t.head.value < |t.items| && HeadNum(t) < |states|
    && (forall id :: id in t.index ==> id.num < |states|)
    && (forall k :: 1 <= k < |states| && oldest <= k ==> states[k].headId in t.index)
    && Neat(t.items, t.index)
  }

  ghost predicate Setting(c: Plan)
  {
    && ItemsValid(c.items, c.blockOf) && Lawful(c.apply) && Counted(c.all) && Played(c.apply, c.blockOf, c.all)
    && (forall id :: id in c.index ==> c.index[id] < |c.items| && c.items[c.index[id]].block.id == id)
    && Climb(c.items, c.index, c.head, c.first) && Climb(c.items, c.index, c.head, c.second)
    && c.newHead in c.index && c.first[0] == c.index[c.newHead]
    && c.all[|c.all| - 1].headId in c.index && c.second[0] == c.index[c.all[|c.all| - 1].headId]
    && |c.first| == c.newHead.num - c.parting && |c.second| == |c.all| - 1 - c.parting
  }

  /** The item that comes k-th when a branch is read from its far end. */
  function Nth(path: seq<nat>, k: nat): nat
    requires k < |path|
  {
    path[|path| - 1 - k]
  }

  /** The states from position n on have the blocks of the branch as their heads. */
  ghost predicate HeadsAlong(items: seq<Item>, path: seq<nat>, states: seq<State>, n: nat)
  {
    forall k :: n <= k < |states| ==> HeadAt(items, path, states, n, k)
  }

  ghost predicate HeadAt(items: seq<Item>, path: seq<nat>, states: seq<State>, n: nat, k: nat)
    requires n <= k < |states|
  {
    k - n < |path| && Nth(path, k - n) < |items| && states[k].headId == items[Nth(path, k - n)].block.id
  }

  lemma HeadsStart(items: seq<Item>, path: seq<nat>, states: seq<State>)
    ensures HeadsAlong(items, path, states, |states|)
  {
  }

  lemma HeadsStep(items: seq<Item>, path: seq<nat>, before: seq<State>, after: seq<State>, n: nat)
    requires HeadsAlong(items, path, before, n) && n <= |before| && |before| - n < |path|
    requires |after| == |before| + 1 && before <= after
    requires Nth(path, |before| - n) < |items| && after[|before|].headId == items[Nth(path, |before| - n)].block.id
    ensures HeadsAlong(items, path, after, n)
  {
    forall k | n <= k < |after|
      ensures HeadAt(items, path, after, n, k)
    {
      assert k < |before| ==> HeadAt(items, path, before, n, k) && after[k] == before[k];
    }
  }

  /** The branch's next block does not apply to the last state. */
  ghost predicate Refuses(items: seq<Item>, apply: Rules, states: seq<State>, path: seq<nat>, done: nat)
  {
    |states| > 0 && done < |path| && Nth(path, done) < |items|
      && apply(states[|states| - 1], items[Nth(path, done)].block).None?
  }

  lemma RefusesNow(items: seq<Item>, apply: Rules, states: seq<State>, path: seq<nat>, done: nat)
    requires |states| > 0 && done < |path| && Nth(path, done) < |items|
    requires apply(states[|states| - 1], items[Nth(path, done)].block).None?
    ensures Refuses(items, apply, states, path, done)
  {
  }

  /** The oldest revision kept once the last of done states was reached. */
  ghost function Committed(oldest: nat, states: seq<State>, done: nat): nat
  {
    if done > 0 && |states| > 0 && states[|states| - 1].lib > oldest then states[|states| - 1].lib else oldest
  }

  lemma BranchItem(items: seq<Item>, blockOf: Id -> Block, path: seq<nat>, i: nat)
    requires ItemsValid(items, blockOf) && Branch(items, path) && i < |path|
    ensures path[i] < |items|
    ensures items[path[i]].block.id.num > 0 && items[path[i]].block == blockOf(items[path[i]].block.id)
  {
    assert ItemValid(items, blockOf, path[i]);
  }

  lemma ThinnedStart(index: map<Id, nat>, h: nat, states: seq<State>)
    ensures Thinned(index, index, h, states, |states|)
  {
  }

  lemma LibGrows(apply: Rules, s: State, b: Block)
    requires Lawful(apply) && apply(s, b).Some?
    ensures s.lib <= apply(s, b).value.lib <= b.id.num && apply(s, b).value.headId == b.id
  {
  }

  /** One of the first count items of path has this id. */
  ghost predicate OnPart(items: seq<Item>, path: seq<nat>, count: nat, id: Id)
  {
    exists i :: 0 <= i < count && i < |path| && path[i] < |items| && items[path[i]].block.id == id
  }

  lemma PartStep(items: seq<Item>, path: seq<nat>, i: nat, count: nat)
    requires i < count <= |path| && path[i] < |items|
    ensures forall id {:trigger OnPart(items, path[i..], count - i, id)} :: OnPart(items, path[i..], count - i, id) <==>
              id == items[path[i]].block.id || OnPart(items, path[i + 1..], count - i - 1, id)
  {
    forall id {:trigger OnPart(items, path[i..], count - i, id)}
      ensures OnPart(items, path[i..], count - i, id) <==>
                id == items[path[i]].block.id || OnPart(items, path[i + 1..], count - i - 1, id)
    {
      if OnPart(items, path[i..], count - i, id) {
        var k :| 0 <= k < count - i && k < |path[i..]| && path[i..][k] < |items| && items[path[i..][k]].block.id == id;
        assert k > 0 ==> path[i + 1..][k - 1] == path[i..][k];
      }
      if id == items[path[i]].block.id {
        assert path[i..][0] == path[i];
      }
      if OnPart(items, path[i + 1..], count - i - 1, id) {
        var k :| 0 <= k < count - i - 1 && k < |path[i + 1..]| && path[i + 1..][k] < |items|
          && items[path[i + 1..][k]].block.id == id;
        assert path[i..][k + 1] == path[i + 1..][k];
      }
    }
  }

  lemma MakeSetting(fork: ForkDatabase, c: Plan)
    requires fork.Valid() && Lawful(c.apply) && Counted(c.all) && Played(c.apply, c.blockOf, c.all)
    requires c.items == fork.items && c.index == fork.index && c.head == fork.head && c.blockOf == fork.blockOf
    requires Climb(c.items, c.index, c.head, c.first) && Climb(c.items, c.index, c.head, c.second)
    requires c.newHead in c.index && c.first[0] == c.index[c.newHead]
    requires c.all[|c.all| - 1].headId in c.index && c.second[0] == c.index[c.all[|c.all| - 1].headId]
    requires |c.first| == c.newHead.num - c.parting && |c.second| == c.all[|c.all| - 1].headId.num - c.parting
    ensures Setting(c)
  {
    hide Played, Lawful, ItemsValid, Climb;
  }

  lemma Basics(c: Plan)
    requires Setting(c)
    ensures Identifying(c.blockOf) && ItemsValid(c.items, c.blockOf) && Lawful(c.apply) && Counted(c.all)
    ensures Played(c.apply, c.blockOf, c.all)
    ensures |c.first| > 0 && |c.second| > 0 && c.parting < |c.all| && Branch(c.items, c.first)
    ensures Branch(c.items, c.second)
    ensures |c.first| == c.newHead.num - c.parting && |c.second| == |c.all| - 1 - c.parting
    ensures forall i :: 0 <= i < |c.first| ==> c.first[i] < |c.items|
    ensures forall i :: 0 <= i < |c.second| ==> c.second[i] < |c.items|
    ensures c.items[c.first[0]].block.id == c.newHead && c.items[c.second[0]].block.id == c.all[|c.all| - 1].headId
    ensures c.all[|c.all| - 1].headId.num == |c.all| - 1
  {
    hide Played, Lawful, Alive, ItemValid;
  }

  /** The new branch holds the ancestors of the new head. */
  lemma FirstId(c: Plan, i: nat)
    requires Setting(c) && i < |c.first|
    ensures Identifying(c.blockOf) && c.first[i] < |c.items| && i <= c.newHead.num
    ensures c.items[c.first[i]].block.id == At(c.blockOf, c.newHead, c.newHead.num - i)
    ensures c.items[c.first[i]].block.id.num == c.newHead.num - i
  {
    Basics(c);
    hide Setting, Played, Lawful, ItemsValid, Identifying, At;
    BranchIds(c.items, c.blockOf, c.first, i);
    AtNumber(c.blockOf, c.newHead, c.newHead.num - i);
  }

  /** The old branch holds the heads of the states. */
  lemma SecondId(c: Plan, i: nat)
    requires Setting(c) && i < |c.second|
    ensures i < |c.all| && c.second[i] < |c.items|
    ensures c.items[c.second[i]].block.id == c.all[|c.all| - 1 - i].headId
    ensures c.items[c.second[i]].block.id.num == |c.all| - 1 - i
    ensures c.items[c.second[i]].block == c.blockOf(c.items[c.second[i]].block.id)
  {
    Basics(c);
    hide Setting, Played, Lawful, ItemsValid, Identifying, At;
    BranchIds(c.items, c.blockOf, c.second, i);
    HeadsAreAncestors(c.apply, c.blockOf, c.all, |c.all| - 1 - i);
    BranchItem(c.items, c.blockOf, c.second, i);
  }

  lemma PartingFacts(c: Plan)
    requires Setting(c)
    ensures |c.first| > 0 && |c.second| > 0 && c.parting < |c.all| && c.second[|c.second| - 1] < |c.items|
    ensures c.items[c.second[|c.second| - 1]].block.previous == c.all[c.parting].headId
    ensures c.all[c.parting].headId.num == c.parting
  {
    Basics(c);
    hide Setting, Played, Lawful, ItemsValid, Identifying, At;
    BranchPrevious(c.items, c.blockOf, c.second, |c.second| - 1);
    HeadsAreAncestors(c.apply, c.blockOf, c.all, c.parting);
  }

  lemma HeldOrHead(c: Plan, i: nat)
    requires Setting(c)
    ensures 0 < i < |c.first| ==> Alive(c.items, c.index, c.head, c.first[i])
    ensures 0 < i < |c.second| ==> Alive(c.items, c.index, c.head, c.second[i])
    ensures c.newHead in c.index && c.first[0] == c.index[c.newHead]
    ensures c.all[|c.all| - 1].headId in c.index && c.second[0] == c.index[c.all[|c.all| - 1].headId]
  {
    hide Alive, ItemsValid, Played, Lawful;
  }

  /** The fork head is the new head's item, above the chain. */
  ghost predicate Upward(c: Plan)
  {
    c.newHead.num >= |c.all| && c.newHead in c.index && c.head == Some(c.index[c.newHead])
  }

  /** Every block of both branches is in the index. */
  lemma FirstIndexed(c: Plan, i: nat)
    requires Setting(c) && Upward(c) && i < |c.first|
    ensures c.first[i] < |c.items| && c.items[c.first[i]].block.id in c.index
  {
    FirstId(c, i);
    FirstId(c, 0);
    Basics(c);
    HeldOrHead(c, i);
    hide Setting, Played, Lawful, ItemsValid, Identifying, At;
  }

  lemma SecondIndexed(c: Plan, i: nat)
    requires Setting(c) && Upward(c) && i < |c.second|
    ensures c.second[i] < |c.items| && c.items[c.second[i]].block.id in c.index
    ensures c.index[c.items[c.second[i]].block.id] == c.second[i]
  {
    SecondId(c, i);
    FirstId(c, 0);
    Basics(c);
    HeldOrHead(c, i);
    hide Setting, Played, Lawful, ItemsValid, Identifying, At;
  }

  /** Irreversibility only grows along a run of states. */
  lemma {:induction false} LibsGrow(apply: Rules, blockOf: Id -> Block, states: seq<State>, i: nat, j: nat)
    requires Lawful(apply) && Played(apply, blockOf, states) && i <= j < |states|
    ensures states[i].lib <= states[j].lib
    decreases j
  {
    if i < j {
      LibsGrow(apply, blockOf, states, i, j - 1);
      assert apply(states[j - 1], blockOf(states[j - 1 + 1].headId)) == Some(states[j - 1 + 1]);
    }
  }

  lemma RedoneHead(c: Plan, states: seq<State>, k: nat)
    requires Setting(c) && HeadsAlong(c.items, c.second, states, c.parting + 1) && c.parting < k < |states| <= |c.all|
    ensures states[k].headId == c.all[k].headId
  {
    Basics(c);
    hide Setting, At, Lawful, Played, Counted, Identifying, ItemsValid, Branch;
    assert HeadAt(c.items, c.second, states, c.parting + 1, k);
    SecondId(c, |c.all| - 1 - k);
  }

  lemma RedoneStates(c: Plan, states: seq<State>, redone: nat)
    requires Setting(c) && Played(c.apply, c.blockOf, states) && c.parting < |c.all|
    requires |states| == c.parting + 1 + redone && redone <= |c.second|
    requires c.all[..c.parting + 1] <= states && HeadsAlong(c.items, c.second, states, c.parting + 1)
    ensures |states| <= |c.all| && states == c.all[..|states|]
  {
    Basics(c);
    hide Lawful, At, ItemsValid, Identifying, Branch, Played;
    var known := c.all[..|states|];
    PlayedPrefix(c.apply, c.blockOf, c.all, |states|);
    forall k | c.parting <= k < |states|
      ensures states[k].headId == known[k].headId
    {
      if k > c.parting {
        RedoneHead(c, states, k);
      }
    }
    hide Setting, HeadsAlong;
    assert states[..c.parting + 1] == known[..c.parting + 1];
    forall k | 0 <= k < |states|
      ensures states[k] == known[k]
    {
      if k <= c.parting {
        assert states[..c.parting + 1][k] == known[..c.parting + 1][k];
      } else {
        SameRun(c.apply, c.blockOf, states, known, c.parting, k);
      }
    }
  }

  /** The old branch applied once, so it applies again, and gives the same states. */
  lemma RestoreCannotFail(c: Plan, states: seq<State>, redone: nat)
    requires Setting(c) && Played(c.apply, c.blockOf, states) && c.parting < |c.all|
    requires |states| == c.parting + 1 + redone && redone <= |c.second|
    requires c.all[..c.parting + 1] <= states && HeadsAlong(c.items, c.second, states, c.parting + 1)
    requires redone < |c.second| ==> Refuses(c.items, c.apply, states, c.second, redone)
    ensures redone == |c.second| && states == c.all
  {
    Basics(c);
    hide Lawful, At, ItemsValid, Identifying, Branch;
    RedoneStates(c, states, redone);
    assert states[|states| - 1] == c.all[..|states|][|states| - 1];
    if redone < |c.second| {
      var k := |states| - 1;
      assert c.apply(c.all[k], c.blockOf(c.all[k + 1].headId)) == Some(c.all[k + 1]);
      SecondId(c, |c.second| - 1 - redone);
    }
  }

  /** Applying the new branch gives its run. */
  lemma AfterFirst(c: Plan, start: seq<State>, states: seq<State>, done: nat, index: map<Id, nat>, oldest: nat)
    requires Setting(c) && c.parting < |c.all| && start == c.all[..c.parting + 1]
    requires Played(c.apply, c.blockOf, states) && done <= |c.first| && |states| == |start| + done && start <= states
    requires HeadsAlong(c.items, c.first, states, c.parting + 1)
    requires done < |c.first| ==> Refuses(c.items, c.apply, states, c.first, done)
    requires oldest == Committed(c.kept, states, done)
    requires Thinned(c.index, index, Height(c), states, c.parting + 1)
    ensures Identifying(c.blockOf) && states == c.all[..c.parting + 1] + Reached(c) && done == |Reached(c)|
    ensures done == |c.first| <==> Complete(c)
    ensures done == |c.first| ==> |states| == c.newHead.num + 1 && states[|states| - 1].headId == c.newHead
    ensures index == Trimmed(c) && oldest == CommittedBy(c.kept, Reached(c))
    ensures done > 0 ==> Reached(c)[|Reached(c)| - 1] == states[|states| - 1]
  {
    hide At, Lawful, Thinned, KeptFrom, Trimmed, Setting, ItemsValid, Identifying, HeadsAlong, Refuses, Played, RunOn,
      Branch, Counted;
    Basics(c);
    HeadsOfRun(c, states, done);
    RunIs(c.apply, c.blockOf, c.newHead, states, c.parting);
    assert states[c.parting] == start[c.parting] == c.all[c.parting];
    assert states == start + states[c.parting + 1..];
    assert done > 0 ==> Reached(c)[done - 1] == states[|states| - 1];
    TrimmedIs(c, states, index);
  }

  /** The head of a state reached is a block of the new branch. */
  lemma HeadOfRun(c: Plan, states: seq<State>, k: nat)
    requires Setting(c) && HeadsAlong(c.items, c.first, states, c.parting + 1) && c.parting < k < |states|
    ensures Identifying(c.blockOf) && k <= c.newHead.num && states[k].headId == At(c.blockOf, c.newHead, k)
  {
    Basics(c);
    hide Setting, At, Lawful, Played, Counted, Identifying, ItemsValid, Branch;
    var i := k - (c.parting + 1);
    assert HeadAt(c.items, c.first, states, c.parting + 1, k);
    FirstId(c, |c.first| - 1 - i);
  }

  lemma RefusedOfRun(c: Plan, states: seq<State>, done: nat)
    requires Setting(c) && Refuses(c.items, c.apply, states, c.first, done) && |states| == c.parting + 1 + done
    ensures Identifying(c.blockOf) && |states| <= c.newHead.num
    ensures c.apply(states[|states| - 1], c.blockOf(At(c.blockOf, c.newHead, |states|))).None?
  {
    Basics(c);
    hide Setting, At, Lawful, Played, Counted, Identifying, ItemsValid, Branch;
    FirstId(c, |c.first| - 1 - done);
    BranchItem(c.items, c.blockOf, c.first, |c.first| - 1 - done);
  }

  lemma FirstCount(c: Plan)
    requires Setting(c)
    ensures Identifying(c.blockOf) && 0 < |c.first| == c.newHead.num - c.parting
    ensures At(c.blockOf, c.newHead, c.newHead.num) == c.newHead
  {
  }

  /** The heads of the states reached are the blocks of the new branch, and the next one was refused. */
  lemma HeadsOfRun(c: Plan, states: seq<State>, done: nat)
    requires Setting(c) && c.parting < |c.all| && done <= |c.first| && |states| == c.parting + 1 + done
    requires HeadsAlong(c.items, c.first, states, c.parting + 1)
    requires done < |c.first| ==> Refuses(c.items, c.apply, states, c.first, done)
    ensures Identifying(c.blockOf) && |states| <= c.newHead.num + 1
    ensures forall k :: c.parting < k < |states| ==> states[k].headId == At(c.blockOf, c.newHead, k)
    ensures |states| <= c.newHead.num ==>
      c.apply(states[|states| - 1], c.blockOf(At(c.blockOf, c.newHead, |states|))).None?
    ensures done == |c.first| ==> |states| == c.newHead.num + 1 && states[|states| - 1].headId == c.newHead
  {
    hide Setting, At, Identifying, Refuses, HeadsAlong;
    FirstCount(c);
    forall k | c.parting < k < |states|
      ensures states[k].headId == At(c.blockOf, c.newHead, k)
    {
      HeadOfRun(c, states, k);
    }
    if done < |c.first| {
      RefusedOfRun(c, states, done);
    }
  }

  lemma TrimmedIs(c: Plan, states: seq<State>, index: map<Id, nat>)
    requires Identifying(c.blockOf) && c.parting < |c.all| && c.parting < |states|
    requires states[c.parting + 1..] == Reached(c)
    requires Thinned(c.index, index, Height(c), states, c.parting + 1)
    ensures index == Trimmed(c)
  {
    hide Identifying, KeptFrom, Reached, Height;
    forall id
      ensures id in index <==> id in Trimmed(c)
    {
      ShiftKept(Height(c), states, c.parting + 1, id.num);
    }
  }

  lemma ShiftKept(h: nat, states: seq<State>, n: nat, num: nat)
    requires n <= |states|
    ensures KeptFrom(h, states, n, num) <==> KeptFrom(h, states[n..], 0, num)
  {
    hide Keeps;
    var rest := states[n..];
    assert forall i :: 0 <= i < |rest| ==> rest[i] == states[n + i];
    if KeptFrom(h, rest, 0, num) {
      forall k | n <= k < |states|
        ensures Keeps(h, states[k], num)
      {
        assert rest[k - n] == states[k];
      }
    }
  }

  lemma CutIs(c: Plan, index: map<Id, nat>)
    requires Setting(c) && Identifying(c.blockOf) && c.parting < |c.all| && |Reached(c)| < |c.first|
    requires index == map id | id in Trimmed(c)
      && !OnPart(c.items, c.first, |c.first| - |Reached(c)|, id) :: Trimmed(c)[id]
    ensures index == Cut(c)
  {
    hide Setting, Reached, OnPart, InTail, KeptFrom, Identifying;
    forall id
      ensures id in index <==> id in Cut(c)
    {
      TailIds(c, |Reached(c)|, id);
    }
  }

  lemma SurvivorsAre(c: Plan, index: map<Id, nat>, h: nat)
    requires Identifying(c.blockOf) && c.parting < |c.all| && |Reached(c)| < |c.all| && h == |c.all| - 1 - |Reached(c)|
    requires Thinned(Cut(c), index, h, c.all, c.parting + 1)
    ensures index == Survivors(c)
  {
    hide Reached, InTail, KeptFrom, Identifying, Trimmed;
  }

  lemma KeptIs(c: Plan, states: seq<State>, redone: nat)
    requires Identifying(c.blockOf) && c.parting < |c.all| && states == c.all && redone > 0
    ensures Committed(CommittedBy(c.kept, Reached(c)), states, redone) == RestoredKept(c)
  {
    hide Reached, Identifying;
  }

  /** The items removed after a refusal are the refused block and its successors. */
  lemma TailIds(c: Plan, done: nat, id: Id)
    requires Setting(c) && done < |c.first|
    ensures Identifying(c.blockOf)
    ensures OnPart(c.items, c.first, |c.first| - done, id) <==> InTail(c.blockOf, c.newHead, c.parting + done, id)
  {
    Basics(c);
    if OnPart(c.items, c.first, |c.first| - done, id) {
      var i :| 0 <= i < |c.first| - done && i < |c.first| && c.first[i] < |c.items|
        && c.items[c.first[i]].block.id == id;
      FirstId(c, i);
    }
    if InTail(c.blockOf, c.newHead, c.parting + done, id) {
      FirstId(c, c.newHead.num - id.num);
    }
  }

  // ---- The usual switch ----

  /** A path whose items are held, under states whose heads are indexed, can be popped. */
  lemma {:induction false} PathPops(items: seq<Item>, index: map<Id, nat>, held: seq<nat>, states: seq<State>,
                                    path: seq<nat>, i: nat, n: nat)
    requires Branch(items, path) && n < |states| && i <= |states| - 1 - n < |path|
    requires forall k :: n < k < |states| ==> states[k].headId in index
    requires forall j :: 1 <= j <= |states| - 1 - n ==> path[j] in held || Alive(items, index, None, path[j])
    ensures CanPop(items, index, held, states[..|states| - i], Some(path[i]), n)
    decreases |states| - 1 - n - i
  {
    if i < |states| - 1 - n {
      PathPops(items, index, held, states, path, i + 1, n);
      var now := states[..|states| - i];
      assert now[..|now| - 1] == states[..|states| - (i + 1)];
      assert now[|now| - 1] == states[|states| - i - 1];
      assert items[path[i]].prev == Some(path[i + 1]);
    }
  }

  /**
    With its head as the fork head, a branch above the chain can always be turned to: the fork head
    retreats along it.
   */
  lemma LeavesFreely(c: Plan)
    requires Setting(c) && Upward(c) && c.kept <= c.parting
    ensures CanLeave(c) && c.parting < |c.all| && Height(c) == c.parting + (c.newHead.num - (|c.all| - 1))
  {
    Basics(c);
    HeldOrHead(c, 0);
    FirstId(c, 0);
    forall k | c.parting < k < |c.all|
      ensures c.all[k].headId in c.index
    {
      SecondId(c, |c.all| - 1 - k);
      SecondIndexed(c, |c.all| - 1 - k);
    }
    hide Setting, Played, Lawful, At, ItemsValid, Identifying, Alive, Branch, CanPop;
    var held := c.first + c.second;
    assert forall i :: 0 <= i < |c.first| ==> c.first[i] == held[i];
    PathPops(c.items, c.index, held, c.all, c.first, 0, c.parting);
    assert c.all[..|c.all|] == c.all;
  }

  /** The new head is one above the chain, and the item at the parting is held. */
  ghost predicate Ready(c: Plan)
  {
    && Upward(c) && c.newHead.num == |c.all| && c.kept <= c.parting && c.second != []
    && var last := c.second[|c.second| - 1];
       last < |c.items| && c.items[last].prev.Some? && Alive(c.items, c.index, None, c.items[last].prev.value)
  }

  /** The old branch and the item at the parting, as a path for the fork head. */
  lemma PathBack(c: Plan) returns (path: seq<nat>)
    requires Setting(c) && Ready(c)
    ensures Branch(c.items, path) && |path| == |c.second| + 1 && |c.second| > 0
    ensures forall i :: 0 <= i < |c.second| ==> path[i] == c.second[i]
    ensures path[|c.second|] < |c.items| && c.items[path[|c.second|]].block.id.num == c.parting
    ensures c.items[path[|c.second|]].block.id in c.index
    ensures c.index[c.items[path[|c.second|]].block.id] == path[|c.second|]
  {
    Basics(c);
    PartingFacts(c);
    FirstId(c, 0);
    var last := c.second[|c.second| - 1];
    PrevNumber(c.items, c.blockOf, last);
    SecondId(c, |c.second| - 1);
    path := c.second + [c.items[last].prev.value];
    hide Setting, Played, Lawful, At, Identifying, ItemsValid;
    forall i | 0 <= i < |path| - 1
      ensures c.items[path[i]].prev == Some(path[i + 1])
    {
      assert i < |c.second| - 1 ==> c.items[c.second[i]].prev == Some(c.second[i + 1]);
    }
  }

  /** The run on the new branch as a chain of its own. */
  lemma ReachedFacts(c: Plan)
    requires Setting(c) && Identifying(c.blockOf) && c.parting < |c.all|
    ensures Played(c.apply, c.blockOf, c.all[..c.parting + 1] + Reached(c))
    ensures Counted(c.all[..c.parting + 1] + Reached(c))
    ensures c.parting + |Reached(c)| <= c.newHead.num
    ensures forall i :: 0 <= i < |Reached(c)| ==>
      && Reached(c)[i].headId == At(c.blockOf, c.newHead, c.parting + 1 + i)
      && Reached(c)[i].headId.num == c.parting + 1 + i && Reached(c)[i].lib <= Reached(c)[|Reached(c)| - 1].lib
  {
    Basics(c);
    hide Setting, ItemsValid, At, Identifying, Lawful, Played, Counted, Branch, RunOn;
    PlayedPrefix(c.apply, c.blockOf, c.all, c.parting + 1);
    var start := c.all[..c.parting + 1];
    assert start[|start| - 1] == c.all[c.parting];
    RunPlays(c.apply, c.blockOf, c.newHead, start);
    var run := Reached(c);
    forall i | 0 <= i < |run|
      ensures run[i].headId.num == c.parting + 1 + i && run[i].lib <= run[|run| - 1].lib
    {
      TailFacts(c.apply, c.blockOf, start, run, i);
    }
  }

  lemma TailFacts(apply: Rules, blockOf: Id -> Block, start: seq<State>, run: seq<State>, i: nat)
    requires Lawful(apply) && Counted(start + run) && Played(apply, blockOf, start + run) && i < |run|
    ensures run[i].headId.num == |start| + i && run[i].lib <= run[|run| - 1].lib
  {
    hide Lawful, Played, Counted;
    var states := start + run;
    assert states[|start| + i] == run[i] && states[|states| - 1] == run[|run| - 1];
    CountedAt(states, |start| + i);
    LibsGrow(apply, blockOf, states, |start| + i, |states| - 1);
  }

  lemma CountedAt(states: seq<State>, k: nat)
    requires Counted(states) && k < |states|
    ensures states[k].headId.num == k
  {
  }

  lemma BlockAt(blockOf: Id -> Block, x: Id, n: nat)
    requires Identifying(blockOf) && 0 < n <= x.num
    ensures At(blockOf, x, n).num == n && blockOf(At(blockOf, x, n)).id == At(blockOf, x, n)
  {
    AtNumber(blockOf, x, n);
  }

  lemma {:induction false} RunPlays(apply: Rules, blockOf: Id -> Block, newHead: Id, start: seq<State>)
    requires Identifying(blockOf) && Lawful(apply) && Counted(start) && Played(apply, blockOf, start)
    requires |start| <= newHead.num + 1
    ensures var run := RunOn(apply, blockOf, newHead, start[|start| - 1], |start| - 1);
            && Played(apply, blockOf, start + run) && Counted(start + run) && |start + run| <= newHead.num + 1
            && forall i :: 0 <= i < |run| ==> run[i].headId == At(blockOf, newHead, |start| + i)
    decreases newHead.num + 1 - |start|
  {
    hide At, Played, Counted, Lawful, Identifying;
    CountedNonempty(start);
    var run := RunOn(apply, blockOf, newHead, start[|start| - 1], |start| - 1);
    if run == [] {
      assert start + run == start;
    } else {
      var b := blockOf(At(blockOf, newHead, |start|));
      BlockAt(blockOf, newHead, |start|);
      PlayedStep(apply, blockOf, start, b);
      LibGrows(apply, start[|start| - 1], b);
      assert run[0] == apply(start[|start| - 1], b).value;
      assert run[1..] == RunOn(apply, blockOf, newHead, run[0], |start|);
      var longer := start + [run[0]];
      assert longer[|longer| - 1] == run[0];
      RunPlays(apply, blockOf, newHead, longer);
      assert start + run == longer + run[1..];
      forall i | 0 <= i < |run|
        ensures run[i].headId == At(blockOf, newHead, |start| + i)
      {
        if i > 0 {
          assert run[i] == run[1..][i - 1];
          assert run[1..][i - 1].headId == At(blockOf, newHead, |longer| + (i - 1));
        }
      }
    }
  }

  /** While nothing beyond the parting is committed, applying the new branch spares everything from the parting on. */
  lemma SparedByNew(c: Plan, id: Id)
    requires Setting(c) && Ready(c) && Identifying(c.blockOf) && c.parting < |c.all| && id.num >= c.parting
    requires CommittedBy(c.kept, Reached(c)) <= c.parting
    ensures id in Cut(c) <==> id in c.index && !InTail(c.blockOf, c.newHead, c.parting + |Reached(c)|, id)
  {
    LeavesFreely(c);
    ReachedFacts(c);
    hide Setting, Reached, InTail, Ready, CanLeave, Identifying, Played, Counted, At;
  }

  /** The usual switch can be taken back unless something beyond the parting was committed, and only then. */
  lemma ReturnsUnlessCommitted(c: Plan)
    requires Setting(c) && Ready(c) && Identifying(c.blockOf) && c.parting < |c.all| && !Complete(c)
    ensures CanReturn(c) <==> CommittedBy(c.kept, Reached(c)) <= c.parting
  {
    hide Setting, Reached, Cut, Ready, Identifying, Played, Counted, At, Alive, ItemsValid, Lawful, Branch, Complete,
      CanPop;
    Basics(c);
    if CommittedBy(c.kept, Reached(c)) <= c.parting {
      ReachedFacts(c);
      FewerThanOld(c);
      var path := PathBack(c);
      var states, held, cut := c.all[..c.parting + 1] + Reached(c), c.first + c.second, Cut(c);
      forall k | c.parting < k < |states|
        ensures states[k].headId in cut
      {
        ReachedInCut(c, k - c.parting - 1);
      }
      BottomInCut(c, path);
      forall j | 1 <= j <= |states| - 1 - c.parting
        ensures path[j] in held || Alive(c.items, cut, None, path[j])
      {
        if j < |c.second| {
          assert held[|c.first| + j] == path[j];
        }
      }
      PathPops(c.items, cut, held, states, path, 0, c.parting);
      assert states[..|states|] == states;
    }
  }

  lemma FewerThanOld(c: Plan)
    requires Setting(c) && Ready(c) && Identifying(c.blockOf) && c.parting < |c.all| && !Complete(c)
    ensures |Reached(c)| <= |c.second|
  {
    Basics(c);
    hide Setting, Reached, Identifying;
  }

  lemma BottomInCut(c: Plan, path: seq<nat>)
    requires Setting(c) && Ready(c) && Identifying(c.blockOf) && c.parting < |c.all| && |path| == |c.second| + 1
    requires CommittedBy(c.kept, Reached(c)) <= c.parting
    requires path[|c.second|] < |c.items| && c.items[path[|c.second|]].block.id.num == c.parting
    requires c.items[path[|c.second|]].block.id in c.index
    requires c.index[c.items[path[|c.second|]].block.id] == path[|c.second|]
    ensures Alive(c.items, Cut(c), None, path[|c.second|])
  {
    var bottom := c.items[path[|c.second|]].block.id;
    SparedByNew(c, bottom);
    hide Setting, Reached, Identifying, At, Ready;
  }

  lemma ReachedInCut(c: Plan, i: nat)
    requires Setting(c) && Ready(c) && Identifying(c.blockOf) && c.parting < |c.all| && i < |Reached(c)|
    requires CommittedBy(c.kept, Reached(c)) <= c.parting
    ensures Reached(c)[i].headId in Cut(c)
  {
    hide Setting, Reached, Cut, Upward, Alive, Identifying, Played, Counted, At, ItemsValid, Lawful, Branch,
      CommittedBy;
    ReachedFacts(c);
    Basics(c);
    var id := Reached(c)[i].headId;
    assert id.num == c.parting + 1 + i <= c.newHead.num;
    FirstId(c, |c.first| - 1 - i);
    FirstIndexed(c, |c.first| - 1 - i);
    SparedByNew(c, id);
  }

  /**
    After a failed switch the index has lost exactly the refused block and its
    successors, as far as blocks from the parting on are concerned, when at most two
    blocks of the old branch are not matched by blocks that applied on the new one.
   */
  lemma FailedSwitchSpares(c: Plan, id: Id)
    requires Setting(c) && Ready(c) && Identifying(c.blockOf) && c.parting < |c.all| && id.num >= c.parting
    requires CommittedBy(c.kept, Reached(c)) <= c.parting && c.all[|c.all| - 1].lib <= c.parting
    requires |c.second| <= |Reached(c)| + 2
    ensures id in Survivors(c) <==> id in c.index && !InTail(c.blockOf, c.newHead, c.parting + |Reached(c)|, id)
  {
    hide Setting, Reached, InTail, Ready, Identifying, Played, At, ItemsValid, Lawful, Branch, Cut, CommittedBy;
    Basics(c);
    SparedByNew(c, id);
    forall k | c.parting + 1 <= k < |c.all|
      ensures Keeps(Lowered(c), c.all[k], id.num)
    {
      LibsGrow(c.apply, c.blockOf, c.all, k, |c.all| - 1);
    }
  }

  /**
    That bound is tight: when the old branch is longer than that and everything
    up to the parting is irreversible, bringing it back trims the block at the
    parting, which is on the chain, from the index.
   */
  lemma FailedSwitchDropsTheParting(c: Plan)
    requires Setting(c) && Ready(c) && Identifying(c.blockOf) && c.parting + 1 < |c.all|
    requires CommittedBy(c.kept, Reached(c)) <= c.parting
    requires c.all[|c.all| - 1].lib <= c.parting == c.all[c.parting + 1].lib
    ensures c.all[c.parting].headId in c.index
    ensures c.all[c.parting].headId in Survivors(c) <==> |c.second| <= |Reached(c)| + 2
  {
    Basics(c);
    PartingFacts(c);
    var id := c.all[c.parting].headId;
    var path := PathBack(c);
    PrevNumber(c.items, c.blockOf, c.second[|c.second| - 1]);
    assert path[|c.second| - 1] == c.second[|c.second| - 1];
    assert c.items[path[|c.second| - 1]].prev == Some(path[|c.second| - 1 + 1]);
    if |c.second| <= |Reached(c)| + 2 {
      FailedSwitchSpares(c, id);
    } else {
      hide Setting, Reached, InTail, Ready, Identifying, Played, At, ItemsValid, Lawful, Branch, Cut;
      assert !Keeps(Lowered(c), c.all[c.parting + 1], id.num);
    }
  }

  /** A fork head above the chain can only be the block just pushed, one above it. */
  lemma AnchoredHead(t: Tree, blockOf: Id -> Block, states: seq<State>, oldest: nat, b: Block)
    requires AnchoredIn(t, states, oldest) && TreeValid(t, blockOf) && Accepts(t, b)
    requires b.id.num > 0 && b == blockOf(b.id)
    ensures var u := Pushed(t, b);
            NewHead(u).id.num >= |states| ==>
              NewHead(u) == b && b.id.num == |states| && b.id !in t.index && u.head == Some(u.index[b.id])
    ensures NewHead(Pushed(t, b)).id.num < |states| ==> b.id.num < |states|
  {
    hide Neat, ItemValid;
    assert b.previous in t.index || b.previous == NO_BLOCK;
  }

  lemma AnchoredPushed(t: Tree, blockOf: Id -> Block, states: seq<State>, oldest: nat, b: Block)
    requires AnchoredIn(t, states, oldest) && TreeValid(t, blockOf) && Accepts(t, b)
    requires b.id.num > 0 && b == blockOf(b.id) && b.previous != NO_BLOCK
    ensures Neat(Pushed(t, b).items, Pushed(t, b).index)
    ensures NewHead(Pushed(t, b)).id.num < |states| ==> AnchoredIn(Pushed(t, b), states, oldest)
  {
    var u := Pushed(t, b);
    AnchoredHead(t, blockOf, states, oldest, b);
    forall x | x in u.index
      ensures NeatAt(u.items, u.index, x)
    {
      PushedNeat(t, blockOf, states, oldest, b, x);
    }
  }

  lemma PushedNeat(t: Tree, blockOf: Id -> Block, states: seq<State>, oldest: nat, b: Block, x: Id)
    requires AnchoredIn(t, states, oldest) && TreeValid(t, blockOf) && Accepts(t, b)
    requires b.id.num > 0 && b == blockOf(b.id) && b.previous != NO_BLOCK && x in Pushed(t, b).index
    ensures NeatAt(Pushed(t, b).items, Pushed(t, b).index, x)
  {
    var u := Pushed(t, b);
    assert x in t.index ==> NeatAt(t.items, t.index, x);
    assert b.previous in t.index && b.previous.num + 1 == b.id.num;
    if x == b.id && b.id !in t.index {
      assert u.items[u.index[x]] == u.items[|t.items|];
      assert b.previous != b.id;
    } else {
      assert x in t.index && u.items[u.index[x]] == t.items[t.index[x]];
      assert ItemValid(t.items, blockOf, t.index[x]);
      assert x.num == b.id.num + 1 ==> x.num > b.previous.num;
    }
  }

  /** Dropping the lowest blocks keeps the index neat. */
  lemma NeatTrim(items: seq<Item>, blockOf: Id -> Block, index: map<Id, nat>, less: map<Id, nat>)
    requires ItemsValid(items, blockOf) && Neat(items, index)
    requires forall id :: id in index ==> index[id] < |items| && items[index[id]].block.id == id
    requires forall id :: id in less ==> id in index && less[id] == index[id]
    requires forall x, y :: x in less && y in index && y.num >= x.num ==> y in less
    ensures Neat(items, less)
  {
    forall x | x in less
      ensures NeatAt(items, less, x)
    {
      assert NeatAt(items, index, x);
      assert ItemValid(items, blockOf, index[x]);
      var it := items[index[x]];
      assert it.block.previous.num + 1 == x.num;
      if it.block.previous !in less && it.block.previous in index {
        forall y | y in less
          ensures x.num <= y.num
        {
          assert y.num < x.num ==> it.block.previous.num >= y.num;
        }
      }
    }
  }

  lemma AnchoredExtended(t: Tree, u: Tree, blockOf: Id -> Block, b: Block, states: seq<State>, oldest: nat, after: Tree,
                         last: State, kept: nat)
    requires AnchoredIn(t, states, oldest) && u == Pushed(t, b) && Neat(u.items, u.index) && Counted(states)
    requires TreeValid(u, blockOf)
    requires b.id.num == |states| && NewHead(u) == b && b.id in u.index
    requires last.headId == b.id && last.lib <= b.id.num && kept == (if last.lib > oldest then last.lib else oldest)
    requires after.items == u.items && after.head == u.head
    requires after.index == map id | id in u.index && Keeps(HeadNum(u), last, id.num) :: u.index[id]
    ensures AnchoredIn(after, states + [last], kept)
  {
    hide Neat, ItemsValid;
    NeatTrim(u.items, blockOf, u.index, after.index);
    var now := states + [last];
    forall k | 1 <= k < |now| && kept <= k
      ensures now[k].headId in after.index
    {
      if k < |states| {
        assert states[k].headId in t.index && states[k].headId.num == k;
      }
    }
    assert forall id :: id in u.index ==> id in t.index || id == b.id;
  }

  /** An extended chain is anchored if it was, and from its first block on. */
  lemma ExtensionAnchored(t: Tree, u: Tree, blockOf: Id -> Block, b: Block, states: seq<State>, oldest: nat,
                          after: Tree, last: State, kept: nat)
    requires TreeValid(t, blockOf) && TreeValid(u, blockOf) && u == Pushed(t, b) && Accepts(t, b) && Counted(states)
    requires b.id.num == |states| && b == blockOf(b.id)
    requires NewHead(u).previous == states[|states| - 1].headId == b.previous
    requires last.headId == b.id && last.lib <= b.id.num && kept == CommittedBy(oldest, [last])
    requires after == ExtendedTree(u, last)
    ensures AnchoredIn(t, states, oldest) && b.previous != NO_BLOCK ==> AnchoredIn(after, states + [last], kept)
    ensures |states| == 1 && t.index == map[] && t.head == None ==> AnchoredIn(after, states + [last], kept)
  {
    hide AnchoredIn, Accepts, Neat;
    if AnchoredIn(t, states, oldest) && b.previous != NO_BLOCK {
      HeadBlockNumber(u, blockOf);
      AnchoredHead(t, blockOf, states, oldest, b);
      AnchoredPushed(t, blockOf, states, oldest, b);
      AnchoredExtended(t, u, blockOf, b, states, oldest, after, last, kept);
    }
    if |states| == 1 && t.index == map[] && t.head == None {
      FreshExtended(t, b, after, states + [last], kept);
    }
  }

  lemma FreshExtended(t: Tree, b: Block, after: Tree, now: seq<State>, kept: nat)
    requires t.index == map[] && t.head == None && |now| == 2 && now[1].headId == b.id && b.id.num == 1
    requires now[1].lib <= 1
    requires b.previous != b.id
    requires var u := Pushed(t, b);
             after.items == u.items && after.head == u.head
             && after.index == map id | id in u.index && Keeps(HeadNum(u), now[1], id.num) :: u.index[id]
    ensures AnchoredIn(after, now, kept)
  {
    assert after.index == map[b.id := |t.items|];
    assert NeatAt(after.items, after.index, b.id);
  }

  /** From an anchored state a switch goes one above the chain, and fails exactly for what is committed. */
  lemma AnchoredSwitch(t: Tree, c: Plan, b: Block)
    requires AnchoredIn(t, c.all, c.kept) && Setting(c) && c.newHead == b.id && b.id.num == |c.all| && b.id !in t.index
    requires var u := Pushed(t, b);
      c.items == u.items && c.index == u.index && c.head == u.head && u.head == Some(u.index[b.id])
    requires b.previous != NO_BLOCK ==> Neat(c.items, c.index)
    ensures Identifying(c.blockOf) && c.parting < |c.all|
    ensures c.kept > c.parting ==> !CanLeave(c)
    ensures c.kept <= c.parting ==> CanLeave(c)
    ensures 0 < c.parting && c.kept <= c.parting && !Complete(c) ==>
      (CanReturn(c) <==> CommittedBy(c.kept, Reached(c)) <= c.parting)
  {
    Basics(c);
    PartingFacts(c);
    if c.kept <= c.parting {
      LeavesFreely(c);
      if 0 < c.parting && !Complete(c) {
        ReadyHere(t, c, b);
        ReturnsUnlessCommitted(c);
      }
    }
  }

  lemma ReadyHere(t: Tree, c: Plan, b: Block)
    requires AnchoredIn(t, c.all, c.kept) && Setting(c) && c.newHead == b.id && b.id.num == |c.all| && b.id !in t.index
    requires var u := Pushed(t, b);
      c.items == u.items && c.index == u.index && c.head == u.head && u.head == Some(u.index[b.id])
    requires b.previous != NO_BLOCK ==> Neat(c.items, c.index)
    requires 0 < c.parting < |c.all| && c.kept <= c.parting
    ensures Ready(c)
  {
    Basics(c);
    PartingFacts(c);
    var last := c.second[|c.second| - 1];
    SecondId(c, |c.second| - 1);
    SecondIndexed(c, |c.second| - 1);
    BranchItem(c.items, c.blockOf, c.first, 0);
    hide Setting, Played, Lawful, At, Identifying, ItemsValid, Branch;
    assert c.all[c.parting].headId in t.index;
    assert c.items[last].block.previous in c.index;
    assert c.items[last].prev == Some(c.index[c.items[last].block.previous]);
  }

  lemma AnchoredSwitched(t: Tree, c: Plan, b: Block, after: Tree, states: seq<State>, oldest: nat)
    requires AnchoredIn(t, c.all, c.kept) && Setting(c) && c.newHead == b.id && b.id.num == |c.all| && b.id !in t.index
    requires var u := Pushed(t, b);
      c.items == u.items && c.index == u.index && c.head == u.head && u.head == Some(u.index[b.id])
    requires Neat(c.items, c.index) && Identifying(c.blockOf) && c.parting < |c.all| && c.kept <= c.parting
    requires Complete(c)
    requires states == c.all[..c.parting + 1] + Reached(c) && |states| == b.id.num + 1
    requires oldest == CommittedBy(c.kept, Reached(c)) && after.items == c.items && after.index == Trimmed(c)
    requires after.head.Some? && after.head.value < |after.items|
    requires after.items[after.head.value].block.id.num == Height(c)
    ensures AnchoredIn(after, states, oldest)
  {
    hide Setting, Played, Lawful, At, Identifying, ItemsValid, Branch, Reached, KeptFrom, Neat, Height, Counted,
      CommittedBy, Complete, CanLeave;
    Basics(c);
    LeavesFreely(c);
    TrimNeat(c);
    forall k | 1 <= k < |states| && oldest <= k
      ensures states[k].headId in after.index
    {
      if k <= c.parting {
        assert states[k] == c.all[k];
        OldStays(t, c, b, k);
      } else {
        assert states[k] == Reached(c)[k - c.parting - 1];
        NewStays(c, k - c.parting - 1);
      }
    }
    forall id | id in after.index
      ensures id.num < |states|
    {
      assert id in c.index;
    }
  }

  lemma TrimNeat(c: Plan)
    requires Setting(c) && Neat(c.items, c.index) && Identifying(c.blockOf) && c.parting < |c.all|
    ensures Neat(c.items, Trimmed(c))
  {
    hide Neat, Reached, Climb, Played, Lawful, ItemValid;
    forall x, y | x in Trimmed(c) && y in c.index && y.num >= x.num
      ensures y in Trimmed(c)
    {
      assert KeptFrom(Height(c), Reached(c), 0, x.num);
    }
    NeatTrim(c.items, c.blockOf, c.index, Trimmed(c));
  }

  /** Trimming on the way to a new head keeps every block from what is committed on. */
  lemma CommittedStays(c: Plan, num: nat)
    requires Setting(c) && Identifying(c.blockOf) && c.parting < |c.all| && Height(c) == c.parting + 1
    requires num >= CommittedBy(c.kept, Reached(c))
    ensures KeptFrom(Height(c), Reached(c), 0, num)
  {
    ReachedFacts(c);
    hide Setting, Reached, Identifying, Played, Counted, At;
  }

  lemma OldStays(t: Tree, c: Plan, b: Block, k: nat)
    requires AnchoredIn(t, c.all, c.kept) && Setting(c) && c.index == Pushed(t, b).index && b.id !in t.index
    requires Identifying(c.blockOf) && c.parting < |c.all| && Height(c) == c.parting + 1
    requires 1 <= k <= c.parting && CommittedBy(c.kept, Reached(c)) <= k
    ensures c.all[k].headId in Trimmed(c)
  {
    Basics(c);
    assert c.all[k].headId.num == k;
    CommittedStays(c, k);
    hide Setting, Reached, Identifying, Played, At, Neat, KeptFrom, Height;
    assert c.all[k].headId in t.index;
  }

  lemma NewStays(c: Plan, i: nat)
    requires Setting(c) && Upward(c) && Identifying(c.blockOf) && c.parting < |c.all| && Height(c) == c.parting + 1
    requires i < |Reached(c)| && CommittedBy(c.kept, Reached(c)) <= c.parting + 1 + i
    ensures Reached(c)[i].headId in Trimmed(c)
  {
    hide Setting, Reached, Identifying, Played, At, KeptFrom, Height, Upward, CommittedBy, Lawful, Counted, ItemsValid,
      Branch;
    Basics(c);
    ReachedFacts(c);
    FirstId(c, |c.first| - 1 - i);
    FirstIndexed(c, |c.first| - 1 - i);
    CommittedStays(c, c.parting + 1 + i);
  }

  lemma PopsLeft(all: seq<State>, states: seq<State>, n: nat)
    requires Counted(states) && states <= all && n < |all| && states[|states| - 1].headId != all[n].headId
    ensures n < |states| ==> n < |states| - 1
  {
  }

  lemma HeadOnce(all: seq<State>, states: seq<State>, n: nat)
    requires Counted(all) && Counted(states) && states <= all && n < |all|
    requires states[|states| - 1].headId == all[n].headId
    ensures |states| == n + 1 && states == all[..n + 1]
  {
  }

  lemma CountedNonempty(states: seq<State>)
    requires Counted(states)
    ensures |states| > 0
  {
  }

  lemma HeadNumber(states: seq<State>)
    requires Counted(states)
    ensures |states| > 0 && states[|states| - 1].headId.num == |states| - 1
  {
  }

  lemma PrevEarlier(items: seq<Item>, blockOf: Id -> Block, s: nat)
    requires ItemsValid(items, blockOf) && s < |items|
    ensures items[s].prev.Some? ==> items[s].prev.value < s
  {
    assert ItemValid(items, blockOf, s);
  }
}
