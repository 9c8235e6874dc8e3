/**
  Runs of pushed blocks after which a fork switch fails: one that loses a block of
  the chain from the fork index, and one from which there is no way back.
 */
module ForkExamples {
  import opened Options
  import opened Forks
  import opened ForkSwitch

  /** Two branches off block 1: one of blocks with hash 0, one of blocks with hash 1. */
  function ExampleBlock(x: Id): Block
  {
    Block(x, if x.num <= 2 then Id(if x.num == 0 then 0 else x.num - 1, 0) else Id(x.num - 1, x.hash))
  }

  /**
    Blocks with hash 0 apply and make block 1 irreversible. The others are refused,
    but for the first of them where it commits: then it applies and makes itself irreversible.
   */
  function ExampleRules(commits: bool): Rules
  {
    (s: State, b: Block) =>
      if s.headId != b.previous || s.lib > 1 || b.id.num == 0 then None
      else if b.id.hash == 0 then Some(State(b.id, 1, 0))
      else if commits && b.id == Id(2, 1) then Some(State(b.id, 2, 0))
      else None
  }

  lemma ExampleLawful(commits: bool)
    ensures Identifying(ExampleBlock) && Lawful(ExampleRules(commits))
  {
  }

  /** The n-th block that is pushed: 1 to m of the first branch, then 2 to m + 1 of the second. */
  function IdAt(m: nat, n: nat): Id
  {
    if n < m then Id(n + 1, 0) else Id(n - m + 2, 1)
  }

  ghost function ItemAt(m: nat, n: nat): Item
  {
    Item(ExampleBlock(IdAt(m, n)), if n == 0 then None else if n == m then Some(0) else Some(n - 1))
  }

  ghost function IndexAt(m: nat, n: nat): (r: map<Id, nat>)
    requires m >= 2
    ensures forall k: nat :: k < n ==> IdAt(m, k) in r && r[IdAt(m, k)] == k
    ensures forall id :: id in r ==> r[id] < n && IdAt(m, r[id]) == id
  {
    if n == 0 then map[] else IndexAt(m, n - 1)[IdAt(m, n - 1) := n - 1]
  }

  /** The fork database after n of the pushes. */
  ghost function Stage(m: nat, n: nat): Tree
    requires m >= 2
  {
    Tree(seq(n, (k: nat) => ItemAt(m, k)), IndexAt(m, n),
         if n == 0 then None else if n <= m then Some(n - 1) else if n < 2 * m then Some(m - 1) else Some(n - 1),
         if n == 0 then 1024 else if n <= m then n else m)
  }

  ghost function StateAt(k: nat): State
  {
    if k == 0 then State(NO_BLOCK, 0, 0) else State(Id(k, 0), 1, 0)
  }

  /** The chain after n of the pushes. */
  ghost function StatesAt(m: nat, n: nat): seq<State>
  {
    seq((if n <= m then n else m) + 1, (k: nat) => StateAt(k))
  }

  /** Up to the last block of the second branch, a push extends the chain or waits. */
  lemma StagePushed(m: nat, n: nat)
    requires m >= 2 && n < 2 * m
    ensures var u := Pushed(Stage(m, n), ExampleBlock(IdAt(m, n)));
      && Accepts(Stage(m, n), ExampleBlock(IdAt(m, n)))
      && u.items == Stage(m, n + 1).items && u.index == Stage(m, n + 1).index && u.head == Stage(m, n + 1).head
      && (n >= m ==> u == Stage(m, n + 1))
  {
    var t, b := Stage(m, n), ExampleBlock(IdAt(m, n));
    StageLinks(m, n);
    hide IdAt;
    assert Pushed(t, b).items == Stage(m, n + 1).items;
  }

  /** The next block is new, and links to the item that its own will refer to. */
  lemma StageLinks(m: nat, n: nat)
    requires m >= 2 && n < 2 * m
    ensures var t, b := Stage(m, n), ExampleBlock(IdAt(m, n));
      && b.id !in t.index && HeadNum(t) <= m && b.id.num > 0 && (b.id.num > HeadNum(t) <==> n < m || n == 2 * m - 1)
      && (n == 0 ==> b.previous == NO_BLOCK)
      && (n > 0 ==> b.previous != NO_BLOCK && b.previous in t.index && Some(t.index[b.previous]) == ItemAt(m, n).prev)
  {
    var t, b := Stage(m, n), ExampleBlock(IdAt(m, n));
    if n > 0 {
      var k := if n == m then 0 else n - 1;
      assert IdAt(m, k) in t.index && t.index[IdAt(m, k)] == k && b.previous == IdAt(m, k);
    }
  }

  lemma StageExtended(m: nat, n: nat)
    requires m >= 2 && n < m
    ensures ExtendedTree(Pushed(Stage(m, n), ExampleBlock(IdAt(m, n))), StateAt(n + 1)) == Stage(m, n + 1)
  {
    hide Pushed;
    StagePushed(m, n);
    var u := Pushed(Stage(m, n), ExampleBlock(IdAt(m, n)));
    assert HeadNum(u) == n + 1 && SizeFor(StateAt(n + 1)) == n + 1;
    assert ExtendedTree(u, StateAt(n + 1)).index == u.index;
  }

  /** How each push but the last one ends. */
  lemma StageOutcome(m: nat, n: nat, commits: bool, kept: nat)
    requires m >= 2 && n < 2 * m - 1
    ensures Identifying(ExampleBlock)
    ensures var b, last := ExampleBlock(IdAt(m, n)), StatesAt(m, n)[|StatesAt(m, n)| - 1];
      PushOutcome(Stage(m, n), ExampleBlock, ExampleRules(commits), StatesAt(m, n), kept, b)
        == (if n < m then Extended else Ignored)
      && (n < m ==> ExampleRules(commits)(last, b) == Some(StateAt(n + 1)))
  {
    hide Pushed, Accepts, SwitchOutcome, Identifying, Stage, NewHead, PlanAfter;
    ExampleLawful(commits);
    StageHead(m, n);
  }

  lemma StageHead(m: nat, n: nat)
    requires m >= 2 && n < 2 * m - 1
    ensures Accepts(Stage(m, n), ExampleBlock(IdAt(m, n)))
    ensures NewHead(Pushed(Stage(m, n), ExampleBlock(IdAt(m, n)))) == ExampleBlock(IdAt(m, if n < m then n else m - 1))
  {
    hide Pushed, Accepts;
    StagePushed(m, n);
  }

  lemma {:induction false} AncestorAt(x: Id, j: nat)
    requires 1 <= j <= x.num && x.hash <= 1
    ensures Identifying(ExampleBlock) && At(ExampleBlock, x, j) == Id(j, if j == 1 && x.num > 1 then 0 else x.hash)
    decreases x.num
  {
    ExampleLawful(true);
    if j < x.num {
      AncestorAt(ExampleBlock(x).previous, j);
    }
  }

  /** The branches part at block 1. */
  lemma ExampleParting(m: nat)
    requires m >= 2
    ensures Identifying(ExampleBlock) && Parting(ExampleBlock, Id(m + 1, 1), Id(m, 0)) == 1
    ensures At(ExampleBlock, Id(m + 1, 1), 1) == At(ExampleBlock, Id(m, 0), 1)
  {
    ExampleLawful(true);
    hide At, Identifying;
    AncestorAt(Id(m + 1, 1), 1);
    AncestorAt(Id(m, 0), 1);
    forall j | 1 < j <= m
      ensures At(ExampleBlock, Id(m + 1, 1), j) != At(ExampleBlock, Id(m, 0), j)
    {
      AncestorAt(Id(m + 1, 1), j);
      AncestorAt(Id(m, 0), j);
    }
    PartingFound(ExampleBlock, Id(m + 1, 1), Id(m, 0), 1, m - 1);
  }

  /** Both branches can be followed down to block 2. */
  lemma {:induction false} ExampleClimbs(m: nat, s: nat)
    requires m >= 2 && 0 < s < 2 * m
    ensures var t := Stage(m, 2 * m); Climbable(t.items, t.index, t.head, s, 2)
  {
    var t := Stage(m, 2 * m);
    assert t.items[s] == ItemAt(m, s);
    if IdAt(m, s).num > 2 {
      assert t.items[s - 1] == ItemAt(m, s - 1) && IdAt(m, s - 1) in t.index;
      ExampleClimbs(m, s - 1);
    }
  }

  lemma ExampleMeets(m: nat)
    requires m >= 2
    ensures Identifying(ExampleBlock)
    ensures var t := Stage(m, 2 * m); Meet(t.items, t.index, t.head, ExampleBlock, Id(m + 1, 1), Id(m, 0))
  {
    ExampleParting(m);
    hide At, Identifying, Climbable;
    var t := Stage(m, 2 * m);
    assert IdAt(m, 2 * m - 1) == Id(m + 1, 1) && IdAt(m, m - 1) == Id(m, 0);
    ExampleClimbs(m, 2 * m - 1);
    ExampleClimbs(m, m - 1);
    assert MeetAt(t.items, t.index, t.head, ExampleBlock, Id(m + 1, 1), Id(m, 0), 1);
  }

  /** The plan of the switch that the last push sets off. */
  ghost function ExamplePlan(m: nat, commits: bool): Plan
    requires m >= 2 && Identifying(ExampleBlock)
  {
    var t := Stage(m, 2 * m);
    PlanOf(t.items, t.index, t.head, ExampleBlock, ExampleRules(commits), StatesAt(m, m), 1, Id(m + 1, 1))
  }

  lemma LastPush(m: nat, commits: bool)
    requires m >= 2
    ensures Identifying(ExampleBlock)
    ensures var t, b, states := Stage(m, 2 * m - 1), ExampleBlock(Id(m + 1, 1)), StatesAt(m, m);
      && b == ExampleBlock(IdAt(m, 2 * m - 1)) && StatesAt(m, 2 * m - 1) == states
      && PlanAfter(t, ExampleBlock, ExampleRules(commits), states, 1, b) == ExamplePlan(m, commits)
      && PushOutcome(t, ExampleBlock, ExampleRules(commits), states, 1, b) == SwitchOutcome(ExamplePlan(m, commits))
      && ExamplePlan(m, commits).parting == 1 && ExamplePlan(m, commits).all == states
      && SwitchOutcome(ExamplePlan(m, commits)) in {Switched, Restored, Broken}
  {
    hide Pushed, Accepts, CanLeave, CanReturn, Complete, Identifying, Parting, Meet, Stage, Trail, At, NewHead;
    ExampleParting(m);
    LastTree(m);
    ExampleMeets(m);
    var last := StatesAt(m, m)[m];
    assert StatesAt(m, 2 * m - 1) == StatesAt(m, m) && last == State(Id(m, 0), 1, 0);
  }

  lemma LastTree(m: nat)
    requires m >= 2
    ensures var t, b := Stage(m, 2 * m - 1), ExampleBlock(Id(m + 1, 1));
      && b == ExampleBlock(IdAt(m, 2 * m - 1)) && Accepts(t, b) && Pushed(t, b) == Stage(m, 2 * m)
      && NewHead(Stage(m, 2 * m)) == b
  {
    hide Pushed, Accepts;
    StagePushed(m, 2 * m - 1);
  }

  /** What the second branch comes to. */
  lemma ExampleReached(m: nat, commits: bool)
    requires m >= 2 && Identifying(ExampleBlock) && ExamplePlan(m, commits).parting == 1
    ensures Reached(ExamplePlan(m, commits)) == if commits then [State(Id(2, 1), 2, 0)] else []
  {
    hide At, Identifying, Parting, Trail, Stage;
    var c := ExamplePlan(m, commits);
    AncestorAt(Id(m + 1, 1), 2);
    AncestorAt(Id(m + 1, 1), 3);
    assert c.all[1] == State(Id(1, 0), 1, 0);
    if commits {
      assert RunOn(c.apply, c.blockOf, c.newHead, State(Id(2, 1), 2, 0), 2) == [];
    }
  }

  lemma ExampleUsual(m: nat, commits: bool)
    requires m >= 2 && Identifying(ExampleBlock) && ExamplePlan(m, commits).parting == 1
    ensures 1 < |ExamplePlan(m, commits).all|
    ensures UsualOutcome(ExamplePlan(m, commits)) == if commits then Broken else Restored
  {
    ExampleReached(m, commits);
    hide Reached, Identifying, Parting, Trail, Stage, At;
  }

  /** Pushes the blocks of both branches but the last. */
  method PushBranches(m: nat, commits: bool) returns (chain: Chain)
    requires m >= 2
    ensures chain.Valid() && chain.Anchored() && fresh(chain) && fresh(chain.fork)
    ensures chain.TreeNow() == Stage(m, 2 * m - 1) && chain.states == StatesAt(m, m) && chain.oldest == 1
    ensures chain.apply == ExampleRules(commits) && chain.fork.blockOf == ExampleBlock
  {
    hide Identifying, Lawful, Played, Counted, ItemsValid, AnchoredIn, ExampleRules, Stage, StatesAt;
    ExampleLawful(commits);
    StageAtFirst(m);
    StatesLast(m);
    var fork := new ForkDatabase(ExampleBlock);
    chain := new Chain(fork, ExampleRules(commits), State(NO_BLOCK, 0, 0));
    for n := 0 to 2 * m - 1
      invariant chain.Valid() && fresh(chain) && fresh(chain.fork)
      invariant chain.apply == ExampleRules(commits) && chain.fork.blockOf == ExampleBlock
      invariant chain.TreeNow() == Stage(m, n) && chain.states == StatesAt(m, n)
      invariant chain.oldest == if n == 0 then 0 else 1
      invariant n > 0 ==> chain.Anchored()
    {
      PushNext(chain, m, n, commits);
    }
  }

  lemma StageAtFirst(m: nat)
    requires m >= 2
    ensures Stage(m, 0) == Tree([], map[], None, 1024) && StatesAt(m, 0) == [State(NO_BLOCK, 0, 0)]
  {
  }

  lemma StatesLast(m: nat)
    requires m >= 2
    ensures StatesAt(m, 2 * m - 1) == StatesAt(m, m)
  {
  }

  lemma StatesStep(m: nat, n: nat)
    ensures |StatesAt(m, n)| > 0
    ensures StatesAt(m, n + 1) == if n < m then StatesAt(m, n) + [StateAt(n + 1)] else StatesAt(m, n)
  {
  }

  lemma StageFresh(m: nat)
    requires m >= 2
    ensures |StatesAt(m, 0)| == 1 && Stage(m, 0).index == map[] && Stage(m, 0).head == None
  {
  }

  method PushNext(chain: Chain, m: nat, n: nat, commits: bool)
    requires m >= 2 && n < 2 * m - 1
    requires chain.Valid() && chain.apply == ExampleRules(commits) && chain.fork.blockOf == ExampleBlock
    requires chain.TreeNow() == Stage(m, n) && chain.states == StatesAt(m, n)
    requires chain.oldest == (if n == 0 then 0 else 1) && (n > 0 ==> chain.Anchored())
    modifies chain, chain.fork
    ensures chain.Valid() && chain.Anchored() && chain.oldest == 1
    ensures chain.TreeNow() == Stage(m, n + 1) && chain.states == StatesAt(m, n + 1)
  {
    hide Identifying, Lawful, Played, Counted, ItemsValid, AnchoredIn, Pushed, PushOutcome, ExtendedTree, ExampleRules,
      Stage, StatesAt, SwitchedTree, RestoredTree, RestoredKept, UsualOutcome, PlanAfter, RefusedTree, Accepts;
    StageOutcome(m, n, commits, chain.oldest);
    StagePushed(m, n);
    StatesStep(m, n);
    if n == 0 {
      StageFresh(m);
    }
    if n < m {
      StageExtended(m, n);
    }
    var outcome := chain.PushBlock(ExampleBlock(IdAt(m, n)));
  }

  /**
    None of the longer branch applies: the chain comes back, but block 1, which
    is on it and irreversible, is gone from the index when the old branch has at least three blocks.
   */
  method FailedSwitch(m: nat) returns (chain: Chain, outcome: Outcome)
    requires m >= 2
    ensures chain.Valid() && outcome == Restored && chain.states == StatesAt(m, m)
    ensures chain.states[1].headId in chain.fork.index <==> m <= 3
  {
    hide Identifying, Lawful, Played, Counted, ItemsValid, AnchoredIn, PushOutcome, ExampleRules, SwitchOutcome, Stage,
      UsualOutcome, Survivors, SwitchedTree, Reached, PlanAfter, ExamplePlan, Back, Pushed, Complete, CommittedBy;
    chain := PushBranches(m, false);
    ExampleLawful(false);
    LastPush(m, false);
    ExampleUsual(m, false);
    BlockOneSurvives(m);
    BlockOneIsOn(m);
    outcome := chain.PushBlock(ExampleBlock(Id(m + 1, 1)));
  }

  lemma BlockOneSurvives(m: nat)
    requires m >= 2 && Identifying(ExampleBlock) && ExamplePlan(m, false).parting == 1
    ensures 1 < |ExamplePlan(m, false).all|
    ensures Id(1, 0) in Survivors(ExamplePlan(m, false)) <==> m <= 3
  {
    hide Identifying, Reached, Parting, Trail, At, Survivors, KeptFrom, InTail, Stage, Keeps;
    ExampleReached(m, false);
    var c := ExamplePlan(m, false);
    BlockOneIndexed(m);
    SurvivesWithoutRun(c, Id(1, 0));
    BlockOneInRange(m);
  }

  /** What survives a switch in which no block applied. */
  lemma SurvivesWithoutRun(c: Plan, id: Id)
    requires Identifying(c.blockOf) && c.parting < |c.all| && Reached(c) == [] && id.num <= c.parting
    ensures id in Survivors(c) <==> id in c.index && KeptFrom(|c.all| - 1, c.all, c.parting + 1, id.num)
  {
    hide Reached, Identifying, At;
  }

  lemma BlockOneInRange(m: nat)
    requires m >= 2
    ensures KeptFrom(m, StatesAt(m, m), 2, 1) <==> m <= 3
  {
    var all := StatesAt(m, m);
    assert all[2] == State(Id(2, 0), 1, 0);
    assert Keeps(m, all[2], 1) <==> m <= 3;
  }

  lemma BlockOneIndexed(m: nat)
    requires m >= 2
    ensures Id(1, 0) in Stage(m, 2 * m).index
  {
    assert IdAt(m, 0) == Id(1, 0);
  }

  lemma BlockOneIsOn(m: nat)
    requires m >= 2
    ensures |StatesAt(m, m)| > 2 && StatesAt(m, m)[1].headId == Id(1, 0)
  {
  }

  /** The first block of the longer branch applies and is irreversible, the next is refused: there is no way back. */
  method NoWayBack(m: nat) returns (chain: Chain, outcome: Outcome)
    requires m >= 2
    ensures outcome == Broken
  {
    chain := PushBranches(m, true);
    ExampleLawful(true);
    hide Identifying, Lawful, Played, Counted, ItemsValid, AnchoredIn, PushOutcome, ExampleRules, SwitchOutcome, Stage,
      UsualOutcome, Survivors, SwitchedTree, Reached, PlanAfter, ExamplePlan, Back, Pushed, Complete, CommittedBy;
    LastPush(m, true);
    ExampleUsual(m, true);
    outcome := chain.PushBlock(ExampleBlock(Id(m + 1, 1)));
  }
}
