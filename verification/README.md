# A verified model of the chain's state machine and sync protocol

This project models the parts of a delegated-proof-of-stake blockchain node that
decide what the chain's state is and how nodes agree on it, and proves what they
promise, for every input and every run:

- **Ledger and stake** (`Stake`, `Books`, `Vesting`, `Snapshots`, `Operations`,
  `Ledger`, `Exceptions`): accounts, vesting shares, proxies, witness votes,
  withdraw routes, issue and burning. What each operation needs and does is
  stated once in `Operations`, and its result is determined. Every operation and
  every end-of-block step, from genesis on, keeps the invariants that the node
  states in `validate_invariants` and no longer evaluates.
- **Content rewards** (`Curves`, `Rewards`): votes on comments, curation weights
  and the payout of the reward fund, joined with the ledger in `Economy`;
  **discussion trees** (`Comments`).
- **Witness scheduler** (`Scheduler`) in virtual time, and **irreversibility**
  (`Irreversibility`).
- **Forks** (`Forks` in `ForkDatabase.dfy`, `ForkSwitch`, `ForkExamples`): the fork
  tree, branch search, and switching forks with the way back; the **block log** (`BlockLog`)
  byte by byte; **duplicate transactions** (`Dedupe`).
- **Sync protocol** (`Synopsis`, `Sync`): the two-part chain summary, the peer's
  answer, and the bookkeeping of announced and requested blocks.
- **Authorities** (`Authority`): the recursive, depth-limited, caching check.

Objects that the node changes in place are classes with a `Valid()` invariant;
their methods return `false` (or a verdict) where the node throws, and leave the
state to be restored as its undo session does. Other modules (`Sums`,
`Arithmetic`, `Payments`, `Options`) are helpers.

`dafny verify dfyconfig.toml` checks everything.

## What turned out to be false

Where the code does not meet a property one would expect, an input at which it
fails is given and the exact condition is proved.

- A deposit that a withdraw route turns into vests is counted before the
  payer's stake shrinks, so it can trip the assertion that no witness has more
  votes than there are shares, and with it the block. It does so exactly when,
  under some witness, the votes and the deposits that reach it exceed the shares
  (`Exceptions.RoutedDepositFails`, `Ledger.Database.DepositVests`,
  `Books.PayableWhenBacked`).
- Claiming a reward can lower the worth of a share (`Exceptions.ClaimLowersWorth`),
  and can leave shares without a fund (`Exceptions.ClaimWithoutBacking`), out of
  which a thousand vests or more would then be paid what is not there
  (`Vesting.WithdrawWithinFund`);
  `Ledger.Database.ClaimReward` says exactly when it does neither, and
  `Operations.BackedAlong` carries that over runs.
- A failed fork switch restores the chain state, but bringing the old branch back
  can trim blocks from the fork index that are on the chain: `set_max_size` runs
  while the fork head is still ahead of the chain
  (`ForkExamples.FailedSwitch`, `ForkSwitch.FailedSwitchDropsTheParting`).
  If irreversibility passes the parting on the new branch before a block of it is
  refused, there is no way back, and only then (`ForkExamples.NoWayBack`,
  `ForkSwitch.ReturnsUnlessCommitted`).
- The loop that completes a summary can read beyond the wanted ids when they do not
  follow the reference point (`Synopsis.ReadsBeyond`); `Synopsis.CreateSynopsisForPeer`
  says when.
- Rebuilding the index of a block log with exactly one block writes an empty
  index (`BlockLog.BlockLog.OpenAfterCrash` has the if-and-only-if).
- A block that a peer says it does not have, or that is asked of a peer that has
  just gone, stays on order without anyone being asked for it, and no later step of
  any kind asks for it again (`Sync.Node.OnNotAvailable`, `Sync.Node.Take`).
- An edit of a comment may name another parent, as long as its author and the
  length of its permlink are those of the real one; the tree is not affected
  (`Comments.EditUnderAnotherParent`, `Comments.Discussions.PostComment`).

## Model

| member | source | states |
|---|---|---|
| `Stake.SetProxyAcyclic` | libraries/chain/wls_evaluator.cpp:725-737 | pointing an account at a proxy from whose chain it cannot be reached keeps the proxy graph free of cycles |
| `Stake.PushFlow` | libraries/chain/database.cpp:975-1004 | handing a change of stake one proxy edge up closes the gap at that edge and opens the same one, a level higher, at the next |
| `Stake.DetachFlow` | libraries/chain/wls_evaluator.cpp:718-723 | taking an account out of a settled proxy graph leaves exactly its own levels as the gap |
| `Stake.AttachFlow` | libraries/chain/wls_evaluator.cpp:742-749 | hanging it under a new proxy reduces the rest to the gap of its levels there |
| `Stake.PushTally` | libraries/chain/database.cpp:1006-1027 | while a change travels up, the witness tallies are short by exactly what has not arrived |
| `Stake.SharesTelescope` | libraries/chain/database.cpp:2739-2743 | what each account counts for in the vote sum telescopes over proxy levels to the stake of all accounts, for chains of any length |
| `Stake.VoteSumIsVestSum` | libraries/chain/database.cpp:2736-2771 | in a settled graph the vote sum of validate_invariants equals the sum of all vests |
| `Stake.LevelsNonNegative` | libraries/chain/database.cpp:975-1027 | with acyclic proxies every level of every account is non-negative |
| `Stake.RecountAtMostVests` | libraries/chain/database.cpp:2819-2850 | no witness's recounted votes exceed the sum of all vests |
| `Books.WalkProxyChain` | libraries/chain/wls_evaluator.cpp:725-737 | the walk accepts a proxy iff the account is not on the first levels of its chain |
| `Books.ChainFreeNeverReaches` | libraries/chain/wls_evaluator.cpp:725-737 | a chain that passes the bounded walk never comes back to the account at any length |
| `Books.VotesAtLeastOwn` | libraries/chain/database.cpp:1029-1059 | a witness has at least the votes of any one account that votes for it |
| `Books.VoteCast` | libraries/chain/wls_evaluator.cpp:765-790 | adding or removing one vote record with its weight keeps tallies and records in agreement |
| `Books.DepositsAtMostTaken` | libraries/chain/database.cpp:1191-1250 | the routed parts of an instalment never add up to more than the instalment: the "Deposited more vests" assertion cannot fire |
| `Books.RouteChanged` | libraries/chain/wls_evaluator.cpp:699-708 | with routes valid before, the changed route's sum fits 16 bits, so the check cannot be fooled by wrap-around |
| `Books.PayableWhenBacked` | libraries/chain/database.cpp:1181-1274 | while the fund is worth its shares and fits an amount, an instalment can be paid iff the auto-vest deposits find headroom under every witness |
| `Books.PlainPays` | libraries/chain/database.cpp:1162-1281 | when nobody due routes an instalment as vests, none can then fail, also after others were paid |
| `Books.InstalmentExact` | libraries/chain/database.cpp:1181-1185 | an instalment is the rate, or the remainder of the request by the rate, and never more than what is left |
| `Books.InstalmentSteps` | libraries/chain/database.cpp:1162-1281 | paying one account moves its power-down one instalment on and no other account's |
| `Books.PoweredDownSteps` | libraries/chain/database.cpp:1162-1281 | the instalments that the loop pays are those of an undisturbed power-down |
| `Books.SteppedPays` | libraries/chain/database.cpp:1162-1281 | hence k instalments of the loop have paid min(k * rate, request) |
| `Books.PowerDownPaysAll` | libraries/chain/database.cpp:1162-1281 | an undisturbed power-down has paid min(k * rate, request) after k instalments and runs exactly until the request is paid |
| `Books.InstalmentSizes` | libraries/chain/database.cpp:1181-1268 | full rates first, then the request modulo the rate |
| `Books.QuarterOfAYear` | libraries/chain/wls_evaluator.cpp:585-650 | a power-down takes at least thirteen instalments (or as many as there are vests), never more than twenty-five, and at most fourteen from 156 vests on |
| `Vesting.DepositKeepsWorth` | libraries/chain/database.cpp:921-973 | vesting at the rounded-down price never lowers fund per share |
| `Vesting.WithdrawKeepsWorth` | libraries/chain/database.cpp:1223-1274 | withdrawing at the rounded-down price never lowers it, and never takes more than the fund has |
| `Vesting.WithdrawWithinFund` | libraries/chain/database.cpp:1223-1274 | a withdrawal takes more than the fund has iff the fund is empty and a thousand vests or more are withdrawn |
| `Vesting.WithdrawOwned` | libraries/chain/database.cpp:1223-1274 | no withdrawal leaves a fund without shares: the last share takes the last WLS with it |
| `Vesting.BackedConverts` | libraries/chain/database.cpp:1223-1274 | a fund worth its shares that fits an amount converts any part of its shares, and stays so |
| `Vesting.SharePriceIs` | libraries/chain/database.cpp:921-973 | what an amount converts to, both ways and with its 64-bit limit, is its rounded-down part of the fund or of the shares, or a thousand to one to begin with |
| `Vesting.RewardKeepsWorth` | libraries/chain/database.cpp:921-973 | a reward, which buys pending shares at the worth of fund and pending WLS together, never lowers what a share, pending or not, is worth |
| `Vesting.RoundTripLoses` | libraries/protocol/asset.cpp:160-177 | powering up and straight back down returns no more than was put in iff there are shares, or no fund, or nothing was put in; also for an empty fund, priced at the default rate |
| `Snapshots.SettledOnce` | libraries/chain/database.cpp:975-1059 | the votes that proxies and witnesses hold are determined by vests, proxies and vote records |
| `Snapshots.PaysOnce` | libraries/chain/database.cpp:1171-1279 | paying an instalment has one result |
| `Snapshots.PassStep` | libraries/chain/database.cpp:1162-1281 | a pass over the accounts due succeeds iff the next one can be paid and the pass from there on succeeds |
| `Snapshots.PassStuck` | libraries/chain/database.cpp:1162-1281 | a pass whose next account cannot be paid has no result |
| `Snapshots.PassesOnce` | libraries/chain/database.cpp:1162-1281 | a pass has one result at most |
| `Operations.StepOnce` | libraries/chain/database.cpp:2358-2364 | every operation and block step has one result |
| `Operations.StepOfClaim` | libraries/chain/wls_evaluator.cpp:1128-1152 | a claim leaves a backed fund without backing iff nothing is behind what is claimed while the fund is empty, and lowers the worth of a share iff its recorded price is below today's |
| `Operations.ClaimedInParts` | libraries/chain/wls_evaluator.cpp:1128-1133 | a pending reward claimed in parts brings all its WLS in the end, each part short of its pro-rata share by less than one |
| `Operations.RoundIsPaidInFull` | libraries/chain/database.cpp:1571-1585 | the producers of a round of twenty elected and one timeshare witness, normalized by their weights, get 21 times what is left for a block, up to rounding |
| `Operations.BackedAlong` | libraries/chain/database.cpp:2083-2089 | a run that starts with a fund worth its shares keeps it so exactly until such a claim |
| `Operations.WorthAlong` | libraries/chain/database.cpp:2083-2089 | while there are shares their worth never falls along a run without claims below the price |
| `Ledger.Database.constructor` | libraries/chain/database.cpp:1802-2001 | the genesis state satisfies every invariant |
| `Ledger.Database.AdjustWitnessVote` | libraries/chain/database.cpp:1040-1059 | fails iff the witness would exceed the shares |
| `Ledger.Database.AdjustWitnessVotes` | libraries/chain/database.cpp:1029-1038 | adds the weight to exactly the witnesses the account votes for |
| `Ledger.Database.AdjustProxied` | libraries/chain/database.cpp:975-1004 | propagating an array of changes up the proxy chain settles all slots and tallies |
| `Ledger.Database.AdjustProxiedBy` | libraries/chain/database.cpp:1006-1027 | so does the scalar form; it fails iff the end of the chain has no headroom |
| `Ledger.Database.AddVests` | libraries/chain/database.cpp:1203-1210 | a change of own vests with its propagation keeps the stake invariant, lifts exactly the witnesses voted for at the end of the proxy chain, and succeeds iff they have headroom |
| `Ledger.Database.SetProxy` | libraries/chain/wls_evaluator.cpp:713-755 | exact success condition; drops the account's votes and moves only vote slots, which are settled again |
| `Ledger.Database.VoteWitness` | libraries/chain/wls_evaluator.cpp:758-791 | exact success condition; one record, the count and the tally change, everything stays in agreement |
| `Ledger.Database.CreateWitness` | libraries/chain/wls_evaluator.cpp:64-97 | a new witness starts without votes and keeps the invariants |
| `Ledger.Database.RetallyWitnessVotes` | libraries/chain/database.cpp:2819-2850 | recounting every witness changes nothing |
| `Ledger.Database.CreateVesting` | libraries/chain/database.cpp:921-973 | turns WLS into shares or pending shares at the price of the fund, with and without what is pending, rounded down; books and stake stay in balance |
| `Ledger.Database.Transfer` | libraries/chain/wls_evaluator.cpp:565-573 | moves a balance iff it is there, conserving all totals |
| `Ledger.Database.TransferToVesting` | libraries/chain/wls_evaluator.cpp:575-583 | powers up for oneself or another iff the balance is there and converts, conserving all totals; a share keeps its worth |
| `Ledger.Database.CreateAccount` | libraries/chain/wls_evaluator.cpp:99-159 | succeeds iff the creator is the one allowed, offers the minimum fee and has it; the fee becomes the new account's vests; all invariants extend to the new account |
| `Ledger.Database.ClaimReward` | libraries/chain/wls_evaluator.cpp:1119-1155 | exact success condition; the fund gains all that is pending behind the shares for a full claim and the rounded-down pro-rata part for a partial one, and nothing is lost; when a share keeps its worth and when the fund stays backed, told from the state before |
| `Ledger.Database.WithdrawVesting` | libraries/chain/wls_evaluator.cpp:585-650 | exact success condition of starting, changing or stopping a power-down; the rate is a thirteenth of the request, rounded down, and at least one |
| `Ledger.Database.SetRoute` | libraries/chain/wls_evaluator.cpp:652-711 | succeeds iff the routes then sum to at most 100%; the 16-bit sum is exact |
| `Ledger.Database.DepositVests` | libraries/chain/database.cpp:1191-1215 | all auto-vest deposits of an instalment succeed iff under every witness its votes plus the deposits that reach it are at most the shares |
| `Ledger.Database.DepositSteem` | libraries/chain/database.cpp:1217-1246 | the other routed deposits succeed iff every one of them converts at the price of its turn; the fund after them is exact |
| `Ledger.Database.PayInstalment` | libraries/chain/database.cpp:1171-1279 | exact success condition over the state before; the routes and the owner get exactly their parts; totals are conserved and worth kept |
| `Ledger.Database.ProcessWithdrawals` | libraries/chain/database.cpp:1162-1281 | succeeds iff everybody due can be paid in turn, each in the state that the payments before leave, and then that is the result; every account due is paid at least once, exactly once when its next instalment is not due too, and nobody else; the supply and the worth of a share are kept; it cannot fail when nobody due routes as vests and the fund is worth its shares |
| `Ledger.Database.ClearNullAccount` | libraries/chain/database.cpp:1078-1135 | everything the null account holds is burned from the supply, and only that |
| `Ledger.Database.ProcessFunds` | libraries/chain/database.cpp:1559-1603 | succeeds iff the producer's part converts; the content fund, the developers, the producer's vests and the supply grow by exactly their parts, each its percentage or weight of the inflation rounded down |
| `Ledger.Database.PayRewards` | libraries/chain/database.cpp:1302-1344 | succeeds iff every payment converts at the price of its turn; each account gets exactly its payments and the shares they bought as pending balance, and the fund pays them |
| `Ledger.Database.Apply` | libraries/chain/database.cpp:2358-2364 | succeeds iff the operation's own condition holds; the result is the only one it can have, and a failed one changes nothing; only a claim can lower the worth of a share or leave the fund without backing, and exactly when |
| `Ledger.Database.Run` | libraries/chain/database.cpp:2083-2089 | over any run the invariants hold, as the disabled per-block check would confirm, and every state on the way is determined; a backed fund stays backed unless a claim empties it |
| `Ledger.Database.RoundTripNeverGains` | libraries/protocol/asset.cpp:160-177 | in no state that a run reaches does powering up and straight back down return more than was put in |
| `Ledger.Database.ValidateInvariants` | libraries/chain/database.cpp:2715-2775 | in every valid state the node's own check finds nothing |
| `Exceptions.RoutedDepositFails` | libraries/chain/database.cpp:1191-1215 | a run from genesis (power up, vote, route to oneself as vests, power down) after which the withdrawal loop fails |
| `Exceptions.ClaimLowersWorth` | libraries/chain/wls_evaluator.cpp:1128-1152 | a run from genesis in which claiming one pending share lowers the worth of a share |
| `Exceptions.ClaimWithoutBacking` | libraries/chain/wls_evaluator.cpp:1128-1152 | a run from genesis in which a claim leaves a share without any fund behind it |
| `Curves.CurveMonotone` | libraries/chain/util/reward.cpp:70-97 | all four reward curves are monotone |
| `Curves.CurveFits` | libraries/chain/util/reward.cpp:70-97 | in 128-bit arithmetic no curve overflows for a signed 64-bit number of rshares |
| `Curves.CurveValues` | libraries/chain/util/reward.cpp:70-97 | the value of each curve, up to rounding, without reference to how it is computed |
| `Curves.SqrtMonotone` | libraries/chain/util/reward.cpp:18-37 | the bit-level approximate square root is monotone |
| `Curves.SqrtAccurate` | libraries/chain/util/reward.cpp:18-37 | the approximate square root is one: its square exceeds the number by an eighth at most, and the next square exceeds the number |
| `Rewards.FirstVote` | libraries/chain/wls_evaluator.cpp:899-990 | exact condition for a first vote; it keeps weights within the total and the total within the curve at the upvotes; under half an hour the voter keeps its weight by age over half an hour, rounded down |
| `Rewards.ChangeVote` | libraries/chain/wls_evaluator.cpp:993-1059 | so does a changed vote, which gives up its weight |
| `Rewards.PayCurators` | libraries/chain/database.cpp:1302-1344 | claims never exceed the curation budget; what is paid and what is left add up to it |
| `Rewards.PayBeneficiaries` | libraries/chain/database.cpp:1376-1387 | beneficiaries get their rounded-down shares and never more than the author's tokens |
| `Rewards.DivideReward` | libraries/chain/database.cpp:1370-1393 | the budget of the curators is their percentage, each claim its share of the budget by weight, each beneficiary's part its percentage of the author's amount, all rounded down, and everybody is paid exactly the sum of theirs; curators get at most their percentage, the author and the beneficiaries at least the other one; what is claimed is what is paid |
| `Rewards.VoterReceives` | libraries/chain/database.cpp:1317-1338 | a voter who is neither author nor beneficiary gets exactly the claim of their vote |
| `Rewards.RewardWithinShare` | libraries/chain/util/reward.cpp:39-68 | a comment's reward is at most its share of the fund |
| `Rewards.NoReward` | libraries/chain/util/reward.cpp:39-68 | there is no reward iff nothing is claimed or the share does not fit 63 bits |
| `Rewards.CashoutComment` | libraries/chain/database.cpp:1353-1452 | fails iff there is no reward; otherwise the reward is the comment's share of the fund, zeroed below the minimum and capped at the maximum, and it is split among curators, beneficiaries and author by percentage and weight, receiver by receiver; the payments add up to what is claimed, within the share |
| `Rewards.CashoutCannotFail` | libraries/chain/database.cpp:1454-1551 | while the balance fits 63 bits and the claims of comments due are positive no payout can fail |
| `Rewards.ValidateBeneficiaries` | libraries/protocol/wls_operations.cpp:94-114 | accepts iff strictly ascending, at most 127, and at most 100% in all |
| `Rewards.Content.CastVote` | libraries/chain/wls_evaluator.cpp:793-1069 | succeeds iff the vote is allowed; the comment voted on becomes exactly what a first, changed or late vote makes of it, no other changes, and every comment's weights stay in order |
| `Rewards.Content.SetOptions` | libraries/chain/wls_evaluator.cpp:366-388 | exact success condition; options and beneficiaries keep the shares within 100% |
| `Rewards.Content.ProcessCashout` | libraries/chain/database.cpp:1454-1551 | succeeds iff every due reward can be computed; exactly the due comments are settled; each due reward is measured by one snapshot and split by percentage and weight, and everybody is paid exactly what the splits give them; balance and payments add up to the old balance |
| `Rewards.Content.Run` | libraries/chain/database.cpp:1454-1551 | over any run of posts, votes, options, funding and cashouts the fund and all payments add up to what was put in |
| `Economy.PaymentsBelow` | libraries/chain/database.cpp:1454-1551 | whoever a block's cashout pays has an account |
| `Economy.StepFund` | libraries/chain/database.cpp:1559-1603 | apart from reward payments only the issue of a block moves the reward fund, by its content part |
| `Economy.Node.Operate` | libraries/chain/database.cpp:1559-1603 | any ledger step beside the content rewards: the content fund stays the ledger's |
| `Economy.Node.Cashout` | libraries/chain/database.cpp:1454-1551 | what a block's comments earn leaves the ledger's reward fund, which covers it, and is pending for the receivers; it fails iff a reward or a price does not fit |
| `Economy.Node.Run` | libraries/chain/database.cpp:1454-1551 | over any run of ledger and content events the reward fund is never negative, and is what was issued to it less what was paid |
| `Scheduler.Revoted` | libraries/chain/database.cpp:1040-1059 | after a change of votes the witness was last updated now and is due no earlier |
| `Scheduler.RevotedExact` | libraries/chain/database.cpp:1040-1059 | its position is what it has come at its old votes, and it is due when the rest of the lap is run at its new ones |
| `Scheduler.MoreVotesSooner` | libraries/chain/witness_schedule.cpp:117-133 | of two witnesses that start a lap together the one with more votes is due no later |
| `Scheduler.ElectedHaveMostVotes` | libraries/chain/witness_schedule.cpp:74-88 | no eligible witness left out has more votes than one elected |
| `Scheduler.RunnersAreDueFirst` | libraries/chain/witness_schedule.cpp:92-113 | timeshare slots go to the eligible non-elected witnesses with the smallest scheduled times |
| `Scheduler.ActiveCount` | libraries/chain/witness_schedule.cpp:140-142 | how many are chosen depends only on how many have a key |
| `Scheduler.ChosenAreBest` | libraries/chain/witness_schedule.cpp:74-113 | the two scans choose witnesses that can sign; none left out has more votes than an elected one or is due before a runner |
| `Scheduler.PassedInStep` | libraries/chain/witness_schedule.cpp:117-133 | starting new laps keeps last update, now and due time in order unless time overflows |
| `Scheduler.WitnessSchedule.AdjustVote` | libraries/chain/database.cpp:1040-1059 | keeps the run invariant; position and due time of the witness are exact, and no other witness changes |
| `Scheduler.WitnessSchedule.ResetVirtualTime` | libraries/chain/witness_schedule.cpp:10-28 | restores it from time zero, with every witness on a full lap by its votes |
| `Scheduler.WitnessSchedule.AdvanceTime` | libraries/chain/witness_schedule.cpp:101-138 | the clock moves on to the last due time reached; the witnesses passed start a lap by their votes there and the others keep theirs, or everything is reset exactly on overflow |
| `Scheduler.WitnessSchedule.Shuffle` | libraries/chain/witness_schedule.cpp:232-248 | the shuffle makes exactly the drawn swaps of the scheduled part, a permutation of it, and leaves the rest |
| `Scheduler.WitnessSchedule.UpdateSchedule` | libraries/chain/witness_schedule.cpp:68-256 | succeeds iff enough witnesses have keys; the schedule holds the chosen ones once each, in the drawn order; the witnesses passed start new laps by their votes and the others keep theirs; the clock never goes back but to zero |
| `Scheduler.WitnessSchedule.Round` | libraries/chain/witness_schedule.cpp:68-256 | happens iff enough witnesses can sign; the schedule is the most voted and the first due, in the drawn order; who is passed, and with what position, last update and due time anybody leaves the round, also after a reset; otherwise nothing changes |
| `Scheduler.WitnessSchedule.Run` | libraries/chain/witness_schedule.cpp:68-256 | over any run of new witnesses, key and vote changes and rounds nobody is updated in the future or due in the past, and the clock goes back only to zero |
| `Irreversibility.NthElement` | libraries/chain/database.cpp:2509-2517 | the element at the offset is the largest number that all but offset entries reach |
| `Irreversibility.QuorumsOverlap` | libraries/chain/database.cpp:2509-2517 | any two such quorums have at least half of the schedule in common |
| `Irreversibility.Chain.ApplyBlock` | libraries/chain/database.cpp:2464-2526 | the irreversible block never moves back or passes the head; a block above its old value becomes irreversible iff witnesses in at least 75% of the places of the schedule confirmed it |
| `Irreversibility.Chain.Run` | libraries/chain/database.cpp:2477-2526 | along any run, across the change of rules, it is non-decreasing and within the head |
| `Dedupe.AdmissibleIsFresh` | libraries/chain/database.cpp:2302-2345 | whatever passes the duplicate and expiry checks has not been applied, not even in block 1 |
| `Dedupe.FreshIsAdmissible` | libraries/chain/database.cpp:2302-2345 | inside its window a transaction is refused only if it was applied |
| `Dedupe.Prune` | libraries/chain/database.cpp:2556-2564 | dropping from the front in expiration order removes exactly the expired entries |
| `Dedupe.PruneKeepsGood` | libraries/chain/database.cpp:2556-2564 | after a block with a later time the index holds exactly the applied transactions that could still pass |
| `Dedupe.Chain.KeptPlays` | libraries/chain/database.cpp:696-736 | what was kept of the pending transactions can be applied in a row with the same result |
| `Dedupe.Chain.KeptFrom` | libraries/chain/database.cpp:696-736 | a transaction is kept iff it is in time and can be applied after those kept before it |
| `Dedupe.Chain.ApplyTransaction` | libraries/chain/database.cpp:2292-2368 | succeeds iff the transaction is unknown, in its window and in order otherwise; an accepted one is new to the chain |
| `Dedupe.Chain.ApplyBlock` | libraries/chain/database.cpp:2142-2233 | succeeds iff its time is later and each transaction can be applied after those before it; the new state is exact, and otherwise nothing changes |
| `Dedupe.Chain.Pop` | libraries/chain/database.cpp:790-808 | undoes one block and puts its transactions in front of the popped ones |
| `Dedupe.Chain.Push` | libraries/chain/database.cpp:615-637 | succeeds iff the transaction can be applied on top of the others, and else leaves no trace |
| `Dedupe.Chain.ExtendBy` | libraries/chain/database.cpp:452-473 | the block is accepted iff it applies to the head without the pending transactions; then exactly those popped and pending that can be applied after it, in that order, are pending |
| `Dedupe.Chain.Generate` | libraries/chain/database.cpp:659-783 | a generated block is always accepted when its time is later than the head's; it holds exactly the pending transactions that apply and have not expired by then, and none of them stays pending |
| `Dedupe.Chain.Run` | libraries/chain/database.cpp:2302-2354 | over any run of pushes, blocks, pops, commits and generated blocks no id is on the chain, or pending on top of it, twice |
| `Comments.RootExists` | libraries/chain/wls_evaluator.cpp:415-418 | every comment's root post exists and is above it |
| `Comments.PostKeepsCounts` | libraries/chain/wls_evaluator.cpp:490-504 | after a post the counts are the numbers of descendants |
| `Comments.DeleteKeepsCounts` | libraries/chain/wls_evaluator.cpp:317-337 | after deleting a leaf they are again |
| `Comments.Discussions.AdjustAncestors` | libraries/chain/wls_evaluator.cpp:492-504 | the walk ends by depth and changes exactly the comments on the path |
| `Comments.Discussions.PostComment` | libraries/chain/wls_evaluator.cpp:390-563 | exact conditions for a post and an edit; the new comment is exact, of the others only the counts on the way to the root change, and an edit changes nothing here |
| `Comments.Discussions.DeleteComment` | libraries/chain/wls_evaluator.cpp:299-338 | succeeds iff there is an unpaid comment without replies and without net support; of the others only the counts on the way to the root change |
| `Comments.EditUnderAnotherParent` | libraries/chain/wls_evaluator.cpp:515-526 | a run of three posts after which an edit that names another parent is accepted |
| `Comments.Discussions.RetallyChildren` | libraries/chain/database.cpp:2777-2817 | the recount gives the numbers of descendants from any counts, and changes nothing in a valid state |
| `Comments.Discussions.Run` | libraries/chain/wls_evaluator.cpp:299-338 | after any run of posts, edits, deletes, votes and payouts the counts are right and every root exists |
| `Forks.ForkDatabase.PushBlock` | libraries/chain/fork_database.cpp:51-71 | accepts iff recent enough and linked; the head is the highest block |
| `Forks.ForkDatabase.SetMaxSize` | libraries/chain/fork_database.cpp:94-110 | removing the lowest entry repeatedly leaves exactly those in range |
| `Forks.ForkDatabase.PopBlock` | libraries/chain/fork_database.cpp:16-22 | the head steps back iff its predecessor is still held by someone |
| `Forks.BranchIds` | libraries/chain/fork_database.cpp:168-210 | a branch followed through predecessors holds the ancestors, one number after the other |
| `Forks.PartedCommon` | libraries/chain/fork_database.cpp:183-208 | where two branches first share a predecessor is the highest common ancestor, or the predecessor of the lower block when it is an ancestor of the other |
| `Forks.ForkDatabase.FetchBranchFrom` | libraries/chain/fork_database.cpp:168-210 | linked branches that part at the highest common ancestor (or below the lower block when it is an ancestor of the other), each the exact trail of predecessors; succeeds iff both trails can be followed to there |
| `Forks.ForkDatabase.WalkMainBranchToNum` | libraries/chain/fork_database.cpp:212-221 | gives the head's ancestor with that number iff it can be reached |
| `Forks.ForkDatabase.FetchOnMainBranchByNumber` | libraries/chain/fork_database.cpp:223-231 | the ancestor of the head, or the only block of that number |
| `ForkSwitch.SameRun` | libraries/chain/database.cpp:547-553 | two runs from one state over the same blocks reach the same states |
| `ForkSwitch.RestoreCannotFail` | libraries/chain/database.cpp:547-553 | the old branch applies again and gives the old states |
| `ForkSwitch.RunIs` | libraries/chain/database.cpp:520-530 | states along the new branch that stop at its end or at a refused block are the run that the rules determine |
| `ForkSwitch.LeavesFreely` | libraries/chain/database.cpp:515-517 | the old branch can be popped while the fork head retreats along the new one, whatever its length |
| `ForkSwitch.ReachedFacts` | libraries/chain/database.cpp:520-530 | the run on the new branch continues the chain: its heads are the ancestors of the new head in order |
| `ForkSwitch.ReturnsUnlessCommitted` | libraries/chain/database.cpp:540-553 | after a refusal one above the chain there is a way back iff the run committed nothing beyond the parting |
| `ForkSwitch.FailedSwitchSpares` | libraries/chain/database.cpp:531-554 | from the parting on, the index then loses exactly the refused block and its successors when at most two old blocks are unmatched by the run |
| `ForkSwitch.FailedSwitchDropsTheParting` | libraries/chain/database.cpp:2553-2554 | when all up to the parting is irreversible its block stays in the index iff at most two old blocks are unmatched |
| `ForkSwitch.AnchoredHead` | libraries/chain/database.cpp:506-511 | when no block is above the chain, a pushed block that makes a switch is exactly one above it |
| `ForkSwitch.AnchoredSwitch` | libraries/chain/database.cpp:506-560 | and then the switch can start iff nothing beyond the parting was committed |
| `ForkSwitch.Chain.ApplyBlock` | libraries/chain/database.cpp:2528-2553 | applies a block, commits what became irreversible, trims the fork index |
| `ForkSwitch.Chain.PopBlock` | libraries/chain/database.cpp:790-808 | exact condition for popping; committed states are not undone |
| `ForkSwitch.Chain.PopTo` | libraries/chain/database.cpp:516-517 | pops down to a number iff nothing beyond it was committed and every step back is possible; the states are cut there |
| `ForkSwitch.Chain.SwitchFork` | libraries/chain/database.cpp:506-560 | how it ends is a function of the state before: switched iff the rules accept the whole new branch, and then the states are the old ones up to the parting and the run; restored iff a block is refused and there is a way back, and then exactly the old states; fork index, fork head, size and oldest revision after each |
| `ForkSwitch.Chain.PushBlock` | libraries/chain/database.cpp:495-577 | when a pushed block is refused, ignored, extends the chain, switches it, fails to, or breaks it, told from the state before, with the exact states, fork tree and oldest revision after each; extending, ignoring and switching keep the fork tree anchored to the chain, and from there a failed switch breaks the chain iff something beyond the parting was committed |
| `ForkExamples.FailedSwitch` | libraries/chain/database.cpp:531-554 | runs of pushes after which a failed switch restores the chain; a block that is on it is gone from the index iff the old branch has at least three blocks |
| `ForkExamples.NoWayBack` | libraries/chain/database.cpp:540-553 | runs of pushes after which a switch commits beyond the parting before a block is refused, and cannot be taken back |
| `BlockLog.DecodeEncode` | libraries/chain/block_log.cpp:196-198 | eight-byte positions read back |
| `BlockLog.LittleEndian` | libraries/chain/block_log.cpp:196-198 | positions are stored lowest byte first |
| `BlockLog.HeadsTell` | libraries/chain/block_log.cpp:136-158 | the last positions of two append histories agree iff the histories do |
| `BlockLog.BlockLog.Append` | libraries/chain/block_log.cpp:185-205 | succeeds iff the block is the next in number; both files grow at the end |
| `BlockLog.BlockLog.ReadBlock` | libraries/chain/block_log.cpp:213-226 | at a block's start gives the block and the start of the next |
| `BlockLog.BlockLog.GetBlockPos` | libraries/chain/block_log.cpp:244-258 | the start of the k-th block for every k in range, and npos otherwise |
| `BlockLog.BlockLog.ReadBlockByNum` | libraries/chain/block_log.cpp:228-242 | gives the k-th appended block for every k in range and nothing otherwise |
| `BlockLog.BlockLog.ReadHead` | libraries/chain/block_log.cpp:260-272 | gives the last appended block |
| `BlockLog.BlockLog.ConstructIndex` | libraries/chain/block_log.cpp:279-307 | rebuilds the incremental index, except for a single block |
| `BlockLog.BlockLog.Open` | libraries/chain/block_log.cpp:92-172 | keeps the index iff it ends at the log's last position, else rebuilds or empties it |
| `BlockLog.BlockLog.OpenAfterCrash` | libraries/chain/block_log.cpp:125-172 | an index that is a shorter or longer append history is repaired iff the log is not a single block without its index |
| `Synopsis.MarksJoin` | libraries/net/node.cpp:2356-2374 | the two parts join to the one-pass summary wherever it is cut |
| `Synopsis.MarksIncrease` | libraries/app/application.cpp:862-873 | the summary is strictly increasing, from the first block to exactly the last |
| `Synopsis.MarksCount` | libraries/app/application.cpp:862-873 | n blocks give exactly floor(log2 n) + 1 entries |
| `Synopsis.FindExtent` | libraries/app/application.cpp:764-852 | which blocks are summarised, in each case of the reference point |
| `Synopsis.ExtentFits` | libraries/app/application.cpp:764-852 | the segment to summarise runs to the reference point, or to the head without one, from the last irreversible block, and its ids are there |
| `Synopsis.GetBlockchainSynopsis` | libraries/app/application.cpp:758-880 | the ids at the marks of the segment up to the reference point, iff all of them are found; every failure has its case |
| `Synopsis.FollowingIsSummarized` | libraries/net/node.cpp:2356-2374 | a reference point that is known, followed by the announced ids, always gives a summary: the segment is not empty and the loop stays within the ids |
| `Synopsis.FollowingIsSeamless` | libraries/net/node.cpp:2356-2374 | it is the one-pass summary of the joined chain and ends at the last wanted id |
| `Synopsis.CreateSynopsisForPeer` | libraries/net/node.cpp:2329-2376 | gives a summary iff the chain's part is found and no mark falls outside the wanted ids; what it holds in every case |
| `Synopsis.ReadsBeyond` | libraries/net/node.cpp:2356-2374 | a chain and a list of wanted ids for which the loop reads beyond the list |
| `Synopsis.CheckAnswer` | libraries/net/node.cpp:2416-2483 | accepts iff the ids are consecutive and start in the synopsis, or at block 1 for an empty one |
| `Synopsis.LastKnownRecognized` | libraries/app/application.cpp:644-654 | the scan from the back finds the last entry that is on the chain |
| `Synopsis.GetBlockIds` | libraries/app/application.cpp:619-673 | answers iff an entry is recognised; the ids from there on, up to the limit or the head, beyond the entry if the head is, and the count of the rest; the answer passes the check |
| `Synopsis.BringsFurther` | libraries/app/application.cpp:619-673 | a requester whose last summarised block the responder has gets that block and blocks after it |
| `Synopsis.Exchange` | libraries/net/node.cpp:2408-2483 | a request is made iff its extent can be summarised and answered iff the responder recognises an entry; an honest answer is never rejected, and goes on to the limit or to the responder's head |
| `Sync.ConsecutiveJoin` | libraries/net/node.cpp:2578-2605 | joining at the common id keeps a run of numbers, and the two lists do not repeat an id at the seam |
| `Sync.MergeLists` | libraries/net/node.cpp:2524-2608 | the merged list is a run of numbers, in the ordinary case and after the peer switched forks |
| `Sync.Node.OnInventory` | libraries/net/node.cpp:2408-2631 | keeps all invariants; an unacceptable answer only disconnects the peer; an acceptable one ends the synchronisation or makes the peer's list the merged one |
| `Sync.Node.StartSynchronizing` | libraries/net/node.cpp:3916-3926 | forgets the announced ids and starts afresh; nothing of the peer's orders changes |
| `Sync.Node.ScheduleRequests` | libraries/net/node.cpp:976-1012 | plans only blocks that are announced, not at hand, not on order, each once; and every such block of an idle peer is planned or the peer's plan is full |
| `Sync.Node.SendNext` | libraries/net/node.cpp:954-966 | sending a planned request keeps every block on order from at most one peer |
| `Sync.Node.OnBlock` | libraries/net/node.cpp:3536-3550 | a block is taken only from the peer it was asked of, and then asked of nobody |
| `Sync.Node.OnNotAvailable` | libraries/net/node.cpp:2798-2815 | the peer's order is dropped, and the block is stranded; the peer is inhibited or disconnected and nothing else changes |
| `Sync.Node.ProcessBacklog` | libraries/net/node.cpp:3247-3320 | a block leaves the front of every list it heads and is marked as being processed, and nothing else of a peer changes; the lists stay runs |
| `Sync.Node.OnProcessed` | libraries/net/node.cpp:3080-3170 | the client's verdict changes no list and no order; what it changes of each peer that offered the block is exact |
| `Sync.Node.OnClosed` | libraries/net/node.cpp:2990-2997 | the closed peer's blocks, and no others, are no longer on order |
| `Sync.Node.Take` | libraries/net/node.cpp:954-1018 | every step keeps the invariants; a stranded block stays stranded, and a block becomes so exactly when its peer does not have it, or when it is asked of a peer that has gone |
| `Sync.Node.Run` | libraries/net/node.cpp:954-1018 | under every interleaving the peers' orders are disjoint and on order, and announced ids are runs |
| `Authority.LeastIsClosed` | libraries/protocol/sign_state.cpp:25-60 | the least closed set of agreeing accounts is a fixed point |
| `Authority.LevelInLeast` | libraries/protocol/sign_state.cpp:25-60 | the plain recursion of any depth stays inside it |
| `Authority.LeastIsAnyLevel` | libraries/protocol/sign_state.cpp:25-60 | it is what the plain recursion finds with no limit on depth |
| `Authority.SatisfiedAtSomeDepth` | libraries/protocol/sign_state.cpp:25-60 | whatever is satisfied in the fixed point is accepted by the plain recursion at some depth |
| `Authority.CycleIsNotSatisfied` | libraries/protocol/sign_state.cpp:42-58 | accounts that only vouch for each other never agree |
| `Authority.LeastGrows` | libraries/protocol/sign_state.cpp:25-60 | more signatures bring more accounts into agreement and lose none |
| `Authority.FewEntriesDoNotWrap` | libraries/protocol/sign_state.cpp:25-60 | an authority with at most 65537 entries cannot wrap the 32-bit sum, so for it the check and the plain sum agree |
| `Authority.StopsAtThreshold` | libraries/protocol/sign_state.cpp:25-38 | an authority whose keys suffice asks no account, and consults no key after the one that reaches the threshold |
| `Authority.SignState.SignedBy` | libraries/protocol/sign_state.cpp:6-17 | says whether the key signs, and records that it was consulted |
| `Authority.SignState.CheckName` | libraries/protocol/sign_state.cpp:19-23 | accepted accounts agree in the fixed point of the signatures consulted so far; those the plain recursion accepts are accepted; answer and records are those of the recursion step by step |
| `Authority.SignState.Check` | libraries/protocol/sign_state.cpp:25-60 | between the depth-limited recursion on all signatures and the least fixed point of those consulted so far, for every graph; only mentioned keys are consulted, and which ones is exact |
| `Authority.SignState.Agrees` | libraries/protocol/sign_state.cpp:40-58 | the cache only ever holds accounts that agree by the signatures consulted so far |
| `Authority.SignState.RemoveUnusedSignatures` | libraries/protocol/sign_state.cpp:62-72 | reports iff some signature was never consulted |
| `Authority.PostBySufficientKeys` | libraries/protocol/transaction.cpp:117-138 | a post by one account whose keys suffice is accepted iff every signature is by a key up to the one that reaches the threshold |
| `Authority.VerifyAuthority` | libraries/protocol/transaction.cpp:85-172 | accepts only if every required authority holds and every signature is mentioned by one; names a missing authority only if the plain recursion refuses it; finds a signature irrelevant only if everything holds without one, so a transaction in which each is needed is accepted; the verdict is that of the checks in order |

## Left out

- Serialization, hashing, signatures and key recovery: ids identify blocks and transactions, a packed block unpacks to itself wherever it stands.
- 64-bit overflow of amounts: amounts are unbounded, and a conversion outside the range of a signed 64-bit amount counts as a failure.
- Rewards: the voting power that turns a percentage into rshares is a parameter, and the order in which curators and comments are paid is fixed.
- Ledger.Database.ProcessFunds: the inflation rate, the producer's weight and the normalization factor are parameters, and a negative supply is refused.
- Ledger.Database.PayRewards: the list of payments is a parameter; that a block's list does not overdraw the fund is stated in `Economy`, where the list is what the comments earn.
- Ledger.Database.CreateAccount: account names and authorities are not modelled.
- Ledger.Database.WithdrawVesting: the inflation share and the median account-creation fee are parameters.
- Withdraw routes to account id 0 are skipped by both scans of the code, and so they are here.
- The proxy-loop walk follows the proxy chain, which is what its code means to do with the address of a local copy.
- Scheduler.WitnessSchedule.Shuffle: the generator that draws the swaps is taken as it stands; nothing is claimed about its quality.
- Scheduler.WitnessSchedule.UpdateSchedule: witnesses with equal keys may come in any order; hardfork and version voting, and median properties, are not modelled.
- Irreversibility.Chain.ApplyBlock: producer and schedule of each block are parameters.
- Dedupe.Chain.Generate: the limit on the size of a block is not modelled.
- Dedupe.Chain.ApplyTransaction: authority, reference-block and operation checks are one deterministic parameter; the duplicate check is always on.
- Comments.Discussions.PostComment: the text, rate and metadata checks are one parameter; low-memory nodes, which count direct replies only, are not modelled.
- ForkSwitch.Chain.SwitchFork: the state after a switch without a way back is not described beyond its invariant. An exception thrown by a block after it trimmed the fork index is not modelled, nor are writing the block log and pushing popped transactions back, which are in `BlockLog` and `Dedupe`.
- ForkSwitch.Chain.PopBlock: the head block is looked up in the fork index only; the node also finds it in the block log once it is irreversible, where undoing does nothing and a switch cannot be completed either way.
- ForkSwitch.FailedSwitchSpares: what is left of the index is put in closed form for a new head one above the chain, which is the only one a push produces; for other heads `Survivors` is the statement.
- Forks: the unlinked index, which is never filled, and the invalid flag, which is never set, are not modelled.
- BlockLog: stream buffering, read and write modes and damaged files are not modelled; a file that would reach 2^64 bytes refuses the append.
- Synopsis.CreateSynopsisForPeer: where the loop would read beyond the wanted ids the model fails; the fork history of the reference point is a parameter, numbered consecutively.
- Sync: timeouts, hard-fork version checks and the normal-operation inventory are not modelled, apart from the disconnects they cause; the block-time plausibility of an answer is a parameter.
- Authority: the 32-bit sum of weights can wrap only with more than 65537 entries, which a transaction has no room for; then the check still never accepts too much, but may refuse what the plain sum accepts.
- Authority: lookups of authorities are total; a lookup that throws for a missing account ends the verification. Minimizing the set of signatures is not modelled.
- Account authority updates, custom operations, plugins, wallet, query interfaces, sockets, peer database and logging would add only easy members or foreign calls.
