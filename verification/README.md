# Seeker scheduler: a verified model of the mutation engine

The seeker scheduler gives every cpu a performance state. Once per interval a mutator picks new
states from hints that tasks left behind, under a budget `delta` on the total state change, and
puts cpus to sleep that the load does not need. This Dafny project models the mutators and what
they stand on, and proves what they promise.

| file | part of the scheduler |
|---|---|
| `Common.dfy` | shared records, sums and the distance between layouts |
| `Knapsack.dfy`, `DemandTransform.dfy`, `DynMutator.dfy`, `DynInterval.dfy` | the dynamic programming mutator (`mutate_dyn.c`) |
| `DynPlan.dfy`, `DynCost.dfy`, `DynCounts.dfy` | its intervals on values: runs, stale lists of awake cpus, what changes cost, and the counts |
| `Auction.dfy`, `AuctionSteps.dfy`, `AuctionRun.dfy`, `Interval.dfy`, `CommitSteps.dfy`, `GreedyMutator.dfy` | the greedy delta auction (`mutate_gd.c`) and its runs |
| `BidLaws.dfy`, `DemandLaws.dfy` | whom an auction sells to, who inherits demand and who pays, by distances and weights alone |
| `CountDrift.dfy`, `ActualCost.dfy`, `Witnesses.dfy` | what a greedy interval makes of counts and budget, with concrete intervals |
| `Power.dfy`, `SleepRuns.dfy` | waking and retiring cpus, and what sleep times count over runs (`mutate_common.c`) |
| `StateIndex.dfy` | masks and counts per state, speed changes, the load driven mutators (`state.c`, `mutate_od.c`, `mutate_cv.c`) |
| `TaskCount.dfy`, `Search.dfy`, `Ladder.dfy` | task counts, state search and the IPC ladder (`nrtasks.c`, `search_state.c`, `map_ipc.c`) |
| `LogQueue.dfy` | the log queue with locked writers and a lock-free reader (`log.c`) |

Run `dafny verify dfyconfig.toml` to check everything.

How the pieces are modelled:

- Arrays of the source are arrays here, with exactly one entry for each online cpu or each state
  in use; the knapsack table has one row more than cpus and as many columns as its bound on the
  budget asks for. Loops are loops; the long functions are cut into one method for each phase.
- Integers are unbounded except the sleep counters, which wrap at 2^32 as the source's unsigned
  counters do. The macro `div` truncates towards zero.
- Hints, task counts and the success of every speed change are read once for each interval and
  enter as array contents or parameters. Hints are never negative: they are only incremented and
  cleared.
- `get_winning_state` reads the bid matrix with index -1 when no cpu can win a state. The value
  read is a parameter (`junk`), so the theorems hold for every value.
- A speed change either works and informs the scheduler, or changes nothing; the range guard and
  driver errors of `freq.c` are such failures.
- In `LogQueue.dfy` every shared memory access is a step of its own and blocks may be reused by
  the allocator as soon as they are freed. The functions are also modelled as methods of a
  class, whose states are states of the step machine.

Where the code does not do what its comments or the README of the repository suggest:

- With load 0 the greedy mutator moves cpu 0 to state 0 without asking the budget
  (`AuctionRun.PlanCost` gives the exact condition, `Witnesses.LoadZeroOverspends` an interval).
- Cpus that go to sleep go to state 0 outside the budget: the actual change of an interval is the
  cost of its layout plus the states they give up (`ActualCost.ActualWithinLimit`,
  `DynCost.DynActualChange`; intervals in `Witnesses.SleeperOverspends`,
  `DynCost.RetiringOverspends`). The greedy mutator can put a cpu to sleep even when no more cpus
  are awake than needed, because sleeping cpus bid as well (`Witnesses.SleeperTakesOver`); it
  cannot when all cpus are needed or no auction is held.
- When the claims of the states add up to less than the load, late rounds charge demand that is
  not there and an entry becomes negative (`AuctionRun.AuctionKeepsAccounts` says exactly when,
  `ClaimsCoverLoad` what the caller can tell beforehand, `Witnesses.SaleOnCredit` is an interval).
- The counts installed by the commit are counted again by the callbacks of the speed changes that
  follow. After a greedy interval they are right exactly when no cpu changed its state
  (`CountDrift.CountsAgreeIffNothingMoved`, `Witnesses.OneMoveMiscounts`); after an interval of the
  dynamic programming mutator exactly when nobody retired from a state above 0 and the layout only
  rearranges the awake cpus (`DynCounts.CountsAgreeIffRearranged`). Their sum always survives.
- `retire_procs` leaves the list of awake cpus untouched when nobody has to retire.
  `DynPlan.ListIsCurrent` says when the list is current all the same; then the layout is optimal
  (`DynPlan.CurrentListIsOptimal`), which from the first retirement on covers every interval until
  the load rises (`DynPlan.RunPlansOptimally`). With a stale list the awake cpus it does not name
  are brought to states planned earlier, and the budget holds only if it has room for that
  (`DynCost.StaleListBudget`; at the start `StaleProxies`, `FirstLayoutCost`,
  `StaleProxiesOverspend`).
- The newest log entry is never delivered before another one is put
  (`LogQueue.DeliveredInOrder`).
- A cpu that sleeps for 2^32 - 1 intervals can no longer be picked by the wake-up scan, and one
  interval later its counter wraps to 0 (`Interval.SettleKeepsConsistent`).

## Model

| member | source | states |
|---|---|---|
| DynMutator.Mutator.Mck | Module/seeker-scheduler/mutate_dyn.c:173-260 | Solves the knapsack: `choices` is a layout of the proxied cpus that costs at most `w` and that no layout within `w` beats, and of all those the lowest: where another one differs from it last, the other is higher; its worth is the last table cell; it is what ends up in `newCpuState` through the proxies, distinct or not; every cell `(k, b)` holds the optimum of the first `k` cpus for budget `b`, has the lowest choice that attains it, and is monotone in `b`. |
| DynMutator.Mutator.TableMeaning | Module/seeker-scheduler/mutate_dyn.c:202-245 | In a filled table every cell is the exact optimum over all layouts of the first `k` cpus within `b`, never blank, its choice ends an optimal layout while every layout that ends below the choice is worth less, and does not fall when `b` grows. |
| DynMutator.Mutator.FillWeights | Module/seeker-scheduler/mutate_dyn.c:189-193 | The weight of cpu `i` for state `j` is the distance from its current state. |
| DynMutator.Mutator.ClearTable | Module/seeker-scheduler/mutate_dyn.c:195-200 | Every cell in use starts blank. |
| DynMutator.Mutator.ChooseFirst | Module/seeker-scheduler/mutate_dyn.c:204-211 | The scan over states for the first cpu finds the lowest of the best affordable states and its worth. |
| DynMutator.Mutator.ChooseNext | Module/seeker-scheduler/mutate_dyn.c:225-237 | The scan for a later cpu, on top of a finished row, finds the optimum and the lowest state that attains it. |
| DynMutator.Mutator.FillFirstRow | Module/seeker-scheduler/mutate_dyn.c:202-220 | Row 1 is exact for every budget. |
| DynMutator.Mutator.FillRow | Module/seeker-scheduler/mutate_dyn.c:223-245 | From an exact row `k - 1` row `k` becomes exact and the rows before stay exact. |
| DynMutator.Mutator.NextEntry | Module/seeker-scheduler/mutate_dyn.c:250-258 | The downward scan of the backtrack stops at the first cell that is not blank. |
| DynMutator.Mutator.TakeChoice | Module/seeker-scheduler/mutate_dyn.c:250-256 | At an exact cell the scan does not step down: the cell's own choice is taken and exactly its cost leaves the budget. |
| DynMutator.Mutator.Backtrack | Module/seeker-scheduler/mutate_dyn.c:247-259 | The walk back stays on an optimal path: cost so far plus budget left is `w`, the rest can still reach the optimum, and no optimal layout is lower from there on. |
| DynMutator.ScatterDistinct | Module/seeker-scheduler/mutate_dyn.c:252-253 | Written through distinct proxies every choice arrives at its cpu and no other cpu is touched. |
| Knapsack.BestIsUpperBound | Module/seeker-scheduler/mutate_dyn.c:155-172 | No layout within the budget is worth more than the recursion says. |
| Knapsack.BestIsOptimum | Module/seeker-scheduler/mutate_dyn.c:155-172 | The recursion is attained: it is the maximum over all layouts within the budget. |
| Knapsack.BestMonotone | Module/seeker-scheduler/mutate_dyn.c:212-216 | A larger budget is never worth less, so the copy from the cell to the left never happens. |
| Knapsack.BestIsPositive | Module/seeker-scheduler/mutate_dyn.c:289-292 | With positive demands staying put is affordable and worth something, which the fill relies on. |
| Knapsack.NoneBelowMeaning | Module/seeker-scheduler/mutate_dyn.c:207-236 | A choice that is the first to attain its value means: every layout within the budget that ends in a lower state is worth strictly less. |
| DynMutator.LowestStep | Module/seeker-scheduler/mutate_dyn.c:247-259 | Taking the cell's choice while walking back keeps the choices lowest: every optimal layout agrees with them or is higher where it differs last. |
| DynMutator.LowestIsUnique | Module/seeker-scheduler/mutate_dyn.c:173-260 | There is one lowest optimal layout, so the result of the knapsack is determined. |
| DynMutator.Mutator.DeltaBasedDemandTransform | Module/seeker-scheduler/mutate_dyn.c:105-153 | Demands become those of the step-by-step transfer to friends, for the states reachable within delta, of which there is one. |
| DynMutator.Mutator.MarkReachable | Module/seeker-scheduler/mutate_dyn.c:112-122 | A state is marked exactly when some proxied cpu is within delta of it. |
| DynMutator.Mutator.Neighbours | Module/seeker-scheduler/mutate_dyn.c:129-141 | The two scans find the nearest reachable states on both sides. |
| DynMutator.Mutator.PickFriend | Module/seeker-scheduler/mutate_dyn.c:142-150 | The friend is the nearer neighbour, ties to the larger demand. |
| DemandTransform.FriendIsNearest | Module/seeker-scheduler/mutate_dyn.c:142-150 | The friend is reachable, no reachable state is nearer, and among equally near ones it has the larger demand, or the higher index. |
| DemandTransform.TransformGift | Module/seeker-scheduler/mutate_dyn.c:124-152 | Each state out of reach hands its own demand to the reachable state that is nearest, ties by the demands as they are by then, earlier gifts included, then the higher state; otherwise nothing changes. |
| DemandTransform.TransformConserves | Module/seeker-scheduler/mutate_dyn.c:124-152 | After each state the reachable states have gained exactly the stranded demand seen so far, and unreachable states keep theirs. |
| DemandTransform.TransformLosesNothing | Module/seeker-scheduler/mutate_dyn.c:105-153 | Afterwards the reachable states together hold the demand all states held before. |
| DemandTransform.TransformGrows | Module/seeker-scheduler/mutate_dyn.c:151 | No demand shrinks, so demands stay positive. |
| DemandTransform.WithinBudgetIsReachable | Module/seeker-scheduler/mutate_dyn.c:207-211 | A layout within budget delta never uses a state that cannot win. |
| DemandTransform.ReachableIsUsable | Module/seeker-scheduler/mutate_dyn.c:112-122 | A state that can win is used by some layout within budget delta. |
| DemandTransform.SomeReachable | Module/seeker-scheduler/mutate_dyn.c:112-122 | Some state can win exactly when delta is not negative. |
| DynInterval.DynScheduler.MemDynamicProg | Module/seeker-scheduler/mutate_dyn.c:272-356 | One interval is a step of a run (`DynPlan.DynStep`): who wakes and retires, the lowest optimal layout for the proxied cpus written through the proxies, the exact new cpu states and sleep times. Exactly max(1, load) cpus are awake and committed, hints are cleared, and masks and counts are what all callbacks make of the committed ones, with their total kept. |
| DynInterval.DynScheduler.ChooseAwake | Module/seeker-scheduler/mutate_dyn.c:300-302 | Exactly the required cpus are awake; with more awake than required the proxies are exactly the awake cpus, otherwise the old proxies remain. |
| DynInterval.DynScheduler.FinishInterval | Module/seeker-scheduler/mutate_dyn.c:309-337 | The commit describes exactly the awake cpus in their planned states; speeds, sleep times and totals afterwards; what sleep times mean over runs is `SleepRuns.DynSleepTimeCounts`. |
| DynPlan.CurrentListIsOptimal | Module/seeker-scheduler/mutate_dyn.c:301-307 | Whenever the list names exactly the awake cpus, their layout is the lowest of those optimal within the budget, uses only reachable states, and the demands it is optimal for are worth what all states asked for; sleepers keep their planned states. |
| DynPlan.ListIsCurrent | Module/seeker-scheduler/mutate_common.c:218-252 | The exact condition for a current list, checkable before the interval: somebody has to retire, or the old list names the cpus that will be awake after waking up. |
| DynPlan.SteadyListIsCurrent | Module/seeker-scheduler/mutate_common.c:226-228 | With exactly the required cpus awake nobody wakes or retires, and the list is current afterwards exactly if it was before. |
| DynPlan.RunPlansOptimally | Module/seeker-scheduler/mutate_dyn.c:300-307 | Over any run from all cpus awake: from an interval that retires somebody on, as long as the load does not rise, every interval has a current list and plans optimally. |
| DynPlan.ReadyCount | Module/seeker-scheduler/mutate_dyn.c:300-302 | Waking and retiring, from the exit condition of the retiring scan and one snapshot of task counts, end with exactly the required cpus awake and awake and sleep time consistent. |
| DynPlan.DynStepKeepsPower | Module/seeker-scheduler/mutate_dyn.c:300-337 | One interval of this mutator, too, keeps the power invariant, leaves max(1, load) cpus awake, and keeps sleepers in state 0 if every speed change works, stale sleep marks or not; the number of awake cpus is derived from the waking and retiring steps. |
| DynPlan.DynRunKeepsPower | Module/seeker-scheduler/mutate_common.c:90-113 | The same after every interval of any run that starts with all cpus awake, until a sleep counter can overflow. |
| DynPlan.RunStaysInRange | Module/seeker-scheduler/mutate_dyn.c:304-337 | Over any run present and planned states stay in the range of states. |
| DynCounts.ToldAsInformed | Module/seeker-scheduler/mutate_dyn.c:326-337 | When every speed change works, a cpu with a stale sleep mark that is asked to go to state 0 and then to its planned state leaves the same masks and counts as one that goes there directly. |
| DynCounts.CountsAgreeIffRearranged | Module/seeker-scheduler/mutate_dyn.c:309-337 | The exact condition for a whole interval in which every speed change works: afterwards every count is the size of its mask exactly when no sleeping cpu left its state and the layout only rearranges the awake cpus, with as many in each state as before. |
| DynCost.StaleListCost | Module/seeker-scheduler/mutate_common.c:226-228 | For any list, stale or not, the layout of the awake cpus costs what the listed ones cost, which is at most the budget, plus the distances from the present to the earlier planned states of those that are not listed. |
| DynCost.StaleListBudget | Module/seeker-scheduler/mutate_common.c:226-228 | So the budget is respected exactly if the rest of it pays for the cpus not listed; surely if these are planned where they are, surely not if they alone cost more than the budget. |
| DynCost.StaleIntervalBudget | Module/seeker-scheduler/mutate_dyn.c:300-307 | The same two conditions for a whole interval that retires nobody, in terms of what is known before it. |
| DynCost.CurrentListKeepsBudget | Module/seeker-scheduler/mutate_dyn.c:301-307 | With a current list the layout of the awake cpus never costs more than the budget. |
| DynCost.DynActualParts | Module/seeker-scheduler/mutate_dyn.c:326-337 | Whatever speed changes work, the actual change of states is that of the awake cpus whose run request works plus the states given up by the other cpus that are marked and whose sleep request works. |
| DynCost.DynActualChange | Module/seeker-scheduler/mutate_dyn.c:326-337 | If every speed change works, the actual change of states is the cost of the layout on the awake cpus plus the states the retired cpus give up, and it is within any limit exactly when the former leaves room for the latter. |
| DynCost.RetiredAreFallen | Module/seeker-scheduler/mutate_dyn.c:327-329 | With sleepers in state 0, exactly the cpus that fall asleep in this interval give something up, stale sleep marks or not. |
| DynCost.SteadyIntervalKeepsBudget | Module/seeker-scheduler/mutate_dyn.c:300-337 | With a current list and nobody awake in excess the actual change is within the budget. |
| DynCost.SteadyRunKeepsBudget | Module/seeker-scheduler/mutate_dyn.c:300-337 | In a run where every speed change works: from an interval that retires somebody on, as long as the load does not rise, every interval that retires nobody actually changes at most its budget. |
| DynCost.RetiringBreaksBudget | Module/seeker-scheduler/mutate_common.c:229-239 | With more cpus awake than required and all of them above state delta, the actual change exceeds the budget. |
| DynCost.RetiringOverspends | Module/seeker-scheduler/mutate_dyn.c:326-337 | A concrete interval with a current list, layout cost 1, budget 1 and an actual change of 3. |
| DynCost.StaleProxies | Module/seeker-scheduler/mutate_common.c:226-228 | While nobody was ever retired the proxies all name cpu 0, and only cpu 0 is planned. |
| DynCost.FirstLayoutCost | Module/seeker-scheduler/mutate_common.c:226-228 | The special case of lists and planned states that are all zero, as at the start: the cost is that of moving cpu 0 and of bringing all other cpus down to state 0. |
| DynCost.StaleProxiesOverspend | Module/seeker-scheduler/mutate_common.c:226-228 | A concrete interval whose layout costs more than its budget. |
| Power.WakeUpProcs | Module/seeker-scheduler/mutate_common.c:173-209 | The freshest sleepers wake, nobody else changes, and the number of awake cpus becomes the larger of what it was and the required number as far as sleepers can be picked. |
| Power.ScanSleepers | Module/seeker-scheduler/mutate_common.c:187-200 | One scan counts the awake cpus and finds the sleeper with the least sleep time, first index first; none only if no sleeper is below the largest counter value. |
| Power.WakeOne | Module/seeker-scheduler/mutate_common.c:201-205 | Waking the freshest sleeper keeps the order in which sleepers are chosen and moves one cpu from asleep to awake. |
| Power.WakingIsDetermined | Module/seeker-scheduler/mutate_common.c:165-172 | Count and order of waking determine the outcome completely. |
| Power.RetireProcs | Module/seeker-scheduler/mutate_common.c:218-253 | With too many awake: idle cpus retire in index order until the required number is awake or all cpus were scanned, marks are written for scanned cpus only, and the proxy prefix becomes the list of awake cpus. Otherwise nothing changes, the proxies included. If more cpus stay awake than required, each of them has tasks. |
| Power.RetireIdle | Module/seeker-scheduler/mutate_common.c:229-244 | Only cpus awake without tasks retire, never below the required number, and not all of the excess only if every awake cpu has tasks. |
| Power.RetiringOrder | Module/seeker-scheduler/mutate_common.c:229-244 | Whoever retires was awake without tasks, and no such cpu with a lower index stays awake. |
| Power.ListAwake | Module/seeker-scheduler/mutate_common.c:245-252 | The awake list overwrites the front of the proxies. |
| Power.AwakeListMeaning | Module/seeker-scheduler/mutate_common.c:245-252 | The list is strictly increasing, names exactly the awake cpus, one entry each. |
| Power.RetireMeetsLoad | Module/seeker-scheduler/mutate_common.c:229-244 | Retiring for at least the load of the same task counts ends with exactly the required number awake. |
| Power.InitMutator | Module/seeker-scheduler/mutate_common.c:131-135 | Every cpu starts awake, with sleep time 0. |
| Auction.DemandRounding | Module/seeker-scheduler/mutate_gd.c:456-465 | Every claim lies between 0 and the load, and twice the distance of their sum from the load is at most the number of states. |
| Auction.ProcsRounds | Module/seeker-scheduler/mutate_gd.c:155-165 | One claim is within the load and at most half a cpu from its exact share; an exact half is rounded up. |
| Auction.NearestQuotient | Module/include/seeker.h:54 | The rounding division is off by at most half the divisor, and below the quotient by less than half. |
| Auction.BidMeaning | Module/seeker-scheduler/mutate_gd.c:177-210 | A bid is positive exactly within delta of the cpu's state, and the own state is the only bid of twice the number of states. |
| Auction.BidDirection | Module/seeker-scheduler/mutate_gd.c:181-207 | Going up every upward bid beats every downward bid of any cpu, going down the reverse, in balance bids depend on distance only. |
| BidLaws.BidValues | Module/seeker-scheduler/mutate_gd.c:181-207 | The exact bid within delta for every direction: twice the number of states for the own state, and less by the distance from twice that number with the direction, from that number otherwise. |
| BidLaws.NearerBidsMore | Module/seeker-scheduler/mutate_gd.c:188-204 | Of two cpus on the same side of a state within delta the nearer bids strictly more, for every direction. |
| BidLaws.BidsPrefer | Module/seeker-scheduler/mutate_gd.c:181-207 | Bids order the cpus within delta exactly as: the own state first, then by distance on each side, the preferred side before the other, in balance by distance alone. |
| BidLaws.WeightAdds | Module/seeker-scheduler/mutate_gd.c:219-228 | One more cpu adds its bid to the weight of every state. |
| BidLaws.WinnerBuysNearest | Module/seeker-scheduler/mutate_gd.c:367-385 | The winning cpu of a state is the unselected one within delta that comes first in that order, then by index. |
| BidLaws.WinningBidIsHighest | Module/seeker-scheduler/mutate_gd.c:394-419 | The bid that decides between equal scores is the highest bid of the cpus still in the auction. |
| BidLaws.BuyersSide | Module/seeker-scheduler/mutate_gd.c:367-385 | So no unselected cpu on the buyer's side is nearer, with direction 1 nobody buys from above while an unselected cpu at or below the state is within delta, with -1 the mirror image. |
| BidLaws.BuyerIsUnique | Module/seeker-scheduler/mutate_gd.c:367-385 | The buyer is determined. |
| BidLaws.AuctionSellsToNearest | Module/seeker-scheduler/mutate_gd.c:473-525 | Every round of every auction gives the winning state to that cpu. |
| Auction.WeightMeaning | Module/seeker-scheduler/mutate_gd.c:219-228 | A state has weight exactly when some cpu is within delta of it. |
| Auction.ShareConserves | Module/seeker-scheduler/mutate_gd.c:315-358 | The demand field always adds up to the demand. |
| Auction.ShareOfWeightless | Module/seeker-scheduler/mutate_gd.c:326-353 | A state without weight keeps its demand until it gives all of it away. |
| Auction.ShareHasWeight | Module/seeker-scheduler/mutate_gd.c:326-357 | When some state has weight, only states with weight are left with demand. |
| Auction.SourceMeaning | Module/seeker-scheduler/mutate_gd.c:323-354 | A source is the state itself, whose share is then its own demand, or a state without weight whose demand moved to it. |
| DemandLaws.HeirInherits | Module/seeker-scheduler/mutate_gd.c:326-347 | The heir of a state without weight, by weights and distances alone, and none exactly when no state has weight. |
| DemandLaws.ShareIsInheritance | Module/seeker-scheduler/mutate_gd.c:315-358 | The demand field in closed form: a state has its own demand plus the demand of exactly the states it inherits from; a state without weight keeps nothing when some state has weight. |
| DemandLaws.SourceIsLastGiver | Module/seeker-scheduler/mutate_gd.c:323-354 | The source that pays for a state is the highest state with demand it inherits from, or the state itself when there is none. |
| DemandLaws.WinningStateMeaning | Module/seeker-scheduler/mutate_gd.c:394-419 | Equal scores are decided by the higher winning bid, then by the lower state; nothing wins exactly when every score is below 0, or 0 with no positive bid. |
| Auction.HighestScoreWins | Module/seeker-scheduler/mutate_gd.c:394-419 | With a positive score anywhere the winner has the highest score, whatever the bids. |
| Auction.WinnerSpendsDemand | Module/seeker-scheduler/mutate_gd.c:490-510 | While there is demand the winner has the highest, positive score and the state that pays has demand. |
| Auction.RoundSpendsDemand | Module/seeker-scheduler/mutate_gd.c:482-510 | The same for the weights, shares and candidates a round computes itself, for any value of the stray read. |
| Auction.WinnerIsAffordable | Module/seeker-scheduler/mutate_gd.c:499-521 | The winning cpu was not selected before and the winning state is within the budget left. |
| Auction.SpendKeepsNonNegative | Module/seeker-scheduler/mutate_gd.c:509 | Charging one keeps demands free of negative entries exactly when there was demand. |
| AuctionSteps.ComputeDemand | Module/seeker-scheduler/mutate_gd.c:456-465 | Total and claims are those of the hints and the load. |
| AuctionSteps.TransitionDirection | Module/seeker-scheduler/mutate_gd.c:124-143 | The sign of required level minus present level of the awake cpus. |
| DemandLaws.LevelOfClaim | Module/seeker-scheduler/mutate_gd.c:130-132 | One more claim for state j raises the required level by j + 1, whatever the other claims are. |
| DemandLaws.PresentLevelIsSum | Module/seeker-scheduler/mutate_gd.c:133-137 | The present level is the sum over the awake cpus of their state counted from 1. |
| AuctionSteps.UpdateStateMatrix | Module/seeker-scheduler/mutate_gd.c:177-210 | Every entry is the bid of its cpu for its state, whose exact value is `BidLaws.BidValues`. |
| AuctionSteps.UpdateStateWeight | Module/seeker-scheduler/mutate_gd.c:219-228 | Weights are the column sums of the matrix. |
| AuctionSteps.UpdateWinningProcs | Module/seeker-scheduler/mutate_gd.c:367-386 | For every state the first unselected cpu with the highest positive bid, or none. |
| AuctionSteps.GetLeftDistance | Module/seeker-scheduler/mutate_gd.c:240-251 | Nearest state with weight below. |
| AuctionSteps.GetRightDistance | Module/seeker-scheduler/mutate_gd.c:263-275 | Nearest state with weight above. |
| AuctionSteps.FindHeir | Module/seeker-scheduler/mutate_gd.c:328-347 | The heir by weights and distances alone: going up the nearest state with weight below, else above; going down the mirror image; in balance the nearest, ties to the lower; none exactly when no state has weight. |
| AuctionSteps.UpdateDemandField | Module/seeker-scheduler/mutate_gd.c:315-358 | Demand field and sources after giving away state by state; by `DemandLaws.ShareIsInheritance` and `SourceIsLastGiver` that fixes who gets what and who pays. |
| AuctionSteps.GetWinningState | Module/seeker-scheduler/mutate_gd.c:394-419 | The first state that is largest by score and then by winning bid, if it beats score 0 with bid 0. |
| AuctionRun.RoundKeepsAccounts | Module/seeker-scheduler/mutate_gd.c:474-525 | One round keeps budget and selection accounts, lowers the demand by one, and leaves none negative while there was demand. |
| AuctionRun.AuctionKeepsAccounts | Module/seeker-scheduler/mutate_gd.c:473-525 | After any number of rounds budget left plus cost is the budget, one more cpu selected per round and none twice, demand down by the number of rounds, and free of negative entries exactly while it lasts. |
| AuctionRun.PlanCost | Module/seeker-scheduler/mutate_gd.c:473-556 | The committed layout respects the budget exactly when the load is positive or cpu 0 can afford to drop to state 0. |
| Witnesses.LoadZeroOverspends | Module/seeker-scheduler/mutate_gd.c:550-556 | A concrete interval with load 0 whose layout costs 2 on a budget of 1. |
| AuctionRun.PlanDemand | Module/seeker-scheduler/mutate_gd.c:456-525 | Over the auction of an interval at most half a round for each state is not backed by demand. |
| AuctionRun.ClaimsCoverLoad | Module/seeker-scheduler/mutate_gd.c:456-525 | Claims that add up to at least the load keep the demand free of negative entries; an auction that assigns all load cpus needs them to. |
| Witnesses.SaleOnCredit | Module/seeker-scheduler/mutate_gd.c:462-510 | A concrete interval: four hints in four states and load 1 give claims of 0, and the only sale makes an entry -1. |
| Interval.AccountsStep | Module/seeker-scheduler/mutate_gd.c:506-521 | Assigning an affordable state to an unselected cpu keeps the accounts. |
| Interval.AccountsWithinBudget | Module/seeker-scheduler/mutate_gd.c:517-521 | Kept accounts mean that the layout costs at most the budget. |
| GreedyMutator.Mutator.PickWinner | Module/seeker-scheduler/mutate_gd.c:482-497 | A round computes bids, weights, candidates and shares for the current layout, and the winner from them. |
| GreedyMutator.Mutator.FindSale | Module/seeker-scheduler/mutate_gd.c:482-504 | The computed winner means a sale to its cpu when both exist, and a stuck round otherwise. |
| GreedyMutator.Mutator.Round | Module/seeker-scheduler/mutate_gd.c:482-521 | A round is a sale: exactly the winning cpu gets the winning state, leaves the auction, and budget and source pay; or it is stuck and layout, selection, demand and budget stay. |
| GreedyMutator.Mutator.HoldAuction | Module/seeker-scheduler/mutate_gd.c:473-525 | The rounds form an auction from the opening state, and it goes on until load rounds, too few requests, no budget, or no winner. |
| GreedyMutator.Mutator.SelectCpus | Module/seeker-scheduler/mutate_gd.c:473-536 | After auction and fill-in exactly load cpus are selected. |
| GreedyMutator.Mutator.PrepareInterval | Module/seeker-scheduler/mutate_gd.c:447-471 | Everybody unselected in place, demands from hints, the required cpus awake, direction from demands and awake cpus. |
| GreedyMutator.Mutator.FinishInterval | Module/seeker-scheduler/mutate_gd.c:538-586 | The commit describes the selected cpus, or cpu 0 at state 0 when there is none; states, sleep times and totals afterwards. |
| GreedyMutator.Mutator.GreedyDelta | Module/seeker-scheduler/mutate_gd.c:431-605 | One interval commits the layout planned for its hints, load and budget; exactly max(1, load) cpus are committed, and the sum of all counts is still that number after the speed changes; the count of every state is the size of its mask exactly when no cpu changed its state; it is a step of a run. |
| ActualCost.ActualChange | Module/seeker-scheduler/mutate_gd.c:566-586 | Whatever speed changes work, the actual change of states is that of the selected cpus plus the states given up by the awake cpus that are not selected, as far as their changes work. |
| ActualCost.ActualWithinLimit | Module/seeker-scheduler/mutate_gd.c:473-586 | For a planned interval in which all changes work this is the cost of the layout plus what the cpus put to sleep give up, and it is within any limit exactly when the layout leaves room for the latter. |
| ActualCost.FullLoadKeepsBudget | Module/seeker-scheduler/mutate_gd.c:473-586 | With load for all cpus the actual change is within the budget. |
| ActualCost.QuietIntervalChangesNothing | Module/seeker-scheduler/mutate_gd.c:473-586 | Without enough hints or without budget, and with no more cpus awake than the load, no state changes at all. |
| ActualCost.SleepBreaksBudget | Module/seeker-scheduler/mutate_gd.c:566-586 | With more cpus awake than needed and all of them above state delta, the actual change exceeds the budget. |
| Witnesses.SleeperOverspends | Module/seeker-scheduler/mutate_gd.c:580-585 | A concrete interval with layout cost 0, budget 1 and an actual change of 2. |
| Witnesses.SleeperTakesOver | Module/seeker-scheduler/mutate_gd.c:482-585 | The same with no more cpus awake before than the load asks for: the auction sells to a sleeping cpu, and the awake one is put to sleep. |
| Interval.FillableCovers | Module/seeker-scheduler/mutate_gd.c:527-536 | Every awake cpu is selected already or can be filled in. |
| Interval.FillingOrder | Module/seeker-scheduler/mutate_gd.c:527-536 | Whoever is filled in was awake, and no awake cpu with a lower index is left out. |
| CommitSteps.FillIn | Module/seeker-scheduler/mutate_gd.c:527-536 | Awake cpus are selected in index order until the load is met or none is left. |
| CommitSteps.DescribeLayout | Module/seeker-scheduler/mutate_gd.c:538-549 | Masks and counts describe exactly the selected cpus in their new states. |
| CommitSteps.Commit | Module/seeker-scheduler/mutate_gd.c:538-564 | What is installed describes max(1, selected) cpus; all hints are cleared. |
| CommitSteps.SettleOne | Module/seeker-scheduler/mutate_gd.c:566-586 | Exact state, sleep time, masks and counts after settling one cpu; what sleep times mean over runs is `SleepRuns.SleepTimeCounts`. |
| CommitSteps.SettleCpus | Module/seeker-scheduler/mutate_gd.c:566-586 | The same for all cpus: states, sleep times, and the masks and counts that all callbacks together make of the committed ones, with their total kept. |
| Interval.CommittedTotal | Module/seeker-scheduler/mutate_gd.c:543-549 | The committed counts add up to the number of selected cpus. |
| Interval.CommittedMoveCountsTwice | Module/seeker-scheduler/mutate_gd.c:558-576 | One speed change of a selected cpu right after the commit leaves the masks right but counts it twice in its new state and one too few in the old. |
| CountDrift.MasksAndDrift | Module/seeker-scheduler/mutate_gd.c:558-586 | After any number of the speed changes the masks are the committed ones and the cpus parked in state 0, and each count is off by selected arrivals minus all departures. |
| CountDrift.OwnStateFirst | Module/seeker-scheduler/mutate_gd.c:367-385 | A state is sold to an unselected cpu that is in it already, as long as there is one. |
| CountDrift.AuctionIsOrdered | Module/seeker-scheduler/mutate_gd.c:473-525 | So in every auction a cpu gets a new state only after all cpus that are in that state got theirs. |
| CountDrift.CountsAgreeIffNothingMoved | Module/seeker-scheduler/mutate_gd.c:473-586 | The exact condition for a whole interval: afterwards every count is the size of its mask exactly when no cpu changed its state. |
| Witnesses.OneMoveMiscounts | Module/seeker-scheduler/mutate_gd.c:558-576 | A concrete interval in which one cpu moves up: its old state ends with count -1 and an empty mask, the new one with count 2 and one cpu. |
| Interval.SettledAwake | Module/seeker-scheduler/mutate_gd.c:566-586 | Awake afterwards are exactly the selected cpus. |
| Interval.SettleKeepsConsistent | Module/seeker-scheduler/mutate_gd.c:566-586 | Awake and sleep time stay consistent exactly when no sleeper's 32-bit counter wraps. |
| Interval.StepKeepsPower | Module/seeker-scheduler/mutate_gd.c:469-586 | One interval keeps the power invariant, leaves max(1, load) cpus awake, and keeps sleepers in state 0 if every speed change works. |
| Interval.RunKeepsPower | Module/seeker-scheduler/mutate_common.c:90-113 | The same after every interval of any run that starts with all cpus awake, up to the 2^32 - 1 intervals a sleep counter can hold. |
| SleepRuns.SleepTimeCounts | Module/seeker-scheduler/mutate_gd.c:566-586 | Over any run, until the counter can wrap: a sleeping cpu has slept exactly as many intervals as ended since it was last awake, woken inside an interval included. |
| SleepRuns.LatestWakes | Module/seeker-scheduler/mutate_common.c:173-209 | So whoever wakes up was awake in a later interval than anyone left asleep, or in the same one with a lower index. |
| SleepRuns.DynSleepTimeCounts | Module/seeker-scheduler/mutate_dyn.c:300-337 | The same for the dynamic programming mutator, whose counters are one higher because the interval of retiring counts twice. |
| SleepRuns.DynLatestWakes | Module/seeker-scheduler/mutate_common.c:173-209 | The same consequence for whom it wakes up. |
| TaskCount.GetTasksLoad | Module/seeker-scheduler/nrtasks.c:45-55 | The load is the sum of all running tasks, clamped to the number of cpus. |
| TaskCount.LoadOfOneMoreTask | Module/seeker-scheduler/nrtasks.c:45-55 | One more task on any cpu, busy or not, raises the load by exactly one until all cpus are needed. |
| TaskCount.IdleLoad | Module/seeker-scheduler/nrtasks.c:45-55 | Without tasks the load is 0. |
| TaskCount.FullLoad | Module/seeker-scheduler/nrtasks.c:54 | The load is the number of cpus exactly when there are at least as many tasks, and otherwise the number of tasks. |
| TaskCount.GetStateTasks | Module/seeker-scheduler/nrtasks.c:57-68 | Tasks on the cpus of the state's mask. |
| TaskCount.GetStateTasksExSelf | Module/seeker-scheduler/nrtasks.c:70-83 | The same without the asking task. |
| TaskCount.StatesShareTasks | Module/seeker-scheduler/nrtasks.c:57-68 | With masks in agreement the tasks of the first states are the tasks of the cpus in them: nothing is counted twice or missed. |
| TaskCount.AllStatesShareAllTasks | Module/seeker-scheduler/nrtasks.c:57-68 | With masks in agreement the tasks of all states add up to all running tasks. |
| TaskCount.TasksOfOneMore | Module/seeker-scheduler/nrtasks.c:57-68 | A cpu that joins a mask brings all its tasks, however many. |
| TaskCount.TasksOfOneTask | Module/seeker-scheduler/nrtasks.c:57-68 | One more task on a cpu counts once for the masks that name the cpu. |
| Search.IsStateFree | Module/seeker-scheduler/search_state.c:56-66 | Whether the task fits into the state. |
| Search.FreeMeaning | Module/seeker-scheduler/search_state.c:56-66 | A state with cpus is free exactly when with the task counted in there is a cpu for every task; for a task already there it is counted. |
| Search.LowestLoadedState | Module/seeker-scheduler/search_state.c:74-102 | The first least loaded state among those with cpus, -1 when none has any. |
| Search.LowestLoadedMeaning | Module/seeker-scheduler/search_state.c:74-102 | It has the fewest tasks over its cpus, counted by the masks, and is the lowest of those. |
| Search.SearchStateDown | Module/seeker-scheduler/search_state.c:113-126 | Nearest free state at or below, else above, else the least loaded. |
| Search.SearchStateUp | Module/seeker-scheduler/search_state.c:137-150 | Nearest free state at or above, else below, else the least loaded. |
| Search.SearchStateClosest | Module/seeker-scheduler/search_state.c:160-178 | The free state at least distance, ties to the higher one; without a free state the least loaded; -1 exactly when no state has cpus. |
| Search.NearerIsClosest | Module/seeker-scheduler/search_state.c:166-177 | The nearer of the two one-sided answers is the closest free state of all. |
| Search.NoStateMeansNoCpus | Module/seeker-scheduler/search_state.c:98-99 | No state is returned exactly when every count is 0. |
| Search.FreeRequestIsGranted | Module/seeker-scheduler/search_state.c:117-120 | A free requested state is the answer of every search. |
| Ladder.TaskHistory.LadderEvaluation | Module/seeker-scheduler/map_ipc.c:81-98 | One state up, down or none by IPC, saturating, and the search that goes with it. |
| Ladder.TaskHistory.AdaptiveLadderEvaluation | Module/seeker-scheduler/map_ipc.c:100-139 | Step and request are updated as the ladder says, stay in range, and the matching search answers. |
| Ladder.AdaptStaysInRange | Module/seeker-scheduler/map_ipc.c:60-74 | Requests stay in range, steps between minus the number of states and max(1, states - 1). |
| Ladder.AdaptMeaning | Module/seeker-scheduler/map_ipc.c:100-139 | Every branch: it moves and searches that way exactly when the IPC confirms the remembered step; otherwise the request is the present state, searched both ways, and the step starts, or is forgotten. |
| Ladder.MiddleStartsOver | Module/seeker-scheduler/map_ipc.c:132-136 | After an IPC between the thresholds the ladder starts over from the present state. |
| Ladder.WalkStaysInBounds | Module/seeker-scheduler/map_ipc.c:100-139 | So they do over any sequence of IPC values. |
| Ladder.FreeIsGranted | Module/seeker-scheduler/map_ipc.c:88-94 | A request for a free state is granted. |
| Ladder.Climbs | Module/seeker-scheduler/map_ipc.c:104-108 | Once climbing, the position is the start plus a growing ramp, capped at the top. |
| Ladder.Descends | Module/seeker-scheduler/map_ipc.c:118-122 | The mirror image for low IPC. |
| Ladder.HighPosition | Module/seeker-scheduler/map_ipc.c:104-117 | The exact position after any number of evaluations with high IPC, warm-up included. |
| Ladder.LowPosition | Module/seeker-scheduler/map_ipc.c:118-131 | The mirror image for low IPC. |
| Ladder.HighReachesTop | Module/seeker-scheduler/map_ipc.c:100-139 | The state never falls and reaches the top after at most two warm-up evaluations and k more with k(k+1)/2 covering the distance; from a step of at most 1 not earlier. |
| Ladder.LowReachesBottom | Module/seeker-scheduler/map_ipc.c:100-139 | The mirror image for low IPC. |
| StateIndex.Inform | Module/seeker-scheduler/state.c:201-219 | A callback records the new state and moves the cpu between masks and counts. |
| StateIndex.InformKeepsAgreement | Module/seeker-scheduler/state.c:204-212 | Masks that are exactly the cpus in each state, and counts that are the mask sizes, stay so. |
| StateIndex.InformKeepsTotal | Module/seeker-scheduler/state.c:206-209 | Whatever the counts are, their sum stays. |
| StateIndex.AgreementMeaning | Module/seeker-scheduler/state.c:86-87 | In agreement masks are disjoint, cover all cpus, and the counts add up to all cpus. |
| StateIndex.AnyRunAgrees | Module/seeker-scheduler/state.c:191-219 | Agreement survives any sequence of callbacks, whoever causes them. |
| StateIndex.SetFreq | Module/seeker-cpufreq/freq.c:124-154 | A speed change works and informs, or nothing changes. |
| StateIndex.TotalStates | Module/seeker-scheduler/state.c:287-292 | The largest number of states any cpu supports. |
| StateIndex.InitCpuStates | Module/seeker-scheduler/state.c:301-336 | Every cpu in its requested state forced into range, or in state 0, hints cleared, index in agreement. |
| StateIndex.StartMeaning | Module/seeker-scheduler/state.c:301-336 | A requested cpu starts in the state nearest to the request, every other cpu in the lowest. |
| StateIndex.BoundsMeaning | Module/seeker-scheduler/state.c:44-47 | Forcing into range picks the nearest value of the range. |
| StateIndex.OnDemand | Module/seeker-scheduler/mutate_od.c:67-83 | Highest state above the load threshold, lowest otherwise, where the change works; agreement kept. |
| StateIndex.OnDemandMeaning | Module/seeker-scheduler/mutate_od.c:67-83 | The target is at least every state above the threshold and at most every state otherwise. |
| StateIndex.Conservative | Module/seeker-scheduler/mutate_cv.c:67-87 | One state up or down, saturating, where the change works; agreement kept. |
| StateIndex.ConservativeMeaning | Module/seeker-scheduler/mutate_cv.c:67-87 | Each interval goes exactly one state towards that target, or stays when there. |
| StateIndex.ConservativeArrives | Module/seeker-scheduler/mutate_cv.c:67-87 | Under lasting load or idleness it covers one state for each interval until the end of the range. |
| LogQueue.StepKeepsInv | Module/seeker-scheduler/log.c:107-145 | Every step of writers and reader keeps the linked list, the tail, the private block and the reader's position in order, and entries put equal entries delivered plus entries linked. |
| LogQueue.LinkKeepsInv | Module/seeker-scheduler/log.c:141 | Linking appends one block and one entry. |
| LogQueue.HeadKeepsInv | Module/seeker-scheduler/log.c:221 | Moving the head drops exactly one block, whose entry was spent. |
| LogQueue.FreeKeepsInv | Module/seeker-scheduler/log.c:222-231 | The freed block is neither head nor tail. |
| LogQueue.CopyKeepsInv | Module/seeker-scheduler/log.c:228 | Copying delivers exactly the oldest linked entry. |
| LogQueue.QuietKeepsInv | Module/seeker-scheduler/log.c:211-227 | Tests, tail moves and lock operations keep the invariant. |
| LogQueue.RunKeepsInv | Module/seeker-scheduler/log.c:107-236 | So does every interleaving of any number of writers with the reader. |
| LogQueue.DeliveredInOrder | Module/seeker-scheduler/log.c:226-233 | In every interleaving the delivered entries are a prefix of the entries put, and always a proper one once something was put. |
| LogQueue.NoStrayAccess | Module/seeker-scheduler/log.c:205-236 | No step touches a freed block, and the reader never frees head, tail or a writer's block, also between the two writes of put_log. |
| LogQueue.OnlyTheLastIsLeft | Module/seeker-scheduler/log.c:191-204 | A read that ends with room to spare leaves only the newest entry, or two while a writer is between its two writes. |
| LogQueue.Queue.constructor | Module/seeker-scheduler/log.c:297-310 | The initial list satisfies the invariant with nothing put. |
| LogQueue.Queue.GetLog | Module/seeker-scheduler/log.c:107-129 | With the device open and memory granted a private block under the lock; otherwise no block and no lock. |
| LogQueue.Queue.PutLog | Module/seeker-scheduler/log.c:138-145 | The entry joins the entries put, the block becomes the tail, the lock is released; nothing happens without a block. |
| LogQueue.Queue.SeekerLogRead | Module/seeker-scheduler/log.c:205-236 | A read returns exactly the oldest undelivered entries, as many as fit, up to the one in the tail, also while a writer is inside. |

## Left out

- ActualCost.QuietIntervalChangesNothing: is for intervals without an auction; with one, awake cpus can be put to sleep although none is in excess (`Witnesses.SleeperTakesOver`). Whom an auction sells to is stated round by round, not as a closed form of hints and states.
- DynCounts.CountsAgreeIffRearranged: is for intervals in which every speed change works; when some fail, a cpu can be in two masks at once, and only the step by step account (`DynPlan.Retold`) and the total are stated.
- GreedyMutator.Mutator.GreedyDelta: requires every sleep counter to be below its largest value on entry, because at that value the code loses the cpu (`Interval.SettleKeepsConsistent`); a counter gets there only after 2^32 - 1 intervals of sleep.
- DynInterval.DynScheduler.MemDynamicProg: requires the same of sleep counters, one snapshot of task counts for the load and for retiring, and a budget that is not negative and fits the static table. The module parameter for the budget is an unchecked int; a negative one is not modelled, because then no state can win (`DemandTransform.SomeReachable`) and the transform writes in front of the demand array.
- DynMutator.Mutator.DeltaBasedDemandTransform: excludes a negative budget for that reason.
- DynMutator.Mutator.Mck: the bound of the static table on cpus and budget and positive demands are preconditions; a negative budget, for which the code writes nothing, is not modelled.
- LogQueue.Queue.SeekerLogRead: the buffer size enters as the number of whole entries that fit; the byte copy is not modelled.
- `purge_log`, closing the module, and more than one reader at a time.
- The log record each mutator writes about its interval, the state residency log, and the interval counter.
- `select_evaluation`: its loop counts upwards from the highest state and leaves the array.
- The retry loops around the sequence lock in `pds.c`; one consistent snapshot of the states is taken.
- The migration pool, hint counters under concurrency, PMU and MSR access, timers, probes and the frequency tables of `seeker-cpufreq`.
- The scripts and analysis tools, including the older user-space copy of `mck`.
