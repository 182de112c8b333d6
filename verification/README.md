# gobol in Dafny

A Dafny 4.11 model of the stateful and algebraic core of gobol, a Go library of server building blocks, with
proofs about it. `dafny verify dfyconfig.toml` checks everything.

Six parts are modelled:

| part | files | what is proved |
|---|---|---|
| master election over ZooKeeper | `Election.dfy`, `Announcements.dfy`, `Listing.dfy`, `Membership.dfy`, `ListingLimits.dfy`, `MasterFlag.dfy`, `ClusterWatch.dfy` | tenures never overlap in any interleaving; each call that gets through announces exactly one role, the right one; exactly when a manager gets listed twice and exactly when it drops out of the list; exactly when the master flag can be trusted; the change detector counts set changes |
| timeline flattening | `Flattener.dfy`, `FlattenerObject.dfy`, `Flattening.dfy`, `Transport.dfy`, `Pipeline.dfy`, `Arrival.dfy`, `HttpPoint.dfy` | at most once in every interleaving, exactly when also at least once, end-to-end conservation and arrival, laws of the aggregations, batching in order, conversion round trip |
| lock-free statistics point | `CasPoint.dfy`, `CasProgress.dfy` | concurrent `ValueAdd` calls linearize, nothing is lost, at most n(n-1)/2 swaps fail, every call gets through |
| statistics intervals | `SnitchStats.dfy`, `MetricKey.dfy` | what each message says, what the retry buffer holds, conservation, the point key identifies the point |
| canonical encoding | `Hashing.dfy`, `HashingOrder.dfy` | what the bytes are, independence of map order, injectivity on fixed-width shapes, what can be encoded, exactly when array keys let the order show |
| repeating tasks | `Scheduler.dfy` | how many loops live, how often they execute, what runs after a stop |

`Sorting.dfy`, `Bytes.dfy` and `Options.dfy` are shared: sorting by `Less` and neighbour swaps, Go's byte order on
strings, and optional values.

## How it is modelled

- Concurrent code is a state machine: a total function applies one atomic step to a state, a run is a list of
  steps chosen by an arbitrary scheduler, and theorems quantify over all such lists. Election calls go one ZooKeeper
  request or one local update at a time (`Election.Step`); a request may be answered, applied with its answer lost,
  or never applied; sessions end and managers redial at any time. `Add` is split into load, read of the list, write of
  the list and store of a new entry, and the cycle into visit, flatten, push and delete (`Flattener.AdvanceCall`,
  `Flattener.Apply`). `ValueAdd` is split into load, compare-and-swap, count and null flag (`CasPoint.Step`).
- Sequential code keeps its imperative form: classes with fields for `CustomPoint`, `Stats`, the flattener's map, the
  transport, the watcher, `Task` and the scheduler's `Manager`, methods with loops for `flatten`, `getByteArray`,
  `mapToByteArray`, `arrayToByteArray`, `keyFromMetricID` and the item conversion, and an in-place sort on an array.
  Each is proved against a function, and the theorems are about these functions or tie them to the step machine:
  `FlattenerObject.AddIsWithPoint`, `FlattenerObject.PassIsRunCycle`, `Transport.RoundIsSteps`, and the contracts of
  `Task` in terms of `Scheduler.Apply`.
- A Go map is a list of pairs in the order `MapKeys` or `range` happens to give; results are about all orders.
- `float64` is a bit pattern with an arbitrary addition in `CasPoint` and a bit pattern in `Hashing`; it is `real` in
  `Flattening`, `Pipeline`, `SnitchStats` and `HttpPoint`, where rounding is not the point.
- ZooKeeper, the clock, HTTP answers, cron parsing and the timers are parameters or scheduler choices.
- The election path and the slave directory are different places in the tree, as the configuration intends.

## Where the code does less than one would like

- **A manager can stay listed both as master and as slave.** In every run, without any assumption on names, sessions
  or calls, this never happens outside a cleanup if and only if no step doubles a name or gives up cleaning one
  (`Listing.TwiceOnlyWhileCleaningIff`). The rules that keep a run tidy are those of `Listing.TakesTurns`,
  `Listing.KeepsCreation` and `Listing.KeepsCleanup`, and breaking one shows:
  - `electForMaster` goes on to create the election node even when it reads its own name there; the creation fails and
    it registers as a slave, clearing its flag. One more call ends in a double listing exactly when the caller was in
    office (`ListingLimits.ReelectionListsTwiceIff`).
  - Two overlapping calls of one manager end so too (`ListingLimits.OverlapListsTwice`).
  - So does a creation whose answer is lost by a manager listed as slave (`ListingLimits.LostCreationListsTwice`).
- **A manager can drop out of the list** although its call has succeeded in a session still live. In every run, again
  without any assumption, this never happens if and only if no step drops a member (`Membership.NeverDroppedIff`), and
  there are three such steps, each with a run that takes it:
  - a session ends that owns the only node of a member of another session, after a manager dialled again while its slave
    node was in the old session (`ListingLimits.RedialLosesListing`);
  - a call reports success after the slave node it found is gone (`ListingLimits.FoundNodeLosesListing`);
  - a call that has outlived its session deletes the slave node a later call registered in the new one
    (`ListingLimits.StaleDeleteLosesListing`).

  Managers that take turns never drop out (`Membership.TurnsKeepMembers`). The reconnect loop is also entered when the
  connection is merely lost, and then nothing closes the old session; its two dials keep the rules if and only if the
  old session owns no node (`Membership.ReconnectTakesTurnsIff`).
- **Duplicates in the list** make the change detector signal at every poll (`ClusterWatch.SteadyIsSilentIff`), and a
  change is missed if and only if a duplicate stands in for a lost node (`ClusterWatch.PollWrongIff`).
- **`isMaster` is not exclusive** (`ListingLimits.FlagOutlivesOffice`): it survives the session, so mutual exclusion is
  stated on the session that created the election node. After a successful newest call the flag tells the truth if and
  only if it is clear or the session of that call is live (`MasterFlag.FlagTellsOfficeIff`).
- **Overlapping `Add` calls and cycles lose values**, in three ways: a write to an entry the cycle has already flattened
  (`Flattener.LateWriteIsLost`), a write over a list that has grown since it was read (`Flattener.OverwriteLoses`), and a
  second store of an entry under one key (`Flattener.DoubleStoreLoses`); each of them happens in a run. Nothing is ever
  missing if and only if every write finds the map and the list as its call saw them and no entry with an unmapped
  operation is flattened (`Flattener.ExactlyOnceIff`). Exclusion per key between `Add` calls and the stretch from
  flattening to deleting, which includes waiting for room in the channel, is enough (`Flattener.ExclusionSuffices`).
- **Closing the transport hands nothing over any more**: whatever was in hand or in the channel stays there
  (`Transport.CloseLoses`).
- **Map keys without an order** (arrays) are encoded in listing order, because the error of `sortKeys` is ignored: two
  listings of one map with fixed-width array keys encode alike if and only if they list the keys in the same order
  (`Hashing.ArrayKeysEncodeAlikeIff`).
- **Not everything encodes.** A value is encoded if and only if no kind without an encoder occurs in it, no map key has a
  NaN in it and no map has two or more unsigned keys (`Hashing.EncodesIff`): a NaN cannot be looked up, and unsigned
  keys panic in `Less`.
- **The two zeros** of float64 are equal in Go and encoded apart (`Hashing.ZerosEncodeApart`); equality of values in
  `Hashing` compares floats by their bits.
- **Strings** are encoded without length or separator (`Hashing.StringsCollide`), and the point key is ambiguous when a
  tag key contains '=' or a component contains a comma followed by a space (`MetricKey.EqualsInKeyCollides`,
  `MetricKey.SeparatorInValueCollides`); a comma alone does no harm.
- **`keepValue` has no effect**: the reset is guarded by a non-empty aggregation or no keepValue, and no point has an
  empty aggregation. The aggregation "max" starts from 0, so an interval without a positive value counts as
  unrecorded.

## Model

| member | source | states |
|---|---|---|
| Election.TenuresNeverOverlap | election/election.go:446-518 | in every run of any managers, calls, lost answers, expiries and redials, between two creations of the election node the first creator's session has ended |
| Election.OneMaster | election/election.go:472-493 | two live sessions that both created the election node are the same session, and it owns the node |
| Election.OneAnnouncedMaster | election/election.go:492-493 | at most one live session has a Master signal in the history, and it owns the election node |
| Election.MasterWasCreated | election/election.go:472-493 | a Master signal always follows a creation of the election node by the signalled session |
| Announcements.EachCallAnnouncesOnce | election/election.go:436-493 | in every run a call announces exactly one role by the time it has got through and none before, after it began, for its own manager and session, and the role is Master exactly when the call itself created the election node |
| Announcements.AnnouncementsCountCalls | election/election.go:436-493 | in every run a manager announces as many roles as calls of its have got through |
| Announcements.FailedCallIsSilent | election/election.go:407-487 | a call one of whose requests to register is not answered or refused has failed for good and never announces a role |
| Announcements.FailsIff | election/election.go:382-487 | a call still to register fails at a step exactly when its request is not answered, or the directory or slave node is refused |
| Announcements.LostAnswerSameEffect | election/election.go:390-505 | a request takes effect whether or not its answer arrives, and none if it is not sent |
| Announcements.ReadsOwnName | election/election.go:458-463 | a manager that reads its own name in the election node sets its flag at once |
| Announcements.StartMakesDir | election/election.go:196-224 | once a manager has started in a live session the slave directory exists for good |
| Election.RunKeepsTenure | election/election.go:133-187 | the office read off the event log alone is always the owner of the election node, through every dial, expiry and call step |
| Listing.TwiceOnlyWhileCleaningIff | election/election.go:407-518 | in every run of any managers, names, sessions and calls, a name is never listed as master and slave outside a cleanup if and only if no step doubles a name or gives up cleaning one |
| Listing.TwiceOnlyWhileCleaning | election/election.go:492-517 | when managers take turns and cleanups are answered, a name is both master and slave only while a call of that manager is between create and delete, at every moment |
| Listing.RunKeepsInv | election/election.go:407-518 | when managers take turns, every node belongs to the live session of the manager it names, and every call's program point agrees with the tree, whatever requests fail |
| Listing.TwiceStepIff | election/election.go:472-515 | one step keeps double listings inside cleanups if and only if it is tidy |
| Membership.NeverDroppedIff | election/election.go:407-518 | in every run of any managers, names, sessions and calls, every manager whose call succeeded in a session still live is listed at every moment if and only if no step drops one |
| Membership.MemberStepIff | election/election.go:436-515 | one step keeps every such manager listed if and only if it is none of the three dropping steps |
| Membership.QuietListing | election/election.go:526-574 | in every run the node list names managers only, by nodes in live sessions; it holds every member if no step drops one, and with no call under way has no duplicates if every step is tidy |
| Membership.TurnsKeepMembers | election/election.go:407-518 | managers that take turns never drop out of the list |
| Membership.TurnsListing | election/election.go:526-574 | when managers take turns, the node list contains every manager whose call succeeded in a session still live and names only managers whose own session is live |
| Membership.ReconnectTakesTurnsIff | election/election.go:158-187 | the two dials of the reconnect loop keep the rules if and only if the old session, ended or not, owns no node |
| MasterFlag.FlagTellsOfficeIff | election/election.go:436-493 | after the newest call of a manager has succeeded, the flag tells whether it is in office if and only if the flag is clear or that call's session is live, whatever answers were lost |
| MasterFlag.FlagTellsOffice | election/election.go:521-523 | with no call of the manager under way, the flag tells whether it is in office as long as the session of some successful call lives |
| MasterFlag.RunKeepsOffice | election/election.go:436-517 | when managers take turns, a manager in office came there by its newest call, and its flag is set by the time it cleans up |
| ListingLimits.FlagOutlivesOffice | election/election.go:350-365 | a run by every rule ends with two flags set and one master in office |
| ListingLimits.ReelectionListsTwiceIff | election/election.go:458-479 | from a quiet state, one more election run alone ends with the caller listed as master and slave if and only if it was master before |
| ListingLimits.HolderRegistersAsSlave | election/election.go:458-479 | the master in office that calls again ends as its own slave with its flag cleared |
| ListingLimits.OverlapListsTwice | election/election.go:453-479 | two calls of one manager past their read end with it listed twice and no call left to clean up |
| ListingLimits.LostCreationListsTwice | election/election.go:472-487 | a slave whose creation of the election node is applied and not answered stays listed twice, with no call left |
| ListingLimits.RedialLosesListing | election/election.go:413-437 | a run in which a slave dials again over its node and is not listed once the old session ends, though its call succeeded in a live session |
| ListingLimits.FoundNodeLosesListing | election/election.go:416-440 | a run in which the found slave node goes before the call reports success, and the manager is not listed |
| ListingLimits.StaleDeleteLosesListing | election/election.go:495-515 | a run in which the delete of an older call removes the slave node of a later one, with nothing left under way |
| ClusterWatch.Watcher.Poll | election/election.go:308-341 | one poll signals exactly when length or membership differs, and then records the snapshot |
| ClusterWatch.Watcher.Watch | election/election.go:297-344 | the loop over any snapshots leaves the recorded set and the signal count of the reference functions |
| ClusterWatch.Watcher.Store | election/election.go:336-338 | the storing loop adds exactly the listed names |
| ClusterWatch.ExactWithoutDuplicates | election/election.go:316-338 | for a duplicate-free list the check signals if and only if the node set differs, and records the list |
| ClusterWatch.SignalsCountChanges | election/election.go:293-341 | over any duplicate-free snapshots, unreadable ones included, signals equal set changes and the recorded set is the one last seen |
| ClusterWatch.SteadyIsSilentIff | election/election.go:316-326 | an unchanged cluster is silent if and only if its list has no duplicates |
| ClusterWatch.PollWrongIff | election/election.go:316-326 | for every record and list, a change is missed if and only if the list is as long as the record and its names are a proper part of it, and a false alarm is raised if and only if an unchanged list has a duplicate |
| Flattener.AtMostOnce | timeline/flattener.go:99-168 | in every interleaving no call is counted twice in the emitted items, each counted value was added under the item's key, and the item flattens exactly those values |
| Flattener.RunKeepsInv | timeline/flattener.go:118-168 | every entry lists at least one finished call and none twice, each entry is flattened at most once, and no flattened entry stays reachable except while being deleted |
| Flattener.ExactlyOnceIff | timeline/flattener.go:118-194 | over every interleaving, the values added under a key are at every moment those emitted, waiting and pending, in order or merely in number, if and only if every write finds the map and list as its call saw them and every flattened entry has a mapped operation |
| Flattener.ExactlyOnce | timeline/flattener.go:118-194 | in a safe run, the values added under a key are, in order, those emitted, those waiting for the channel and those pending in the map |
| Flattener.ExclusionSuffices | timeline/flattener.go:118-168 | exclusion per key between calls and the closing part of the cycle makes a run safe |
| Flattener.LostForGood | timeline/flattener.go:99-168 | a lost call is in no item of any continuation |
| Flattener.LateWriteIsLost | timeline/flattener.go:149-153 | a write to an already flattened entry is lost |
| Flattener.OverwriteLoses | timeline/flattener.go:149-153 | of two calls that read one list, the first to write is lost |
| Flattener.DoubleStoreLoses | timeline/flattener.go:149-165 | of two calls that found no entry, the first to store is lost |
| Flattener.LateWriteHappens | timeline/flattener.go:120-153 | a run reaches a late write |
| Flattener.OverwriteHappens | timeline/flattener.go:149-153 | a run reaches an overwrite |
| Flattener.DoubleStoreHappens | timeline/flattener.go:149-165 | a run reaches a double store |
| Pipeline.Conserved | timeline/flattener.go:118-252 | for a key whose points all carry Sum (Count), after every flow whose flattening steps are safe, items in batches, in hand, in the channel and waiting plus pending values add up to the sum (number) of everything added |
| Pipeline.CountConservedIff | timeline/flattener.go:118-252 | for a key whose points all carry Count, that account balances at every moment of a flow if and only if every flattening step is safe |
| Arrival.EverythingArrives | timeline/flattener.go:118-194 | after every safe flow the cycle and the loop can go on until every value added under the key is in a batch, each exactly once and in order |
| Arrival.Completes | timeline/flattener.go:99-131 | from every reachable state the cycle and the loop can empty map, channel and hand into batches |
| Arrival.PushGoesThroughIff | timeline/flattener.go:193 | a push goes through exactly when the channel has room, else the cycle waits with its item |
| Pipeline.FlowSplits | timeline/flattener.go:183-193 | everything the flattener pushed is everything the channel accepted, in order |
| FlattenerObject.AddIsWithPoint | timeline/flattener.go:134-168 | from every reachable state with the cycle at rest, the steps of one uninterrupted call change the groups as the method `Add` does |
| FlattenerObject.PassIsRunCycle | timeline/flattener.go:118-131 | from every reachable state with the cycle at rest, the steps of an uninterrupted pass empty the map and emit what `RunCycle` emits |
| FlattenerObject.UninterruptedIsSafe | timeline/flattener.go:118-168 | adds and passes that never overlap are safe for every key with mapped operations |
| FlattenerObject.Flattener.Add | timeline/flattener.go:134-168 | appends to the group of the key, or opens one with the point's operation, and no group is ever empty |
| FlattenerObject.Flattener.RunCycle | timeline/flattener.go:118-131 | empties the map into one item per group with a mapped operation, each its flattened value, and no other item |
| Flattening.Flatten | timeline/flattener.go:197-252 | the five loops compute average, sum, count, minimum and maximum, and an unmapped operation fails |
| Flattening.AverageLaws | timeline/flattener.go:201-241 | minimum <= average <= maximum, and average times count is the sum |
| Flattening.OrderIrrelevant | timeline/flattener.go:201-241 | reordering the values changes no result |
| Flattening.SplitsAdd | timeline/flattener.go:211-219 | sums and counts of two parts add |
| Flattening.SplitsWeigh | timeline/flattener.go:203-209 | averages of two parts weighed by their counts add |
| Flattening.SplitsCombine | timeline/flattener.go:221-241 | extremes of two parts combine |
| Flattening.LeastIsLeast | timeline/flattener.go:221-230 | the Min loop's function is a member and a lower bound |
| Flattening.GreatestIsGreatest | timeline/flattener.go:232-241 | the Max loop's function is a member and an upper bound |
| Transport.NothingLostNothingReordered | timeline/transport.go:104-161 | in every run, items enqueued are the batches, then the batch in hand, then the channel, in order; batches are never empty; after the loop stops only the batch in hand is not handed over |
| Transport.CloseFreezes | timeline/transport.go:118-126 | after Close no batch is handed over and nothing moves out of hand and channel |
| Transport.CloseLoses | timeline/transport.go:118-171 | a stopped transport has lost items if and only if something was in hand or in the channel at Close |
| Transport.SendAcceptedIff | timeline/transport.go:104-171 | a send is accepted exactly when the channel is open and has room, else it changes nothing |
| Transport.EverythingIsDelivered | timeline/transport.go:104-161 | while the transport is open, the loop's own steps lead to a state in which the batches are everything enqueued |
| Transport.CloseEndsSends | timeline/transport.go:163-171 | once closed, the channel accepts nothing any more |
| Transport.CloseStops | timeline/transport.go:118-126 | after Close the loop's own steps stop it |
| Transport.RoundIsSteps | timeline/transport.go:114-160 | a whole round is the timer followed by one pass of the inner loop per point in the channel and one more |
| Transport.TransportCore.TransferRound | timeline/transport.go:114-160 | one uninterrupted round drains the whole channel and sends it unless it is empty or the close is seen |
| HttpPoint.DataChannelItemToFlattenedPoint | timeline/http.go:157-223 | the index loop equals the pairwise scan, in its result and in each of its errors |
| HttpPoint.PointOf | timeline/http.go:164-223 | every conversion that succeeds gives the name, the operation and the kept parameters as group parameters, the first value and timestamp named, or 0 and the time of the call |
| HttpPoint.SameGroupIff | timeline/http.go:164-223 | two converted items have equal group parameters if and only if name, operation and kept parameters agree |
| HttpPoint.GroupIgnoresValueAndTimestamp | timeline/http.go:164-205 | with one value and one timestamp pair the group parameters are name, operation and the other pairs, and two items agree on them if and only if they agree on these, wherever the two pairs sit and whatever they hold |
| HttpPoint.ConversionFailsIff | timeline/http.go:170-202 | a conversion fails exactly when some pair has something wrong, with the error of the first such pair |
| HttpPoint.WritesBack | timeline/http.go:225-236 | the way back keeps the parameters in order and writes timestamp and value after them |
| HttpPoint.ScanRegular | timeline/http.go:172-205 | with one value and one timestamp pair the scan finds both and keeps exactly the other pairs in order |
| HttpPoint.RoundTrip | timeline/http.go:157-236 | to a point and back gives the original pairs plus a default for a missing value or timestamp |
| HttpPoint.RoundTripPermutes | timeline/http.go:157-236 | the round trip is a permutation of the pairs if and only if the item names both properties |
| HttpPoint.RoundTripRegular | timeline/http.go:157-236 | with exactly one of each, conversion succeeds and the round trip permutes the pairs |
| CasPoint.Linearizable | snitch/custom_point.go:27-35 | in every interleaving the value is the left fold of the additions in the order of successful swaps, each call at most once, and at most n(n-1)/2 swaps have failed |
| CasPoint.NothingLost | snitch/custom_point.go:27-39 | when all calls have returned, the swap order is a permutation of the calls, the count grew by their number and the point is not null |
| CasProgress.FinishesAlone | snitch/custom_point.go:27-39 | from every state five steps of a call that runs alone finish it: it adds its argument and counts itself unless it has done so, and clears the null flag |
| CasProgress.EveryRunCompletes | snitch/custom_point.go:27-39 | every run has a continuation in which all calls return, and then nothing is lost |
| CasPoint.RunKeepsInv | snitch/custom_point.go:27-39 | failures plus overtaken calls never exceed the overtakings that successful swaps paid for |
| MetricKey.KeyFromMetricID | snitch/snitch_dynamic.go:12-25 | the loop, the in-place sort and the join compute the key |
| MetricKey.KeyOrderIndependent | snitch/snitch_dynamic.go:12-25 | the key does not depend on the order in which tags are ranged over |
| MetricKey.KeyIdentifiesPoint | snitch/snitch_dynamic.go:12-25 | without '=' in tag keys and without a comma followed by a space in any component, keys are equal if and only if metric and tag map are |
| MetricKey.KeyReads | snitch/snitch_dynamic.go:12-25 | a plain key reads as the `k=v` strings in ascending byte order and the metric after them |
| MetricKey.EqualsInKeyCollides | snitch/snitch_dynamic.go:15-20 | for every tag with '=' anywhere in its key there is a different tag that gives the same point key |
| MetricKey.SeparatorInValueCollides | snitch/snitch_dynamic.go:22-24 | with a comma and a space in a tag value one tag reads like two |
| SnitchStats.IntervalMeaning | snitch/point_funcs.go:14-43 | after any history, a run sends the sum, mean, minimum, or maximum with 0 of exactly the values since the previous run, by the aggregation of the creating call, and is silent exactly for an unrecorded non-nullable interval |
| SnitchStats.SumConserved | snitch/snitch_dynamic.go:65-92 | for a sum point, answered batches, retry buffer and current value add up to everything added |
| SnitchStats.BufferTells | snitch/snitch.go:213-253 | after any history the answered messages are exactly those up to the last post that got a response and the retry buffer exactly those since, in order, each with what its interval means |
| SnitchStats.FailedPostChangesNothing | snitch/snitch.go:216-236 | a post without a response changes nothing |
| SnitchStats.MeansIff | snitch/point_funcs.go:14-43 | exactly one value has the meaning of an aggregation for an interval |
| SnitchStats.PointExistsIff | snitch/snitch_dynamic.go:27-57 | a point exists exactly when some call for it had an interval that parses and one of the four aggregations |
| SnitchStats.HistoryKeepsInv | snitch/snitch_dynamic.go:34-108 | a point exists exactly when a call created it, with that call's aggregation, and holds the aggregate of its window |
| SnitchStats.CustomPoint.Aggregate | snitch/point_funcs.go:24-41 | the aggregation switch |
| SnitchStats.CustomPoint.Pre | snitch/snitch_dynamic.go:65-78 | decides whether to send and turns a sum into a mean |
| SnitchStats.CustomPoint.Run | snitch/custom_point.go:89-106 | sends what the point means and leaves it null with value and count 0 |
| SnitchStats.Stats.GetOrCreate | snitch/snitch_dynamic.go:34-108 | returns the existing point whatever the arguments, or creates one, or fails on a bad interval or aggregation |
| SnitchStats.Stats.ValueAdd | snitch/point_funcs.go:14-43 | moves the whole state like the history step, other points untouched |
| SnitchStats.Stats.Tick | snitch/custom_point.go:89-106 | a cron run of one point appends its message to the buffer and resets the point |
| SnitchStats.Stats.Post | snitch/snitch.go:213-253 | the buffer is cleared only after a response |
| HashingOrder.ScalarBytes | hashing/byteconv.go:17-64 | integers are eight bytes that stand for the number, signed ones up to a multiple of two to the 64th, floats for their bits; true is 1 and false 0; strings are their bytes |
| HashingOrder.UintByteAt | hashing/byteconv.go:37-44 | the most significant byte comes first |
| HashingOrder.ListBytes | hashing/byteconv.go:101-118 | a list is encoded element after element |
| HashingOrder.AscendingEncodes | hashing/byteconv.go:67-98 | a map whose keys are listed in ascending order is encoded as listed, key before value |
| HashingOrder.LessIsBelow | hashing/sortconv.go:24-93 | `Less` is the ascending order: strings by the first difference, numbers by size, false before true |
| HashingOrder.RankOrdersNumbers | hashing/sortconv.go:43-46 | float patterns are ordered by the numbers IEEE 754 gives them |
| HashingOrder.NaNBits | hashing/sortconv.go:43-46 | a NaN is a pattern with all exponent bits set and a fraction that is not zero |
| HashingOrder.NaNInsideKeyFails | hashing/byteconv.go:88-91 | a NaN for a map key, or inside an array key, keeps the map from being encoded |
| Bytes.LessIff | hashing/sortconv.go:24-27 | byte strings are ordered by their first difference, a proper prefix first |
| Hashing.OrderIndependent | hashing/byteconv.go:67-160 | equal Go values (floats by their bits) with scalar map keys encode alike whatever order their maps are listed in, at every level |
| Hashing.EncodingDecidesEquality | hashing/byteconv.go:17-141 | for values of one fixed-width shape the encoding has the shape's width, and encodings are equal if and only if the values are |
| Hashing.Injective | hashing/byteconv.go:17-141 | within a fixed-width shape equal encodings come from equal values |
| Hashing.Fixed64RoundTrip | hashing/byteconv.go:17-44 | the 8-byte big-endian encoding decodes to its number |
| Hashing.ConcatInjective | hashing/byteconv.go:81-95 | equal concatenations of equally wide chunks have equal chunks |
| Hashing.EncodesIff | hashing/byteconv.go:67-141 | a value whose maps list distinct keys is encoded if and only if no kind without an encoder occurs at any level, no map key has a NaN in it and no map has two or more unsigned keys |
| Hashing.ParametersDecideEquality | hashing/hashing.go:53-73 | for parameter lists with a fixed-width shape per position, encodings are equal if and only if the parameters are |
| Hashing.KeyOrder | hashing/sortconv.go:24-93 | on the keys of one map `Less` is a total order |
| Hashing.ArrayKeysEncodeAlikeIff | hashing/byteconv.go:75-95 | two listings of one map with fixed-width array keys and values encode alike if and only if they list the keys in the same order |
| Hashing.ArrayKeysKeepListingOrder | hashing/byteconv.go:75-76 | every such map with two or more keys has another listing that encodes differently |
| Hashing.StringsCollide | hashing/byteconv.go:57-64 | for all strings, moving bytes from one list element to the next keeps the encoding, and the lists are equal if and only if nothing moves |
| Hashing.ZerosEncodeApart | hashing/byteconv.go:17-24 | positive and negative zero have different encodings |
| Hashing.GetByteArray | hashing/byteconv.go:121-141 | the dispatcher returns the encoding |
| Hashing.ArrayToByteArray | hashing/byteconv.go:101-118 | the element loop returns the encoding, or fails with the first failing element |
| Hashing.MapToByteArray | hashing/byteconv.go:67-98 | the loop over the sorted keys returns the encoding |
| Hashing.SortedKeys | hashing/byteconv.go:144-160 | the in-place sort of the keys; keys of other kinds keep their order |
| Hashing.GenerateByteArray | hashing/hashing.go:53-73 | parameters are encoded like one list |
| Sorting.SortInPlace | hashing/sortconv.go:11-27 | sorting by Less and Swap computes the sorted listing |
| Sorting.SortedUnique | hashing/byteconv.go:144-160 | the sorted listing of given elements is unique, so any sorting algorithm gives it |
| Scheduler.LiveLoopsBounded | scheduler/task.go:37-56 | live loops never exceed one plus the starts made while an older loop was alive |
| Scheduler.OneLoopIff | scheduler/task.go:37-56 | no moment sees two live loops if and only if no start came while an older loop was alive |
| Scheduler.AfterStopAtMostOnce | scheduler/task.go:43-62 | after a stop and before the next start a loop begins at most one Execute, and only one whose check had passed |
| Scheduler.RunningLoopGoesRound | scheduler/task.go:43-53 | as long as the task is not stopped a live loop stays alive and of every three of its steps exactly one is an Execute |
| Scheduler.StoppedLoopEnds | scheduler/task.go:43-53 | a loop of a stopped task ends after at most three more steps |
| Scheduler.StartRuns | scheduler/task.go:37-56 | a start gives a task that is not running one more live loop and makes it run, and does nothing to a running one |
| Scheduler.QuickRestartDoubles | scheduler/task.go:37-62 | a stop and a start before the old loop wakes leave one more live loop |
| Scheduler.Task.Start | scheduler/task.go:37-56 | moves the flag and the loops as the Start step does: spawns exactly when the task was not running |
| Scheduler.Task.Stop | scheduler/task.go:59-62 | moves the flag and the loops as the Stop step does |
| Scheduler.Manager.AddTask | scheduler/scheduler.go:27-46 | stores a task with a fresh id, even when auto-start is refused because it runs already |
| Scheduler.Manager.StartTask | scheduler/scheduler.go:115-129 | starts a stored task that is not running, and fails otherwise |
| Scheduler.Manager.StopTask | scheduler/scheduler.go:98-112 | stops a stored task that is running, and fails otherwise |
| Scheduler.Manager.RemoveTask | scheduler/scheduler.go:70-82 | a removed task is stopped and gone, and nothing else changes |
| Scheduler.Manager.RemoveAllTasks | scheduler/scheduler.go:85-95 | every task is stopped and the map is empty |

## Left out

- Liveness of re-election: the watch on the election node is taken once and never re-armed, so only safety is claimed.
- ZooKeeper networking, ACLs and timers; a full feedback channel (capacity 5) blocking its sender: signals are a history.
- `GetClusterInfo` reads master and children in separate requests; the list is stated on one state of the tree.
- Tearing of slice headers in `entry.values`: one read and one write of the list are atomic steps, and `flatten` is one step.
- A point channel without a buffer (capacity 0), where a send meets a receive: the channel is modelled with its buffer only.
- Flattener `Close` during a cycle: the channel is closed before the cycle is told to stop, so conservation is for runs without it.
- FlattenerObject.Flattener.Add: entries are values in the map here; entry identity and its sharing between `Add` and the cycle are in `Flattener`.
- Hash functions and hex: a point's group key is taken as given; equal group parameters give equal keys.
- Rounding, overflow and NaN of float64 in the aggregations, and wrap-around of the int64 count.
- Concurrent `Run` and `ValueAdd` on one statistics point: a value added between read and reset is dropped; conservation is for atomic runs.
- SnitchStats.Stats.Post: message timestamps, metric and merged tags are not part of the message; the point key stands for them.
- `Stats.SetValue`, the UDP client and the runtime loop of snitch: they would only add easy members.
- Hashing.GetByteArray: does not tell a returned error from a panic; values of interface type inside a list or map have no encoder and are `Other`.
- Concurrent `Start` calls on one task: starts and stops are atomic.
- `timeline/opentsdb.go`, `timeline/manager.go` and the packages cassandra, cockroach, solar, rip, logh, loader, files, compress, tester and structs: input and output around libraries.
