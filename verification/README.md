# Poll-live: a verified model

Poll-live lets people create polls, vote once each, and watch the counts move. MongoDB keeps the polls and the votes;
Redis keeps a results hash per poll and a counter per option and carries the update events; a WebSocket hub forwards the
events to browsers. No transaction spans the two stores, every request runs beside others, and every command can fail.
This project models that logic in Dafny and proves what holds in every interleaving.

## How it is laid out

| file | content |
|---|---|
| `Basics.dfy`, `Decimal.dfy`, `Models.dfy`, `Keys.dfy` | options and results, decimal text, entities and voter keys, Redis key names |
| `Results.dfy` | results in option order, percentages over the reals, rounded bars |
| `Protocol.dfy` | the two stores, their atomic commands, and every service call as a thread with a program counter |
| `Structure.dfy`, `Voters.dfy`, `Lifecycle.dfy` | what every run keeps: shape, counting, one vote per identity, poll status |
| `Conservation.dfy`, `Snapshots.dfy` | runs in which Redis keeps its keys: exact accounting, and what the published events say |
| `KeyLoss.dfy`, `Scenario.dfy` | runs in which Redis may lose a hash or counter at any moment |
| `Sequential.dfy` | one call running alone, with a store failing at any command |
| `RedisService.dfy`, `Repositories.dfy`, `Services.dfy` | the Go services as classes with loops over stored text, proved to run the protocol's commands |
| `Hub.dfy`, `HubCoverage.dfy`, `HubService.dfy` | the hub's lock sections as threads, the exact condition for a poll to be subscribed, the hub as a class |
| `Delivery.dfy` | from a poll's subscriber goroutines through the bounded queues to the frames a client receives |
| `Reconnect.dfy` | the browser's reconnecting socket |
| `Validation.dfy` | validation of a new poll's texts |

A run is any list of steps: a call arrives, a call runs its next store command, a call stops with an error, or Redis loses
a key. A step that names a call that cannot move changes nothing, so every list of steps is a run and a statement about
`After(run)` is a statement about every reachable state. Calls are never removed from the state, so the calls that were
abandoned half way can be counted. `Watch` names the sets of calls that the theorems count: in flight (running between the
vote's insert and its increment), stranded (stopped there), counted (past the increment), cleared (past the status check,
before the insert).

What is taken from outside: each Lua script and each MongoDB command is atomic, and a command that fails was not applied;
the clock, new ObjectIDs, the order of a listing and the moment of a failure are parameters; `toLower` is a parameter of
validation, so the result holds for any case table. Poll ids that reach Redis are hexadecimal, hence free of colons.

## Where the code and its comments differ

- `backend/services/poll_service.go:186-187` says that seeding only inserts counters that do not already exist. The script
  looks at the whole hash: if it exists, missing fields stay missing. An increment after a loss makes such a hash
  (`PartialHashOccurs`). The model follows the code.
- `backend/services/redis_service.go:66-69` says that the seed counts are read from MongoDB. `Vote` and `CreatePoll` seed
  with nothing. Without key loss this is harmless (`LateSeedingIsHarmless`); after a loss it wipes the tally
  (`UndercountOccurs`), exactly by what had been counted before (`EmptyReturnIsExactIff`).
- `backend/services/poll_service.go:158` says that a delete removes the poll. It writes a status, and a close that was
  already past its check can write over it (`StaleCloseRevivesDeletedPoll`).
- `backend/services/websocket_service.go:71-72` says that the subscription is torn down when the last viewer leaves. By the
  time the stop runs there may be a new viewer, who then has no subscription (`StaleStopUncovers`).

## Model

| member | source | states |
|---|---|---|
| Conservation.LiveCountsAreConserved | backend/services/vote_service.go:62-81 | without key loss, in every interleaving of any calls and for every poll and option: live count + calls in flight + calls stranded = votes stored; the INCR counter equals the hash entry |
| Conservation.VotesAreBooked | backend/services/vote_service.go:67-81 | with or without key loss, the votes stored for an option are exactly the calls in flight, stranded or counted for it |
| Conservation.LateSeedingIsHarmless | backend/services/redis_service.go:70-92 | without key loss a seeding, however late and from however old a snapshot, changes no live count and no counter, and it can only create a hash for a poll that has no stored vote |
| Conservation.ShownResultsNeverOvercount | backend/services/poll_service.go:176-184 | what a reader is shown never exceeds CountByOption, per option and in total, and equals it once no call is in flight or stranded |
| Conservation.VotesLeaveOtherPolls | backend/services/redis_service.go:98-110 | any run of Vote steps on one poll leaves every other poll's hash, counters and votes as they were |
| KeyLoss.OvercountIsBounded | backend/services/redis_service.go:71-92 | whatever Redis loses, live count + calls in flight <= votes stored + calls that were in flight when the poll was last seeded |
| KeyLoss.BalanceIsKept | backend/services/redis_service.go:98-110 | from any moment the hash exists and until it is lost again, live count + in flight + stranded moves in step with the votes stored, whatever readers and seedings do |
| KeyLoss.ReseedIsExactIff | backend/services/poll_service.go:186-194 | a reader that counted, then seeds a missing hash, installs the counts of the moment it counted; the tally this leads to is right if and only if as many votes were stored in between as calls are in flight |
| KeyLoss.RecoveryIsExactIff | backend/services/poll_service.go:176-194 | after such a recovery, at every later moment without another loss, stored votes - live count = votes stored between the reader's count and its seeding - calls in flight at the seeding + calls now in flight or stranded since; so live count and those open calls make the stored count if and only if as many votes were stored in between as calls were in flight |
| KeyLoss.QuietReseedRestoresTally | backend/services/poll_service.go:176-194 | if the first touch after a loss is a reader with no vote in flight or moving, hash and shown results are exactly CountByOption again |
| KeyLoss.EmptyReturnIsExactIff | backend/services/vote_service.go:62-81 | when a missing hash comes back without a look at the stored votes (Vote's or CreatePoll's nil seed, or a bare increment), the tally stays short of the stored votes, at every later moment until another loss, by exactly the number of votes counted before; it is right if and only if that is zero |
| KeyLoss.HashReturnsInTwoWays | backend/services/redis_service.go:70-110 | a hash can only come back by one of these commands or by a reader's seeding, so the two if-and-only-ifs cover every recovery |
| KeyLoss.PartialHashOccurs | backend/services/redis_service.go:98-110 | the run in which an increment recreates a lost hash with its own field alone, and the other option stays undercounted in every continuation without another loss |
| KeyLoss.OvercountOccurs | backend/services/vote_service.go:72-81 | a run with a key loss in which one stored vote shows as two |
| KeyLoss.UndercountOccurs | backend/services/vote_service.go:62-65 | a run with a key loss in which a Vote call's zero seed stays, although a vote is stored and nothing is in flight |
| Snapshots.EventIsRealAndIncludesPublisher | backend/services/vote_service.go:83-93 | every poll_update shows counts the hash really had at one moment of the run, equal to the numbers of calls past their increment then; the call that published it made that read, and its own option shows at least its own vote |
| Snapshots.EventsFormAChain | backend/services/vote_service.go:83-93 | any two poll_update events of a poll are comparable option by option |
| Snapshots.LargestEventIsLiveTally | backend/services/vote_service.go:79-93 | once something is counted and no Vote call of the poll stands between its increment and its publish, some event shows the hash as it is now and no event of the poll exceeds it; the stored votes exceed it exactly by the calls in flight or stranded |
| Snapshots.LargestEventIsFinalTally | backend/services/vote_service.go:79-93 | its corollary: when every call that stored a vote has returned without error, some event carries CountByOption with CountByPoll as its total, and no event of the poll exceeds it |
| Snapshots.EventIsCurrentIff | backend/services/vote_service.go:79-93 | an event, read by its publisher at some moment, shows what the hash holds now if and only if no call has incremented its poll since that moment |
| Snapshots.LastEventIsFinalIff | backend/services/vote_service.go:83-93 | when every call that stored a vote has returned without error, the poll's last event carries CountByOption if and only if no call incremented the poll after that event's publisher, a call of the poll, had read its snapshot |
| Snapshots.LastEventMayBeStale | backend/services/vote_service.go:88-93 | a run without loss or failure whose last event shows one vote where two are stored |
| Snapshots.LiveIsMonotone | backend/services/redis_service.go:98-110 | without key loss no live count ever goes down |
| Voters.OneVotePerIdentity | backend/repositories/vote_repository.go:27-43 | in every reachable state an identity has at most one vote in a poll, HasVoted answers for that identity alone, and no other identity's vote is filed under its key |
| Voters.HasVotedMeansRejected | backend/repositories/vote_repository.go:45-52 | HasVoted is true exactly when that voter's insert is rejected, a rejected insert moves neither store, and once true it stays true |
| Voters.PollCountsAgree | backend/repositories/vote_repository.go:54-88 | every vote names an option of its poll, and CountByPoll = the sum of CountByOption over the options = the number of distinct voters |
| Models.VoterKeyInjective | backend/models/vote.go:23-30 | a voter key determines the id and whether the voter was signed in |
| Models.NewOptionsDistinct | backend/services/poll_service.go:54-60 | the option ids CreatePoll makes are pairwise distinct, for any number of options |
| Lifecycle.StatusStep | backend/services/poll_service.go:133-172 | at any reachable moment a status changes only by a write of the poll's creator, never to active, and goes backwards exactly when a close writes after a delete |
| Lifecycle.NeverActiveAgain | backend/services/poll_service.go:133-172 | in every interleaving a poll that stopped being active never is again |
| Lifecycle.StatusOnlyAdvances | backend/repositories/poll_repository.go:72-84 | in a run without a stale close the status only moves forward in active < closed < deleted |
| Lifecycle.WholeCallNeverGoesBack | backend/services/poll_service.go:133-172 | a close or delete whose check and write run back to back never takes a status backwards, and succeeds exactly for the creator of a visible poll |
| Lifecycle.StaleCloseRevivesDeletedPoll | backend/services/poll_service.go:138-147 | the run in which a stale close makes a deleted poll visible again |
| Lifecycle.LateVotesAreBounded | backend/services/vote_service.go:39-77 | after a poll stops being active, votes stored + calls cleared never grows, so at most as many late votes are stored as calls were past the check and before their insert |
| Lifecycle.LateVoteWasCleared | backend/services/vote_service.go:39-77 | every vote stored after a poll stopped being active was cast by a call that at that moment was past its status check and before its insert, and no such call casts two |
| Lifecycle.NothingExpires | backend/services/vote_service.go:47-49 | no reachable call fails with the expired error, because no stored poll has an expiry |
| Protocol.CountIsSetSize | backend/repositories/vote_repository.go:45-88 | counting documents gives the number of stored votes the filter selects |
| Structure.Reachable | backend/services/poll_service.go:33-78 | in every reachable state polls have 2 to 6 distinct options, votes name options of stored polls, every call's copy of a poll's options is still what the store holds, and no seed exceeds what is stored |
| Structure.LaterExtends | backend/repositories/poll_repository.go:28-39 | in every run polls keep options and creator forever and votes are only appended |
| Structure.GetCountByOption | backend/repositories/vote_repository.go:54-83 | the grouped counts, read with a zero default, are the per-option counts for every option |
| Structure.ReachableKeysNamePolls | backend/services/redis_service.go:70-110 | in every reachable state, with or without key loss, every results hash and every counter belongs to a stored poll |
| Sequential.WholeCallIsARun | backend/services/vote_service.go:38-94 | a call run without interruption, failing at any command or none, is a run of the protocol, so all theorems hold after it |
| Sequential.VoteStoredIff | backend/services/vote_service.go:38-94 | over every state of the stores and every point of failure, a vote call run alone succeeds if and only if the poll is visible, active and unexpired, the option its own, the voter new and no command failed; it stores its vote if and only if the same holds and three commands got through; a call that stores nothing moves no count and publishes nothing |
| Sequential.VoteErrorsIff | backend/services/vote_service.go:38-77 | over every state of the stores and every point of failure, each error a vote call can return is equivalent to a condition on the stored poll, its options, the clock and the stored votes, in the order of the checks; no other error occurs |
| Sequential.DuplicateVote | backend/services/vote_service.go:72-77 | a second vote by the same voter stores, counts and publishes nothing |
| Sequential.AcceptedVote | backend/services/vote_service.go:62-93 | an accepted vote is stored once, moves its own count and counter by one and no other, and publishes for each option its id, text, count after the vote and percentage, with their total; on a failure it is stored exactly from the third command on and counted exactly from the fourth |
| Sequential.PollReadAlone | backend/services/poll_service.go:82-96 | GetPoll fails exactly for a missing or deleted poll or a failing store; otherwise every option is shown in order with its id, text, percentage and its field of the live hash, or its stored votes when the hash was missing; it changes nothing but that missing hash, and not what any later reader is due to see |
| Sequential.MyPollsReadAlone | backend/services/poll_service.go:100-119 | over every state of the stores and any order of the listing, the k-th list of results is the k-th listed poll's, each shown from its own hash or its own stored votes; the listed polls are the user's that are not deleted |
| Sequential.PollCreatedAlone | backend/services/poll_service.go:54-77 | over every state of the stores and every point of failure: one active poll with the texts in order under opt_1, opt_2 and so on, and a zero for each option and nothing else in its hash unless one already stood under the new id; every other poll, hash, vote, counter and event is left alone, and all of them when the number of texts is wrong or the id is taken |
| Sequential.NewPollStartsAtZero | backend/services/poll_service.go:54-77 | in a reachable state no such hash stands: the new poll's hash has exactly its options, and no option has a live count, a counter or a stored vote |
| Sequential.StatusChangedAlone | backend/services/poll_service.go:133-172 | only the creator of a visible poll closes or deletes it, with the error otherwise; nothing but its status changes, exactly when two commands got through; only a close keeps it visible and announces itself |
| RedisService.RedisService.EnsureResults | backend/services/redis_service.go:70-92 | flattening the seed to text and running the stride-two script creates the hash with exactly the seed's numbers, or changes nothing if it exists; all other keys keep their meaning |
| RedisService.RedisService.IncrementVote | backend/services/redis_service.go:98-110 | on stored decimal text the script adds one to the counter and to the hash field, recreating a missing hash, and keeps every other key's meaning |
| RedisService.RedisService.GetResults | backend/services/redis_service.go:115-139 | the two loops over HGETALL give one result per option in order: its id, its text, its field of the stored hash or 0, and its percentage of the total; the total is the sum |
| RedisService.RedisService.SeedThenRead | backend/services/redis_service.go:70-139 | seeding a missing hash and reading it back through text gives exactly the seed in option order, 0 where it is silent, total its sum; with a hash present the seed has no effect |
| Sequential.SeededThenRead | backend/services/redis_service.go:70-139 | the seeding round trip on the protocol's commands |
| RedisService.FieldReads | backend/services/helpers.go:12-17 | reading a stored number back, with the empty text for a missing field, gives the number, or zero |
| RedisService.HashWritten | backend/services/redis_service.go:45-53 | writing one poll's hash leaves the meaning of every other hash and every counter, because the keys differ |
| RedisService.CounterWritten | backend/services/redis_service.go:45-53 | writing one counter leaves the meaning of every other counter and every hash |
| RedisService.RedisService.PublishUpdate | backend/services/redis_service.go:143-149 | exactly one event is appended when Redis is up |
| Decimal.ParsePrint | backend/services/helpers.go:12-17 | parsing the decimal text of any count gives the count back |
| Keys.ResultKeyInjective | backend/services/redis_service.go:45-47 | result keys of different poll ids are different, for any ids |
| Keys.OptionCounterKeyInjective | backend/services/redis_service.go:51-53 | counter keys of colon-free poll ids are distinct, whatever the option ids |
| Keys.ResultKeyIsNoCounterKey | backend/services/redis_service.go:43-53 | the result key of a colon-free poll id is no counter key, whatever the counter's poll and option |
| Keys.UpdateChannelInjective | backend/services/redis_service.go:57-59 | channels of different poll ids are different, for any ids |
| Keys.ChannelIsNoKey | backend/services/redis_service.go:43-59 | a channel never has the name of a result key, nor of a counter key when its poll id is colon-free |
| Keys.ColonsCollide | backend/services/redis_service.go:43-53 | without the colon-free condition a result key and a counter key do collide |
| Results.PercentagesAddUp | backend/services/redis_service.go:134-138 | the percentages shown lie in [0, 100] and add up to exactly 100, or are all 0 while there is no vote |
| Results.RoundedBarsNearHundred | frontend/src/components/ResultBar.jsx:3 | n rounded percentages add up to more than 100 - n/2 and at most 100 + n/2 |
| Results.SixBarsRange | frontend/src/components/ResultBar.jsx:3 | for six options the rounded percentages add up to 98 to 103, and both ends occur |
| Results.BarMatchesLabel | frontend/src/components/ResultBar.jsx:3-5 | a bar drawn from published results is as wide as its label says and never leaves its track |
| Results.FallbackBars | frontend/src/components/ResultBar.jsx:3-5 | without a percentage the bars are ordered as the votes, the leading option's is full, and there is none without votes |
| Repositories.VoteRepository.Create | backend/repositories/vote_repository.go:29-43 | the insert is rejected exactly when a vote with the same poll and voter key is stored, and otherwise appends |
| Repositories.VoteRepository.CountByOption | backend/repositories/vote_repository.go:56-83 | whatever the order of the documents, the map has exactly the options with votes in the poll, each with the number of its stored votes |
| Repositories.VoteRepository.CountByPoll | backend/repositories/vote_repository.go:85-88 | the number of places in the store that hold a vote of the poll |
| Repositories.VoteRepository.ExistsByVoterKey | backend/repositories/vote_repository.go:46-52 | true exactly when a vote with that poll and voter key is stored |
| Repositories.PollRepository.Create | backend/repositories/poll_repository.go:29-39 | stores the poll as active under an unused id, or nothing |
| Repositories.PollRepository.FindByID | backend/repositories/poll_repository.go:42-52 | finds exactly the polls that are not deleted |
| Repositories.PollRepository.UpdateStatus | backend/repositories/poll_repository.go:73-79 | changes the status of that poll whatever it was, and nothing else |
| Repositories.PollRepository.Delete | backend/repositories/poll_repository.go:82-84 | the poll stays stored with the deleted status |
| Services.VoteService.Vote | backend/services/vote_service.go:38-94 | the Go method over the two stores, failing at any command, leaves the stores and returns what the protocol's Vote call does when it runs alone |
| Services.VoteService.FindOption | backend/services/vote_service.go:51-57 | the search loop finds the option exactly when the poll has it |
| Services.PollService.CreatePoll | backend/services/poll_service.go:39-78 | a bad question is reported before bad options and an invalid request touches no store; a valid one does what the protocol's call does with the cleaned options |
| Services.PollService.MakeOptions | backend/services/poll_service.go:54-60 | the loop numbers the options from opt_1 in order |
| Services.PollService.GetPoll | backend/services/poll_service.go:82-96 | as the protocol's reader; each result carries its own option's id, text, due count and percentage, and the total is the sum of the due counts |
| Services.PollService.LiveResults | backend/services/poll_service.go:176-194 | counting, seeding and reading are three commands of the reader; the total is the sum of the results |
| Services.PollService.GetMyPolls | backend/services/poll_service.go:100-119 | as the protocol's reader; the map has exactly the creator's polls that are not deleted, and each poll's total is the sum of the counts due for that poll itself |
| Services.PollService.HasVoted | backend/services/poll_service.go:122-128 | true exactly when a vote with that poll and voter key is stored |
| Services.PollService.ClosePoll | backend/services/poll_service.go:133-156 | as the protocol's close; Redis keys are untouched |
| Services.PollService.DeletePoll | backend/services/poll_service.go:159-172 | as the protocol's delete |
| Hub.NoLeak | backend/services/websocket_service.go:71-87 | in any interleaving a subscription entry means a viewer or a stop still due, so at quiescence only viewed polls are subscribed |
| Hub.SingleSubscriber | backend/services/websocket_service.go:111-162 | the live subscribers of a poll are exactly the one in the map and those held by stoppers between delete and cancel; their number is the sum of the two |
| Hub.ViewersAreClients | backend/services/websocket_service.go:57-82 | the client map holds exactly the registered connections, no empty entry, and at most one thread per poll has its first ensure pending |
| Hub.WaitsCanEnd | backend/services/websocket_service.go:130-162 | in any interleaving a subscriber that has ended was cancelled, so the one in the map has not; whoever waits has cancelled the subscriber it waits for; the end of that goroutine or the two seconds let it go, and nothing else |
| HubCoverage.CoveredIffIntact | backend/services/websocket_service.go:63-69 | a viewed poll has an entry or a pending ensure if and only if, since it last became viewed, no ensure was refused and no stop ran with no ensure to come |
| HubCoverage.CoveredUnlessRaced | backend/services/websocket_service.go:111-128 | without a refused ensure or a stop since the poll became viewed, it stays covered |
| HubCoverage.UncoveredStaysUncovered | backend/services/websocket_service.go:63-69 | an uncovered viewed poll stays uncovered until its last viewer leaves |
| HubCoverage.StaleStopUncovers | backend/services/websocket_service.go:81-86 | the run in which a late stop deletes the entry a new viewer relies on, though Redis refused nothing |
| HubService.WebSocketHub.Register | backend/services/websocket_service.go:57-69 | the method is its two sections back to back |
| HubService.WebSocketHub.Unregister | backend/services/websocket_service.go:73-87 | the method is its sections back to back: leave, and for the last viewer stop, cancel and wait |
| HubService.WebSocketHub.EnsureSubscription | backend/services/websocket_service.go:111-146 | starts a subscriber exactly when the poll has none and Redis accepts |
| HubService.WebSocketHub.StopSubscription | backend/services/websocket_service.go:149-162 | removes the entry, cancels the subscriber it named and waits: the subscriber has ended if it does so in time, and is only cancelled otherwise |
| HubService.WebSocketHub.ClientCount | backend/services/websocket_service.go:165-169 | the number of registered clients of the poll |
| HubService.RegisterIsARun | backend/services/websocket_service.go:57-69 | a whole Register is a run of the hub's threads |
| HubService.UnregisterIsARun | backend/services/websocket_service.go:73-87 | a whole Unregister, with its wait, is a run of the hub's threads |
| HubService.WholeCallsKeepKeysEqual | backend/services/websocket_service.go:55-87 | when calls do not overlap and Redis refuses nothing, subscribed polls = viewed polls with exactly one live subscriber each |
| Delivery.FramesArePrefix | backend/services/websocket_service.go:91-146 | in every run with any number of subscriber goroutines at work, what a client was written from each goroutine is a gapless in-order prefix of that goroutine's broadcasts since the first that listed it; nothing else is written, its queue never exceeds 256, and an open connection has lost nothing it was offered |
| Delivery.OneSourceFrames | backend/services/websocket_service.go:91-107 | with one goroutine the frames written are themselves that prefix |
| Delivery.OrderIsIrrelevant | backend/services/websocket_service.go:92-106 | any iteration order of the listed clients leaves the same state |
| Delivery.Room.Broadcast | backend/services/websocket_service.go:91-107 | the loop over the list, in the map's arbitrary order, is the broadcast of the runs: a listed client with fewer than 256 frames queued gets one more and stays connected, one with a full queue keeps it and is closed, any other is untouched |
| Delivery.ClosesIff | backend/services/websocket_service.go:100-106 | in every run an open connection closes exactly on a hang-up, a failed write or ping, or an offer that finds 256 frames queued; it never opens again, and a client is listed exactly until it leaves closed |
| Delivery.JoinsOpen | backend/services/websocket_service.go:57-69 | in every run a client that joins is listed with an open connection and an empty queue, and its first broadcast from each goroutine is the next one |
| Delivery.EverythingArrives | backend/services/websocket_service.go:206-230 | from every reachable state, once an open client has been offered everything, its write pump alone writes it, from each goroutine, all broadcasts since the first that listed it, and the connection stays open |
| Reconnect.SingleSocket | frontend/src/hooks/useWebSocket.js:49-63 | over every history at most one socket is connecting or open, it is the current one, and it belongs to the current poll of a mounted page |
| Reconnect.NeverStuck | frontend/src/hooks/useWebSocket.js:96-133 | a mounted page with a poll has a live socket, a close event with its handler to come, or a retry timer pending |
| Reconnect.DelayIsExact | frontend/src/hooks/useWebSocket.js:65-110 | after every history a close event that schedules a retry sets one timer to min(1000 * 2^m, 30000), where m is the number of retries scheduled since the last open or effect run, counted over the history; no other event sets a timer |
| Reconnect.FirstRetryWaitsOneSecond | frontend/src/hooks/useWebSocket.js:65-104 | the first retry after an open or an effect run waits 1000 |
| Reconnect.BackOff | frontend/src/hooks/useWebSocket.js:103-109 | of two retries with no open and no effect run between them the later never waits less, and the next one waits twice as long, up to 30000 |
| Reconnect.UnmountedIsQuiet | frontend/src/hooks/useWebSocket.js:119-132 | after an unmount and until the next render no socket is connecting or open, and no pending timer or late event makes one |
| Reconnect.Hook.DoConnect | frontend/src/hooks/useWebSocket.js:49-63 | opens a socket exactly when there is a poll and the current socket is not live |
| Reconnect.Hook.DoOpen | frontend/src/hooks/useWebSocket.js:65-69 | the open event marks its socket open and sets the retry count to 0 |
| Reconnect.Hook.DoClose | frontend/src/hooks/useWebSocket.js:96-110 | the close event schedules one retry, or drops the reference after unmount |
| Reconnect.Hook.DoTimer | frontend/src/hooks/useWebSocket.js:105-109 | a timer connects only while reconnecting is wanted |
| Reconnect.Hook.DoCleanup | frontend/src/hooks/useWebSocket.js:119-132 | the cleanup detaches and closes the current socket |
| Reconnect.Hook.DoRender | frontend/src/hooks/useWebSocket.js:24-26 | a poll change cleans up, updates the poll, resets the back-off and connects |
| Validation.ValidateOptions | backend/utils/validation.go:56-76 | accepts exactly lists of 2 to 6 whose trimmed texts are non-empty, at most 100 bytes of UTF-8 and pairwise different in length or in some lowered character, for any case table, and returns them trimmed in order |
| Validation.AcceptsOwnOutput | backend/utils/validation.go:54-76 | accepts its own output and returns it unchanged |
| Validation.SpaceIsWhiteSpace | backend/utils/validation.go:64 | what counts as white space is exactly the 25 code points with Unicode's White_Space property |
| Validation.TrimSpaceTrims | backend/utils/validation.go:64 | trimming removes leading and trailing white space and nothing else |
| Validation.TrimsOnce | backend/utils/validation.go:64 | a text can be trimmed in one way only |
| Validation.ByteLenIsUtf8 | backend/utils/validation.go:65 | the length limit counts the bytes of the text's UTF-8 form |
| Validation.Utf8RoundTrip | backend/utils/validation.go:65 | each code point's UTF-8 form is well-formed, shortest and stands for that code point |
| Validation.ByteLenBounds | backend/utils/validation.go:65 | as many bytes as code points for ASCII text, more for any other |
| Validation.ValidQuestionIsTrimmed | backend/utils/validation.go:45-52 | a question is accepted exactly when it is not white space alone and its trimmed form has at most 200 bytes; the trimmed form is returned and accepted again unchanged |

## Left out

- HTTP handlers, routing, CORS, configuration, start-up and shutdown, and the connections to MongoDB and Redis: plumbing around the modelled calls.
- Passwords, tokens and e-mail checks: library behaviour and single conditions.
- Driver retries, partial network failure and replica reads: a command is atomic and either applied or not.
- int64 overflow of counts, the range errors of number parsing, and floating-point rounding of percentages: counts are natural numbers and percentages are reals.
- Services.VoteService.Vote: runs alone in this method; interleaving is modelled in `Protocol`, whose steps are the same commands, because a Dafny method has no concurrent callers.
- The length of Unregister's wait: whether the goroutine ends within the two seconds is a parameter.
- Validation.ValidateOptions: texts are code points, so invalid UTF-8 is not modelled.
- Reconnect.SingleSocket: the heartbeat, the connected flag and message handling are not modelled, and opening a socket never throws.
- Whether two overlapping subscriber goroutines receive the same payload from Redis: each has its own list of broadcasts, so a client may be sent a payload once by each. A frame whose write fails counts as not written.
- Hub.WaitsCanEnd: subscriber goroutines that end because the Redis channel closed under them are not modelled; the channel closes only with the subscription, which the goroutine itself closes last.
- Ping and pong deadlines and other wall-clock timers: a failing ping is a step that may happen at any time.
- The browser learning that a poll was closed: the server sends `poll_closed` and the hook listens for `poll_status`, so nothing is claimed.
- React pages and styles.
