# Tolerex: a verified model of the replication protocol

Tolerex keeps each message on `Tolerance` members chosen by a single leader. The leader answers to a
text console, writes messages to members in parallel, remembers which members hold which id, and saves
that index in a state file. This project models the leader's state and critical sections, the two load
balancers, the members and their disks, the failure detector and the text protocol, and proves what
holds of every run.

## How the model is laid out

| file | content |
|---|---|
| `Balancer.dfy` | both balancers: the in-place sort and its optimality, the random duels with swap-removal |
| `Leader.dfy` | the leader's state; every critical section as a function, and the class that performs it in place |
| `Cluster.dfy` | the step system: leader, state file, member disks, requests under way, reads, restarts |
| `Invariants.dfy` | the invariant of all reachable states, and that every step keeps it |
| `Durability.dfy` | what survives restarts, and the one acknowledgement that may not |
| `Replicas.dfy` | the replica index, the value a read may return, fault-tolerant reads |
| `History.dfy` | what the leader's records and the model's counters mean in terms of the run |
| `Overwrites.dfy` | failed and overlapping stores of an id that is already indexed |
| `Load.dfy`, `EvenSplit.dfy` | bounds, conservation and spread of the message counts |
| `FanOut.dfy` | the goroutines, WaitGroup and channel inside one store |
| `Liveness.dfy` | the failure detector and a member's heartbeat loop in time, across leader restarts |
| `Storage.dfy`, `Member.dfy` | a member's message directory and its two requests |
| `Decimal.dfy`, `Text.dfy`, `Wire.dfy`, `Prompt.dfy` | decimal printing, fields, the SET and GET lines, the prompt matcher |

A store is split where the leader releases its lock: `Begin` takes the snapshot and sends the requests,
`Apply` is a member's write, `Ack` and `Fail` are what the leader learns, `Finish` commits, `SaveStore`
saves and returns Ok. A request can be applied after the leader has given up on it, and can be reported
as failed although it was applied. A restart (`Crash`) loses everything in the leader's memory but not
the requests already sent. The class `Leader.LeaderServer` performs the same critical sections; each method
for one section is proved equal to the function that the steps use. Its `Store` and `Retrieve` are whole
operations with nothing else running; `Cluster.PickByMayPick` and `Replicas.ReadTriesInOrder` state the same
of stores and reads that run step by step.

## Assumptions

- `Tolerance` is at least 1 and does not change between restarts; the configured member list has no
  repetitions, the list and the balancer strategy are the same at every start, and the test mode is off.
- In the step system a member's file write is one atomic step, member disks start empty and lose nothing,
  and writes of the state file succeed. (`Storage` and `Member` themselves also cover failed writes.)
- A request is written by its member at most once.
- Time is an integer number of milliseconds, with 0 as the zero time of a member never seen.

## Where the code and its descriptions differ

- The header of `internal/server/leader/leader.go` says that disk writes happen outside the lock. The
  code saves while holding it (lines 686-690), and the model follows the code: a saved state is always
  a state the leader was in.
- A test report reads a tolerance of 4 as surviving four lost members. A message has exactly `Tolerance`
  copies, so the read theorem below promises an answer for fewer than `Tolerance` lost replicas.
- Heartbeats every 5 s under a timeout of 15 s do not keep a member up across a leader restart. They are not
  saved (lines 120-136), so a new leader process judges a member by the time in the state file until it has
  heard of it. `Liveness.PunctualMemberMarkedDown` gives a run, `Liveness.VerdictAfterRestart` the exact
  condition, and `Liveness.HeardSoonAfterRestart` how long that can last.
- A store that answers failure can replace what an earlier Ok store left to be read, because nothing undoes its
  writes. With no other store for the id around, this can happen if and only if the failed store was sent to a
  member that is listed for the id (`Overwrites.FailedStoreIsReadIffOverlap`); otherwise the earlier text stays
  in place (`Overwrites.DisjointStoreIsHarmless`).
- Two overlapping stores of one id can both answer Ok and leave different texts on its replicas
  (`Overwrites.EitherOkTextIsRead`).
- A member whose registration is lost in a restart stays lost: it registers once, and heartbeats of unknown
  members are ignored (`Liveness.LostForEver`).
- A registration that answers Ok is not always durable: a member already in the leader's memory is
  answered without a save (lines 264-274), even while its first registration is still waiting for its
  own save. `Durability.RepeatedRegistrationCanBeLost` gives the run, and
  `Durability.RepeatedRegistrationDurable` the exact condition.

## Model

| member | source | states |
|---|---|---|
| Balancer.SliceStable | internal/server/balancer/balancer.go:34-39 | sorting in place by count and then address leaves the array equal to the sorted arrangement of what it held |
| Balancer.SortedUnique | internal/server/balancer/balancer.go:31-39 | a bag of loads has only one sorted arrangement, so the sort's result is determined by its elements alone |
| Balancer.StrLessMeans | internal/server/balancer/balancer.go:34-39 | of two addresses the smaller is the one with the smaller character at their first difference, or a proper prefix of the other |
| Balancer.LeastLoadedBalancer.Pick | internal/server/balancer/balancer.go:26-50 | the pick is the least-loaded prefix, and the caller's array is left as a sorted permutation of itself |
| Balancer.LeastLoadedCheapest | internal/server/balancer/balancer.go:26-50 | the pick has tolerance loads, or all when there are fewer, and no other choice of the same size has a smaller total count |
| Balancer.LeastLoadedOrdered | internal/server/balancer/balancer.go:31-49 | nothing left unpicked has a smaller count than a picked load, nor the same count and an address smaller at the first difference |
| Balancer.LeastLoadedOrderFree | internal/server/balancer/balancer.go:31-49 | the pick does not depend on the order in which the candidates are listed |
| Balancer.PowerOfTwoChoicesBalancer.Pick | internal/server/balancer/balancer.go:57-106 | for every sequence of drawn indices, redraws of equal ones included, the in-place duels give the outcome of the specified duels and the caller's slice keeps its order |
| Balancer.DuelsConserve | internal/server/balancer/balancer.go:67-105 | picked and remaining loads together are exactly the candidates |
| Balancer.LighterWins | internal/server/balancer/balancer.go:75-105 | in every round the lighter of the two drawn loads is picked, the first drawn when they are equal, and the last load of the pool takes its slot |
| Balancer.DuelsDistinct | internal/server/balancer/balancer.go:96-102 | no address is picked twice |
| Balancer.HeaviestStays | internal/server/balancer/balancer.go:90-103 | whatever is drawn, a load at least as heavy as any given candidate stays unpicked, so the maximum is never lost from the pool |
| Leader.LeaderServer.WatcherTick | internal/server/leader/leader.go:151-174 | one watcher pass applies the timeout rule to every member, in whatever order the map yields them, and reports a change exactly when someone went down |
| Leader.LeaderServer.Watch | internal/server/leader/leader.go:144-181 | a pass saves the state exactly when it marked someone down |
| Leader.LeaderServer.RegisterMember | internal/server/leader/leader.go:257-294 | a new member is appended and saved, a known one is revived without a save |
| Leader.LeaderServer.Snapshot | internal/server/leader/leader.go:359-375 | the candidates are the alive members in order with their counts |
| Leader.LeaderServer.Commit | internal/server/leader/leader.go:459-475 | acks are counted one by one and a full set of them becomes the replica list |
| Leader.LeaderServer.Store | internal/server/leader/leader.go:345-485 | alone, with either balancer and in whatever order the acks arrive, a store is Ok exactly when there are enough alive members and every target acknowledges, and only then is the state saved |
| Cluster.PickByMayPick | internal/server/leader/leader.go:359-386 | the targets that this store picks are among those that the step system allows |
| Leader.LeaderServer.Retrieve | internal/server/leader/leader.go:491-540 | alone, a read returns the answer of the first alive target that gives one, and nothing exactly when none does |
| Leader.CandidatesAre | internal/server/leader/leader.go:359-372 | the snapshot holds exactly the alive members, each once, with its current count |
| Leader.CandidatesInOrder | internal/server/leader/leader.go:359-372 | the snapshot lists the members in the order of the member list |
| Leader.StartsWithConfigured | internal/server/leader/leader.go:199-217 | a leader without a state file starts with the configured members in order, each alive, with count 0 and seen now |
| Leader.CountAcksEffect | internal/server/leader/leader.go:463-467 | counting different acks raises exactly those members' counts by one |
| Leader.CommitOrderFree | internal/server/leader/leader.go:448-473 | neither counts nor replica sets depend on the order in which acks arrive |
| Invariants.TargetsSound | internal/server/leader/leader.go:359-393 | with either balancer, a store that goes ahead has exactly tolerance different targets, all alive at the snapshot |
| Invariants.StepKeepsInv | internal/server/leader/leader.go:120-765 | every step of the cluster keeps the invariant of stores, requests, disks, reads and saved state |
| Invariants.ExecutionInv | internal/server/leader/leader.go:187-251 | the invariant holds in every state of every run from a fresh start, restarts included |
| Replicas.ReplicaIndexHolds | internal/server/leader/leader.go:345-485 | in memory and on file, members are distinct and match the registry, and each indexed id has exactly tolerance different registered replicas whose files hold a text sent for that id |
| Durability.StoreIsDurable | internal/server/leader/leader.go:469-480 | once a store has returned Ok its id stays indexed in memory and in the state file in every later state |
| Durability.RegistrationIsDurable | internal/server/leader/leader.go:276-293 | once a new member's registration has returned Ok it stays a member in memory and across restarts |
| Durability.RepeatedRegistrationDurable | internal/server/leader/leader.go:264-274 | the unsaved Ok of a repeated registration is durable if and only if a restart before the call would have brought the member back |
| Durability.RepeatedRegistrationAlone | internal/server/leader/leader.go:264-291 | it is durable whenever no first registration of that address is waiting for its save |
| Durability.RegisterTwiceThenCrash | internal/server/leader/leader.go:264-288 | from any state, an unknown member that registers twice before the first save and is told Ok is gone after a restart |
| Durability.RepeatedRegistrationCanBeLost | internal/server/leader/leader.go:264-288 | a complete run in which that happens |
| Replicas.ReadsReturnSentTexts | internal/server/leader/leader.go:512-536 | no read returns a text that no store attempt for its id carried |
| Replicas.LastOkStoreIsRead | internal/server/leader/leader.go:345-540 | after an Ok store without a concurrent, later or still unapplied other store for the id, every listed replica holds its text and every read of the id that begins later returns that text or nothing, across restarts |
| Replicas.FileIsLastWritten | internal/server/member/member.go:143-157 | in every run a member's file for an id holds exactly the text that was last written there for that id |
| Replicas.ReplicasAgree | internal/server/leader/leader.go:469-473 | all listed replicas of an id hold one text if and only if that text was the last one written for the id on each of them |
| Replicas.ReadReturnsALastText | internal/server/leader/leader.go:491-540 | a read of an indexed id returns the text last written for it on one of the replicas listed when it began |
| Overwrites.FailedStoreIsReadIffOverlap | internal/server/leader/leader.go:345-540 | when nothing else stores an indexed id, a store that answers failure can be read by a later read if and only if one of its targets is among the listed replicas of the id |
| Overwrites.FailingStoreIsRead | internal/server/leader/leader.go:345-540 | the run for any shared member: the store writes there, fails on all targets and answers failure, memory and state file are as before, and a read begun after that returns the failed text |
| Overwrites.FailedCopyHasItsText | internal/server/member/member.go:143-157 | a failed store's copy that is read holds that store's text |
| Overwrites.DisjointStoreIsHarmless | internal/server/leader/leader.go:345-540 | a failed store without a shared member changes no replica of the id, and every read of the id begun meanwhile or later returns the earlier text or nothing, across restarts if memory and state file agree on the id |
| Overwrites.OkStoreSettles | internal/server/leader/leader.go:469-480 | after an Ok store without another store for the id around, nothing for the id is in progress and memory and state file list the same replicas, all with its text |
| Overwrites.FailedStoreIsNeverOk | internal/server/leader/leader.go:459-480 | a store that has lost a target never returns Ok, however the run goes on |
| Overwrites.EitherOkTextIsRead | internal/server/leader/leader.go:345-540 | two overlapping stores of one id can both return Ok and leave their texts on different replicas, and a read begun after both may be answered by any of these |
| Replicas.NotFoundNeedsAllSilent | internal/server/leader/leader.go:499-539 | a read of an indexed id ends without a text only after passing over all tolerance different replicas, each because it was down when looked at or did not answer its call |
| Replicas.ReadTriesInOrder | internal/server/leader/leader.go:499-539 | a read goes in order through the listed replicas, or through all members when the id is not indexed; those before the current one were down, did not answer or had no file, and without an answer it ends only after the last |
| Replicas.UnindexedReadAsksAll | internal/server/leader/leader.go:505-539 | a read of an id without replicas ends without a text only after every member was down when looked at, did not answer or had no file for the id |
| Replicas.FaultTolerantRead | internal/server/leader/leader.go:499-539 | when a read of an indexed id ends and fewer than tolerance of its replicas were down or did not answer, it ends with a text |
| Replicas.ReadMovesOn | internal/server/leader/leader.go:512-539 | each step of a read ends it or brings it closer to its end |
| Replicas.ReadCanMove | internal/server/leader/leader.go:512-539 | a read in progress is never stuck |
| Load.CountsAreBounded | internal/server/leader/leader.go:460-473 | restarts included, a member's count is at least the number of ids indexed on it and at most the number of writes it performed |
| Load.AcksAreConserved | internal/server/leader/leader.go:460-467 | between restarts the total count grows by exactly the acks of the finished stores |
| History.CountIsItsAcks | internal/server/leader/leader.go:460-467 | between restarts a member's count grows by exactly the number of finished stores that it acknowledged |
| History.IndexIsLastFullStore | internal/server/leader/leader.go:469-473 | between restarts an id's replicas are the acks, in their order, of the last store for it that every target acknowledged |
| History.CountersAreHistory | internal/server/leader/leader.go:459-475 | the model's counters of finished stores and of their acks are those of the run |
| History.FailsAreMissedAcks | internal/server/leader/leader.go:459-475 | the model's count of a member's failures is the number of finished stores that targeted it without its ack |
| History.WritesAreApplies | internal/server/member/member.go:143-157 | the writes recorded for a member are exactly the requests it has applied in the run |
| History.AttemptsAreBegins | internal/server/leader/leader.go:345-395 | the attempts are exactly the stores begun in the run, each with its id and text |
| History.StoreCanMove | internal/server/leader/leader.go:397-475 | a store in progress can always go on to an outcome for a target or to its commit |
| Load.CountsAreAcks | internal/server/leader/leader.go:460-467 | from a fresh start to the first restart the total count equals all acks of finished stores |
| Load.CountsCoverIndex | internal/server/leader/leader.go:460-473 | restarts included, the total count is at least tolerance for every indexed id |
| Load.LoadSpread | internal/server/leader/leader.go:359-475 | with at most c stores in progress, one member's count with its exclusive stores in progress exceeds another's by at most c plus the other's missing acks |
| Load.SpreadWithoutFailures | internal/server/leader/leader.go:359-475 | when no target fails, two counts never differ by more than c |
| EvenSplit.SequentialStoresSplitEvenly | internal/server/leader/leader.go:459-475 | sequential fully acknowledged stores leave every count at the mean rounded down or up |
| FanOut.SendsAreSafe | internal/server/leader/leader.go:397-446 | a goroutine about to send finds the channel open and with room |
| FanOut.CollectsExactlyTheSuccesses | internal/server/leader/leader.go:397-457 | at the end the replication of each target has either succeeded or been given up, and the targets whose replication succeeded were collected, each once and nothing else |
| FanOut.EveryRunReachesTheCommit | internal/server/leader/leader.go:397-457 | no fan-out over n targets takes more than 5 n + 3 steps, and one that can go no further has reached its commit |
| Liveness.RevivedOnlyBy | internal/server/leader/leader.go:120-274 | a member that is not alive becomes alive exactly by a heartbeat, a registration, or a restart from a state that has it alive |
| History.EntryChangesOnlyBy | internal/server/leader/leader.go:120-294 | apart from restarts a member's entry changes only so: a heartbeat or repeated registration sets the time and marks it alive, a watcher pass more than 15 s after it was last seen, or added if never seen, marks it down, a commit may raise the count |
| History.MembersChangeOnlyBy | internal/server/leader/leader.go:276-287 | apart from restarts only a new registration adds a member, at the end of the list, alive, with count 0 and seen now |
| History.MembersAreAppended | internal/server/leader/leader.go:276-287 | between restarts the member list only grows at its end and registration times do not change |
| History.TickOwesASave | internal/server/leader/leader.go:151-177 | a watcher pass owes a save exactly when it marked a member down |
| Liveness.AliveIsFresh | internal/server/leader/leader.go:144-181 | after the first watcher pass of a leader process, whatever state it started from, a member marked alive was seen at most 20 s ago |
| Liveness.PunctualMemberStaysAlive | cmd/member/main.go:310-399 | across leader restarts: from the first registration or heartbeat that a leader process records until that process ends, a member that keeps to its dial, call and sleep times, failing only while the leader is down, is alive in every state |
| Liveness.ContactGap | cmd/member/main.go:310-399 | within one leader process, registration to first heartbeat takes at most 15 s and one heartbeat to the next at most 14 s |
| Liveness.GapsAreReached | cmd/member/main.go:310-399 | both bounds are reached by members that use up their limits |
| Liveness.VerdictAfterRestart | internal/server/leader/leader.go:144-181 | a watcher pass of a restarted leader leaves such a member down if and only if nothing was heard of it since the restart and the restored state has it down, unknown, or last seen more than the timeout ago |
| Liveness.HeardSoonAfterRestart | cmd/member/main.go:366-399 | a restarted leader that knows such a member hears of it within 17 s |
| Liveness.StaleRestart | internal/server/leader/leader.go:120-171 | a heartbeat, a restart and a pass leave a member alive exactly when its saved time was recent enough, however recent the heartbeat |
| Liveness.PunctualMemberMarkedDown | cmd/member/main.go:310-399 | a run of the member's loop, within all its limits, in which a restarted leader marks the member down 5001 ms after a heartbeat |
| Liveness.BeatsThenMarkedDown | internal/server/leader/leader.go:120-171 | a complete run of the cluster in which a member is marked down 5.1 s after its last heartbeat |
| Liveness.LostForEver | internal/server/leader/leader.go:120-136 | a member past its registration that a restarted leader does not know is never known again, whatever heartbeats and restarts follow |
| Storage.MessageDir.WriteMessage | internal/storage/writer.go:54-95 | in either mode the named file holds the text afterwards and no other message changes; a refused write changes nothing, one that breaks off leaves the file with the part written |
| Storage.MessageDir.ReadMessage | internal/storage/reader.go:52-81 | a read gives the id's text, not found for an absent id, and passes other failures on |
| Storage.DirectoryIsAMap | internal/storage/writer.go:54-95 | any sequence of writes leaves a directory that stands for the map from ids to last texts |
| Decimal.ItoaInjective | internal/storage/writer.go:74 | different ids, negative ones included, never share a file name |
| Decimal.ItoaIsDecimal | internal/storage/writer.go:74 | a number prints as a minus sign if negative and its decimal digits by place value, without leading zeros |
| Decimal.AtoiMeans | internal/server/leader/leader.go:612-617 | a field is a number exactly when it is an optional sign and digits whose place value is in the 64-bit range, and then it is that value |
| Member.MemberServer.Store | internal/server/member/member.go:119-158 | an acknowledgement means the text is on disk; a cancellation after the write leaves it there too, and a failed write what it had written |
| Member.MemberServer.Retrieve | internal/server/member/member.go:164-227 | the stored text, not found for a missing file or failed read, or a cancellation |
| Wire.HandleClient | internal/server/leader/leader.go:583-680 | of everything sent, each complete line is one command in its turn, up to and including the first quit; an incomplete line and whatever follows a quit have no effect |
| Wire.SessionAnswersLines | internal/server/leader/leader.go:583-680 | for any lines and incomplete rest, the session has exactly the commands of those lines up to the first quit |
| Wire.ParseLineMeans | internal/server/leader/leader.go:592-675 | a line is blank, a store, a read, a help, a quit or one of the refusals exactly when its white space, its first word in any case, its number of words and the numeral in its second word say so |
| Wire.SetLineRoundTrip | cmd/client/main.go:408 | a SET line is understood as meant if and only if its content is not empty and its only white space is single blanks between other characters |
| Wire.AcceptedLineRoundTrip | internal/server/leader/leader.go:605-620 | printing the request of any accepted SET line and reading it again gives the same request |
| Wire.StreamRoundTrip | internal/server/leader/leader.go:583-620 | the leader reads back exactly the messages that the client's SET lines carry, in order, whatever follows |
| Wire.HandleBulkSet | cmd/client/main.go:464-474 | the lines written make the leader store the message under count consecutive ids, each with its own id appended |
| Wire.HandleBulkFile | cmd/client/main.go:428-441 | the lines written make the leader store the content under count consecutive ids |
| Wire.BulkRoundTrip | cmd/client/main.go:428-474 | a bulk run of a normalised, non-empty message is read as exactly max(count, 0) stores, the i-th of id base + i |
| Wire.GetLineRoundTrip | cmd/client/main.go:515 | a GET line asks for exactly the id that was printed |
| Text.WholeFileIsItsWords | cmd/client/main.go:225-235 | a file read whole is its words separated by blanks, whatever its line ends |
| Text.NormalMeansItsWords | cmd/client/main.go:233 | a text has no white space but single blanks between other characters exactly when splitting and joining it gives it back |
| Text.FieldsAreTheWords | internal/server/leader/leader.go:602 | the fields of a line are its maximal runs of characters that are not white space, in order and complete |
| Prompt.DrainStartup | cmd/client/main.go:69-94 | draining consumes the stream exactly through the first occurrence of the prompt and fails exactly when there is none |
| Prompt.WindowIsLast | cmd/client/main.go:83-88 | the shifted window always holds the last characters read, as many as fit |
| Prompt.GreetingEndsAtItsPrompt | internal/server/leader/leader.go:557-581 | on the leader's greeting, whatever follows it, the first prompt ends exactly at the greeting's end |
| Prompt.SyncWithLeader | cmd/client/main.go:318 | draining a new connection consumes the leader's greeting and nothing of what follows |

## Left out

- The RPC transport, TLS, certificate checks of callers, dialling and the connection pool: a request is sent, applied or dropped, and acknowledged or failed.
- The JSON text of the state file: saving and loading copy a value. Member entries are values in a map, so the pointer sharing that the deep copy guards against cannot arise in the model.
- Replies of the text console, its logging, and the client's measurements, menus and retry loops.
- Flushing of the client's buffered writer: the connection receives the same bytes in the end.
- The sort is the insertion sort that Go's stable sort uses on short slices; the merging of longer blocks is not modelled. The result is the same by `Balancer.SortedUnique`.
- Balancer.PowerOfTwoChoicesBalancer.Pick: each round's redraws are assumed to end, and the quality of the random choice is not modelled.
- Leader.LeaderServer.Store: runs with nothing else; interleavings are covered by the step system and the goroutines by `FanOut`.
- A member process that ends because its registration fails: its run simply stops.
- Upper-casing of commands is modelled on the letters that can matter to the five commands.
- A state file that cannot be written or parsed, what torn message files do to the whole cluster, and a tolerance changed between restarts.
- Network deadlines of the prompt matcher: a stream that ends stands for a read error.
