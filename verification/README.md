# A verified model of the lab stack: Paxos views, cached locks, extent caches, RPC windows

This project models the protocol state of the replicated lock and file service and proves what its layers promise.
`dafny verify dfyconfig.toml` checks all of it.

| layer | specification | whole system | objects |
|---|---|---|---|
| Paxos and its log (`paxos.cc`, `log.cc`) | `PropNumbers`, `AcceptorSpec`, `ProposerSpec`, `LogText` | `PaxosSystem`, `PaxosInvariant`, `PaxosSteps`, `PaxosAgreement`, `PaxosProgress`, `PaxosLag` | `Acceptor`, `Proposer`, `ProposerRefinement` |
| views and the primary (`config.cc`, `rsm.cc`) | `Views`, `PrimarySpec` | `PrimarySystem` | `ViewObjects` |
| caching lock protocol (`lock_client_cache.cc`, `lock_server_cache.cc`) | `LockSpec` | `LockSystem`, `LockSafety`, `LockProgress` | `LockClient`, `LockServer` |
| write-back extent cache (`extent_client.cc`, `extent_server.cc`) | `ExtentSpec` | `ExtentSystem`, `ExtentProgress` | `ExtentObjects` |
| RPC (`rpc/rpc.cc`, `rpc/marshall.h`) | `RpcSpec`, `MarshalSpec`, `MarshalLaws` | `RpcSystem`, `RpcCalls` | `RpcObjects`, `MarshalObjects` |

How the three kinds of files fit together:

- A *specification* file says what one handler, loop or buffer operation does to the values it works on. Laws beside it say
  the same without naming it: when exactly each branch is taken, from the request and the state alone, and what it leaves.
- An *object* file has the classes, with the source's fields, loops and branches; each method is proved equal to the
  specification function.
- A *system* file runs the specification functions of any number of nodes, clients and threads against a network that
  loses, delays, duplicates and reorders messages. Every region the source holds a mutex for is one step, and an RPC is a
  request and a reply with anything in between. Invariants are proved for every step, the results for every run. That the
  systems leave out nothing is proved too: messages stay, can be handled late, again or never, and nodes can crash at any
  time (`NetworkAndCrashesAreFree`, `NetworkIsFree`).

## What is proved

**Paxos.** For all instances at once and any number of nodes and concurrent proposers, with crashes and restarts between any
two handler calls: one leader per ballot although a proposer's own number is not durable, P2c, validity, agreement by
decide or by old-instance reply, the total order of views by induction over instances (the quorum list of instance j is view
j - 1), views that never change later, and numbers that never decrease within an instance. The system includes a fresh
node that loads another node's log, however late the dump arrives. The acceptor never raises its promise on accept; the proof
goes through because accept requests go only to nodes that promised. A run of the system that comes to decide is an execution
of the proposer object on answers that were on the network (`DecidingRunsAreExecutions`).

These results hold under one hypothesis, the predicate `NoLag`: a request for instance j reaches only acceptors that have decided
j - 1. `PaxosLag` shows what happens without it. An acceptor has one promise and one vote for all undecided instances, and a
commit erases them. Three if-and-only-if lemmas say what a request that meets the hypothesis, and only such a request, secures:
its promise and its vote outlive later commits, and a decision leaves no view out. `LaggingAcceptorsSplitTheViews` is a run
from the initial state, driven by `config`, in which both the total order of views and validity fail: a lagging acceptor reports
its vote for instance 3 to a run of instance 4, and the late decision of instance 3 then erases its vote for instance 4.

Nothing gets stuck either. A node runs one proposer at a time and is busy exactly as long as a run of it is live; every live
run can come to its end whatever is lost; and whatever numbers were promised and whatever is under way, if a majority of the
latest view has that view, steps that meet the hypothesis bring a next view to all of that majority
(`NextViewCanBeDecided`). How a run of the object ends is pinned for all answers: at the first old-instance reply with its
value, else by the two majorities, and a majority is more than half of the positions of the view, for every length.

**Primary.** All logs are parts of one history of views (`ViewsFormOneHistory`). Nodes that choose for the same views in order
agree on the primary if and only if they agreed at the start or have met since, which two primaries that both stay members never
do. `PrimarySystem` has a step for every mutex region on the way from a decision to the choice: recording the view, telling the
config, reading the current view, reading the previous one and choosing; upcalls may overtake each other. With join requests and
restarts added, a step keeps the nodes in agreement if and only if it is orderly, and a run keeps them in agreement throughout if
and only if every step is (`RunsAgreeExactlyWhenOrderly`): a choice comes out as from the primary of the view before, a log is
handed out by the primary it leads to, the joiner still has the primary it asked, and a node restarts only while its log leads to
the first node. A choice for the next view and a repeated choice are orderly; one that leaves views out is if and only if the two
primaries are the same or meet. Adding a node through `joinreq` is orderly. Each way of being disorderly has a run from the initial
state that splits the primaries: a restart, a late answer, and, without either, an overtaken choice.

**Log.** The text of any sequence of records parses back to that sequence, dump and restore are the identity on it, and after
any sequence of handler calls and restarts replaying the log rebuilds the acceptor, up to the name part of a number whose
counter is 0 and absent values read as empty; no proposer can tell the difference.

**Locks.** Mutual exclusion between clients and between all threads; the server's record names the owner and its number; no
revoke and no retry is lost; a grant is given back only on demand; grants carry increasing numbers; late and repeated releases are
harmless; the releaser gives back exactly the revoked grants; the assertions of client and server hold. From every reachable state,
whoever holds the lock and whatever is on its way, every thread of every client can come to hold it
(`EveryThreadCanGetTheLock`); a thread that was refused can be woken after the lock came back and be served on asking again.

**Extents.** Many locks, many write-back caches and the server refine one sequential map: a get under the lock sees exactly the
latest put or remove of any client, and any thread can go on to read it, whatever has happened. This assumes that the server
does not execute an acknowledged put or remove again; `ReplayIsHarmlessExactlyWhen` says when it would not matter.

**RPC.** The client's list refines a set, the server's window stays ascending and forgets exactly what was acknowledged, and
together they run a handler at most once while its call is outstanding. A call returns the first reply that arrives before it
returns, and nothing if and only if none does; every call that waits can be answered; and once no call waits, the next request
leaves nothing in the server's window but its own entry. After the acknowledgement a handler may run again:
`CopyAfterAcknowledgementRunsAgain` is a run that executes a request twice.

**Marshalling.** Any mix of values with the header packed last reads back unchanged. Reading succeeds exactly on bytes that are
a value's: what was read is what the bytes say, any proper prefix of a value or of a request is refused, and so is a request
with bytes left over; ok once lost never comes back. The layout of the bytes is stated by itself: numbers in network order,
collections as their size and their parts, the header's fields at their offsets.

## Where code and comments disagree

- `rsm.cc:354-355` speaks of the lowest numbered node of the previous view; the code takes the first one in list
  order (`FirstInOrderTakesOver`).
- `rsm.cc:237` stores a count of backups in a `bool` field; the model does the same.
- `extent_client.cc:49` declares a second `ret`, so a first miss answers OK; the model keeps this and
  `StatusIsRightExactlyWhen` says when the status can be trusted.
- `rpc/rpc.cc:598` answers "very old request"; with the headers `call1` builds this branch is never taken
  (`NothingIsForgotten`).
- `rsm.cc:354-355` promises a rule on views, but three things make nodes with the same view choose differently: `rsm.cc:98`
  starts from the first node although the log may show a later view (`RestartSplitsThePrimaries`), `rsm.cc:315-317` hands out
  the log to a member without asking who the primary is (`LateAnswerSplitsThePrimaries`), and `rsm.cc:360-361` reads the views
  after the mutexes of the commit were released (`OvertakenChoiceSplitsThePrimaries`).

## Model

| member | source | states |
|---|---|---|
| PropNumbers.GtTotalOrder | paxos.cc:16-26 | `>` on proposal numbers is a strict total order and `>=` its reflexive closure |
| PropNumbers.GtExactlyWhen | paxos.cc:16-26 | a number is larger exactly when its counter is, or with equal counters when the first character that differs, or the longer name, is larger |
| ProposerSpec.MajorityExactlyWhen | paxos.cc:59-71 | a majority is more than half of the positions of the view, for every view and every set of answers |
| ProposerSpec.NextCounterIsTheLeast | paxos.cc:84-88 | the new counter is the least above the last one used and the local promise |
| ProposerSpec.MajoritiesMeet | paxos.cc:59-71 | two node lists that both hold a majority of a view share a member of it, whatever duplicates the view has |
| ProposerSpec.HitsMonotone | paxos.cc:59-71 | answers from more nodes never lose a majority |
| AcceptorSpec.PromiseExactlyWhen | paxos.cc:299-325 | a promise takes an open instance and a number above the promise, reports what was accepted and changes the promise only; a refusal takes an open instance and a number not above it |
| AcceptorSpec.OldInstanceExactlyWhen | paxos.cc:305-309 | a decided instance, and only one, is answered with its value, empty when it has none |
| AcceptorSpec.VoteExactlyWhen | paxos.cc:327-353 | a vote takes an open instance and a number not below the promise, and changes what was accepted only |
| AcceptorSpec.RecoverableKept | paxos.cc:299-385 | every handler writes enough to the log for a replay to rebuild the state it leaves |
| AcceptorSpec.RestartMatches | log.cc:17-58 | a restart gives the same state up to names of numbers with counter 0 and empty entries |
| AcceptorSpec.RestartReadsOnlyTheLog | paxos.cc:273-297 | a restarted acceptor depends on its name and its log only, so nothing else survives |
| AcceptorSpec.CrashRecovery | log.cc:17-58 | after any sequence of handler calls and restarts a replay of the log rebuilds the acceptor |
| AcceptorSpec.RestartIsInvisible | paxos.cc:299-353 | matching acceptors give the same answers to every request with a number made by setn, and match afterwards |
| LogText.ReadRecOfPrinted | log.cc:26-56 | one turn of the reading loop reads back exactly the record that was written, whatever follows it |
| LogText.LinesOfRecords | log.cc:85-127 | one line a record: its kind, its number or instance, and what it says |
| LogText.NumbersAreDecimal | log.cc:85-127 | numbers are written in decimal without zeros in front |
| LogText.UnknownRecordStopsTheRead | log.cc:52-55 | at a word that is no kind of record the read fails; the records before it stand |
| LogText.ParseOfPrinted | log.cc:17-127 | the file written for any records parses back to exactly those records |
| LogText.DumpIsIdentity | log.cc:60-82 | copying the log line by line gives the same text, so restoring a dump restores the log |
| LogText.DumpCompletesTheLastLine | log.cc:60-72 | a last line without its newline is copied with one |
| AcceptorObject.Acceptor.constructor | paxos.cc:273-297 | reads the log, then installs view 1 on the first node only |
| AcceptorObject.Acceptor.LogInstance | log.cc:85-97 | appends one done record to the file |
| AcceptorObject.Acceptor.LogHigh | log.cc:99-111 | appends one high record |
| AcceptorObject.Acceptor.LogProp | log.cc:113-127 | appends one prop record |
| AcceptorObject.Acceptor.ReadOne | log.cc:26-56 | one turn of the loop assigns the fields as replaying the first record does |
| AcceptorObject.Acceptor.LogRead | log.cc:17-58 | replays all records of the file in order; false when a record type is unknown |
| AcceptorObject.Acceptor.PrepareReq | paxos.cc:299-325 | promises only to a larger number of an open instance and reports what was accepted; otherwise old-instance reply or refusal |
| AcceptorObject.Acceptor.AcceptReq | paxos.cc:327-353 | accepts a number at least as large as the promise, does not raise the promise, answers an error for a decided instance |
| AcceptorObject.Acceptor.CommitValue | paxos.cc:355-393 | a larger instance is recorded, logged, clears promise and vote and makes the upcall; a smaller one changes nothing |
| AcceptorObject.Acceptor.Dump | log.cc:60-72 | the dump is the file |
| AcceptorObject.Acceptor.Restore | paxos.cc:401-411 | the log becomes the given one and is replayed onto the fields |
| ProposerObject.IsAMember | paxos.cc:41-47 | true exactly for members of the list |
| ProposerObject.IsMajority | paxos.cc:59-71 | counts the positions of the view whose node answered and compares with half plus one |
| ProposerObject.Proposer.SetN | paxos.cc:84-88 | the new number is above the last one used and above the local acceptor's promise |
| ProposerObject.Proposer.Prepare | paxos.cc:155-208 | collects promisers and the value of the highest report; an old-instance reply commits its value and ends the loop |
| ProposerObject.Proposer.AcceptLoop | paxos.cc:211-243 | collects the promisers that accepted |
| ProposerObject.Proposer.Run | paxos.cc:90-153 | the outcome of a run for every combination of answers; a decision only after both majorities; stable again at the end |
| ProposerObject.PreparedKeepsTheHighest | paxos.cc:171-202 | every node that promised is counted and its reported number is at most the one kept |
| ProposerObject.DecidedHasMajorities | paxos.cc:119-140 | a decided run has a majority of promisers and a majority of voters, all voters are promisers, and its value is not empty |
| ProposerObject.LoopEndsExactlyAtOld | paxos.cc:171-204 | the prepare loop ends early if and only if some reply is of an old instance, at the first one and with its value |
| ProposerObject.AcceptsAreThePromisers | paxos.cc:171-204 | the loop collects the nodes at exactly the positions that promised, in order |
| ProposerObject.KeptReportIs | paxos.cc:195-202 | the value kept is that of the first among the highest reports, and none when no report is above the least number |
| ProposerObject.VotersAreTheAccepters | paxos.cc:223-240 | the accept loop collects the nodes at exactly the positions that accepted, in order |
| ProposerObject.OutcomeExactlyWhen | paxos.cc:90-153 | every way a run ends, from the answers: the first old value, else by the two majorities; a decided run decides its own value unless a report carried one |
| ProposerRefinement.OldReplyEndsTheRun | paxos.cc:190-194 | an old-instance reply leaves the system where it leaves the object: its value committed, the run over, the proposer stable |
| ProposerRefinement.NoMajorityEndsTheRun | paxos.cc:119-152 | without a majority the run ends in system and object alike and no acceptor changes |
| ProposerRefinement.DecidingRunsAreExecutions | paxos.cc:90-153 | in every run of the system, a proposer that comes to decide did what the proposer object does on answers that were on the network, with the same value and voters |
| ProposerRefinement.StepExplained | paxos.cc:155-243 | every step of every node keeps each proposer where the object would be after the same answers |
| PaxosSteps.StepKept | paxos.cc:90-393 | every step of every node keeps the invariant of the system |
| PaxosSteps.StepExtends | paxos.cc:299-385 | no step takes back a decided value, a promise or a vote of the current instance |
| PaxosSteps.CrashKept | log.cc:17-58 | a node that dies and restarts from its log keeps the invariant |
| PaxosSteps.JoinKept | paxos.cc:401-411 | a node without views that loads another node's dump, however old, keeps the invariant |
| PaxosAgreement.OneLeaderInEveryRun | paxos.cc:84-121 | no two runs, restarts and reused numbers included, both collect a prepare majority for one number of an instance |
| PaxosAgreement.ReportCovers | paxos.cc:311-316 | a larger number's promises report at least what a majority had accepted |
| PaxosAgreement.P2c | paxos.cc:124-132 | once a majority accepted a proposal, every proposal of that instance with a larger number has its value |
| PaxosAgreement.AcceptRequestsCarryTheChosenValue | paxos.cc:124-132 | in every run, every accept request sent with a larger number than a chosen proposal carries the chosen value |
| PaxosAgreement.ChosenOnce | paxos.cc:119-140 | two proposals of an instance that majorities accepted have the same value |
| PaxosAgreement.Agreement | paxos.cc:119-148 | at most one value is ever decided for an instance |
| PaxosAgreement.QuorumListsAgree | config.cc:196-236 | all runs of an instance ask the same nodes, the members of the view before |
| PaxosAgreement.OldInstanceRepliesAgree | paxos.cc:190-194 | the value learned from an old-instance reply is the one every node holds for the instance |
| PaxosAgreement.Validity | paxos.cc:124-132 | a proposed value is the non-empty value some run of the same instance was started with, through any chain of adoptions |
| PaxosAgreement.ViewsAreTotallyOrdered | paxos.cc:364-385 | in every run all nodes that hold view j hold the same view, none is skipped, and some run proposed it |
| PaxosAgreement.CommittedViewsNeverChange | paxos.cc:364-385 | a view committed by one node is what any node holds for it at any later time |
| PaxosAgreement.NumbersNeverDecrease | paxos.cc:311-339 | within an instance the accepted number is at most the promised one and neither goes down, crashes included |
| PaxosAgreement.ViewsFormOneHistory | paxos.cc:364-385 | in every run all logs are the beginnings of one history of views |
| PaxosAgreement.PrimariesAgree | rsm.cc:357-378 | nodes that have primaries for a view and commit later views from their own logs agree on a later primary if and only if they agreed before or have met since |
| PaxosProgress.OneRunAtATime | paxos.cc:90-153 | a node runs one proposer at a time and is busy exactly as long as a run of it is live, delays and crashes included |
| PaxosProgress.EveryRunCanEnd | paxos.cc:90-153 | every live run can come to its end even if all messages are lost |
| PaxosProgress.NextViewCanBeDecided | paxos.cc:90-393 | from every reachable state in which a majority of the latest view has that view, a next one can be decided and reach all of that majority; it is the proposed one unless one of them had accepted another |
| PaxosLag.PromiseSurvivesExactlyWithoutLag | paxos.cc:305-316 | a promise outlives every commit that leaves its instance open if and only if the instance before was decided when it was given |
| PaxosLag.VoteSurvivesExactlyWithoutLag | paxos.cc:333-339 | the same for a vote |
| PaxosLag.ReportIsOfTheInstanceExactlyWithoutLag | paxos.cc:311-314 | the proposal a promise reports was accepted for the instance asked about if and only if the request did not lag |
| PaxosLag.DecideLeavesNoGapExactlyWithoutLag | paxos.cc:369-373 | a decision leaves no view out if and only if it did not lag; otherwise the first view left out is answered as an empty old value |
| PaxosLag.LaggingAcceptorsSplitTheViews | paxos.cc:369-378 | without the hypothesis config drives a run in which a promise reports a proposal of the instance before, a late decision erases a vote of an open instance, and two nodes hold different views 4, one of them proposed for instance 3 only |
| Views.MembersOfValue | config.cc:91-112 | reading back the text of a view gives the same members in order |
| Views.MembersAreWords | config.cc:91-101 | every member read from any text is a word, so it can be written again |
| Views.SpaceSeparates | config.cc:91-101 | white space of any kind and amount separates members and is otherwise ignored |
| ViewObjects.Config.ReadMembers | config.cc:91-101 | the loop reads the members of the text |
| ViewObjects.Config.WriteValue | config.cc:103-112 | the loop writes the text of the view |
| ViewObjects.Config.Add | config.cc:196-215 | proposes, for the next instance and to the current members, a non-empty value that reads as the view with the new member last |
| ViewObjects.Config.RemoveWo | config.cc:217-236 | proposes a value that reads as the view without m; it is empty exactly when nobody else is left |
| ViewObjects.Config.PaxosCommit | config.cc:126-148 | the committed text becomes the members, its instance the view number, and handles of the others that left are deleted; says whether the view layer is told |
| ViewObjects.Config.Notify | config.cc:148-152 | the view layer chooses from the views it reads after the mutex was released |
| ViewObjects.GoneIs | config.cc:138-144 | handles are deleted for exactly the other nodes that are no longer members |
| ViewObjects.GoneConcat | config.cc:138-144 | handles are deleted in the order of the old view |
| ViewObjects.Rsm.SetPrimary | rsm.cc:357-378 | keeps a primary that is a member, else takes the first member of the previous view that is; the final assertion fails exactly when nobody is shared |
| ViewObjects.Rsm.CommitChange | rsm.cc:234-240 | chooses the primary and takes the view number only on the primary; nothing changes when no choice exists |
| PrimarySpec.FirstInOrderTakesOver | rsm.cc:357-378 | the first member of the previous view, in list order, that is still a member takes over from a primary that left |
| PrimarySpec.PrimaryIsAMember | rsm.cc:357-378 | while consecutive views share a member, the primary of every view is a member of it |
| PrimarySpec.NextAgreesExactlyWhen | rsm.cc:357-378 | two nodes choose the same primary if and only if they had the same, both left, or one left and the other is chosen |
| PrimarySpec.PrimariesAgreeExactlyWhen | rsm.cc:357-378 | over any views, two nodes agree on the primary if and only if they agreed at the start or have met since |
| PrimarySpec.EqualPrimariesStayEqual | rsm.cc:357-378 | once two nodes agree on the primary they agree on every later one |
| PrimarySpec.MembersNeverMeet | rsm.cc:357-378 | two different primaries that both stay members never become one |
| PrimarySpec.ChoicesAgreeExactlyWhen | rsm.cc:357-378 | two choices for a view from different primaries and different previous views are the same if and only if the primaries are kept and equal, or one is kept and chosen by the other, or both choices are |
| PrimarySystem.StepKeepsAgreementExactlyWhenOrderly | paxos.cc:369-384 | a step of any mutex region, join or restart keeps all nodes and all logs under way in agreement if and only if it is orderly |
| PrimarySystem.RunsAgreeExactlyWhenOrderly | rsm.cc:226-378 | the nodes agree in every state of a run if and only if every step of it is orderly |
| PrimarySystem.NodesAgreeOnThePrimary | rsm.cc:357-378 | in every orderly run, nodes whose config has the same view and which have no choice under way have the same primary |
| PrimarySystem.InOrderChoiceIsOrderly | rsm.cc:357-378 | a choice for the next view that nothing has overtaken is orderly |
| PrimarySystem.RepeatedChoiceIsOrderly | rsm.cc:364-367 | a second choice for the same view is orderly, whatever previous view it reads |
| PrimarySystem.SkippingChoiceIsOrderlyExactlyWhen | rsm.cc:360-361 | a choice that leaves out views because it was overtaken is orderly if and only if the two primaries are the same or meet |
| PrimarySystem.AdmissionIsOrderly | rsm.cc:307-333 | adding a node through joinreq is orderly although the choice for the new view is still to come when the log is handed out, and the joiner then has the primary of that view |
| PrimarySystem.RestartedNodeAgreesExactlyWhen | rsm.cc:97-98 | a restarted node has the others' primary again if and only if that was the first node or the two have met since |
| PrimarySystem.RestartSplitsThePrimaries | rsm.cc:97-98 | a run with a restart after which two members of one view have different members as primary |
| PrimarySystem.LateAnswerSplitsThePrimaries | rsm.cc:315-317 | a run in which a member gets the log from a node that is no longer its own primary and keeps that node as primary while another member has a different one |
| PrimarySystem.OvertakenChoiceSplitsThePrimaries | paxos.cc:379-383 | a run without restarts in which an overtaken choice leaves two members of one view with different members as primary |
| ViewObjects.ProposedViewsShare | config.cc:196-236 | the views add and remove propose share a member with the old one, for a removal exactly when another member remains |
| LockSpec.AcquireExactlyWhen | lock_server_cache.cc:239-275 | the answer is RETRY if and only if the number is above the client's last grant and somebody holds the lock |
| LockServerObject.LockServer.AddRetryRequest | lock_server_cache.cc:207-219 | adds the client to the lock's waiting set |
| LockServerObject.LockServer.AddRevokeRequest | lock_server_cache.cc:221-236 | queues a revoke of the holder's current grant; the assertion holds |
| LockServerObject.LockServer.Acquire | lock_server_cache.cc:238-276 | grants, repeats an old grant, or queues a retry and a revoke; other locks are untouched |
| LockServerObject.LockServer.Release | lock_server_cache.cc:279-299 | frees the lock only for the current grant; false exactly where the source stops, without a record or on a match that is not allocated; other locks are untouched |
| LockServerObject.LockServer.TakeRevokes | lock_server_cache.cc:84-93 | the revoker takes all queued revokes |
| LockServerObject.LockServer.TakeRetries | lock_server_cache.cc:138-149 | the retryer takes all waiting clients, once per release; the object's invariant says that a release is pending whenever clients wait for a free lock |
| LockClientObject.LockClient.Register | lock_client_cache.cc:223-236 | a lock never seen starts NONE with number 1 |
| LockClientObject.LockClient.TryAcquire | lock_client_cache.cc:240-254 | only the thread that finds the lock NONE becomes the one that asks the server |
| LockClientObject.LockClient.TakeFree | lock_client_cache.cc:289-303 | only the thread that finds the lock FREE takes it |
| LockClientObject.LockClient.ClearRetry | lock_client_cache.cc:258-272 | clears the retry flag before asking again; waits exactly when it was not set |
| LockClientObject.LockClient.Granted | lock_client_cache.cc:276-284 | after OK the lock is LOCKED and other locks are untouched |
| LockClientObject.LockClient.Release | lock_client_cache.cc:435-461 | RELEASING when a revoke of this grant is recorded, else FREE |
| LockClientObject.LockClient.Revoke | lock_client_cache.cc:464-481 | records a revoke of the current grant only, and turns FREE into RELEASING |
| LockClientObject.LockClient.Retry | lock_client_cache.cc:487-496 | sets the retry flag |
| LockSafety.ReleaserPicksTheRevokedGrant | lock_client_cache.cc:103-106 | in every run the test passes exactly for a recorded revoke of a RELEASING lock; then the record shows that grant, some client was told RETRY because of it, and no thread here holds or asks for the lock |
| LockClientObject.LockClient.GiveBack | lock_client_cache.cc:123-127 | the lock is NONE and the next grant has the next number |
| LockClientObject.LockClient.PurgeAll | lock_client_cache.cc:134-142 | drops exactly the revokes of grants already given back |
| LockSystem.StepKept | lock_client_cache.cc:79-496 | every step of every client, thread, releaser and the server keeps the invariant |
| LockSystem.GrantIsNew | lock_server_cache.cc:242-267 | a grant has a number above all earlier grants to that client and goes to a client waiting for it |
| LockSystem.ReleaseFreesOnlyItsGrant | lock_server_cache.cc:279-299 | a release frees its own grant or nothing |
| LockSafety.OwnerIsRecorded | lock_server_cache.cc:262-267 | the server's record names the client that owns the lock, with that client's number |
| LockSafety.MutualExclusion | lock_client_cache.cc:218-321 | no two clients own the lock |
| LockSafety.OneThreadInside | lock_client_cache.cc:218-461 | at most one thread of all clients is between acquire and release |
| LockSafety.ReleaseFindsItLocked | lock_client_cache.cc:440 | the assertion in release holds |
| LockSafety.OkMeansGranted | lock_client_cache.cc:276-281 | whatever old or repeated OK a waiting client receives, the record names its grant at that moment |
| LockSafety.NoLostRevoke | lock_server_cache.cc:221-272 | after a RETRY because of a grant, while the grant stands, a revoke for it is queued, being sent or recorded |
| LockSafety.NoLostRetry | lock_server_cache.cc:207-271 | after a RETRY, until the client asks again, its wake-up is waiting at the server, being sent or recorded at the client |
| LockSafety.RevokeIsObeyed | lock_client_cache.cc:447-477 | a recorded revoke of the current grant never leaves the lock FREE; RELEASING happens only with one |
| LockSafety.GivenBackOnlyOnDemand | lock_client_cache.cc:103-127 | a grant is given back only if some client was told RETRY because of it |
| LockSafety.GrantsIncrease | lock_client_cache.cc:123-127 | the grants a client gets have strictly increasing numbers |
| LockSafety.LateReleaseIsHarmless | lock_server_cache.cc:279-299 | a late or repeated release frees no other grant, and a matching record is allocated |
| LockSafety.LateAcquireIsHarmless | lock_server_cache.cc:242-245 | in every run a request with a number not above an earlier grant is answered OK and leaves record and queues as they were |
| LockSafety.ReleaseNeverStops | lock_server_cache.cc:284-288 | in every run a release request finds its record, and a match is allocated |
| LockSafety.RevokeAssertionHolds | lock_server_cache.cc:232 | the assertion on queued revoke numbers holds in every run |
| LockProgress.EveryThreadCanGetTheLock | lock_client_cache.cc:79-496 | from every reachable state every thread of every client can come to hold the lock |
| LockProgress.HolderGivesBack | lock_client_cache.cc:79-127 | whatever the holder of a revoked grant is doing, the lock can come back to the server, and only the holder's state changes |
| LockProgress.RefusedThreadIsWokenAndServed | lock_client_cache.cc:258-284 | a refused thread can wait, be woken once the lock is free, ask again with the flag set, which clears it, and be inside |
| LockProgress.ReturnedLockIsAsNew | lock_client_cache.cc:123-142 | a lock given back and purged is as one never seen, but for the next number |
| ExtentSpec.FlushWritesExactlyDirtyEntries | extent_client.cc:145-172 | the server gets what an entry shows if and only if the entry is dirty |
| ExtentSpec.GetKeepsTheView | extent_client.cc:22-86 | a get shows what the entry showed, or on a miss what the server has; a hit makes the entry dirty |
| ExtentObjects.ExtentServer.Put | extent_server.cc:18-45 | the content becomes the given one; other extents are untouched |
| ExtentObjects.ExtentServer.Get | extent_server.cc:47-62 | the content, or NOENT and an empty buffer |
| ExtentObjects.ExtentServer.Remove | extent_server.cc:89-104 | removes the extent, NOENT when there is none |
| ExtentObjects.ExtentClient.Get | extent_client.cc:22-86 | cached content, or the server's; the entry and status for every combination of flags |
| ExtentObjects.ExtentClient.Put | extent_client.cc:99-126 | a dirty entry with the content, nothing sent |
| ExtentObjects.ExtentClient.Remove | extent_client.cc:128-143 | a dirty entry marked removed, nothing sent |
| ExtentObjects.ExtentClient.Flush | extent_client.cc:145-172 | the server gets exactly what a dirty entry says and the entry is gone; other extents are untouched |
| ExtentSystem.OneCache | lock_client_cache.cc:112-126 | at most one client caches an extent |
| ExtentSystem.StepRefines | extent_client.cc:22-172 | every step of clients, caches, locks and server is a put, a remove or nothing to one shared register |
| ExtentSystem.GetSeesTheLatestPut | extent_client.cc:22-86 | in every run a get under the lock returns the latest put of any client, never an overwritten or removed value |
| ExtentSystem.StatusIsRightExactlyWhen | extent_client.cc:48-54 | the status of a get tells presence if and only if the extent exists at the server or is cached |
| ExtentSystem.ReplayIsHarmlessExactlyWhen | extent_server.cc:18-104 | executing an old put or remove again goes unnoticed if and only if it writes what the server has or some client holds a dirty entry |
| ExtentSystem.ReleasedValueIsOnTheServer | yfs_client.cc:163-170 | when nobody may cache the extent, the server's record is the latest value |
| ExtentProgress.LatestPutCanBeReadByAnybody | extent_client.cc:22-172 | from every reachable state any thread of any client can go on to get the latest put |
| ExtentProgress.AnybodyCanPutAndRemove | extent_client.cc:99-143 | from every reachable state any thread of any client can go on to put or remove, after which that is what all see |
| ExtentMap.StepRefines | extent_client.cc:22-172 | a step on one extent is that put or remove on the map of all extents |
| ExtentMap.ManyCachesOneMap | extent_client.cc:22-172 | any run of any number of clients leaves the map that its puts and removes make in order |
| RpcSpec.CheckKeeps | rpc/rpc.cc:646-697 | the window stays ascending, holds no entry at or below the acknowledgement but the new one, and the verdict fits it |
| RpcSpec.RepliedKeeps | rpc/rpc.cc:609-628 | storing a reply changes only entries of that xid and keeps the order |
| RpcSpec.VerdictExactlyWhen | rpc/rpc.cc:646-697 | each verdict, from the entries and the header alone |
| RpcSpec.ReplyIsStored | rpc/rpc.cc:609-628 | storing a reply fills in the entry of its xid and no other |
| RpcSpec.NewAgainExactlyWhenAcked | rpc/rpc.cc:646-697 | an xid is NEW a second time if and only if a request acknowledging it arrived in between |
| RpcObjects.ClientWindow.UpdateXidRep | rpc/rpc.cc:356-380 | the list refines adding to a set, also when an xid is reported twice |
| RpcObjects.ClientWindow.Compress | rpc/rpc.cc:374-379 | the front becomes the greatest k with 1..k received, and the element under the iterator is never popped |
| RpcObjects.ClientWindow.Front | rpc/rpc.cc:209 | what a header acknowledges is the greatest k with 1..k received |
| RpcObjects.FrontIsFirst | rpc/rpc.cc:374-379 | an ordered list whose front is not continued starts with that k |
| RpcObjects.ReplyWindow.Register | rpc/rpc.cc:525-534 | an unknown client gets an empty window, a known one keeps its own |
| RpcObjects.ReplyWindow.CheckDuplicateAndUpdate | rpc/rpc.cc:646-697 | the loops compute the verdict and window of the specification; other clients' windows stay |
| RpcObjects.ReplyWindow.AddReply | rpc/rpc.cc:609-628 | the loop stores the reply at the request's entry |
| RpcSystem.StepKept | rpc/rpc.cc:187-380 | every step of client, network and server keeps the invariant |
| RpcSystem.AtMostOnceWhileOutstanding | rpc/rpc.cc:471-697 | while a call waits its handler has run at most once, every reply to it is that run's, and no further copy starts another |
| RpcSystem.CallsReturnTheFirstExecution | rpc/rpc.cc:321-354 | what a call returns is what the first execution computed |
| RpcSystem.NothingIsForgotten | rpc/rpc.cc:598-604 | in every run the verdict on a request is never FORGOTTEN, because headers acknowledge only smaller xids |
| RpcSystem.CopyAfterAcknowledgementRunsAgain | rpc/rpc.cc:660-664 | a run in which a copy that arrives after the acknowledgement is executed a second time |
| RpcCalls.IssueAcknowledgesTheFront | rpc/rpc.cc:206-210 | a new call's header acknowledges the greatest k with 1..k received |
| RpcCalls.CallReturnsItsFirstReply | rpc/rpc.cc:187-354 | in every run a call returns the first reply that arrives while it waits, nothing if and only if none does, and that is final |
| RpcCalls.RequestIsHandledByItsEntry | rpc/rpc.cc:549-605 | a request runs its handler once more, is ignored, or gets the stored reply again, exactly as its entry says; acknowledged entries are dropped |
| RpcCalls.ResultIsStoredAndSent | rpc/rpc.cc:575-628 | a handler that ends sends its result and stores it at the entry of its request |
| RpcCalls.EveryCallCanBeAnswered | rpc/rpc.cc:187-628 | in every reachable state a waiting call can still be answered, by its handler's result if the handler has ended |
| RpcCalls.NextRequestClearsTheWindow | rpc/rpc.cc:646-697 | once no call waits, the next request leaves only its own entry in the server's window |
| MarshalSpec.DecOfEnc | rpc/rpc.cc:733-929 | reading the bytes of any value with its type gives the value back and stops right behind it |
| MarshalSpec.DecMoreIs | rpc/marshall.h:217-228 | a vector is read behind the elements already in it, which stay |
| MarshalSpec.DecPairsIs | rpc/marshall.h:242-256 | a map with distinct keys is read back with the same pairs in the same order |
| MarshalSpec.HeaderRoundTrip | rpc/marshall.h:173-185 | a packed request header is unpacked to the same fields |
| MarshalSpec.RequestRoundTrip | rpc/marshall.h:82-95 | any mix of arguments and a header packed afterwards read back unchanged, with okdone true |
| MarshalLaws.NumbersAreBigEndian | rpc/rpc.cc:733-795 | the bytes of a number have its width and stand for it in network order, signed ones in two's complement |
| MarshalLaws.VectorsAreSizeThenElements | rpc/marshall.h:208-215 | a string or vector is its size and then its parts in order |
| MarshalLaws.MapsAreSizeThenPairs | rpc/marshall.h:230-240 | a map is its size and then its pairs, the key first |
| MarshalLaws.HeaderLayout | rpc/marshall.h:82-95 | the header's fields stand at 4, 8, 12, 16 and 20, the arguments behind 24 |
| MarshalLaws.OkNeverComesBack | rpc/rpc.cc:836-929 | reading any type never goes back, never leaves the buffer and never makes the object ok again |
| MarshalLaws.OkExactlyWhenEnoughBytes | rpc/rpc.cc:836-929 | a number is read if and only if the object was ok and has all of its bytes, a string if and only if its size and as many bytes are there |
| MarshalLaws.TruncatedValuesAreRefused | rpc/rpc.cc:836-929 | any proper prefix of the bytes of any value, read with its type, loses ok |
| MarshalLaws.HeaderIsReadExactlyWhen | rpc/marshall.h:173-185 | the header is read if and only if the bytes reach behind it |
| MarshalLaws.OnlyWholeRequestsAreDone | rpc/rpc.cc:825-833 | of all prefixes and extensions of a request exactly the request itself passes okdone |
| MarshalLaws.ReadsExactlyWhatIsWritten | rpc/rpc.cc:836-929 | a value without maps is read if and only if its bytes are at hand |
| MarshalLaws.MissingBytesReadAsZeros | rpc/rpc.cc:836-929 | missing bytes read as zeros, a string is read whole or stays empty, a vector gets as many elements as its size says |
| MarshalLaws.LastPairOfAKeyWins | rpc/marshall.h:242-256 | a map read from any pairs ends with the last pair of every key |
| MarshalObjects.RaisedCapacityFits | rpc/rpc.cc:708-731 | whichever way the capacity is raised the bytes fit, it is never lowered, and it is raised exactly when they did not fit |
| MarshalObjects.Marshall.RawByte | rpc/rpc.cc:708-718 | appends one byte, growing when full |
| MarshalObjects.Marshall.RawBytes | rpc/rpc.cc:720-731 | whichever way the capacity is raised the bytes fit, and they are appended to what was there |
| MarshalObjects.Marshall.PutU32 | rpc/rpc.cc:763-772 | appends four bytes in network order; when they fit nothing behind them changes |
| MarshalObjects.Marshall.Put | rpc/rpc.cc:733-795 | appends exactly the bytes of the value, for every type |
| MarshalObjects.Marshall.PutVec | rpc/marshall.h:208-215 | the loop appends the size and every element |
| MarshalObjects.Marshall.PutMap | rpc/marshall.h:230-240 | the loop appends the size and every pair |
| MarshalObjects.Marshall.PackReqHeader | rpc/marshall.h:82-95 | writes the header in place; size field, body and position are untouched |
| MarshalObjects.Unmarshall.RawByte | rpc/rpc.cc:836-845 | the next byte, or 0 and no longer ok past the end |
| MarshalObjects.Unmarshall.RawBytes | rpc/rpc.cc:918-929 | all the bytes asked for or none |
| MarshalObjects.Unmarshall.Get | rpc/rpc.cc:847-916 | reads a value of any type as the specification does, malformed input included |
| MarshalObjects.Unmarshall.GetVec | rpc/marshall.h:217-228 | the loop pushes every element read |
| MarshalObjects.Unmarshall.GetMap | rpc/marshall.h:242-256 | the loop assigns every pair read |
| MarshalObjects.Unmarshall.UnpackReqHeader | rpc/marshall.h:173-185 | reads the header's fields and stands behind it |
| MarshalObjects.SendAndReceive | rpc/marshall.h:45-197 | sender and receiver objects together give back header and arguments, with okdone true |

## Left out

- Agreement without the delay hypothesis: it is false, see `PaxosLag`; with it, instances, nodes and runs are unbounded.
- PaxosSteps.StepKept: assumes the delay hypothesis; exactly what fails without it is in `PaxosLag`.
- AcceptorObject.Acceptor.ReadOne: does not model the failed stream after a malformed number or a truncated line; the log
  never writes one, and what it writes is read back exactly.
- AcceptorObject.Acceptor.LogRead: the same; on such a text the source ends the loop.
- AcceptorObject.Acceptor.CommitValue: says when the upcall is made; what it does is `ViewObjects.Config.PaxosCommit`.
- ViewObjects.Config.Notify: the values and the view number read after the mutex was released are parameters; when they are read
  is the business of `PrimarySystem`.
- ViewObjects.Rsm.CommitChange: does not model the signal to the recovery thread and the breakpoint (`rsm.cc:241-247`).
- ExtentSystem.GetSeesTheLatestPut: assumes that no extent RPC is executed again after its acknowledgement, which the RPC layer
  alone does not give (`RpcSystem.CopyAfterAcknowledgementRunsAgain`).
- ExtentMap.ManyCachesOneMap: assumes the same.
- PrimarySystem.NodesAgreeOnThePrimary: assumes an orderly run, which is the exact condition for agreement throughout.
- In `PrimarySystem` views follow one history and every node records them in order, which `PaxosAgreement` proves; all nodes are
  started with the same first node, and a choice on which the source stops is not a step. When `add` decides a view is left to
  the history.
- Rejoining through `restore` by a node that already has views: it replaces an acceptor's promise and vote. The system's join
  step is for a node without views.
- AcceptorObject.Acceptor.Dump: the source reads the file without the acceptor's mutex; here it is one step.
- ProposerObject.Proposer.Prepare: the answers of the RPCs are parameters, so requests the node sends to its own acceptor show up
  in the system, not in this method's contract.
- ProposerObject.Proposer.Run: the two breakpoints that kill the process are the crash step of the system.
- `config` reads its view number and members in two places (`config.cc:206`); a run reads both in one step.
- Runs of the Paxos system propose non-empty values, because the source reads an empty value as none;
  `ViewObjects.Config.RemoveWo` says exactly when the source would propose an empty one.
- Values with newlines and names with spaces: the log's text form cannot hold them, and the source never writes them.
- Partially written log records and failing disks.
- Unsigned 32-bit wrap-around of proposal counters, xids, sequence numbers, buffer positions and capacities.
- MarshalObjects.Unmarshall.RawBytes: does not model the wrap-around of the position plus a size field close to 2^32.
- `char` and `short` are marshalled like the unsigned types of the same size; reply headers like the first two fields of a
  request header.
- Attributes and times of extents, and failures of the extent RPCs. A cache operation and the RPC it makes are one step; the
  source holds the cache's mutex across the call.
- The lock system follows one lock. The objects show that a handler leaves other locks alone, and `ExtentMap` puts all locks
  together. The one releaser thread of a client is modelled as one per lock, which allows more runs.
- ExtentObjects.ExtentClient.Remove: the source leaves `exist_in_server` uninitialised here; nothing reads it while the entry is
  marked removed, and the model sets it to false.
- The lock server reads a client's number before it takes its mutex (`lock_server_cache.cc:242`); here the handler is one step.
- LockClientObject.LockClient.PurgeAll: the source advances an iterator it has just erased; the model is the plain removal.
- The endless loops of `acquire` and `releaser`, waiting and signalling: their regions are methods and steps.
- Progress is proved as what can still happen from every reachable state; that a fair scheduler and network make it happen is
  not part of this model.
- PaxosProgress.NextViewCanBeDecided: asks for a majority that has the latest view; how nodes that lag catch up is not part of it.
- Crashes of lock clients and of the lock server, and shutdown of a client.
- At most once after the acknowledgement (false, see `RpcSystem.CopyAfterAcknowledgementRunsAgain`), across server
  incarnations, and for calls without a client nonce.
- Sockets, polling, connections, threads, timers and the fuse layer apart from the flush on release.
- State transfer, recovery and client invocation in `rsm.cc`, which are stubs.
