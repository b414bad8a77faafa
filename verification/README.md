# A verified model of the go-achat-node mailbox

go-achat-node is a peer-to-peer chat node. Messages go straight to the recipient's node when it can be
reached and otherwise to a mailbox node, which also keeps chat groups. This project models, in Dafny, the
parts of it where correctness is hard to see from the code:

- **Group membership** (`mailbox_group.go`). One key-value store holds, per group, a doubly linked chain of
  member records, a by-value cached copy of the chain's tail, a doubly linked log of member actions, and a
  cached copy of its last entry. One call of `handleMember` rewrites several of these keys and may stop half way.
- **Mailboxes** (`mailbox.go`, `ldb/database.go`). Messages of all peers, and all groups, share one physical
  store; tables are key prefixes, and a table's iterator is not restricted to the table.
- **Delivery** (`service.go`, `rpc/server.go`). A direct request with mailbox fallback, a bounded receive queue
  with a dispatch loop, and websocket sessions that query a mailbox, write each message and then delete it.
- **Member list digests** (`rpc/types.go`).

`dafny verify dfyconfig.toml` checks everything. The files:

| file | content |
|---|---|
| `Types.dfy`, `Codec.dfy` | the records; the binary codec as a parameter with `decode` a left inverse of `encode` |
| `Ldb.dfy`, `Keys.dfy` | the store, nested tables, batches; ids and key builders, and which keys can meet |
| `Links.dfy` | walking id-to-id links: what a walk visits, and whether it ends |
| `GroupModel.dfy` | what each group operation does to the state of one group; runs of operations |
| `Roster.dfy`, `GroupRuns.dfy` | a reference machine for the member chain, and its agreement with the store over runs |
| `GroupWalks.dfy`, `GroupLog.dfy`, `GroupReplay.dfy` | what queries return; the action log; chain and log agree |
| `GroupExact.dfy`, `GroupReplayExact.dfy` | careful additions are exactly those that keep the chain well formed, and log and chain in agreement |
| `GroupEnds.dfy` | which calls keep every query ending, exactly, in every state and over every run |
| `GroupExamples.dfy`, `GroupRestore.dfy` | runs in which something goes wrong; adding and removing undoes itself |
| `GroupStore.dfy`, `GroupDb.dfy` | the group operations on physical keys, proved to do what `GroupModel` says |
| `Mailbox.dfy`, `Node.dfy` | mailbox operations on physical keys; groups and mailboxes on one store do not interfere |
| `Delivery.dfy`, `DeliveryRuns.dfy` | the delivery protocol as interleaved steps; its safety |
| `DeliverySends.dfy`, `DeliverySessions.dfy` | what a sender gets back; what a websocket session writes and deletes |
| `ServiceRuns.dfy`, `ChatService.dfy` | the life of one node's service, with its handlers; the stateful objects |
| `DeliveryStore.dfy` | the protocol's mailboxes are those of the physical store |
| `Sorting.dfy`, `MembersHash.dfy` | in-place sorting; the canonical form behind `Members.Hash` |

## How the group results fit together

`handleMember` is modelled exactly as written. Removing the tail's predecessor rewrites the tail's
record but not its cached copy, and a later ADD writes the outdated copy back; ADD does not check whether the id
is present. A *roster* (`Roster.dfy`) predicts all of this: it keeps the ids in order, the set of ids whose
stored `Prve` dangles, and whether the cached tail is stale. An addition is *careful* when its id is non-empty,
absent, and named by no stored or cached `Prve`. In every careful run store and roster stay in step
(`RunReflects`), and careful is exactly the condition under which ADD keeps the chain well formed
(`CarefulExactly`). Two classes of runs that a caller can recognise are careful: those that add only while the
cached tail is up to date (*disciplined* runs, which also never leave a dangling link) and those that never add an
id twice.

Two properties one would like of every run are false of the code, and each is given its exact condition:

- *Replaying the log gives FROM the creator.* `DuplicateAddBreaksReplay` adds a present id; `ReAddedMemberIsLost`
  adds only non-empty absent ids and still ends with a stored member that FROM the creator does not return. A run is
  careful if and only if, at every moment of it, the law holds and goes on holding whatever is removed next
  (`CarefulRunIffReplayHolds`; `CarefulIffReplayHolds` for one addition).
- *`queryMember` ends.* `BackwardQueryCanLoop`, `BackwardQueryCanLoopWhenCurrent` and `ReAddedMemberIsLost` give runs
  after which it does not. A call is *safe* when it closes no circle: for ADD, the id is non-empty, is not the cached
  tail's, and following `Prve` from the predecessor that the cached tail names leads neither to the tail nor to the
  id; for a removal, FROM the successor does not lead to the predecessor, nor TO the predecessor to the successor.
  In every run whatever, all queries end at every moment if and only if each call was safe when made (`RunEndsIff`).
  `BackwardEndsIff` and `ForwardEndsIff` say the same of the query that a single addition may break.

The member actions are named by the caller of `handleMember`, as `saveGroup` does. The wire handler never copies
the request's action into the decoded members, whose own `action` field is not exported and so not encoded; its
calls are all refused although it answers with success (`WireCallsNeverAct`).

## Model

| member | source | states |
|---|---|---|
| `GroupDb.GroupDb.HandleMember` | mailbox_group.go:207-289 | on the physical keys: the result and the whole new state of the group, for ADD, SUB, refused SUB and unsupported actions; no key outside the group changes |
| `GroupDb.GroupDb.LogAttempt` | mailbox_group.go:209-234 | every attempt is stored and linked from the cached last log before anything else |
| `GroupDb.GroupDb.AddMember` | mailbox_group.go:237-252 | the cached tail is linked and written back, the new record becomes tail and cached tail |
| `GroupDb.GroupDb.SubMember` | mailbox_group.go:253-282 | succeeds exactly when member and predecessor are stored; neighbours are relinked, the cached tail is rewritten only when the tail goes |
| `GroupDb.GroupDb.SaveGroup` | mailbox_group.go:136-157 | the record is replaced, and the owner added only when the group has no cached tail |
| `GroupDb.GroupDb.GetGroup` | mailbox_group.go:126-134 | the stored record with the cached last log's id, or nothing |
| `GroupDb.GroupDb.GetMember` | mailbox_group.go:196-204 | the member's record, or nothing when it is absent |
| `GroupDb.GroupDb.QueryMember` | mailbox_group.go:172-194 | given any number of turns of its loop: done exactly when the link walk ends within them, and then it has returned the members of exactly the ids visited, in order; nothing for other actions |
| `Links.TrailUnique` | mailbox_group.go:186-192 | a walk that ends visits one sequence only |
| `Links.EndsOrEndless` | mailbox_group.go:186-192 | the walk ends exactly when a finite trail exists, and otherwise stays on stored ids forever |
| `Roster.AddReflects` | mailbox_group.go:237-252 | a careful ADD extends the chain at its end; over a stale cached tail it leaves the old tail with a dangling `Prve` |
| `Roster.CanSubMatches` | mailbox_group.go:256-267 | a removal is accepted exactly when the id is in the chain, is not its head and its `Prve` does not dangle |
| `Roster.SubReflects` | mailbox_group.go:268-281 | an accepted removal takes the id out, mends the next id's link, makes the cached tail stale when it was the tail's predecessor and current when it was the tail |
| `GroupRuns.StepReflects` | mailbox_group.go:207-289 | one careful call keeps store and roster in step and is accepted by both or neither |
| `GroupRuns.RunReflects` | mailbox_group.go:236-282 | in every careful run the chain is one repeat-free sequence: `Next` exact, `Prve` exact or dangling as predicted, records exactly its members, cached tail as predicted |
| `GroupRuns.DisciplinedIsWhole` | mailbox_group.go:236-282 | disciplined runs are careful and leave no dangling link, so `Next` and `Prve` are mutually inverse |
| `GroupRuns.NeverReusesIsCareful` | mailbox_group.go:237-251 | a run that never adds an id twice is careful, whatever it removes and whenever it adds |
| `GroupRuns.CacheCurrentMatches` | mailbox_group.go:113-114 | the cached tail has the tail's id and an empty `Next`, and equals the stored tail exactly when not stale |
| `GroupRuns.StaleSinceWrite` | mailbox_group.go:241-280 | the roster's stale mark means: the tail's predecessor was removed and the cache not written since |
| `GroupRuns.CacheDiffersExactly` | mailbox_group.go:241-280 | in every careful run the cached tail differs from the stored tail exactly when its predecessor was removed since the cache was last written |
| `GroupRuns.TailRemovalRefreshes` | mailbox_group.go:274-280 | removing the tail makes cached and stored tail agree |
| `GroupRuns.RecordsCarryLatestAdd` | mailbox_group.go:239-281 | in every run, whatever it does, each stored record and the cached tail carry the member value of the latest addition of their id |
| `GroupRuns.HeadIsCreator` | mailbox_group.go:144-154 | the head of the chain is the owner of the first saved group record |
| `GroupRuns.CreatorKeepsRecord` | mailbox_group.go:144-154 | in every careful run the creator's record holds the owner's id and name and the group's id from the first save |
| `GroupRuns.CreatorIsPermanent` | mailbox_group.go:136-157 | the creator stays first, cannot be removed, and saving again changes the record only |
| `GroupRuns.WireCallsNeverAct` | mailbox_group.go:365-370 | member calls as they come over the wire are all refused and change nothing but attempt records |
| `GroupWalks.ForwardWalk` | mailbox_group.go:172-194 | FROM x is the suffix of the chain starting at x |
| `GroupWalks.BackwardWalk` | mailbox_group.go:172-194 | TO x is the reversed stretch back to the nearest dangling link, the whole reversed prefix when there is none |
| `GroupWalks.NonMemberWalk` | mailbox_group.go:174-189 | a start that is no member gives the empty list and no other |
| `GroupWalks.WalksRebuild` | mailbox_group.go:172-194 | FROM x and TO x together rebuild the whole chain |
| `GroupWalks.StaleAddWalks` | mailbox_group.go:241-251 | after ADD over a stale cached tail FROM is complete, TO the new member gives it and the old tail, or never ends when the new id is the stale predecessor |
| `GroupWalks.AddExtendsWalkIff` | mailbox_group.go:237-251 | ADD extends the forward walk by its id exactly when the id is non-empty and absent |
| `GroupExact.CarefulExactly` | mailbox_group.go:237-251 | ADD keeps the chain well formed if and only if it is careful |
| `GroupReplayExact.CarefulIffStaysRight` | mailbox_group.go:237-281 | from a well-formed state, ADD is careful if and only if FROM the creator is right after it and after any one later removal |
| `GroupReplayExact.CarefulIffReplayHolds` | mailbox_group.go:207-289 | after a careful run, the next addition is careful if and only if every later sequence of removals leaves the replayed log equal to FROM the creator |
| `GroupReplayExact.CarefulRunIffReplayHolds` | mailbox_group.go:207-289 | a run is careful if and only if at every moment of it the replay law holds and goes on holding whatever is removed next |
| `Links.EditEndsIff` | mailbox_group.go:186-192 | redirecting one link keeps every walk ending exactly when its new target does not lead back |
| `Links.SpliceEndsIff` | mailbox_group.go:268-281 | taking an id out of the links keeps every walk ending exactly when what follows it does not lead to what precedes it |
| `GroupEnds.AddEndsIff` | mailbox_group.go:237-252 | from any state whose queries end, ADD keeps them ending exactly when it is safe |
| `GroupEnds.AddLinks` | mailbox_group.go:237-252 | in any state, which links ADD writes: the tail's from its cached copy, the new id's back to the tail, no other |
| `GroupEnds.SubEndsIff` | mailbox_group.go:253-282 | from any state whose queries end, an accepted removal keeps them ending exactly when it is safe |
| `GroupEnds.SubNextLinks` | mailbox_group.go:253-282 | in any state, what an accepted removal does to `Next` and to the cached tail |
| `GroupEnds.SubPrveLinks` | mailbox_group.go:268-273 | in any state, what an accepted removal does to `Prve` |
| `GroupEnds.RunEndsIff` | mailbox_group.go:172-289 | in every run whatever, all queries end at every moment exactly when each call was safe when made |
| `GroupEnds.CarefulRunsAreSafe` | mailbox_group.go:172-289 | in every careful run all queries end at every moment, and every call is safe |
| `GroupEnds.BackwardEndsIff` | mailbox_group.go:174-194 | in any state, TO a new id never ends exactly when TO the cached tail visits that id or stops on it |
| `GroupEnds.ForwardEndsIff` | mailbox_group.go:174-194 | from a well-formed state, FROM the old tail never ends after ADD exactly when the added id is empty |
| `GroupExamples.BackwardQueryCanLoop` | mailbox_group.go:186-192 | create, add p and t, remove p, add p: TO p never ends |
| `GroupExamples.BackwardQueryCanLoopWhenCurrent` | mailbox_group.go:186-192 | create, add p and t, remove p, add x, add p: the cached tail is current, and TO p never ends |
| `GroupExamples.ReAddedMemberIsLost` | mailbox_group.go:237-281 | create, add p and t, remove p, add p, remove t: the log replays to creator and p, FROM the creator gives the creator alone, and FROM p never ends |
| `GroupLog.LogStep` | mailbox_group.go:212-234 | one call extends the log, or stores a failed attempt beside it, or touches nothing |
| `GroupLog.LogOfRun` | mailbox_group.go:212-288 | in every run with fresh log ids the stored log is the doubly linked chain of the successful actions, with the failed attempts stored beside it |
| `GroupLog.LogWalkBack` | mailbox_group.go:217-234 | `Prve` from the cached last log visits exactly the successful actions, newest first |
| `GroupLog.LogWalkOn` | mailbox_group.go:217-234 | `Next` from the first log visits them in order, then at most the latest attempt if it failed |
| `GroupLog.FailedOnlyPending` | mailbox_group.go:220-234 | a failed attempt is linked from nowhere but the last entry, and only until the next attempt |
| `GroupLog.FailedAttemptRecord` | mailbox_group.go:212-234 | in every run, the record of each refused or unsupported attempt holds to the end its action, its member, the latest success before it as `Prve`, and no `Next` |
| `GroupLog.GroupFoundIff` | mailbox_group.go:126-165 | `getGroup` finds a group exactly when some call of the run saved it |
| `GroupLog.GetGroupReportsLatest` | mailbox_group.go:126-170 | in every run that saved the group, `getGroup` gives the latest record with the id of the latest successful action |
| `GroupReplay.ReplayIsRoster` | mailbox_group.go:236-288 | in every careful run, replaying the successful actions gives the chain |
| `GroupReplay.StoredLogReplaysToWalk` | mailbox_group.go:172-289 | replaying the log records read back from the store, oldest first, gives exactly what FROM the head returns |
| `GroupReplay.DisciplinedReplay` | mailbox_group.go:172-289 | in every disciplined run opened by `saveGroup`, the replayed log is FROM the creator, and reversed it is TO the last member |
| `GroupReplay.DuplicateAddBreaksReplay` | mailbox_group.go:237-251 | adding the creator again is logged as a second member while FROM still returns one |
| `GroupRestore.AddsThenSubsRestore` | mailbox_group.go:207-289 | adding distinct new ids and removing them in any order restores every record and the cached tail, and the log grows by twice their number |
| `GroupRestore.RunLogs` | mailbox_group.go:212-234 | every member call stores exactly one more log record |
| `GroupStore.KeysOfOneGroup` | mailbox_group.go:111-117 | within one group, whatever its id, the key families are disjoint and each is injective |
| `GroupStore.RepresentsOne` | mailbox_group.go:196-204 | a store holds at most one state of a group |
| `Keys.JidRoundTrip` | types.go:146-200 | a JID built from full-width parts comes apart into the same parts |
| `Keys.JidParts` | types.go:188-200 | of any JID, the first 53 bytes are the peer id, the next 53 the mailbox id; a part not there in full is empty |
| `Keys.KeyFormats` | mailbox_group.go:106-117 | the physical keys, prefixes included, as strings |
| `Keys.FamiliesApart` | mailbox_group.go:106-117 | the record, member, tail, log and last-log keys of a group never meet |
| `Keys.GroupsApart` | mailbox_group.go:106-124 | no key belongs to two groups with underscore-free ids |
| `Keys.MemberKeysMeetIff` | mailbox_group.go:112 | member keys of two groups can meet exactly when the ids are equal or one continues the other after an underscore |
| `Keys.MsgKeyInjective` | mailbox.go:48-52 | message keys of 53-character peers determine peer and message id |
| `Keys.MailboxApart` | mailbox.go:48-60 | message keys of peers not starting with "GROUP" never meet group keys |
| `Node.GroupCallPerforms` | mailbox_group.go:207-289 | the contract of the group methods is a step of the node-wide run |
| `Node.MailCallPerforms` | mailbox.go:48-60 | the contract of the mailbox methods is a step of the node-wide run |
| `Node.HandleIsStep` | mailbox_group.go:207-289 | a `handleMember` call that keeps its contract is a node-wide step on the member's group |
| `Node.SaveIsStep` | mailbox_group.go:136-157 | the same for saving a group |
| `Node.PutIsStep` | mailbox.go:48-52 | the same for a put, on the recipient's mailbox |
| `Node.CleanIsStep` | mailbox.go:54-60 | the same for a clean, on the mailbox of the JID's peer |
| `Node.GroupUntouched` | mailbox_group.go:119-124 | a call on another group or on a mailbox leaves a group as it was |
| `Node.BoxUntouched` | mailbox.go:48-60 | a call on a group or on another mailbox leaves a mailbox as it was |
| `Node.GroupsAreIndependent` | mailbox_group.go:346-347 | after any mixed run on one store, each group is where its own calls alone would have brought it |
| `Node.MailboxesAreIndependent` | mailbox.go:48-77 | after any mixed run on one store, each mailbox is what the mailbox calls alone would have made of it |
| `Node.MailQueryAfterRun` | mailbox.go:48-77 | after any mixed run, a mailbox query returns each surviving message of its peer with a non-empty id exactly once, none before one with a smaller time |
| `Node.GroupQueryAfterRun` | mailbox_group.go:172-289 | after any mixed run, a group whose own calls were disciplined is found in the store with FROM its creator equal to the replay of its log |
| `Mailbox.Mailbox.PutMsg` | mailbox.go:48-52 | the message is stored under its id in the recipient's table, replacing that id only |
| `Mailbox.Mailbox.DoCleanMsg` | mailbox.go:54-60 | exactly the given ids leave the peer's table |
| `Mailbox.Mailbox.DoQueryMsg` | mailbox.go:62-77 | the bag is each stored message with a non-empty id, once, the `ct` of none greater than that of a later one |
| `Mailbox.ByCtIsTime` | types.go:115-117 | a sorted bag is one in which `ct` never decreases |
| `Mailbox.BoxHoldsSurvivors` | mailbox.go:48-60 | a mailbox holds exactly the last-put, not-since-cleaned message of each id, whatever mailbox suffix the JIDs carried |
| `Ldb.Put` | ldb/database.go:111-113 | through tables nested to any depth, one physical key with the concatenated prefix is written |
| `Ldb.Has` | ldb/database.go:115-117 | presence of that physical key |
| `Ldb.Get` | ldb/database.go:119-121 | the value of that physical key |
| `Ldb.Delete` | ldb/database.go:123-125 | removal of that physical key only |
| `Ldb.NewIterator` | ldb/database.go:107-109 | a table's iterator is a snapshot of the whole physical store |
| `Ldb.NewBatch` | ldb/database.go:137-143 | a fresh empty batch with the table's full prefix |
| `Ldb.BatchPut` | ldb/database.go:83-87 | appends the prefixed write and keeps the recorded size equal to the sum of the value lengths |
| `Ldb.ValueSize` | ldb/database.go:153-155 | the sum of the value lengths |
| `Ldb.Commit` | ldb/database.go:149-151 | the writes take effect in order |
| `Ldb.NestedView` | ldb/database.go:93-105 | a table on a table is one table with the concatenated prefix |
| `Ldb.NestedPrefix` | ldb/database.go:93-125 | prefixes of nested tables are joined with the outermost first |
| `Ldb.ViewAfterWrite` | ldb/database.go:111-125 | through its view a table is a plain map |
| `Ldb.TablesDisjointIff` | ldb/database.go:93-105 | two tables are invisible to each other exactly when neither prefix extends the other |
| `Ldb.LastWriteWins` | ldb/database.go:77-89 | after a commit each key holds its last write in the batch, or what it held before |
| `Ldb.AppliedConcat` | ldb/database.go:77-91 | committing two batches is committing their concatenation, and sizes add up |
| `Ldb.OneWriteSize` | ldb/database.go:83-87 | a write counts the bytes of its value alone |
| `Delivery.StepKeepsQueues` | service.go:92-111 | every step keeps every node's queue accounting |
| `Delivery.StepKeepsDrain` | rpc/server.go:193-200 | every step keeps each accepted message stored or written, and each id handed to deletion the id of a written message |
| `DeliveryRuns.QueueConservation` | service.go:147-164 | until stop, acknowledged messages are those dispatched followed by those queued, in order, each once, at most 128 waiting |
| `DeliveryRuns.OneMessagePerTurn` | service.go:92-111 | as many messages are dispatched as there were turns; until stop they are the first that were acknowledged, in order |
| `DeliveryRuns.DirectPossibleIff` | service.go:147-164 | a handler can queue exactly while fewer than 128 messages wait, and let go exactly when stopped; a request that did not run reports an error |
| `DeliveryRuns.DrainLosesNothingIff` | rpc/server.go:193-200 | no interleaving of puts, queries, writes and deletions loses an accepted message, exactly when ids are unique within each mailbox |
| `DeliveryRuns.DrainWritesSnapshot` | rpc/server.go:193-203 | once a session is through its drain, every message its query could see has been written |
| `DeliveryRuns.NoSilentLoss` | service.go:124-133 | a message whose send returned nil is queued, dispatched, stored or written, or the recipient was stopped |
| `DeliveryRuns.StoppedNodeLoses` | service.go:155-162 | the stopped case is real: nil is returned and the message is nowhere |
| `DeliveryRuns.DuplicatesPossible` | service.go:128-133 | a request that ran but reported an error leaves the message both queued and stored |
| `DeliveryRuns.DuplicatedIff` | service.go:126-133 | a message sent once is both acknowledged and accepted exactly when its direct request ran while reporting an error and its mailbox request ran |
| `DeliverySends.SendReturnsNilIff` | service.go:124-145 | a send that has returned gave nil exactly when one of its requests reported nil; it asked the recipient, and the mailbox exactly when the recipient's request reported an error |
| `DeliverySends.AsksOnce` | service.go:126-133 | neither request of a send is made twice |
| `DeliverySends.FallbackStoresAt` | mailbox.go:48-52 | the mailbox request stores at `Mailid(to)` under `Peerid(to)` and the message id, and nowhere else |
| `DeliverySends.FailedSendLeavesNoTrace` | service.go:128-132 | a send whose requests both fail without running returns an error and changes nothing else |
| `DeliverySessions.SessionOwnsBox` | service.go:113-122 | a session queries and cleans the mailbox of the JID it was opened for |
| `DeliverySessions.OwnMessagesAreWritten` | rpc/server.go:193-198 | a session past its drain has written every message that was stored for its owner when it queried |
| `DeliverySessions.WritesInOrder` | rpc/server.go:193-198 | a session writes its bag from the front, in non-decreasing order of time |
| `DeliverySessions.WrittenExactly` | rpc/server.go:193-198 | the written messages are exactly the fronts of the sessions' bags, as long as the sessions took write steps |
| `DeliverySessions.CleanTakesEffect` | rpc/server.go:199 | once a session's clean request has run and its deletions are through, every id of its bag is gone unless stored again since |
| `DeliverySessions.DeletesOwnBagOnly` | rpc/server.go:194-199 | a session deletes only what its bag holds, after writing it and after its clean request has run |
| `DeliverySessions.DrainCanComplete` | rpc/server.go:193-200 | from any state of any run a new session can write every visible message of its mailbox and leave only empty-id messages in it |
| `DeliverySessions.QueriesOnce` | rpc/server.go:193-200 | a session queries once at most and asks for a clean once at most |
| `DeliverySessions.UnansweredDoesNothing` | rpc/server.go:193-200 | a session whose query fails writes nothing and deletes nothing |
| `DeliverySessions.FailedCleanKeepsBox` | rpc/server.go:199 | a drain whose clean request fails has written the whole bag and leaves the mailbox as it was |
| `DeliveryStore.BoxesAreCalls` | mailbox.go:48-60 | each mailbox of the protocol is what the run's put and clean calls on its node make of it |
| `DeliveryStore.RunIsRealised` | mailbox.go:48-77 | every delivery run is realised by a run of the node's physical store, whose tables are then the protocol's mailboxes |
| `DeliveryStore.StoreLosesNothing` | rpc/server.go:193-200 | under the condition on ids, every accepted message is under its key in the physical store or has been written |
| `ServiceRuns.FirstInFirstOut` | service.go:92-111 | over the whole life of a service, stopped or not, n turns have dispatched the first n queued messages and the others wait |
| `ServiceRuns.HandlersAreOn` | service.go:73-85 | the registered handlers are those whose registration was not undone since |
| `ServiceRuns.CallsMatchTurns` | service.go:101-107 | a handler is started on a message exactly once for each turn that took the message while the handler was registered |
| `ServiceRuns.OwingIff` | service.go:101-107 | which turns those are, in terms of the events before them |
| `ServiceRuns.AllAcknowledged` | service.go:155-162 | every request is acknowledged in order of arrival; those let go are the ones that came by the stop branch |
| `ServiceRuns.StoppedIffClosed` | service.go:87-90 | a service is stopped exactly when it has been closed, and once at most |
| `ServiceRuns.NodeLives` | service.go:92-164 | in every run of the protocol each node lives the life of one service, whatever the others do |
| `ServiceRuns.NodeDispatchesInOrder` | service.go:92-164 | in every run, stopped or not, a node has dispatched the first of its queued messages, one per turn, and its queue is the rest |
| `ChatService.ChatService.HandleNormal` | service.go:147-164 | the message joins the end of the queue, or is let go when stopping, and is acknowledged either way; one step of the service's life |
| `ChatService.ChatService.DispatchNext` | service.go:101-107 | the oldest message, and no other, leaves the queue, is dispatched, and goes to every registered handler exactly once; one step of the service's life |
| `ChatService.ChatService.AppendHandleMsg` | service.go:73-79 | registers one more handler, under the fresh id it returns |
| `ChatService.ChatService.DropHandleMsg` | service.go:81-85 | unregisters that handler only |
| `ChatService.ChatService.StopService` | service.go:87-90 | marks the node stopped, and nothing else; a second stop fails and changes nothing |
| `ChatService.WebSocket.Drain` | rpc/server.go:194-198 | every message is written in order and exactly the written ids are collected |
| `ChatService.DrainThenClean` | rpc/server.go:193-200 | cleaning the ids of a drained snapshot leaves the messages it did not show |
| `Sorting.Sort` | types.go:111-121 | an in-place sorted permutation |
| `MembersHash.LessIsLexicographic` | rpc/types.go:96-98 | the order is the byte-wise lexicographic one |
| `MembersHash.Hash` | rpc/types.go:83-90 | the members end up sorted and the digest is fed their ids in that order |
| `MembersHash.FeedIsCanonical` | rpc/types.go:83-90 | every permutation of the same members feeds the same bytes |
| `MembersHash.FeedDeterminesIds` | rpc/types.go:83-98 | for ids of one non-zero length the bytes determine the multiset of ids |

## Assumptions

- `handleMember` calls are serialized; the source takes no lock around its multi-key updates.
- A put, get or delete on the store does not fail; log and handler ids are fresh (random UUIDs, section 4.4 of RFC 4122).
- Strings and byte slices are sequences of bytes, written as `char`.
- A request whose error is nil ran its handler, which returned nil; a request that reports an error may have run it.
- An iterator is an atomic snapshot.

## Left out

- GroupDb.GroupDb.QueryMember: is given a number of turns, since the source's loop has no bound and a method here must end; with enough turns it is the source's loop wherever that ends, and `RunEndsIff` says where.
- GroupDb.GroupDb.HandleMember: does not model concurrent calls or failing writes, because the source gives them no defined outcome.
- Mailbox.Mailbox.DoQueryMsg: visits the snapshot in any order rather than in key order; the result is sorted afterwards, so the promise is the same. Recipients shorter than 53 characters, whose table prefix is empty, are covered only when the store holds nothing but that table.
- ChatService.ChatService.DispatchNext: dispatches to the registered handlers in one step; the unlocked iteration over the handler map is not modelled.
- MembersHash.Hash: returns what the digest is fed; SHA-1 itself is not part of this model.
- Messages of group type in `SendMsg`, since they are stored by their `To` field; message verification, which is a stub in the source.
- Direct messages that arrive between a session's drain and its handler's registration: only their dispatch is claimed.
- Transport, discovery, timeouts and packet size limits; amino and JSON encodings; key and UUID generation; LevelDB internals.
- The user store, RPC routing and tokens, the console, HTTP plumbing and build files, which would add easy members only.
