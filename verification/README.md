# A verified model of the chat backend and its SDK protocol

The system is a chat backend whose guarantees come from one protocol spread over
several programs: a backend that appends messages to a durable log inside
transactions, an outbox and a delivery worker, a gateway that fans events out to
connections, and an SDK that turns the gateway's lossy, repeated and unordered
events back into an ordered stream read from the log. This project models those
programs as Dafny functions, classes and state machines and proves what every
run of them keeps.

How the model is laid out:

| module | what it covers |
|---|---|
| `Common` | options, minimum and maximum, fresh numbers |
| `Store` | the tables as maps keyed by their unique indexes, and each transaction twice: as a function and as a method that performs its statements one by one |
| `Invariants`, `Backend`, `BackendTheorems` | every handler split into check steps and a commit step, all interleavings of them, transactions that abort or commit unseen; the invariant of every run, and what follows from it |
| `Permissions` | who may do what: every effect traced back to the step at which its caller was entitled to it, and every check's answers |
| `Rest` | the SDK's send path against that backend: renewal, retries, lost requests and lost replies |
| `Outbox`, `Delivery`, `DeliveryWorker` | the outbox query, any number of crashing workers' polls beside the backend, and the worker's own loop |
| `DeliveryOrder` | exactly when two events are delivered in order |
| `Hub` | the gateway's user index, bounded queues and two-phase fan-out |
| `Sync`, `SyncRuns` | the SDK's sync engine: one fetch, the engine class, and whole runs with failures, events, sends and `Forget` |
| `GatewayClient` | the SDK's gateway connection: dedupe, backoff, credential renewal |
| `Auth` | registration, versioned credentials and revocation, with reads and writes interleaved |
| `WebSocket`, `WsConnection` | the RFC 6455 framer and reassembler, as functions and as the imperative connection |
| `Ulid` | the identifier encoder |
| `ChunkScan`, `ChunkSize` | the chunked-body decoder of the PHP SDK |

Identifiers, clock readings, entropy, request hashes, faults and scheduling are
chosen by the environment: they are arguments of steps, and every theorem holds
for all of them. A state machine is a datatype, a `Step` datatype, a function
`Apply`, and `Run` over a sequence of steps; a theorem about "every run" is a
lemma over every such sequence. Where the source mutates state step by step the
model is a class whose methods are proved equal to the function the lemmas are
about.

Properties that turned out false of the code, with the exact condition proved:

- The comment at install/ignore/sdk/go/sync.go:11-16 promises that each message is
  emitted exactly once, in order. Without `Forget`, the stream is strictly ascending
  if and only if no fetch starts below something already emitted
  (`SyncRuns.AscendingIff`), which is guaranteed when no fetch fails after its first
  page (`SyncRuns.ExactlyOnce`) and fails otherwise (`SyncRuns.LateFailureRepeats`).
- The same comment says fetches of one conversation never interleave. `FetchFrom` takes
  the mutex out of a table and only then locks it, and `Forget` drops it from the table:
  what follows runs one fetch at a time if and only if nobody is inside `FetchFrom` when
  `Forget` is called (`SyncRuns.ForgetIsSafeIff`, `SyncRuns.ForgetRule`). A fetch in
  flight breaks it (`SyncRuns.ForgetRepeats`), and so does a call that merely has the
  mutex in hand (`SyncRuns.WaiterOverlaps`).
- The comment at install/ignore/sdk/go/sync.go:269-271 says nothing is lost. A
  send's `Track` can jump over messages nobody has seen: the cursor covers exactly
  what was seen if and only if no send tracks past an unseen message
  (`SyncRuns.CursorSafety`), the jump happens (`SyncRuns.SendSkipsMessage`), and what
  it skips is never emitted by a later default fetch (`SyncRuns.SkippedForever`).
- Events of one conversation need not be delivered in sequence order. From the commit
  of the later message the order is kept, whatever workers and faults do, if and only if
  the earlier one had been accepted by then or carries the strictly earlier clock
  reading, which is taken before the transaction (`DeliveryOrder.MessageOrder`); a run
  that delivers message 2 first is `DeliveryOrder.ReversedDelivery`.
- Removing a member is documented as idempotent, but two removals checked before
  either commits both emit an event; an event accompanies a change of membership if
  and only if the target is still active at commit (`BackendTheorems.RemoveMemberEffect`,
  `BackendTheorems.BothRemovalsReady`, `BackendTheorems.RacingRemovalsBothEmit`).
- The comment at install/lib/im/app/auth/auth.go:249-252 says a minimal credential never
  clobbers a richer profile. Over every run it leaves the display fields alone if and only
  if they are what the table held when the request read it, and so whenever no other
  refresh of that user was written in between (`Auth.MinimalRefresh`); a richer login in
  between is undone (`Auth.MinimalLoginClobbers`).
- An earlier identifier sorts first only below 2^48 ms: at the wrap the order reverses
  (`Ulid.WrapSortsBackwards`).

## Model

| member | source | states |
|---|---|---|
| `Store.Database.Send` | install/lib/im/app/api/im_api/messages.go:156-185 | bump, message, receipt and outbox row are committed together as `SendTx` says, or the database is unchanged |
| `Store.Database.CreateDirect` | install/lib/im/app/api/im_api/conversations.go:238-262 | all rows of a direct conversation or none, as `CreateDirectTx` says |
| `Store.Database.CreateGroup` | install/lib/im/app/api/im_api/conversations.go:238-253 | all rows of a group or none: creator as owner, everyone else a member |
| `Store.Database.Add` | install/lib/im/app/api/im_api/members.go:94-128 | joins exactly the requested users who are not active, each reported once, with one event when anyone joined |
| `Store.Database.Remove` | install/lib/im/app/api/im_api/members.go:277-296 | the update is conditional on an active row, the event is not |
| `Store.Database.Moderate` | install/lib/im/app/api/admin_api/conversations.go:192-217 | the flag and the event are set together, and only by the transaction that finds the message still legal |
| `Store.Database.Ack` | install/lib/im/app/api/internal_api/actions.go:144-153 | publishes a row at most once; the caller learns whether anything changed |
| `Store.InsertMembers` | install/lib/im/app/api/im_api/conversations.go:249-253 | the insert loop succeeds exactly when no row exists yet, and then has added exactly these rows |
| `Store.JoinMembers` | install/lib/im/app/api/im_api/members.go:95-112 | the lookup loop inserts the unknown, revives the departed as plain members and skips the active |
| `Store.OrderedPair` | install/lib/im/app/api/im_api/conversations.go:325-329 | the same two users in ascending order |
| `Invariants.SendKeeps` | install/lib/im/app/api/im_api/messages.go:156-185 | a committed send keeps every table invariant and only grows the tables |
| `Invariants.ModerateKeeps` | install/lib/im/app/api/admin_api/conversations.go:192-217 | so does a moderation |
| `Invariants.CreateGroupKeeps` | install/lib/im/app/api/im_api/conversations.go:238-253 | so does a new group |
| `Invariants.CreateDirectKeeps` | install/lib/im/app/api/im_api/conversations.go:238-262 | so does a new direct conversation; the pair index stays one-to-one with direct conversations |
| `Invariants.AddKeeps` | install/lib/im/app/api/im_api/members.go:94-128 | so does adding members to a group |
| `Invariants.RemoveKeeps` | install/lib/im/app/api/im_api/members.go:277-296 | so does removing anyone but the creator |
| `Invariants.AckKeeps` | install/lib/im/app/api/internal_api/actions.go:144-153 | so does an acknowledgement |
| `Invariants.InsertUnique` | install/host/db/migrate/im_core.go:29-34 | an insert that passes both unique indexes leaves the pair index one-to-one |
| `Backend.StepInv` | install/lib/im/app/api/im_api/messages.go:94-195 | every check or commit step of every handler, under every fault, keeps the system invariant and loses nothing durable |
| `Backend.RunInv` | install/lib/im/app/repo/repo.go:41-53 | the invariant holds after every interleaving of steps |
| `Backend.RunGrows` | install/lib/im/app/repo/repo.go:41-53 | across any run rows are never deleted, messages never change except to become illegal, published rows stay as they are |
| `Backend.LookupInv` | install/lib/im/app/api/im_api/messages.go:117-142 | what the idempotency lookup answers names a stored message under that key |
| `Backend.RemoveCheckInv` | install/lib/im/app/api/im_api/members.go:252-269 | a removal that passes its checks never targets the creator, though it commits later |
| `BackendTheorems.GaplessLog` | install/lib/im/app/api/im_api/messages.go:156-170 | after every run each conversation's sequences are exactly 1 .. next_sequence - 1, none twice |
| `BackendTheorems.OneCreatedRow` | install/lib/im/app/api/im_api/messages.go:175-184 | each message has exactly one message.created row, with its id, conversation and sequence |
| `BackendTheorems.StoringStep` | install/lib/im/app/api/im_api/messages.go:156-185 | only a send's commit stores a message, with that request's content and sender; its event targets the members active at that moment |
| `BackendTheorems.CreatedTargets` | install/lib/im/app/api/im_api/messages.go:175-184 | in every later state the event still targets exactly the members active at commit |
| `BackendTheorems.AtMostOneStore` | install/lib/im/app/api/im_api/messages.go:170-174 | over a whole run, one user and key store at most one message |
| `BackendTheorems.SuccessNamesStored` | install/lib/im/app/api/im_api/messages.go:117-195 | every successful answer carries the id and sequence of a stored message of that user, recorded under the key |
| `BackendTheorems.SuccessesAgree` | install/lib/im/app/api/im_api/messages.go:117-195 | two successes under one key carry the same id and sequence and had the same request hash |
| `BackendTheorems.UsedKeyStoresNothing` | install/lib/im/app/api/im_api/messages.go:117-142 | once a key has a receipt, no request under it stores anything, whatever its hash |
| `BackendTheorems.KeyDecides` | install/lib/im/app/api/im_api/messages.go:117-142 | over whole runs: once a key has a receipt, a later lookup under it answers 11002 if and only if the hash differs and the stored message if and only if it is the same, and never reaches a transaction |
| `BackendTheorems.DirectConversations` | install/lib/im/app/api/im_api/conversations.go:223-262 | every direct conversation has exactly two active members, is found from either order, and is the only one for that pair |
| `BackendTheorems.DirectCallersAgree` | install/lib/im/app/api/im_api/conversations.go:223-275 | all callers that succeed for a pair, at any two times, get the same id |
| `BackendTheorems.LosingDirectLeavesNothing` | install/lib/im/app/api/im_api/conversations.go:263-275 | a creation that loses the race changes no table and then finds the winner's conversation |
| `BackendTheorems.OneOwner` | install/lib/im/app/api/im_api/members.go:252-267 | every group always has exactly one active owner, its creator |
| `BackendTheorems.OwnerForLife` | install/lib/im/app/api/im_api/members.go:187-193 | the creator stays active owner from creation to the end of every run |
| `BackendTheorems.AddMembersEffect` | install/lib/im/app/api/im_api/members.go:94-128 | the active set becomes old plus requested, the event names exactly the newcomers and reaches everyone active, and there is none when nobody is new |
| `BackendTheorems.AddMembersIdempotent` | install/lib/im/app/api/im_api/members.go:94-128 | repeating an addition changes nothing and emits nothing |
| `BackendTheorems.RemoveMemberEffect` | install/lib/im/app/api/im_api/members.go:277-296 | exactly the target leaves, the event reaches the rest and the target, and membership changes if and only if the target was active at commit |
| `BackendTheorems.BothRemovalsReady` | install/lib/im/app/api/im_api/members.go:211-269 | from any state with a removable member, two removals pass their checks on the same database |
| `BackendTheorems.RacingRemovalsBothEmit` | install/lib/im/app/api/im_api/members.go:269-296 | committing both emits two equal events for one departure |
| `BackendTheorems.OneModeratedRow` | install/lib/im/app/api/admin_api/conversations.go:181-217 | a message is illegal if and only if it has a message.moderated row, and it never has two |
| `BackendTheorems.MaskedForever` | install/lib/im/app/api/im_api/messages.go:227-233 | once illegal, a message shows only the mask in every later list and idempotent replay |
| `BackendTheorems.PageLimit` | install/lib/im/app/api/im_api/messages.go:209-212 | a limit inside 1 .. 200 is kept, any other becomes 100 |
| `BackendTheorems.PagesAreConsecutive` | install/lib/im/app/api/im_api/messages.go:208-219 | every page starts right after the cursor, is consecutive, and stops only at the limit or the end of the log |
| `BackendTheorems.ReloadFindsMasked` | install/ignore/sdk/go/sync.go:213-235 | whenever the event arrives, the page after sequence - 1 begins with the moderated message, masked |
| `Permissions.SenderWasMember` | install/lib/im/app/api/im_api/messages.go:107-185 | over whole runs: whoever's message a step stores was an active member of that conversation when the request was authorized, and the message is exactly that request's |
| `Permissions.SendCheckAnswers` | install/lib/im/app/api/im_api/messages.go:101-116 | 10003 if and only if malformed, 10005 if and only if well formed and not an active member; everyone else goes on |
| `Permissions.SendCommitAnswers` | install/lib/im/app/api/im_api/messages.go:186-194 | success if and only if committed and heard, with the next sequence; 11001 if and only if the conversation is gone; 10000 otherwise |
| `Permissions.ShownAsSent` | install/lib/im/app/api/im_api/messages.go:220-233 | over whole runs: a message is shown as it was sent while no moderation has been announced, and as `***` from then on |
| `Permissions.ModeratedTargets` | install/lib/im/app/api/admin_api/conversations.go:192-217 | only a moderation makes a message illegal, and its event reaches the members active at that moment, for good |
| `Permissions.ModerateCheckAnswers` | install/lib/im/app/api/admin_api/conversations.go:169-184 | 20008 if and only if unknown, nothing to do if and only if already illegal |
| `Permissions.GroupBegins` | install/lib/im/app/api/im_api/conversations.go:197-253 | a group begins with exactly the users its creator named and the creator, the creator as owner, the rest plain members, and an empty log |
| `Permissions.NewConversation` | install/lib/im/app/api/im_api/conversations.go:238-262 | a conversation is created by a commit of its kind and by nothing else |
| `Permissions.GroupCheckAnswers` | install/lib/im/app/api/im_api/conversations.go:197-206 | 10003 if and only if the request names nobody but the caller |
| `Permissions.DirectCheckAnswers` | install/lib/im/app/api/im_api/conversations.go:199-230 | 10003 if and only if against oneself, the pair's conversation when the lookup finds it, the creation otherwise |
| `Permissions.DirectGetOrCreate` | install/lib/im/app/api/im_api/conversations.go:223-275 | an undisturbed caller gets the pair's conversation if there is one, and otherwise a new one whose active members are the pair |
| `Permissions.JoinedBy` | install/lib/im/app/api/im_api/members.go:45-128 | over whole runs: whoever joins was named by someone else who was owner or admin of the group when the request was checked, and joins as a plain member |
| `Permissions.AddCheckAnswers` | install/lib/im/app/api/im_api/members.go:45-69 | each answer of the addition check, 10003, 11001, 10005 or going on, if and only if its rule holds |
| `Permissions.RemovedBy` | install/lib/im/app/api/im_api/members.go:206-296 | over whole runs: whoever leaves was removed by someone else, owner or admin when authorized, and when checked was an active plain member, or an admin removed by the owner |
| `Permissions.RemoveAuthorizeAnswers` | install/lib/im/app/api/im_api/members.go:206-228 | each answer of the first removal check if and only if its rule holds; the caller's role is carried on |
| `Permissions.RemoveCheckAnswers` | install/lib/im/app/api/im_api/members.go:252-269 | each answer of the second removal check if and only if its rule holds |
| `Permissions.AddReported` | install/lib/im/app/api/im_api/members.go:94-132 | reported as done only when everyone named is in, and always when the commit meets no fault |
| `Permissions.RemoveReported` | install/lib/im/app/api/im_api/members.go:277-300 | reported as done only when the target is out and the event stored, and always when the commit meets no fault |
| `Permissions.ModerateReported` | install/lib/im/app/api/admin_api/conversations.go:192-226 | reported as done only when the message is illegal, and always when the commit meets no fault |
| `Permissions.GroupReported` | install/lib/im/app/api/im_api/conversations.go:238-275 | reported as made only when it is there, and always when the commit meets no fault and a fresh id |
| `Rest.RequestOnce` | install/ignore/sdk/go/rest.go:415-443 | the backend takes exactly the steps of the exchange, and a success names a stored message |
| `Rest.ExchangeInterleaves` | install/lib/im/app/api/im_api/messages.go:107-185 | an exchange that reaches the server is authorize, lookup and commit in that order, with anything the rest of the system does in between |
| `Rest.WhatTheClientSees` | install/ignore/sdk/go/rest.go:415-443 | a lost request or reply is a transport failure, a stop at the door 10001, and anything else the handler's own answer; a request that never arrived changes nothing |
| `Rest.RenewalRule` | install/ignore/sdk/go/rest.go:385-413 | the credential changes and a second exchange is made if and only if the first is answered 10001, a credential was in use and the provider gives a different one |
| `Rest.QuietExchangeStores` | install/lib/im/app/api/im_api/messages.go:94-195 | a send that meets no race and no fault is stored under the next sequence and answered with it |
| `Rest.Client.Request` | install/ignore/sdk/go/rest.go:385-413 | the renewal rule, on the running backend: same state, same credential, same answer, same steps |
| `Rest.Client.RequestRenewed` | install/ignore/sdk/go/rest.go:408-413 | the second exchange runs under the credential the provider gave |
| `Rest.Client.Retry` | install/ignore/sdk/go/rest.go:263-280 | the attempts one after another until one is no transport failure or the bound is reached, with exactly their steps on the backend |
| `Rest.FailsOnlyWhenAllDo` | install/ignore/sdk/go/rest.go:263-280 | the call fails in transport if and only if every allowed attempt does |
| `Rest.LostThenDelivered` | install/ignore/sdk/go/rest.go:263-280 | when the first exchanges of some attempts are lost and the next is delivered, the call returns that handler's answer after exactly those exchanges |
| `Rest.Client.SendMessage` | install/ignore/sdk/go/rest.go:237-280 | under any pattern of lost requests, lost replies and interleaved handlers: a transport failure if and only if every allowed attempt was one, at most one message stored for the key, and a success names it |
| `Rest.AnswerNamesStored` | install/ignore/sdk/go/rest.go:266-271 | a decoded success is a stored message of the caller under its key |
| `Rest.RetryReplays` | install/lib/im/app/api/im_api/messages.go:117-142 | a retry after a lost reply is answered with the stored message before any transaction, and the database does not move |
| `Outbox.PageBound` | install/lib/im/app/api/internal_api/actions.go:119-122 | a limit inside 1 .. 500 is kept, any other becomes 100 |
| `Outbox.SelectBatch` | install/lib/im/app/api/internal_api/actions.go:119-126 | the outbox page: distinct unpublished rows in clock order, none younger than a row left out, as many as limit and supply allow |
| `Outbox.AckAllEffect` | install/lib/im/app/api/internal_api/actions.go:144-153 | acknowledging a list publishes exactly its unpublished members, once each |
| `Delivery.MoveInv` | install/deps/im/delivery/main.go:95-156 | every move of any poll, crash or handler keeps: published rows were accepted and have one publisher, and a poll in progress has itself published exactly what lies behind its index |
| `Delivery.PlayInv` | install/deps/im/delivery/main.go:95-156 | so it holds in every reachable state |
| `Delivery.RowsPersist` | install/lib/im/app/api/internal_api/actions.go:144-153 | between any two points of a run no row is lost, rewritten or un-published, no acceptance is forgotten, and a poll that has ended publishes nothing more |
| `Delivery.ServePublishesNothing` | install/lib/im/app/api/internal_api/actions.go:144-153 | no handler but the acknowledgement publishes a row |
| `Delivery.PublishingMove` | install/deps/im/delivery/main.go:115-124 | a row is published only by the acknowledgement of a poll that stands at that row, after the gateway accepted it |
| `Delivery.AcceptedBeforePublished` | install/deps/im/delivery/main.go:115-124 | over whole runs: at the move that publishes a row the gateway had already accepted its event |
| `Delivery.OutboxSafety` | install/lib/im/app/api/internal_api/actions.go:144-153 | for any workers and crashes, attempts is 1 exactly when published and 0 otherwise, published rows were accepted, and a poll in progress owns exactly its confirmed rows |
| `Delivery.PollTurns` | install/deps/im/delivery/main.go:115-124 | what becomes of a poll: an accepted push goes on to its acknowledgement, an answered acknowledgement of an unpublished row moves it on, everything else ends it |
| `Delivery.PollPublishes` | install/deps/im/delivery/main.go:95-126 | among any number of workers, a poll that ends at index k has itself published exactly its first k rows, for good; or k + 1 if and only if it ended on a lost acknowledgement reply and the row was still unpublished when the acknowledgement arrived |
| `Delivery.PollAlone` | install/deps/im/delivery/main.go:115-124 | an undisturbed poll accepts and publishes its rows one by one, in order, and touches nothing else |
| `Delivery.FaultFreePoll` | install/deps/im/delivery/main.go:95-126 | publishes exactly the batch, leaving max(0, pending - 100) |
| `Delivery.Drain` | install/deps/im/delivery/main.go:79-126 | with one worker and no inserts, the outbox is empty if and only if at least ceil(pending / 100) fault-free polls were made |
| `DeliveryWorker.Worker.DeliverOne` | install/deps/im/delivery/main.go:115-124 | push, then acknowledge, while others act: a confirmed acknowledgement moves on; a lost reply, or a row someone else published meanwhile, ends the poll |
| `DeliveryWorker.Worker.Acknowledge` | install/deps/im/delivery/main.go:144-156 | success exactly when the reply arrives and the row was still unpublished |
| `DeliveryWorker.Worker.DeliverAll` | install/deps/im/delivery/main.go:115-125 | the loop stops at the first error; the poll has then published exactly its confirmed rows, or one more when a reply was lost |
| `DeliveryWorker.Worker.Poll` | install/deps/im/delivery/main.go:95-126 | a poll beside any other polls and handlers, with the request, push and acknowledgement faults; its counters match what it confirmed |
| `DeliveryOrder.PageOrders` | install/lib/im/app/api/internal_api/actions.go:124-125 | a page that holds a row holds every unpublished row of strictly earlier clock reading before it |
| `DeliveryOrder.OrderRun` | install/deps/im/delivery/main.go:95-156 | for any workers, faults and crashes, the row of the strictly earlier clock reading, if there first, is first accepted first |
| `DeliveryOrder.Overtake` | install/deps/im/delivery/main.go:95-156 | while neither is accepted and the later row has no later clock reading, some continuation delivers it first |
| `DeliveryOrder.OrderKeptIff` | install/lib/im/app/api/im_api/messages.go:154-184 | from the commit of a row f, an older row e is first accepted before f in every continuation if and only if e had been accepted by then or has the strictly earlier clock reading |
| `DeliveryOrder.MessageOrder` | install/lib/im/app/api/im_api/messages.go:154-184 | two messages of one conversation are committed in sequence order, and delivered in it in every continuation under exactly that condition |
| `DeliveryOrder.ReversedDelivery` | install/lib/im/app/api/im_api/messages.go:154-184 | a run of the whole system in which message 2 of a conversation is delivered before message 1 |
| `Hub.RunInv` | install/deps/im/gateway/main.go:143-209 | index, queues and fan-out accounting hold in every reachable state |
| `Hub.IndexIsLiveConnections` | install/deps/im/gateway/main.go:294-332 | the index is exactly (user, connection) over registered, unremoved connections, so `online` lists exactly the users with a live one |
| `Hub.IdentityIsFinal` | install/deps/im/gateway/main.go:162-184 | a connection's user is set at most once and a removed connection never returns |
| `Hub.AuthenticatedIsListed` | install/deps/im/gateway/main.go:162-184 | a connection that authenticates is live and listed under its user, and nothing else in the index moves |
| `Hub.EndedIsUnlisted` | install/deps/im/gateway/main.go:319-332 | a connection that ends is listed nowhere, its user only if another connection is left, and the rest stay |
| `Hub.SnapshotIsLive` | install/deps/im/gateway/main.go:334-342 | a delivery's snapshot is the set of connections live under its targets at that moment |
| `Hub.DeliveredToTargets` | install/deps/im/gateway/main.go:334-354 | over whole runs: a delivery's snapshot is, in every later state, exactly the connections live under its targets when it was taken, and every frame of it ever enqueued carries its payload to one of those |
| `Hub.FanOut` | install/deps/im/gateway/main.go:334-354 | delivered plus slow plus unsent equals the snapshot, at most one copy per connection even for repeated targets, delivered counts exactly the connections reached, and the ones passed over have been closed |
| `Hub.QueueConservation` | install/deps/im/gateway/main.go:193-209 | frames enqueued are frames taken followed by frames queued, and at most 256 wait |
| `Hub.RespondOrClose` | install/deps/im/gateway/main.go:356-363 | a response is enqueued while fewer than 256 frames wait and otherwise costs the connection |
| `Hub.SendOrClose` | install/deps/im/gateway/main.go:343-354 | so does an event, with the counters telling the two cases apart |
| `Hub.WriteLoopDrains` | install/deps/im/gateway/main.go:193-209 | left alone, the write loop takes everything a connection was ever offered, in order |
| `Hub.Gateway.Add` | install/deps/im/gateway/main.go:294-301 | the connection joins its user's entry, which is created if missing |
| `Hub.Gateway.Drop` | install/deps/im/gateway/main.go:319-332 | the first removal takes the connection out and an empty entry with it; later ones change nothing |
| `Hub.Gateway.Collect` | install/deps/im/gateway/main.go:334-342 | the collecting loop finds exactly the distinct connections listed under some target |
| `Hub.Gateway.TrySend` | install/deps/im/gateway/main.go:356-363 | enqueue when there is room, otherwise leave the queue alone and close the connection |
| `Hub.Gateway.SendAll` | install/deps/im/gateway/main.go:343-354 | every collected connection is offered the frame once; delivered counts those with room, the rest are closed and counted as slow |
| `Hub.SendAllIsARun` | install/deps/im/gateway/main.go:343-354 | that loop is a run of the machine's send steps: same clients, same delivered, same slow count |
| `Sync.PageSize` | install/ignore/sdk/go/sync.go:176-182 | the page size asked for is the limit capped at 200, or 200 without one, and the backend honours it |
| `Sync.Page` | install/lib/im/app/api/im_api/messages.go:208-219 | consecutive sequences right after the cursor, as many as size and log allow |
| `Sync.ServedPage` | install/lib/im/app/api/im_api/messages.go:208-219 | the page the backend serves is exactly that page, on every database that satisfies the log invariant |
| `Sync.FetchIsConsecutive` | install/ignore/sdk/go/sync.go:187-205 | what one fetch emits is consecutive and ascending from its cursor to where it stops, failed or not |
| `Sync.DrainBounds` | install/ignore/sdk/go/sync.go:24-31 | a fault-free drain from c begun at n messages ends between min(n, c + pages * size) and c + pages * size, however the log grows meanwhile |
| `Sync.Engine.constructor` | install/ignore/sdk/go/sync.go:119-138 | restores exactly the positive persisted cursors; a missing or unreadable cache starts clean; a restart would find them again |
| `Sync.Engine.ConvMutex` | install/ignore/sdk/go/sync.go:155-164 | one mutex per conversation, made on first use and never one handed out before |
| `Sync.Engine.TrackTo` | install/ignore/sdk/go/sync.go:81-93 | raises the cursor, never lowers it, and persists every change, so a restart always finds every cursor |
| `Sync.Engine.Forget` | install/ignore/sdk/go/sync.go:109-115 | drops the cursor and the mutex, held or not, and persists the cursors |
| `Sync.Engine.RunFetch` | install/ignore/sdk/go/sync.go:175-210 | from the cursor or any given sequence, emits what the page loop allows, and raises and persists the cursor only when no page failed |
| `Sync.Engine.EmitPages` | install/ignore/sdk/go/sync.go:187-205 | the page loop emits exactly what the replies allow, page by page, and stops at the first failure or short page |
| `Sync.HistorySize` | install/ignore/sdk/go/rest.go:213-217 | the history page size is the given one capped at 200, or 100 without one, and the backend honours it |
| `Sync.EachMessage` | install/ignore/sdk/go/rest.go:209-235 | handles every sequence once, in order; complete means it reached the end of the log as the last page saw it |
| `Sync.ReloadMessage` | install/ignore/sdk/go/sync.go:213-235 | finds the message if and only if it is on the page, and returns what the API shows of it |
| `Sync.HandleModerated` | install/ignore/sdk/go/sync.go:277-284 | the update a moderation event triggers is exactly that message with content `***`, in every run and however late |
| `SyncRuns.LoopIsARun` | install/ignore/sdk/go/sync.go:175-210 | whatever the engine's page loop does is a run of the step machine: same emissions, same cursor |
| `SyncRuns.BasicRun` | install/ignore/sdk/go/sync.go:155-173 | without Forget, at most one fetch runs, nothing points past the log, the cursor never falls |
| `SyncRuns.ForgetIsSafeIff` | install/ignore/sdk/go/sync.go:109-173 | whatever follows a Forget runs one fetch at a time if and only if nobody is inside `FetchFrom` when it is called: no fetch in flight, and no call with the mutex in hand that has yet to lock it |
| `SyncRuns.ForgetRule` | install/ignore/sdk/go/sync.go:109-173 | over whole runs: every Forget is safe, whatever might follow it, if and only if each finds nobody inside `FetchFrom` |
| `SyncRuns.ForgetStartsOver` | install/ignore/sdk/go/sync.go:109-115 | after a Forget events are ignored until a fetch has finished, and that fetch starts from the first message |
| `SyncRuns.OneFetchAtATime` | install/ignore/sdk/go/sync.go:155-173 | in a run whose Forgets find nobody inside `FetchFrom`, fetches of the conversation never overlap, at any point |
| `SyncRuns.CatchesUp` | install/ignore/sdk/go/sync.go:175-210 | over every run without Forget, with any events, sends, failed fetches and log growth in between: once k fetches have run to their end the cursor is at least min(n, c + 10 k size) |
| `SyncRuns.CaughtUp` | install/ignore/sdk/go/sync.go:24-31 | so ceil((n - c) / (10 size)) finished fetches reach everything the log held at the start |
| `SyncRuns.EventAsks` | install/ignore/sdk/go/sync.go:261-273 | an event makes a call ask for a fetch of full pages if and only if the conversation is tracked and the event is past the cursor; otherwise nothing happens |
| `SyncRuns.EventIsServed` | install/ignore/sdk/go/sync.go:261-273 | in a run without Forget, once the fetch an event for message q asked for has finished, the cursor is at least min(q, c + 2000), whatever else went on |
| `SyncRuns.CoverStep` | install/ignore/sdk/go/session.go:473-481 | a step keeps "everything up to the cursor was seen" if and only if it is not a send that jumps over unseen messages |
| `SyncRuns.CursorSafety` | install/ignore/sdk/go/sync.go:81-210 | over whole runs the cover holds at every point if and only if no send tracked past an unseen message |
| `SyncRuns.SkippedForever` | install/ignore/sdk/go/sync.go:261-273 | what the cursor has passed unseen is never emitted by any later default fetch |
| `SyncRuns.SendSkipsMessage` | install/ignore/sdk/go/session.go:473-481 | a run in which tracking our own message 2 skips message 1 |
| `SyncRuns.AscendingIff` | install/ignore/sdk/go/sync.go:187-208 | the emitted stream is strictly ascending if and only if no fetch began below something already emitted |
| `SyncRuns.ExactlyOnce` | install/ignore/sdk/go/sync.go:187-208 | if no fetch fails after its first page every message is emitted at most once, in order, and the cursor settles past all of them |
| `SyncRuns.LateFailureRepeats` | install/ignore/sdk/go/sync.go:193-208 | a failure after a first page makes the next fetch emit that page again |
| `SyncRuns.ForgetRepeats` | install/ignore/sdk/go/sync.go:109-173 | Forget during a fetch: two fetches overlap and emit the same message although nothing failed |
| `SyncRuns.WaiterOverlaps` | install/ignore/sdk/go/sync.go:109-173 | a run in which Forget finds nobody fetching, but one call with the mutex in hand: two fetches then overlap and emit the same message |
| `GatewayClient.RepeatsAreFarApart` | install/ignore/sdk/go/gateway.go:377-388 | emissions i < j of one event id satisfy i / 10000 < j / 10000, across reconnects and sessions |
| `GatewayClient.NothingDropped` | install/ignore/sdk/go/gateway.go:355-366 | an event on an authenticated connection is dropped only if it was emitted before |
| `GatewayClient.WaitsFollowBackoff` | install/ignore/sdk/go/gateway.go:222-231 | every wait after k failures since the last authentication is min(500 * 2^k, 10000) ms |
| `GatewayClient.RenewsOncePerCredential` | install/ignore/sdk/go/gateway.go:237-262 | within a session, between two credential changes there is at most one provider call and at most two rejections before the loop stops |
| `GatewayClient.CountersCount` | install/ignore/sdk/go/gateway.go:191-262 | the counters those bounds are about count exactly the provider calls, rejections and failures they name |
| `GatewayClient.RenewalAdopts` | install/ignore/sdk/go/gateway.go:249-262 | from any state waiting for a renewal: a value that is neither empty nor the rejected one is adopted and the mark cleared; anything else leaves both alone |
| `GatewayClient.MarkIsAsked` | install/ignore/sdk/go/gateway.go:237-262 | over whole runs the mark is the credential the provider was last asked about in the session, unless it has given a new one since |
| `GatewayClient.RejectionStopsIff` | install/ignore/sdk/go/gateway.go:237-248 | over whole runs: a rejection stops the loop if and only if there is no provider, or it was already asked about the present credential and gave none since, or there was no credential; otherwise it is asked |
| `GatewayClient.AsksAgain` | install/ignore/sdk/go/gateway.go:199-262 | a rejection right after a successful renewal asks again, about the new credential |
| `GatewayClient.AuthenticationDecides` | install/ignore/sdk/go/gateway.go:318-354 | before it is online, code 0 is acceptance and resets the backoff, anything else that parses a rejection; afterwards only events are emitted |
| `GatewayClient.HostControls` | install/ignore/sdk/go/gateway.go:113-180 | Connect, Disconnect and SetCredential do what they say and touch nothing emitted, remembered or backed off |
| `GatewayClient.FailureWaits` | install/ignore/sdk/go/gateway.go:220-231 | a connection that ends without a rejection costs exactly one wait of the present delay, after which the loop tries again |
| `GatewayClient.GatewaySocket.MarkSeen` | install/ignore/sdk/go/gateway.go:377-388 | reports whether the id was remembered and remembers it, emptying a full set first |
| `GatewayClient.GatewaySocket.OnText` | install/ignore/sdk/go/gateway.go:318-367 | one frame is one receive step |
| `GatewayClient.GatewaySocket.ReceiveAll` | install/ignore/sdk/go/gateway.go:307-367 | the receive loop, with credentials set and a disconnect at any moment, attends to exactly what the step machine would and stops at a rejection |
| `GatewayClient.GatewaySocket.TakeDelay` | install/ignore/sdk/go/gateway.go:222-231 | waits the current delay and doubles it up to the cap |
| `GatewayClient.GatewaySocket.BeginRefresh` | install/ignore/sdk/go/gateway.go:237-248 | asks the provider unless there is none or it was asked for this credential already |
| `GatewayClient.GatewaySocket.EndRefresh` | install/ignore/sdk/go/gateway.go:249-262 | adopts a new credential and clears the mark, or keeps both |
| `GatewayClient.GatewaySocket.EndTurn` | install/ignore/sdk/go/gateway.go:199-231 | a rejection is renewed or ends the loop, anything else backs off |
| `GatewayClient.GatewaySocket.OneTurn` | install/ignore/sdk/go/gateway.go:191-232 | one turn of the loop: dial, receive, hang up, and the renewal or the wait, with credentials set meanwhile |
| `GatewayClient.GatewaySocket.RunLoop` | install/ignore/sdk/go/gateway.go:182-233 | the whole loop computes `Looped`; it returns only when a rejection cannot be renewed or the host disconnects |
| `GatewayClient.LoopIsARun` | install/ignore/sdk/go/gateway.go:182-233 | whatever the loop meets, it is a run of the step machine within one session, so every run theorem holds of it |
| `GatewayClient.ReconnectsUntilThrough` | install/ignore/sdk/go/gateway.go:182-233 | after any number of failed connections, one wait each, a connection that is accepted and brings an event gets it to the application |
| `GatewayClient.RejectedTurn` | install/ignore/sdk/go/gateway.go:199-262 | a turn whose connection is rejected goes on under the provider's new credential if there is one, goes on with the mark if the provider has none, and stops if it cannot be asked |
| `Auth.StepVersion` | install/lib/im/app/auth/auth.go:118-136 | no step deletes or renumbers a user, and the version moves by one exactly when that user is revoked |
| `Auth.VersionIsRevocations` | install/lib/im/app/auth/auth.go:118-136 | between two points of a run the version is unchanged if and only if nobody revoked the user |
| `Auth.RunInv` | install/lib/im/app/auth/auth.go:253-312 | in every run, the version a request holds was the stored one at the point it records, and its answer follows from it |
| `Auth.PresentedHandles` | install/lib/im/app/auth/auth.go:156-168 | a request handles the claims presented to it and holds no version read before it began |
| `Auth.LoginFollowsIssue` | install/lib/im/app/auth/auth.go:156-173 | a login presenting an issued credential reads after the issue did and handles the issued claims |
| `Auth.VersionsDecide` | install/lib/im/app/auth/auth.go:169-171 | the issued version and the one found at login agree if and only if no revocation separates the two reads |
| `Auth.RevocationDecides` | install/lib/im/app/auth/auth.go:156-173 | when a credential that had been issued is presented, the login is admitted if and only if the user was not revoked between the issue's read and the login's, which comes later |
| `Auth.WindowDecides` | install/lib/im/app/auth/auth.go:177-213 | let through if and only if well formed, signed by an accepted secret, issued at most a minute ahead and expired at most a minute ago |
| `Auth.OneUserPerUuid` | install/lib/im/app/auth/auth.go:256-286 | however many first logins race, all that learn an id learn the same one |
| `Auth.FirstLogin` | install/lib/im/app/auth/auth.go:258-287 | a first login registers the credential's name and its non-blank display fields at version 1, and is admitted unless the credential names another version |
| `Auth.InsertThenRecheck` | install/lib/im/app/auth/auth.go:262-286 | a registration with no reported id, or one reported as failed, is looked up again; without an answer the first goes on under id 0 and the second fails |
| `Auth.KnownUser` | install/lib/im/app/auth/auth.go:288-311 | for a known user the name follows the credential, a display field only when carried, and nothing else moves |
| `Auth.RequestsRead` | install/lib/im/app/auth/auth.go:91-103 | logins and issues begin with the same read, each under its own purpose |
| `Auth.IssueSigns` | install/lib/im/app/auth/auth.go:103-113 | an issue signs the user's uuid, stored name and stored version with the given secret and times |
| `Auth.LoserFindsWinner` | install/lib/im/app/auth/auth.go:262-270 | whoever loses the race to register falls back on the winner's row, and fails only if that read fails |
| `Auth.RefreshReads` | install/lib/im/app/auth/auth.go:253-258 | in every run, the row a refresh works from is the one stored at the point it was read |
| `Auth.DisplayStays` | install/lib/im/app/auth/auth.go:288-310 | between two points of a run a user's display fields are unchanged unless a refresh of that user is written |
| `Auth.MinimalRefresh` | install/lib/im/app/auth/auth.go:288-310 | in every run, the refresh of a minimal credential leaves the stored display fields alone if and only if they are what the table held when the request read it, and so whenever no other refresh of that user lies in between; id and version never move |
| `Auth.MinimalLoginClobbers` | install/lib/im/app/auth/auth.go:288-310 | from any state, a minimal login that read before a richer one wrote puts the old nickname back |
| `Auth.UserTable.RevokeUser` | install/lib/im/app/auth/auth.go:118-136 | bumps exactly that user's version, if there is one |
| `Auth.UserTable.ResolveUser` | install/lib/im/app/auth/auth.go:253-312 | with failing statements, errors after the fact, the insert race and unreported ids: only this user's row changes, never its version, and display fields only to what the credential carries |
| `Auth.UserTable.RefreshProfile` | install/lib/im/app/auth/auth.go:288-312 | writes back exactly what the credential changes, or leaves the row alone |
| `WebSocket.BigEndianRoundTrip` | install/ignore/sdk/go/websocket.go:146-157 | every number that fits the width reads back as itself |
| `WebSocket.MaskTwice` | install/ignore/sdk/go/websocket.go:164-167 | masking is its own inverse (section 5.3 of RFC 6455) |
| `WebSocket.ShortestForm` | install/ignore/sdk/go/websocket.go:146-157 | no header announcing the same length has a shorter extension than the one written |
| `WebSocket.FrameRoundTrip` | install/ignore/sdk/go/websocket.go:137-268 | a written frame followed by any bytes reads back as that opcode, fin and payload, with the rest untouched |
| `WebSocket.TruncatedFrame` | install/ignore/sdk/go/websocket.go:226-268 | a frame cut anywhere is an error, never misread |
| `WebSocket.OversizedFrame` | install/ignore/sdk/go/websocket.go:226-250 | refused before its payload is read if and only if the header announces more than a mebibyte |
| `WebSocket.OtherFrames` | install/ignore/sdk/go/websocket.go:178-222 | a close is answered and ends the reading, a continuation of nothing is skipped, reserved opcodes and failed reads end it |
| `WebSocket.StreamRoundTrip` | install/ignore/sdk/go/websocket.go:137-268 | any sequence of written frames reads back in order |
| `WebSocket.MessageReads` | install/ignore/sdk/go/websocket.go:178-222 | any fragmentation with any interleaved control frames comes to the concatenation, from any point of the loop |
| `WebSocket.Reassembly` | install/ignore/sdk/go/websocket.go:178-222 | after any whole binary messages, the text is the exact concatenation, pings are answered in order, and later bytes stay unread, if and only if every message fits the cap |
| `WsConnection.PutBigEndian` | install/ignore/sdk/go/websocket.go:146-157 | fills exactly its slice of the header |
| `WsConnection.MaskInto` | install/ignore/sdk/go/websocket.go:164-167 | the masking loop computes the mask |
| `WsConnection.WsConn.FillHeader` | install/ignore/sdk/go/websocket.go:143-163 | the filled prefix is opcode, length form and key |
| `WsConnection.WsConn.WriteFrame` | install/ignore/sdk/go/websocket.go:137-172 | appends exactly one encoded frame, or nothing when the payload is too large |
| `WsConnection.WsConn.ReadFrame` | install/ignore/sdk/go/websocket.go:226-268 | reads what `Decode` says and consumes exactly that frame |
| `WsConnection.WsConn.NextText` | install/ignore/sdk/go/websocket.go:178-222 | the loop returns and writes what `ReadText` says |
| `Ulid.RoundTrip` | install/lib/im/app/utils/ulid.go:26-35 | every value that fits decodes back to itself |
| `Ulid.FirstCharacter` | install/lib/im/app/utils/ulid.go:26-35 | a 128-bit value starts with '0' .. '7' |
| `Ulid.OrderIsNumeric` | install/lib/im/app/utils/ulid.go:26-35 | string order equals numeric order |
| `Ulid.ClockValue` | install/lib/im/app/utils/ulid.go:15-21 | the six clock bytes are the clock modulo 2^48 |
| `Ulid.IdentifierIsCanonical` | install/lib/im/app/utils/ulid.go:13-36 | 26 Crockford characters, first at most '7', decoding to clock and entropy |
| `Ulid.SortsByClock` | install/lib/im/app/utils/ulid.go:13-36 | identifiers of different 48-bit clock readings sort by them, if and only if |
| `Ulid.EarlierSortsFirst` | install/lib/im/app/utils/ulid.go:13-36 | below 2^48 ms an earlier millisecond sorts strictly first |
| `Ulid.WrapSortsBackwards` | install/lib/im/app/utils/ulid.go:15-21 | at the wrap the later identifier sorts first |
| `Ulid.Digits` | install/lib/im/app/utils/ulid.go:26-35 | the backward digit loop computes the encoding |
| `Ulid.NewULID` | install/lib/im/app/utils/ulid.go:13-36 | the identifier of a clock reading and ten entropy bytes |
| `ChunkScan.FindsFirst` | install/ignore/sdk/php/src/Http.php:243-246 | the line-break search finds the first one, and fails exactly when there is none |
| `ChunkScan.HeadAt` | install/ignore/sdk/php/src/Http.php:243-255 | the next scan position is strictly further and inside the input |
| `ChunkScan.DecodeChunked` | install/ignore/sdk/php/src/Http.php:238-257 | the decoding loop computes what the scan says |
| `ChunkScan.RoundTrip` | install/ignore/sdk/php/src/Http.php:238-257 | every valid encoding decodes to the concatenation of its chunks, whatever trailers follow (section 7.1 of RFC 9112) |
| `ChunkScan.TruncationRejected` | install/ignore/sdk/php/src/Http.php:243-255 | cut anywhere before its terminal size line completes, a body is rejected rather than shortened |
| `ChunkSize.LineSize` | install/ignore/sdk/php/src/Http.php:247-247 | blanks and extensions after the digits never change a chunk's size |
| `ChunkSize.BothCases` | install/ignore/sdk/php/src/Http.php:247-247 | the sixteen hex digits count in either case, and no other character does |
| `ChunkSize.GrammarRoundTrip` | install/ignore/sdk/php/src/Http.php:238-257 | for every encoding of the grammar (hex digits in either case, leading zeros, blanks, extensions, a terminal line of zeros with blanks and an extension, any trailers): it decodes to the concatenation of its data, and cut before its terminal size line completes it is rejected |
| `ChunkSize.EncodedPiece` | install/ignore/sdk/php/src/Http.php:247-247 | any data under its own hex length, with any blanks and extension, is a chunk of the grammar |
| `ChunkSize.PlainRoundTrip` | install/ignore/sdk/php/src/Http.php:238-257 | for every list of non-empty pieces the plain encoding decodes to their concatenation and no proper prefix decodes |

## Left out

- HTTP, TLS, sockets, timeouts, routing and JSON: requests are values and faults are choices of the environment.
- SQL dialects, drivers and isolation levels: a transaction is one atomic step, and the declared unique indexes are the keys of the maps.
- Validation of single request fields (lengths, trimming, UTF-8, content type) is one boolean, `wellFormed`; duplicate and blank member uuids are already removed, as `uniqueUUIDs` does.
- The request hash is a value carried by the request: collisions of SHA-256 are whatever the environment chooses, and the HMAC of a credential is the secret that made it.
- Titles, avatars, content types, read state, `updated_at` and every timestamp except the outbox row's `created_at`.
- User ids and uuids are one number in `Store`; the users table is modelled only in `Auth`.
- No code in the repository makes anyone an admin; the model has an operator's step that does, so that the admin rules are exercised.
- Failures of a lookup inside `createMessage`, `AddMembers`, `RemoveMember` and `MarkMessageIllegal` (they answer 10000 and change nothing).
- DeliveryWorker.Worker.Poll: the wait between polls is not modelled; a poll may start at any time.
- SyncRuns.CursorSafety: covers default fetches; an explicit `FromSequence` may start past unseen messages by the caller's own choice and is modelled only in `Sync.Engine.RunFetch`.
- Sync.EachMessage: takes the answers as a finite list, so a log that grows faster than it is read is reported as unfinished.
- The gateway's closing of a slow consumer marks the connection; its removal from the index is the read loop's own later step. `kick` likewise only leads to such removals.
- GatewayClient.GatewaySocket.RunLoop: does not model a disconnect while the provider is being asked, whose answer the source may still store, nor overlapping `Connect` generations.
- Order of pushed events and exactly one member_removed event per removal: the code does not provide them; what holds instead is stated above.
- ChunkSize.LineSize: sizes of 2^63 and more, which PHP turns into floats, are unbounded numbers here.
- The TypeScript, Swift and Ruby SDKs and the rest of the PHP SDK: twins of the Go logic or thin wrappers. Metrics, uploads, the admin console, dashboards and the terminal client: plumbing or user interface.
