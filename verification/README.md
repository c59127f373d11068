# Verification of claw-mesh

claw-mesh is a coordinator, a number of node agents, and on each node a client that talks to a local
gateway over one websocket. This project models the parts of it whose correctness no test run can
settle, and proves what they promise over every input, every interleaving or every run. `dafny verify
dfyconfig.toml` (Dafny 4.11) checks all of it.

## What is modelled

**The gateway client** (`RpcModel`, `RpcReplies`, `RpcRuns`, `RpcFrames`, `RpcNumbers`, `RpcClient`). Many calls of `SendMessage`
share one socket, one reader, a table of capacity-1 reply channels and a table of agent runs.
`RpcModel` is a step system: a step is one region under the client's lock, one channel operation, one
socket write or one arrival. `RpcReplies` proves that the reply of each waiting call is in exactly one
place, so that the reader never blocks, also while it holds the lock; that replies are never mixed up;
and that no table entry outlives its call. `RpcRuns` says exactly what `SendMessage` answers.
`RpcFrames` proves that no frame is lost or made up, what each kind of frame does, which outcome follows
from which reply, and that every call can return whatever the others do.
`RpcClient` is the client in the program's own form, with maps, channels and run objects that are
changed in place; each locked region and channel operation is shown to be one step of the system, so
the object is always in a reachable state of it. `RpcNumbers` takes the request counter apart into its
loads and stores.

**Membership** (`Registry`, `Health`, `Agent`, `Server`, `Mesh`, `MeshContact`). The registry keeps node records that
it changes in place and hands out as deep copies; the health checker sweeps stale nodes and counts
failed probes; the agent sends heartbeats and registers again after five failures. `Mesh` puts them
together with a clock, crashes, restarts, lost requests and lost replies; `MeshContact` proves that the
registry holds of every node exactly what the run so far says, from both sides: a silent node goes offline
and a node in touch stays online.

**Routing and durable rules** (`Routing`, `RuleList`, `Router`, `RuleStore`, `RuleSystem`). `Routing`
says declaratively which rule decides a message and which node it picks. `Router` is the program's
router, with its slice over a backing array that is shifted and extended in place, and is proved to
return what `Routing` allows. `RuleStore` has the file effects of a save; `RuleSystem` runs API calls,
saves, crashes and restarts against each other, and `RuleCalls` drives the router and the store by
overlapping calls and shows that they stay in a reachable state of `RuleSystem`.

**Two algorithms**: the match text of the command line (`MatchText`) and the private-address test of
the endpoint check (`PrivateRange`).

## Where the code does not do what it says

- `SendMessage` says it registers its run before sending so that no event is missed
  (internal/node/gateway_ws_client.go:306), but registers after the reply (332-334). What is handled in
  between is missed. After an end event the call can only time out or see a disconnect
  (`RpcRuns.EarlyEndIsMissed`); after a disconnect it can only time out, whatever else happens
  (`RpcRuns.EarlyDisconnectIsMissed`, `RpcRuns.LateWaitersAreStuck`). `RpcRuns.WaitEndsExactly` has the
  exact condition.
- docs/openclaw-gateway-integration.md:328 gives the key "msg-" and the message id as the guard against
  handling a message twice (internal/node/gateway_ws_client.go:304), and the coordinator sends a message
  up to four times (internal/coordinator/forwarder.go:38). If two calls in progress are given the same
  run id, the later one takes over the table entry, or the one that returns first removes it. The caller
  without its entry sees nothing from then on, and unless its run has ended or the end is on its way it
  can only time out: `RpcRuns.SharedRunIdLosesTheEnd`, and `RpcRuns.StuckExactly` for exactly which
  callers. Nothing else makes a caller lose its entry (`RpcRuns.OnlySharingLoses`).
- The client connects when it has no connection (internal/node/gateway_ws_client.go:295), but keeps the
  broken one after a disconnect. No call that comes later is ever answered:
  `RpcReplies.NobodyIsAnsweredAfterwards`.
- The request counter is changed outside the lock (internal/node/gateway_ws_client.go:237 and :256), so
  two calls can send the same request id: `RpcNumbers.TwoCallsOneNumber`. Numbers differ as long as no two
  increments overlap (`RpcNumbers.DistinctUnlessOverlapped`), and any two that overlap can end in one
  number (`RpcNumbers.OverlapCanShareANumber`).
- A call looks at the error text of its reply and not at its ok flag, so an error with an empty message
  passes for a success: `RpcReplies.CountsAsSuccess`, `RpcReplies.EmptyErrorPassesForSuccess`.
- Saves run outside the router lock. Two overlapping additions can both be acknowledged and one of
  them be missing after a restart: `RuleSystem.OverlappingSavesLoseARule`. When this can happen, and
  when it cannot, is `RuleSystem.DurableExactlyWithoutStaleSaves`: with no further edits, every schedule
  that acknowledges all calls in flight makes the list in memory durable if and only if no stale list
  can be saved last. The lists that can be last are those of the waiting calls; the one being saved, if
  no call waits; the one on disk, if nothing is being saved. So one stale save that is left is enough
  to lose an acknowledged rule. What holds in every run is `RuleSystem.DiskHoldsAHeldList`.
- A start that cannot read the rule file goes on with an empty list (internal/coordinator/router.go:26-34),
  and the next addition that is saved replaces the file with its own rule alone. The rules on disk survive
  exactly when the file was read or held none: `RuleSystem.StartKeepsRulesExactlyWhenReadable`.
- A registration adds its node and files its token in two steps (internal/coordinator/server.go:191-195).
  If the node is removed in between, its token is filed all the same and works until the coordinator
  goes down: `Mesh.OrphanTokens`, `Mesh.RemovedNodeCanKeepItsToken`. `Mesh.TokenWorksExactly` says
  exactly when the token issued with an id works.
- A failed attempt to register again leaves the agent on the admin token, and a later successful
  heartbeat does not restore the node's own. The node is then online and refuses every message routed
  to it: `Mesh.ForwardingFailsExactlyOnAdminToken`, `Mesh.OnlineNodeCanRefuseMessages`.
- A rule must name a criterion or be a wildcard (internal/coordinator/api.go:170-172), so that no rule
  catches every message by accident. A rule whose only criterion is "gpu: false" passes that check and
  matches every node, and it is the only such rule: `RuleList.CatchAllExactly`.
- A match value with a comma, or one that ends in white space, does not survive printing and parsing;
  everything else does: `MatchText.PrintThenParse`, `MatchText.CommaDoesNotSurvive`.
- The byte-by-byte range test is not a numeric range test for arbitrary ranges
  (`PrivateRange.ByteTestIsNotNumericInGeneral`); `PrivateRange.TestsAgreeExactlyOnAlignedBlocks` says
  for exactly which ones it is, and the three private blocks are among them.
- docs/design-zh.md:41 and :78 give a heartbeat of 10 seconds, :79 two failed probes and :87 three
  failures before registering again. The code uses 15 seconds, three and five
  (internal/node/agent.go:17, internal/coordinator/health.go:41, internal/node/agent.go:176), and so
  does the model.

## Assumptions

- One `Connect`, and so one reader, per gateway client. In `RpcModel` taking the next request number is
  one step, which assumes that no two increments overlap; `RpcNumbers` has what happens when they do.
- A write to the websocket is one step too. `call` and `sendConnect` write outside any lock
  (internal/node/gateway_ws_client.go:252 and :271), and the websocket library allows one writer at a
  time, so this assumes that no two writes overlap.
- Ids and tokens come from a generator of fresh values. The generator's outcome is a parameter, with
  its failures.
- A request is handled before its sender stops waiting for the answer; requests and replies may be
  lost.
- Rename is atomic and a synced file is complete. The directory is never synced by the program, so the
  results are about a crash of the process.
- Rules are never changed once they are in the list, so they are values here. Clocks, random draws,
  which file effects succeed, and what the Go library makes of an endpoint (host and port, parsed and
  resolved addresses, which of them are loopback or link-local) are parameters.

## Model

| member | source | states |
|---|---|---|
| RpcReplies.ReaderNeverBlocks | internal/node/gateway_ws_client.go:93-115 | in every reachable interleaving the channel the reader is about to send on has room, also for each channel it fails while it holds the lock |
| RpcRuns.ReaderNeedsNobody | internal/node/gateway_ws_client.go:93-253 | from every reachable state the reader gets back to the socket, or to its end, by its own steps alone, in a disconnect with one step for each id still to fail and one more, so the lock it holds is released |
| RpcReplies.AtMostOneSend | internal/node/gateway_ws_client.go:157-173 | every reply channel gets at most one send over its life |
| RpcReplies.ExactlyOnePlace | internal/node/gateway_ws_client.go:265-289 | the reply of a call that has registered and not returned is still to come, or in the reader's hand, or in the channel, and in exactly one of these |
| RpcReplies.IdsNeverRepeat | internal/node/gateway_ws_client.go:237-257 | no two requests of a client, calls or connects, ever carry the same id |
| RpcReplies.NoCrossTalk | internal/node/gateway_ws_client.go:255-290 | what a call receives is what the first frame with its own id handled after it registered says, or the disconnect error, the latter only if the call was pending when the connection broke |
| RpcReplies.CountsAsSuccess | internal/node/gateway_ws_client.go:279-283 | a reply passes for a success if and only if its frame is ok or its error message is empty |
| RpcReplies.SuccessIsOwnOkFrame | internal/node/gateway_ws_client.go:255-290 | with non-empty error messages, a call that succeeds returns the payload of the first frame with its own id handled after it registered, and that frame is ok |
| RpcReplies.EmptyErrorPassesForSuccess | internal/node/gateway_ws_client.go:279-283 | a reachable state in which an error frame with an empty message was taken for a success |
| RpcReplies.DisconnectReachesEveryone | internal/node/gateway_ws_client.go:96-112 | once a disconnect is handled, everyone who was pending has its error, in the channel or as the result of the call |
| RpcReplies.NoEntryOutlivesItsCall | internal/node/gateway_ws_client.go:271-288 | when a call has returned, whoever can take the lock does not find its id in the table |
| RpcReplies.NobodyIsAnsweredAfterwards | internal/node/gateway_ws_client.go:93-113 | once a disconnect has been handled, a call that has no reply, and every call that comes later, never gets one in any run: if it is over it gave up |
| RpcReplies.EveryRunKeepsReplyInv | internal/node/gateway_ws_client.go:93-290 | every sequence of steps keeps the whole invariant: ids, tables, at most one send, one place, right content, disconnects |
| RpcFrames.NoFrameIsLost | internal/node/gateway_ws_client.go:117-176 | in every interleaving the responses and run events handled are exactly those that arrived, in order, up to the one in the reader's hand; every challenge is answered by one connect; the client is ready if and only if a hello has arrived |
| RpcFrames.ChallengeIsAnswered | internal/node/gateway_ws_client.go:132-137 | from every reachable state with the reader at the socket, a challenge makes it take the next number and file a new empty channel under that connect id, and change nothing else |
| RpcFrames.ResponseIsDelivered | internal/node/gateway_ws_client.go:141-175 | a response goes to the call that waits for its id, with the payload if it is ok and else with its message or "request failed", and to nobody else; an id nobody waits for changes no table and no channel |
| RpcFrames.EventIsApplied | internal/node/gateway_ws_client.go:178-215 | an event reaches the run registered under its id and no other: text that is not empty replaces the text, an end closes the run; an event without a run id changes nothing |
| RpcFrames.OutcomeFollowsFromFrame | internal/node/gateway_ws_client.go:278-329 | which outcome a call has follows from the first frame with its id or from the disconnect, for ok frames with and without a run id and refusals with, without and with an empty message |
| RpcFrames.OutcomeNamesWhatHappened | internal/node/gateway_ws_client.go:271-343 | in every run a call ends with a write error if and only if its write failed, and with a context error if and only if its time ran out |
| RpcFrames.EveryCallCanReturn | internal/node/gateway_ws_client.go:255-361 | from every reachable state every call can return by its own steps and the reader's alone, with at most four of its own |
| RpcNumbers.DistinctUnlessOverlapped | internal/node/gateway_ws_client.go:256-257 | in every run of loads, stores and reads of the counter in which no two increments overlap, all request numbers differ |
| RpcNumbers.OverlapCanShareANumber | internal/node/gateway_ws_client.go:256-257 | from every state in which one call is within its increment and another starts, both can end up with the same number |
| RpcNumbers.UndisturbedTakesNext | internal/node/gateway_ws_client.go:237-238 | an undisturbed call takes the next number, as the one step of the larger model does |
| RpcNumbers.TwoCallsOneNumber | internal/node/gateway_ws_client.go:256-257 | a run in which two calls send the same number |
| RpcRuns.CollectedResult | internal/node/gateway_ws_client.go:344-361 | whatever run ids the gateway issues: a result is the disconnect error if and only if a disconnect had been handled while the caller's run was registered, that is, not after another caller with the same run id took its entry; otherwise the run's end was handled in that time and the answer is the latest text handled in it or "(no response)" |
| RpcRuns.WaitEndsExactly | internal/node/gateway_ws_client.go:336-343 | whatever run ids the gateway issues: a caller waiting for its run goes on, other than by its timeout, if and only if a disconnect or the run's end was handled while its run was registered |
| RpcRuns.LateWaitersAreStuck | internal/node/gateway_ws_client.go:331-343 | once the connection is gone, a waiting caller that cannot go on now never can, whatever steps follow, without its own timeout; a caller that registered after the disconnect is one of these |
| RpcRuns.EarlyDisconnectIsMissed | internal/node/gateway_ws_client.go:331-343 | for every run id a reachable state in which a disconnect was handled between the reply and the registration, and the caller waits |
| RpcRuns.LastTextIsLatest | internal/node/gateway_ws_client.go:199-206 | the text of a run is that of the latest event that sets one, and empty exactly when there is none |
| RpcRuns.NoRunOutlivesItsCaller | internal/node/gateway_ws_client.go:331-350 | every entry of the run table belongs to a caller that is between registering and removing it, and is filed under that caller's run id |
| RpcRuns.DoneClosedAtMostOnce | internal/node/gateway_ws_client.go:102-109 | the done channel of a run is closed at most once, and exactly once if it counts as closed |
| RpcRuns.EveryRunKeepsRuns | internal/node/gateway_ws_client.go:178-361 | every sequence of steps keeps the run table, the event in the reader's hand and what each run object holds in agreement with the events handled |
| RpcRuns.EarlyEndIsMissed | internal/node/gateway_ws_client.go:306-334 | for every run id a reachable state in which the run's end was handled, the caller waits for it and the reader has nothing left to do |
| RpcRuns.SharedRunIdLosesTheEnd | internal/node/gateway_ws_client.go:304-350 | for every run id given to two callers a reachable state in which the run's end was handled, and the first caller has lost its entry and waits for ever unless it times out |
| RpcRuns.OnlySharingLoses | internal/node/gateway_ws_client.go:331-350 | a caller loses its entry only to another caller with the same run id |
| RpcRuns.StuckExactly | internal/node/gateway_ws_client.go:331-350 | in every reachable state a waiting caller is beyond help, under every sequence of steps without its own timeout, if and only if its run is not done, its end is not in the reader's hand, and the connection is gone or its entry lost |
| RpcClient.WSGatewayClient.NoEntryIsLeft | internal/node/gateway_ws_client.go:39-51 | in the program's own tables, when nobody holds the lock, no call that has returned and no run that is over has an entry |
| RpcClient.WSGatewayClient.SameRegistered | internal/node/gateway_ws_client.go:102-109 | the run objects in the table are those of the callers in the model's table, and no others |
| RpcClient.CloseRuns | internal/node/gateway_ws_client.go:102-109 | every registered run gets the error and is closed, and keeps its text |
| RpcClient.WSGatewayClient.Register | internal/node/gateway_ws_client.go:255-268 | filing a new channel under the call's id is the registration step of the system; the channel is new |
| RpcClient.WSGatewayClient.Unregister | internal/node/gateway_ws_client.go:271-288 | a call that could not write, or whose context ended, removes its own entry and nothing else |
| RpcClient.WSGatewayClient.Note | internal/node/gateway_ws_client.go:249-343 | the steps that change no field of the client, its writes and the choices of its `select`s, are taken by the model alone; the object stays in a reachable state |
| RpcClient.WSGatewayClient.Arrive | internal/node/gateway_ws_client.go:117-146 | a frame goes to the handler of its kind, and `ready` is closed by the first hello; unknown frames and events without a run id change nothing |
| RpcClient.WSGatewayClient.Receive | internal/node/gateway_ws_client.go:278-329 | receiving empties the channel and goes on to a run exactly when the reply has no error and names a run |
| RpcClient.WSGatewayClient.LookupResponse | internal/node/gateway_ws_client.go:157-162 | the reader takes the channel of the frame's id out of the table, together with what the frame says |
| RpcClient.WSGatewayClient.SendReply | internal/node/gateway_ws_client.go:164-173 | the send outside the lock has room in every reachable state, and is the delivery step of the system |
| RpcClient.WSGatewayClient.RegisterRun | internal/node/gateway_ws_client.go:331-334 | filing the run object under the run id is the registration step of the system |
| RpcClient.WSGatewayClient.LookupRun | internal/node/gateway_ws_client.go:191-196 | the reader finds the run object that is registered for the event's run, or none |
| RpcClient.WSGatewayClient.ApplyEvent | internal/node/gateway_ws_client.go:198-214 | applying an event changes that run object only, as the application step of the system does, even if its entry is gone by then |
| RpcClient.WSGatewayClient.Collect | internal/node/gateway_ws_client.go:345-361 | the result read from the run object is the outcome of the collecting step, and the entry is removed |
| RpcClient.WSGatewayClient.FailOne | internal/node/gateway_ws_client.go:98-100 | the send to a pending channel under the lock has room in every reachable state, is one step of the system, and writes no other channel |
| RpcClient.WSGatewayClient.FinishDisconnect | internal/node/gateway_ws_client.go:101-109 | emptying the table and closing every registered run is the last step of a disconnect; no channel changes |
| RpcClient.WSGatewayClient.Disconnect | internal/node/gateway_ws_client.go:96-113 | run without interruption, a disconnect leaves the table empty, the error in every pending channel, and every registered run closed with the error |
| Routing.DecisionIsUnique | internal/coordinator/router.go:104-152 | rules and snapshot determine the deciding rule and the outcome: the first rule that is a wildcard, or untargeted with a candidate, or targeted with a candidate of that name or id; the first minimum of status priority, or the first named candidate |
| Routing.DecisionExists | internal/coordinator/router.go:104-152 | every list of rules and every snapshot have a decision, and it chooses a node unless all are offline |
| Routing.OrderIndependence | internal/coordinator/router.go:121-152 | on the same records in any two orders the same rule decides, untargeted choices have the same status, and targeted choices are eligible nodes of the target's name or id |
| Router.AnyListingDecidesAlike | internal/coordinator/registry.go:110-118 | the same for any two listings of one registry |
| Routing.FailsExactlyWhenAllOffline | internal/coordinator/router.go:121-125 | an untargeted message, which fails when nothing is picked, fails if and only if every node is offline, whatever the rules; a chosen node is in the snapshot and not offline |
| Routing.LeastBusyIsFirst | internal/coordinator/router.go:224-236 | the left-to-right minimum over the filtered list is the first eligible node of the snapshot with the lowest status priority |
| Routing.LeastBusyIsBestStatus | internal/coordinator/router.go:222-248 | a node is the least busy one if and only if it is the first eligible node that is online, or, with none online, the first that is busy, or, with none of either, the first eligible one |
| Routing.OnlineBeforeBusy | internal/coordinator/router.go:222-248 | a decision without a target goes to an online node whenever some eligible node is online, and otherwise to a busy one whenever some eligible node is busy; it is the first of that status |
| Routing.ChosenFitsItsRule | internal/coordinator/router.go:127-211 | the node a rule chooses is not offline, has the gpu, system and skill or tag the rule asks for, and the name or id it names |
| Routing.PassedRuleHasNobody | internal/coordinator/router.go:127-211 | a rule that is passed over is no wildcard, and no node that is not offline and meets its criteria is one it could choose |
| Routing.NamedCandidateIsFirst | internal/coordinator/router.go:137-142 | the first named candidate is the first eligible node of the snapshot with the target's name or id |
| Routing.AppendKeepsDecision | internal/coordinator/router.go:39-54 | appending a rule changes no decision an existing rule makes |
| Routing.AppendIdleRule | internal/coordinator/router.go:39-54 | appending a rule that does not decide changes no decision at all |
| Routing.RemovalKeepsDecision | internal/coordinator/router.go:58-79 | removing any rule but the deciding one keeps the outcome |
| Routing.NothingAfterWildcard | internal/coordinator/router.go:128-131 | everything behind a wildcard rule is irrelevant |
| Router.Router.Route | internal/coordinator/router.go:104-152 | a routed node is a fresh copy that a listing of the registry and the rules in memory allow; nothing handed out before changes |
| Router.Decide | internal/coordinator/router.go:121-152 | the loops over the snapshot return a decision in the sense of the declarative definition |
| Router.FilterOnline | internal/coordinator/router.go:155-163 | the result is the non-offline nodes, in order |
| Router.MatchNodes | internal/coordinator/router.go:174-182 | the result is the nodes that meet the rule's criteria, in order |
| Router.LeastBusy | internal/coordinator/router.go:224-236 | the result is the first minimum of the availability order, which `Routing.LeastBusyIsBestStatus` spells out; none for an empty list |
| Router.Router.RemoveRule | internal/coordinator/router.go:58-79 | exactly the first rule of that id is removed and the order kept, by shifting the array in place; no list handed out before changes; without an error the file holds the new list, with one the old |
| Router.Router.AddRule | internal/coordinator/router.go:39-54 | the rule is appended, in place or in a bigger array; no list handed out before changes; it stays in memory when saving fails |
| Router.Router.AddUnderLock | internal/coordinator/router.go:45-49 | the locked region of an addition: the list and the copy to be saved are both the old list and the rule |
| Router.Router.RemoveUnderLock | internal/coordinator/router.go:59-74 | the locked region of a removal: the list and the copy to be saved are both the old list without the first rule of the id; no copy if there is none |
| Router.Router.Delete | internal/coordinator/router.go:61-67 | shifting the tail down in the same array removes exactly one rule |
| Router.Router.ListRules | internal/coordinator/router.go:90-99 | the copy holds the list and is new memory |
| Router.Router.constructor | internal/coordinator/router.go:22-36 | the list starts as what the store loads, and empty if that fails |
| RuleList.WildcardBranchDiscardsNothing | internal/coordinator/api.go:165-190 | on rules the API accepts, dropping every wildcard flag decides every message alike, so the wildcard branch never discards a target or a criterion |
| RuleList.RefusedWildcardDiscardsTarget | internal/coordinator/api.go:180-183 | on a wildcard with a target, which the API refuses, it would discard the target |
| RuleList.ValidateAcceptsExactly | internal/coordinator/api.go:165-190 | the check accepts a rule if and only if its strategy exists and it is a wildcard on its own, without criteria and target, or no wildcard and names a criterion |
| RuleList.CatchAllExactly | internal/coordinator/router.go:185-211 | an accepted rule matches every node if and only if it is a wildcard or asks for nothing but "gpu: false" |
| RuleList.RemoveUndoesAdd | internal/coordinator/router.go:58-67 | removing a rule just added under a fresh id gives the list back |
| RuleList.RemoveKeepsValid | internal/coordinator/router.go:58-67 | removing a rule keeps a list of accepted rules one |
| RuleStore.SaveStepKeeps | internal/coordinator/store.go:68-90 | each file effect of a save leaves the rule file alone except the final rename, which installs the complete new list; other temporary files are never touched |
| RuleStore.CrashDuringSave | internal/coordinator/store.go:58-91 | from any crash point of a save a reload yields exactly what it would have yielded before, or the complete new list, the latter only after the rename |
| RuleStore.Store.SaveRules | internal/coordinator/store.go:58-91 | the error is that of the first effect that fails; every effect is recorded and forms a save run; without an error the file holds the complete list and no temporary file is left, with one every other file is unchanged, and the temporary file stays only if removing it fails |
| RuleStore.Store.LoadRules | internal/coordinator/store.go:38-55 | a missing file is an empty list, an unreadable or torn one an error, any other file its list |
| RuleSystem.DiskHoldsAHeldList | internal/coordinator/router.go:39-87 | in every run the rule file is missing or a complete list that the memory once held |
| RuleSystem.RestartRecoversVersionOnDisk | internal/coordinator/router.go:22-36 | a crash at any point followed by a restart puts the version on disk back into memory |
| RuleSystem.OnlyARenameChangesTheDisk | internal/coordinator/store.go:86-89 | the only step that changes what a restart would load is the rename of the save holding the store lock, and it installs that save's list |
| RuleSystem.DurableExactlyWithoutStaleSaves | internal/coordinator/router.go:39-87 | from every reachable state, with no further edits: every schedule that acknowledges all calls in flight makes the list in memory durable if and only if every list that can be saved last is the one in memory |
| RuleSystem.DurableExactlyWhenAllListsAreFresh | internal/coordinator/router.go:39-87 | while calls are in flight and nobody holds the store lock, the same holds if and only if every list in flight is the one in memory |
| RuleSystem.StaleHolderIsHarmless | internal/coordinator/router.go:39-87 | a stale list that is already being saved does no harm if a call with the list in memory waits behind it |
| RuleSystem.AnyWaitingListCanBeLast | internal/coordinator/router.go:45-53 | whichever call waits, some schedule acknowledges every call in flight and leaves that call's list on disk |
| RuleSystem.OneAcknowledgedSaveSuffices | internal/coordinator/router.go:45-53 | if every list in flight is the one in memory, one acknowledged save makes it durable, whatever the others meet |
| RuleSystem.SerialCallsAreDurable | internal/coordinator/router.go:45-53 | over runs with edits: if the calls since the start did not overlap and returned no error, a crash and restart gives the list in memory back |
| RuleSystem.RecordedSaveIsASchedule | internal/coordinator/store.go:58-91 | what the store records of the disk during a save is a schedule of the system: the store lock, then one file effect for each recorded state |
| RuleSystem.RecordedCrashRecovers | internal/coordinator/store.go:58-91 | so a crash at any recorded point, in any run, leaves a list that the memory once held |
| RuleSystem.RulesStayValid | internal/coordinator/api.go:121-190 | every rule in memory, on its way to disk or on disk, in any run, was accepted by the API check |
| RuleSystem.NoRuleWithoutCriterion | internal/coordinator/api.go:165-190 | in every run, every rule in memory, in flight or on disk is a wildcard with no criterion and no target, or names a criterion; one that matches every node is a wildcard or demands gpu to be false |
| RuleSystem.AnsweredOnlyByItsSave | internal/coordinator/router.go:39-87 | a call succeeds only by the rename that puts its own list on disk, fails only by a save that left the file alone, and gets no answer if a crash cuts it off |
| RuleSystem.CrashCanTearUnsynced | internal/coordinator/store.go:73-86 | from every reachable state a crash can leave a file that is not synced torn, so the sync before the rename is needed |
| RuleSystem.OverlappingSavesLoseARule | internal/coordinator/router.go:45-53 | a reachable state with two additions and a schedule after which both are acknowledged and one is not on disk |
| RuleSystem.StartKeepsRulesExactlyWhenReadable | internal/coordinator/router.go:26-34 | from every reachable down state, over every schedule of the save: after a start and one acknowledged addition the file holds the rules it had and the new one if and only if the start could read it or it held none; otherwise it holds the new rule alone |
| RuleCalls.RuleCalls.constructor | internal/coordinator/router.go:22-36 | starting the router on the disk of an earlier run is the restart step of the rule system |
| RuleCalls.RuleCalls.BeginAdd | internal/coordinator/router.go:39-53 | the locked half of an addition is its step of the rule system, with other calls in flight; its copy is the list to be saved |
| RuleCalls.RuleCalls.BeginRemove | internal/coordinator/router.go:58-74 | the locked half of a removal likewise; it has nothing to save exactly when there is no such rule |
| RuleCalls.RuleCalls.Save | internal/coordinator/store.go:58-91 | the save of any call in flight, in any order, is a schedule of save steps that acknowledges exactly this call, and only if it succeeds |
| RuleSystem.EveryRunKeepsInv | internal/coordinator/router.go:39-87 | every sequence of calls, saves, crashes and restarts keeps the agreement of memory, disk and running saves |
| Registry.ListingsAgree | internal/coordinator/registry.go:110-118 | two listings of the same registry hold the same records, equally many |
| Registry.Registry.Get | internal/coordinator/registry.go:99-107 | the result is a new record with new lists that says what the registry's record says; none if the id is unknown |
| Registry.Registry.List | internal/coordinator/registry.go:110-118 | new copies of every record, each once, in some order; nothing handed out before changes |
| Registry.CopyNode | internal/coordinator/registry.go:77-88 | the copy and its lists are new memory with the same contents |
| Registry.Registry.Add | internal/coordinator/registry.go:28-36 | a taken id is refused; otherwise exactly that record is added |
| Registry.Registry.Remove | internal/coordinator/registry.go:39-48 | exactly that record and its token are removed; copies handed out before do not change |
| Registry.Registry.ValidateNodeToken | internal/coordinator/registry.go:58-67 | true if and only if some node has the token |
| Registry.Registry.RecordHeartbeat | internal/coordinator/registry.go:134-144 | status and time of exactly that record are written in place, and no other field; copies handed out before do not change |
| Registry.Registry.UpdateStatus | internal/coordinator/registry.go:121-130 | the status of exactly that record is written in place |
| Registry.Registry.MarkOfflineIfStale | internal/coordinator/registry.go:147-160 | exactly the non-offline records silent for longer than the timeout go offline; copies handed out before do not change |
| Registry.MarkAll | internal/coordinator/registry.go:151-159 | the sweep has the same outcome in every iteration order |
| Health.CountIsFailuresSinceTrip | internal/coordinator/health.go:108-124 | for every sequence of probes, heartbeats, registrations, removals and sweeps the remembered count is the failures since the last success or trip, and is 1 or 2 when present |
| Health.TripsOnEveryThirdFailure | internal/coordinator/health.go:111-117 | a probe takes a node offline exactly on each third failure in a row and changes no other record |
| Health.CompletionOrderIsIrrelevant | internal/coordinator/health.go:82-106 | the state after a round does not depend on the order in which its probes complete |
| Health.OrderGivesRound | internal/coordinator/health.go:82-106 | probing one by one, in any order, gives the closed form of a round |
| Health.SilentNodeIsOfflineAfterThreeRounds | internal/coordinator/health.go:64-118 | a node that answers nothing is offline or gone after at most three rounds, whatever else happens |
| Health.HealthChecker.RecordProbeFailure | internal/coordinator/health.go:108-118 | one failure is counted, and the third trips the node and forgets the count |
| Health.HealthChecker.Answer | internal/coordinator/health.go:92-102 | one answer of a probe, at whatever moment it comes, is one probe event of the sequences the counting results are about |
| Health.HealthChecker.ProbeNodes | internal/coordinator/health.go:82-106 | a round over the non-offline nodes, without other events in between, ends in the closed form whatever order the answers come in |
| Health.HealthChecker.Tick | internal/coordinator/health.go:72-77 | a tick is the staleness sweep followed by a round |
| Agent.BackoffIsClosedForm | internal/node/agent.go:175-212 | after every completed iteration with f failures in a row the backoff is min(5 * 2^max(0, f - 4), 120) seconds |
| Agent.WaitsAreBounded | internal/node/agent.go:188-195 | no wait before an attempt is below 5 or above 120 seconds; the first is 5, and from the tenth failure on it is 120 |
| Agent.FailuresSinceInTouch | internal/node/agent.go:185-212 | in every run the count is the number of heartbeats that failed since one got through or the agent last registered again, and an attempt is made on the fifth such failure and every later one |
| Agent.RejoinsOnTime | internal/node/agent.go:185-208 | from any loop state, at a coordinator that does not know the node and accepts it, the agent holds a new id after at most five ticks |
| Agent.Agent.HeartbeatLoop | internal/node/agent.go:170-215 | over any sequence of ticks the loop ends early exactly when it is stopped in a backoff; its counter, backoff, id and token are those of the completed ticks, and each wait is the closed form of the failures before it |
| Agent.Agent.Register | internal/node/agent.go:126-129 | an accepted registration replaces the id, and the token unless the reply has none; any other outcome changes nothing |
| Agent.Agent.Reconnect | internal/node/agent.go:219-224 | an attempt starts from the admin token and keeps it if it fails |
| Mesh.NonOfflineIsFresh | internal/coordinator/registry.go:147-160 | in every run a non-offline node was last in touch at most the timeout plus one sweep gap ago |
| MeshContact.RegistryIsWhatWasSeen | internal/coordinator/registry.go:121-160 | in every run a node is registered, with the time of its last contact, exactly as the contacts, removals and crashes so far say; it is offline if and only if since then a probe tripped or a sweep came more than the timeout later |
| MeshContact.LiveWhileInTouch | internal/coordinator/registry.go:134-160 | a node whose heartbeat is taken, or which registers, is online for at least the timeout after its time stamp, whatever else happens, unless a probe trips, it is removed or the coordinator crashes |
| MeshContact.HeartbeatIsTakenExactlyWhenKnown | internal/coordinator/server.go:228-246 | in every reachable state a delivered heartbeat is taken if and only if the coordinator knows the id, whichever token the agent is on |
| MeshContact.OnlyAdminTokenRegisters | internal/node/agent.go:219-224 | at a coordinator with an admin token, every id was issued to an agent that has it |
| MeshContact.RecordsDescribeTheirAgents | internal/coordinator/server.go:182-189 | in every run a record has the profile, tags and skills of the agent its id was issued to |
| Mesh.RoutedNodeIsFresh | internal/coordinator/router.go:104-152 | the same for every node a routing decision returns, with or without a target in the message |
| Mesh.StepsAreTicks | internal/node/agent.go:185-224 | the steps of an agent in the protocol, taken together, are the ticks of its loop: same counter, backoff, id and token |
| Mesh.OnlyContactRevives | internal/coordinator/registry.go:121-160 | only a heartbeat or a registration makes a node non-offline |
| Mesh.RegisteredAfterFiveTicks | internal/node/agent.go:170-224 | from every state of an agent, also one with a reply in flight: after five heartbeat ticks at a coordinator that stays up, neither loses nor refuses the agent's registrations and keeps its nodes, the agent, whenever it is in its loop, holds an id that is registered there and was issued to it; heartbeats may be lost and other agents may leave |
| Mesh.RejoinsWithinFiveTicks | internal/node/agent.go:170-224 | in particular an agent whose id the coordinator does not know holds another one by then, which is new unless it was in a reply in flight |
| Mesh.RejoinsAfterRestart | internal/node/agent.go:170-224 | after a crash and a restart of the coordinator at any moment of any run, every agent that had an id holds a new, registered one after five of its ticks, whenever it is in its loop |
| Mesh.RestartForgetsEveryone | internal/coordinator/registry.go:20-25 | a restarted coordinator is up, with no node, no token and no registration under way, and the agents are as they were |
| Mesh.RetiredGoesOffline | internal/coordinator/server.go:170-202 | an id that was replaced, or whose reply was lost, is never used again and is offline or gone once the timeout and one sweep gap have passed since its last contact |
| Mesh.OnlyCurrentIdIsLive | internal/coordinator/server.go:170-202 | of all ids ever issued to an agent, exactly the one it holds and the one it waits for are not retired |
| Mesh.TokenAgreement | internal/node/agent.go:126-129 | an agent's token is the admin token or the one issued with its current id, and in the second case the registry holds the same one while that id is registered |
| Mesh.ForwardingFailsExactlyOnAdminToken | internal/node/handler.go:41-59 | while its id is registered a node refuses forwarded messages if and only if it is back on a non-empty admin token |
| Mesh.OnlineNodeCanRefuseMessages | internal/node/agent.go:219-224 | a reachable state in which a node is online and refuses every message routed to it |
| Mesh.RunKeepsInv | internal/coordinator/server.go:153-246 | every sequence of ticks, sweeps, probes, requests, losses, crashes and restarts keeps the agreement of registry, tokens, agents and clock |
| Mesh.TokenWorksExactly | internal/coordinator/server.go:116-136 | in every run, with an admin token set, the token issued with an id works if and only if it is filed and the node is registered, or was removed before its token was filed |
| Mesh.OrphanTokens | internal/coordinator/server.go:191-195 | in every run a token is filed for an unregistered id if and only if its node was removed while its registration was being handled, and that handler has finished |
| Mesh.RemovalRevokesFiledTokens | internal/coordinator/registry.go:39-48 | in every run removing a node leaves its token out of use, and the late case begins exactly when the registration is still being handled |
| Mesh.LateTokenStays | internal/coordinator/server.go:191-195 | a token filed after its node was removed works in every run from there without a crash |
| Mesh.RemovedNodeCanKeepItsToken | internal/coordinator/server.go:191-195 | a reachable state in which the token of a removed node works, and works on until a crash |
| Server.RemovalRevokes | internal/coordinator/registry.go:39-48 | removing a node whose token is filed stops the token from working, unless it is the admin token or another node has the same one, and only then |
| Server.SameCheckAsProtocol | internal/coordinator/server.go:116-136 | the test of a header is the protocol's test of a token, however tokens are written, if only the empty one is the empty text and different ones differ |
| Server.BareHeaderIsRefused | internal/coordinator/server.go:122-127 | with an admin token set, no header without the prefix passes, nor the prefix alone |
| Server.Server.RequireAuth | internal/coordinator/server.go:116-136 | a request passes if and only if there is no admin token or its header is the prefix and a non-empty token that is the admin's or some node's |
| Server.GenerateUniqueId | internal/coordinator/id.go:35-48 | the id is the first free draw before any failed one among three, and none if there is no such draw |
| Server.ValidateEndpoint | internal/coordinator/server.go:279-319 | an endpoint passes if and only if it splits into a host and a port, holds no slash, and, unless private endpoints are allowed, is no private address and resolves to none |
| Server.RefusedEndpoints | internal/coordinator/server.go:279-354 | an endpoint is refused if and only if it has no host, no port or a slash, or, unless private endpoints are allowed, is or resolves to an address that is special or in one of the three blocks, by octets |
| Server.Server.PrepareRegistration | internal/coordinator/server.go:153-180 | which registrations are refused as malformed or for their endpoint, which fail for lack of an id or token, and which id the others get |
| Server.Server.AddNode | internal/coordinator/server.go:182-194 | the first locked region of a registration: a taken id is a conflict and changes nothing, otherwise the node is there, online and with the fields of the request, without a token yet; this is the joining event of the health checker's sequences |
| Server.Server.FileToken | internal/coordinator/server.go:195-202 | the second one: the token is filed, whether or not the node is still there |
| Server.Server.HandleDeregister | internal/coordinator/server.go:204-212 | the node and its token are gone; an unknown id changes nothing |
| Server.Server.HandleHeartbeat | internal/coordinator/server.go:228-246 | exactly the known statuses are taken, for exactly the registered ids; then status and time of that record are written, as in the heartbeat event of the health checker's sequences |
| Server.Server.HandleAddRule | internal/coordinator/api.go:121-141 | exactly the rules that are no wildcard on their own and name no criterion, or have an unknown strategy, are refused; the list stays a list of accepted rules; a rule whose save failed stays in memory, and the status says exactly whether the file has the new list |
| Server.Server.HandleDeleteRule | internal/coordinator/api.go:143-156 | not found exactly when no rule has the id; otherwise the first such rule is gone from memory, and the status says exactly whether the file has the new list |
| MatchText.BuildRuleFromMatch | cmd/claw-mesh/main.go:810-828 | the loop computes the parse of the text and keeps the target |
| MatchText.DescribeMatch | cmd/claw-mesh/main.go:738-756 | the printed text of the criteria |
| MatchText.PrintedForm | cmd/claw-mesh/main.go:738-756 | a wildcard prints as a star, criteria that every node meets as a dash, and all others as the pieces for gpu, os and skill in this order with commas between them |
| MatchText.LastPieceWins | cmd/claw-mesh/main.go:812-826 | the last piece that names a key decides its value |
| MatchText.UnnamedKeysKeepDefaults | cmd/claw-mesh/main.go:812-826 | a key no piece names keeps its default |
| MatchText.SplitCutsAtCommas | cmd/claw-mesh/main.go:812 | splitting cuts exactly at the commas: joining gives the text back and no piece holds one |
| MatchText.SpaceCharacters | cmd/claw-mesh/main.go:813 | white space is the White_Space property of Unicode, by code points; the blank and the tab are, letters, digits and the separators of the text are not |
| MatchText.TrimSpaceCuts | cmd/claw-mesh/main.go:813 | trimming cuts white space at both ends and nothing else, and leaves none there |
| MatchText.PaddingIsIgnored | cmd/claw-mesh/main.go:810-828 | white space around any piece of any text leaves the parse as it is |
| MatchText.PieceSetsItsKey | cmd/claw-mesh/main.go:812-826 | a piece that names a key, with or without white space around it, sets that key to its value and changes no other |
| MatchText.ParseIsClean | cmd/claw-mesh/main.go:810-828 | no text parses to a wildcard or to a value with a comma or trailing white space |
| MatchText.PrintThenParse | cmd/claw-mesh/main.go:738-756 | printing and parsing gives criteria back if and only if they are no wildcard and no value holds a comma or ends in white space |
| MatchText.ParsePrintParse | cmd/claw-mesh/main.go:738-828 | for every text the second parse has the criteria of the first, and both accept the same nodes |
| MatchText.PrintIsStable | cmd/claw-mesh/main.go:738-756 | printing is stable from the first print on |
| MatchText.CommaDoesNotSurvive | cmd/claw-mesh/main.go:746-755 | a value with a comma that the round trip does not give back |
| PrivateRange.BytesInRange | internal/coordinator/server.go:344-354 | the loop decides whether every byte is between its two ends |
| PrivateRange.TestsAgreeExactlyOnAlignedBlocks | internal/coordinator/server.go:344-354 | for ends of any equal length the byte test equals the numeric test on every address if and only if the range is empty, or its ends share a prefix, then vary in at most one byte, then run from 0 to 255 |
| PrivateRange.AlignedTestsAgree | internal/coordinator/server.go:321-342 | on such a range the two tests agree for every address |
| PrivateRange.ByteTestIsNotNumericInGeneral | internal/coordinator/server.go:344-354 | a range and an address on which the two tests differ |
| PrivateRange.UnalignedTestsDiffer | internal/coordinator/server.go:344-354 | on every other range an address on which they differ |
| PrivateRange.IsPrivateIp | internal/coordinator/server.go:321-342 | for all 2^32 addresses the test equals membership in the three blocks of section 3 of RFC 1918 as 32-bit numbers |
| PrivateRange.PrivateBlocksByOctets | internal/coordinator/server.go:326-330 | the three blocks as 32-bit numbers are 10.x.x.x, 172.16.x.x to 172.31.x.x and 192.168.x.x |

## Left out

- HTTP serving, JSON and YAML text, websocket framing, DNS and address parsing are library code; requests, frames and stored rules are datatypes, and text that is not valid UTF-8 is not modelled.
- Closing the gateway client, its health check and the handshake timeout of `Connect`: they add no state to the protocol.
- Power loss: the directory is not synced by the program, so only a crash of the process is covered.
- Aliasing of rule objects between the list and its copies: the program never changes a rule once it is in the list, so rules are values.
- Nil and empty tag and skill lists are the same here; no modelled code tells them apart.
- Server.Server.PrepareRegistration: splitting, parsing and resolving an endpoint is library code, so its results are a parameter; the decision on them is modelled.
- Router.Router.Route: forwarding the message to the chosen node, with its four attempts, is not part of this model.
- RpcClient.WSGatewayClient.Disconnect: runs without steps of others in between; that steps which take no lock may come in between is covered by the step system, of which `FailOne` and `FinishDisconnect` are single steps.
- Health.HealthChecker.ProbeNodes: has no heartbeat, registration or removal between the answers of a round, since the outcome then depends on their order; the results over sequences of events have them.
- Router.Router.AddRule: runs the edit and the save one after the other; `RuleCalls` has other calls in between, with each save uninterrupted, and `RuleSystem` also crashes within a save.
- The lifetime of a request on the coordinator beyond the agent's timeout (a request handled after its sender gave up) is not part of the membership model.
- Runtime installation, gateway discovery, capability detection, the dashboard, seed configuration, logging and configuration precedence: plumbing that would only add easy members.
- The plan and skill design of version 0.2 is not implemented in the code.
