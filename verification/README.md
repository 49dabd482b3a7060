# A Dafny model of the Carbon SDK's transaction pipeline and its protocols

This project models the stateful and algorithmic core of the Carbon TypeScript SDK and proves
properties of it: the wallet's two-stage transaction pipeline, the debounced work queue under it,
the WebSocket connector with its channel ids, the batching JSON-RPC client, the Amino converter,
the EIP-712 type generator, the lending arithmetic, canonical sign documents and the unification
of bridge names. `dafny verify dfyconfig.toml` checks all of it.

The model follows the code where the code and its comments or names promise something else, and
says by a lemma what the code does instead.

## How it is organised

- `Basics`, `Text`, `Decimal`: options and outcomes, split and join, BigNumber arithmetic.
- `TaskQueue`: `QueueManager` as a state machine over enqueues, triggers, timers and settled
  items, its run properties, and the class itself.
- `WalletPipeline` is the transition system of `signTx`, `dispatchTx` and
  `reloadAccountSequence`: one step is the code between two awaits, and chain, signer, timers and
  callers interleave freely. `WalletFlow` reduces all questions about the fate of requests to one
  lemma about sums of weights; `WalletFate` draws conservation, termination and the broadcast
  budget from it, `WalletOutcome` how each handler is called. `WalletRules` has single rules. `WalletAgreement`, `WalletRetry` and `WalletOrder` are about sequence numbers,
  `WalletRuns` has runs of a fresh wallet that end badly, `WalletLockout` a wallet whose queue has
  stopped. `Wallet` (file `CarbonWallet.dfy`) is
  the class with its fields; each method is proved to be the step of the same name.
- `Connector` is the connector's state machine with its properties, `ConnectorHandlers` what it
  calls, read off the events, `WebSocketConnector` the class; `ChannelId` the printer and parser of
  channel ids.
- `BatchQuery`, `BridgeNames`, `CanonicalJson`, `KeyCase`: one source algorithm each.
- `Amino` is the converter, `AminoImage` what the Amino form says, `AminoRoundTrip` the proof of
  the round trip.
- `Eip712Types` holds the generator as functions, `Eip712Generator` in its own loops and shared
  object. `Eip712Fields` says what the types of values list, `Eip712Names` what names
  are made of, `Eip712Success` when it returns, `Eip712Closure` when its types are closed,
  `Eip712Freshness` when its names are new, `Eip712Matching` what a comparison decides and what a
  reused type says about a message, `Eip712Own` whose type that is; `Eip712Failures` and
  `Eip712Reuse` are runs that break these.
- `CdpInterest`, `CdpAccuracy`, `CdpLiquidation` and `CdpExact`: rates, debts and liquidations.

Promise handlers are identified by request ids; a handler that is called is logged. The chain is
the two sequence numbers it accepts next, one for the wallet's bech32 account and one for its EVM
account. Network replies, clocks, the grantee test, `localeCompare`, the message schema, the Amino
type names and whether `fromAmino` throws on a message are parameters or events.

## What was found

Promises that do not hold of the code as it is; each is stated as a lemma, with the exact
condition under which the code does what is promised where there is one.

- A timer that fires while a pass runs leaves `currTriggerThreshold` set with no timer behind it
  (src/util/generic.ts:119, 133). After that every later trigger returns early and nothing
  enqueued is ever processed (`TaskQueue.StuckIsReachable`, `TaskQueue.StuckForever`); a fresh
  wallet with default options gets there when a second request is submitted while the first one's
  account query is slow (`WalletLockout.WalletCanBeLockedOut`).
- The wallet's sequence drifts from the chain's after exactly six kinds of event, which
  `WalletAgreement.AgreementStep` lists: own signing that fails after the allocation, an own
  broadcast that does not consume its sequence, the two reloads (in `signTx`, and called from
  outside) that find own transactions outstanding or bring an old answer, other use of the account
  that is cached, and an explicit sequence in the request. A wallet whose cached account is the
  EVM one reloads before every signature (`WalletAgreement.EvmReloadMisleads`), so two requests in
  quick succession are enough: both get the same sequence (`WalletRuns.EvmAgreementIsLost`). A
  reload that fails forgets that it was asked for (`WalletAgreement.FailedReloadForgets`,
  `WalletRuns.InvalidationIsLost`), and so does one that is called off from outside before it
  starts; nothing else does (`WalletRetry.ReloadIsLostExactly`).
- A broadcast that fails with an error that has no message makes the mismatch test throw inside
  the `catch` (src/wallet/CarbonWallet.ts:674), so neither handler is ever called. A run forgets a
  request exactly when that happens in it (`WalletFate.ForgottenExactly`); a fresh wallet gets there
  with its first request (`WalletRuns.RequestIsForgotten`).
- The unsubscribe that `onMessage` tries for a channel without handler never names that channel,
  so the server goes on sending (`Connector.OrphanStaysSubscribed`). `connect` never finds
  `shouldConnect` set (`Connector.ConnectNeverDeduplicates`).
- Two requests of one batch with the same id: on a transport failure the first is rejected twice
  and the other never (`BatchQuery.FailureRejectsOnce`). A malformed element of a response leaves
  the rest of the batch unsettled (`BatchQuery.SettledExactly`), and a server that answers in
  another order, as JSON-RPC 2.0 allows, settles a request with the answer to another one, exactly
  where the positions differ (`BatchQuery.OwnElementExactly`).
- The Duration codec moves the point by 6 places, so it keeps nanos below 10^6 only; `LongToNum`
  and `DateToNum` lose zero, `Dec` drops zero (`AminoRoundTrip.DurationRoundTrip`,
  `AminoRoundTrip.LeafRoundTrip`). An empty list at the top level comes back as an empty object
  (`AminoImage.EmptyLists`).
- A message whose value is zero without being `null` or `undefined`, such as the empty text, names
  a value type that is not defined (`Eip712Closure.ClosedExactly`,
  `Eip712Failures.EmptyTextLeavesTypesOpen`); `null` and `undefined` throw before any type is made
  (src/util/eip712.ts:24).
- `compareValues` lets the last struct field decide alone: a second message that lacks a field of
  the first one's type is given that type all the same (`Eip712Reuse.IncompleteMessageIsReused`).
  Every match is right exactly over types of whose struct fields only the last one has fields
  (`Eip712Matching.MatchesAreRightExactly`).
- `compareValues` throws when it reads a field that is a list of structs and has no first element,
  and only then (`Eip712Matching.CompareExactly`); a second message with an empty list, where the
  first one's list had structs, makes the generator throw (`Eip712Reuse.EmptyListThrows`).
  Well-formed messages whose lists of structs have first elements always get types
  (`Eip712Success.MessagesAreTyped`).
- The search for a type to reuse takes any type whose name contains the message's: with empty
  values a second `MsgRevoke` is given the type of a `MsgRevokeAllowance` signed before
  (`Eip712Own.TypeOfAnotherMessage`).
- A message named "Value" gets the same type name as its own value, and loses its type
  (`Eip712Failures.ValueMessageLosesItsType`); after a zero value the next name for "Value" can be
  taken (`Eip712Failures.ValueNamesClash`, and exactly when in
  `Eip712Freshness.NextValueNameIsTakenExactly`). No type the SDK registers has such a name.
- When the debtor's collateral runs out, rounding the repayment half up can make the liquidator's
  profit negative, which throws (`CdpLiquidation.CappedFailsExactly`, `CdpLiquidation.CappedCanFail`);
  a discount worth half a unit of debt on that collateral rules it out
  (`CdpLiquidation.DiscountAvoidsError`).
- Bridges with an empty name that come before the first named bridge of their chain keep it
  (`BridgeNames.EmptyNameIsKept`); all bridges of a chain get the name of its first one exactly when
  that is not empty or all are (`BridgeNames.NamesOfFirstBridges`).

## Model

| member | source | states |
|---|---|---|
| TaskQueue.AtMostOneTimer | src/util/generic.ts:115-130 | after any run of a new queue, with any delays, at most one timer is armed |
| TaskQueue.StepValid | src/util/generic.ts:94-151 | every enqueue, trigger, timer and settled item keeps a state valid: one timer at most, and a pass runs exactly while an item is awaited |
| TaskQueue.FirstInFirstOut | src/util/generic.ts:110-150 | over any interleaving, what the processor was given followed by what waits is what waited at the start followed by what was enqueued: order kept, nothing lost or repeated, whichever items fail |
| TaskQueue.Exclusion | src/util/generic.ts:132-150 | over any run the processor gets an item only after the previous one has settled |
| TaskQueue.BoundedDebounce | src/util/generic.ts:115-130 | with a positive threshold, an armed timer is due at most the larger of both delays after the first trigger of its burst, as read off the run |
| TaskQueue.DueExactly | src/util/generic.ts:115-135 | after any run of a new queue, with any delays, a timer is armed exactly when a trigger within the limit of its burst has come since the last timer fired, and it is due exactly `triggerDelay` after the last such trigger, all read off the events |
| TaskQueue.EnqueueWakes | src/util/generic.ts:110-130 | exactly when an enqueue leaves waiting work with a pass or a timer, from facts the caller can see beforehand |
| TaskQueue.HowThresholdGoesStale | src/util/generic.ts:115-135 | exactly how a threshold is left without timer: the early return of a pass already running swallows the timer |
| TaskQueue.SmoothRunsStayAwake | src/util/generic.ts:110-150 | in runs where no timer fires during a pass and every enqueue triggers, waiting work always has a pass or a timer |
| TaskQueue.StuckForever | src/util/generic.ts:115-121 | from a stale idle state no later run hands anything to the processor |
| TaskQueue.StuckIsReachable | src/util/generic.ts:115-150 | with the default options a concrete run leads there, with a task waiting |
| WalletRules.WalletStaysAwake | src/wallet/CarbonWallet.ts:502-691 | in every run of a wallet in which no timer fires during a pass, requests that wait in either queue, retried ones included, have a pass or a timer |
| TaskQueue.QueueManager.Enqueue | src/util/generic.ts:110-113 | the new state after adding a task at the front and triggering |
| TaskQueue.QueueManager.Trigger | src/util/generic.ts:115-130 | the new state: early return, new threshold, replaced timer |
| TaskQueue.QueueManager.OnTimer | src/util/generic.ts:132-139 | the new state when a timer fires, with the lock and the reset threshold |
| TaskQueue.QueueManager.OnItemSettled | src/util/generic.ts:138-149 | the loop's next turn or the end of the pass, whether the item failed or not |
| WalletPipeline.StepValid | src/wallet/CarbonWallet.ts:502-691 | every step keeps a call that is suspended tied to the request at hand |
| WalletFlow.Flow | src/wallet/CarbonWallet.ts:502-691 | for every weight of places and requests, a step changes the total by exactly the move of the one request it is about |
| WalletFlow.MovesAreLegal | src/wallet/CarbonWallet.ts:520-691 | requests only move forward through the stages, except back to the sign queue after their first mismatch |
| WalletFate.ExactlyOnePlace | src/wallet/CarbonWallet.ts:502-691 | in every reachable state a submitted request is at exactly one place: sign queue, being signed, dispatch queue, being dispatched, settled, or forgotten by a mismatch test that threw; grantee path included |
| WalletFate.QuietMeansSettled | src/wallet/CarbonWallet.ts:502-691 | when both queues are empty and no call is suspended every request was settled exactly once or forgotten, never both |
| WalletFate.ForgottenExactly | src/wallet/CarbonWallet.ts:670-689 | a run forgets a request if and only if in it an error without a message meets the mismatch test |
| WalletFate.QuietRunsSettle | src/wallet/CarbonWallet.ts:502-691 | after a run in which that never happens, a quiet pipeline has settled every handler exactly once |
| WalletOutcome.ResolvedExactly | src/wallet/CarbonWallet.ts:660-691 | in every run a settled request was resolved if and only if the reply to its last broadcast is that the chain accepted it; one never broadcast, or whose last broadcast failed, was rejected |
| WalletOutcome.AcceptedIsResolved | src/wallet/CarbonWallet.ts:660-691 | in a quiet pipeline every request whose last broadcast was accepted has been resolved |
| WalletOutcome.HandledExactly | src/wallet/CarbonWallet.ts:670-690 | a reply leads to a retry, to nothing, or to a settlement, by its kind, the attempt and the option |
| WalletFate.EffortFalls | src/wallet/CarbonWallet.ts:520-691 | a natural-number measure over stage and attempt falls at every move of a request |
| WalletFate.WorkIsBounded | src/wallet/CarbonWallet.ts:520-691 | n requests move at most 16 n times in any run |
| WalletFate.AtMostTwoBroadcasts | src/wallet/CarbonWallet.ts:660-691 | no request is broadcast more than twice |
| WalletFate.SecondBroadcastFollowsMismatch | src/wallet/CarbonWallet.ts:672-687 | a second broadcast is the retry of a first one that met a sequence mismatch |
| WalletFate.BroadcastsAreBounded | src/wallet/CarbonWallet.ts:660-691 | at most 2 n broadcasts for n requests, at most n with the retry disabled |
| WalletAgreement.OutstandingStep | src/wallet/CarbonWallet.ts:534-577 | how every step changes the own transactions not yet received by the chain, in dispatch order |
| WalletRules.OwnSequence | src/wallet/CarbonWallet.ts:544-563 | which sequence and account an own transaction takes, with and without an account, option or explicit sequence |
| WalletRules.GranteeSequence | src/wallet/CarbonWallet.ts:580-657 | which sequence a transaction signed by a grantee takes; the wallet's account stays |
| WalletRules.ReloadsExactly | src/wallet/CarbonWallet.ts:520-543 | exactly when the next request makes the wallet load its account |
| WalletRules.InvalidatedExactly | src/wallet/CarbonWallet.ts:534-691 | exactly which steps leave the sequence invalidated |
| WalletAgreement.AgreementStep | src/wallet/CarbonWallet.ts:534-577 | from agreement (outstanding transactions are of the cached account and carry exactly its next sequence on the chain up to the wallet's) a step leads to agreement if and only if it is none of the listed exceptional ones, with the bech32 and the EVM account told apart |
| WalletAgreement.NoMismatchWhenAgreed | src/wallet/CarbonWallet.ts:660-691 | under agreement no own broadcast meets a mismatch |
| WalletAgreement.AgreementLasts | src/wallet/CarbonWallet.ts:520-691 | in every run without exceptional events agreement lasts and each own broadcast carries the sequence the chain expects |
| WalletAgreement.ReloadRestores | src/wallet/CarbonWallet.ts:934-950 | a completed reload leaves agreement if and only if nothing is outstanding and its answer is up to date; without an answer it changes nothing |
| WalletAgreement.FreshAnswerLasts | src/wallet/CarbonWallet.ts:534-540 | an up-to-date answer stays good until it is applied, whatever else happens in the wallet |
| WalletAgreement.FreshAnswerRestores | src/wallet/CarbonWallet.ts:534-556 | the signing call that applies it ends in agreement, unless its request brings its own sequence |
| WalletAgreement.FailedReloadForgets | src/wallet/CarbonWallet.ts:534-577 | over the events that start a reload, fail it and go on: the invalidation is gone and the next request on the queue takes the cached sequence |
| WalletAgreement.EvmReloadMisleads | src/wallet/CarbonWallet.ts:534-540 | with the EVM account cached the wallet reloads before every signature; with an own transaction outstanding no answer of the chain keeps agreement |
| WalletRuns.EvmAgreementIsLost | src/wallet/CarbonWallet.ts:520-577 | a run of a fresh wallet with an EVM account and truthful answers, after which agreement holds, the next step breaks it, and the second request is given the sequence of the first |
| WalletRuns.InvalidationIsLost | src/wallet/CarbonWallet.ts:520-577 | a run in which a reload after an invalidation fails and the next request is given the cached sequence |
| WalletRuns.RequestIsForgotten | src/wallet/CarbonWallet.ts:660-691 | a run after which the wallet is idle and no later run calls the handler of the first request |
| WalletRetry.RetryFollowsReload | src/wallet/CarbonWallet.ts:672-687 | after a retry is queued, on every run in which no step loses the reload, that request gets a sequence only after another reload has completed |
| WalletRetry.ReloadIsLostExactly | src/wallet/CarbonWallet.ts:934-950 | the steps that lose the promised reload: a failure of the one under way with no other asked for, or one from outside while one is asked for but not under way; no other step |
| WalletOrder.DispatchedInOrder | src/wallet/CarbonWallet.ts:545-573 | in every run own transactions reach the chain in the order of reloads and, between two reloads, of strictly increasing sequences |
| WalletOrder.HistoryStep | src/wallet/CarbonWallet.ts:545-573 | the own transactions ever given a sequence form one list to which steps only append or, on a failed signing, remove the last |
| WalletLockout.LockedOut | src/wallet/CarbonWallet.ts:502-518 | from a stuck sign queue on, no run lets a waiting request leave it |
| WalletLockout.WalletCanBeLockedOut | src/wallet/CarbonWallet.ts:520-578 | nine events lead a fresh wallet there |
| Wallet.CarbonWallet.SignAndBroadcast | src/wallet/CarbonWallet.ts:502-518 | the whole new state: the request joins the sign queue, which is triggered |
| Wallet.CarbonWallet.StartSignTx | src/wallet/CarbonWallet.ts:520-543 | the synchronous start of `signTx`: grantee, reload or height query |
| Wallet.CarbonWallet.AllocateSequence | src/wallet/CarbonWallet.ts:544-563 | the sequence is taken from the cached account, which is advanced, before signing starts |
| Wallet.CarbonWallet.OnSigned | src/wallet/CarbonWallet.ts:565-573 | the signed transaction joins the dispatch queue with its allocated sequence |
| Wallet.CarbonWallet.OnSignFailed | src/wallet/CarbonWallet.ts:574-577 | the handler is rejected; the allocated sequence is not given back |
| Wallet.CarbonWallet.OnBroadcastReply | src/wallet/CarbonWallet.ts:660-691 | the handler is settled, or the sequence invalidated and the request queued again, or neither when the error has no message |
| Wallet.CarbonWallet.OnReceived | src/wallet/CarbonWallet.ts:668-669 | the chain's side of a broadcast: it is logged, and uses up the sequence of its own account |
| Wallet.CarbonWallet.OnAccountLoaded | src/wallet/CarbonWallet.ts:934-950 | the reload is applied and the call goes on to its height query or allocation |
| Wallet.CarbonWallet.UpdateMergeAccountStatus | src/wallet/CarbonWallet.ts:960-964 | the sequence is invalidated and nothing else changes |
| ChannelId.RoundTrip | src/websocket/channel.ts:36-316 | for all 30 channels parsing a printed id gives every carried field back if and only if none of them contains a colon |
| ChannelId.PrintedText | src/websocket/channel.ts:36-161 | the text of an id: the channel and its fields in order, with colons between them and none at the end |
| ChannelId.MarketChannels | src/websocket/channel.ts:36-161 | which channels take a market, with an address, a resolution or nothing more |
| ChannelId.AddressChannels | src/websocket/channel.ts:36-161 | which channels take an address |
| ChannelId.DenomChannels | src/websocket/channel.ts:36-161 | which channels take a denomination, or a pool id |
| ChannelId.BareChannels | src/websocket/channel.ts:36-161 | which channels take nothing |
| ChannelId.OtherChannelsAreKnown | src/websocket/channel.ts:36-161 | all of the last two kinds are known |
| ChannelId.Injective | src/websocket/channel.ts:36-161 | equal ids mean the same channel and the same carried fields, across all channels |
| Text.SplitJoin | src/websocket/channel.ts:164-164 | splitting a joined list gives the list back when no part contains the separator |
| Connector.SubscriptionStep | src/websocket/connector.ts:252-301 | a subscribe or unsubscribe keeps handlers and server in step if and only if it changes nothing, or the frame goes out and all channels are valid; its frame repeats no channel, subscribes only new ones, unsubscribes only present ones |
| Connector.SubscriptionsAgree | src/websocket/connector.ts:252-406 | during one connection begun without handlers, for valid parameters, the channels with handlers are those of the server after replaying all frames, including the unsubscribes from `onMessage` |
| Connector.NewConnectionAgrees | src/websocket/connector.ts:590-613 | connecting and opening without handlers satisfies those hypotheses |
| Connector.OrphanStaysSubscribed | src/websocket/connector.ts:391-402 | the unsubscribe tried for a channel without handler never names it |
| Connector.RequestsCorrelate | src/websocket/connector.ts:332-442 | over the whole life of a connector no id is used twice, the open requests are those issued since the last new socket and not settled, and none is settled twice |
| Connector.MessageSettlesItsOwnRequest | src/websocket/connector.ts:408-424 | a reply settles the request of its own id with its own outcome if that is open, and no other |
| ConnectorHandlers.DeliveriesExactly | src/websocket/connector.ts:252-405 | over every run the handlers called are those that the events say: each message without request id on a subscribed channel calls once the handler of the subscribe that put the channel there, flagged if and only if a larger recent number came on it; nothing else calls a handler |
| ConnectorHandlers.HandlersAreOwners | src/websocket/connector.ts:252-405 | over every run, reconnects included, a channel has the handler of the subscribe that named it when it had none, until an unsubscribe names it |
| ConnectorHandlers.RequestOpensOne | src/websocket/connector.ts:332-347 | a request takes a new id, and is sent and open if and only if the connector is connected |
| ConnectorHandlers.ErrorRejectsAll | src/websocket/connector.ts:430-442 | an error of the socket rejects every open request, in order |
| ConnectorHandlers.OthersSettleNothing | src/websocket/connector.ts:381-442 | nothing but messages and errors settles a request |
| ConnectorHandlers.ConnectionsKeepHandlers | src/websocket/connector.ts:218-242 | a new socket starts without open requests, whose promises stay pending; other changes of the connection leave them open, and all leave the channel handlers |
| Connector.ConnectNeverDeduplicates | src/websocket/connector.ts:218-242 | `shouldConnect` is false after every run |
| Connector.FlaggedIffLarger | src/websocket/connector.ts:527-547 | a message is flagged if and only if a message on its channel in this connection had a larger number |
| Connector.RunTracks | src/websocket/connector.ts:527-585 | the cache holds, per channel, the running maximum since the last disconnect |
| WebSocketConnector.WSConnector.Subscribe | src/websocket/connector.ts:252-271 | the loop and the frame leave the state that `Connector.AfterSubscribe` gives |
| WebSocketConnector.WSConnector.Unsubscribe | src/websocket/connector.ts:280-301 | the loop and the frame leave the state that `Connector.AfterUnsubscribe` gives |
| WebSocketConnector.WSConnector.Request | src/websocket/connector.ts:332-347 | the id is spent, the frame sent, and only then the handler kept |
| WebSocketConnector.WSConnector.OnMessage | src/websocket/connector.ts:381-424 | the new state for channel messages, replies and messages nobody waits for |
| WebSocketConnector.WSConnector.OnError | src/websocket/connector.ts:430-442 | every open request is rejected once and removed |
| WebSocketConnector.WSConnector.Connect | src/websocket/connector.ts:218-231 | the new state, whether or not the socket can be made |
| BatchQuery.BatchingConserves | src/clients/BatchQueryClient.ts:60-89 | over any calls and ticks, batches followed by the queue are all requests in order, each batch has 1 to limit items, the queue stays below the limit |
| BatchQuery.SettledExactly | src/clients/BatchQueryClient.ts:94-110 | request i is settled if and only if it has an element and no malformed one comes up to it |
| BatchQuery.ResolvedExactly | src/clients/BatchQueryClient.ts:94-110 | request i is resolved with the success at its position or rejected by the error there, and nothing else settles it |
| BatchQuery.SettlesAllExactly | src/clients/BatchQueryClient.ts:94-110 | a response settles the whole batch if and only if it is long enough and well-formed that far |
| BatchQuery.OwnElementExactly | src/clients/BatchQueryClient.ts:94-110 | a settled request whose answer stands at position p, in a response of distinct ids, is settled with it if and only if p is its own position |
| BatchQuery.AllGetOwnExactly | src/clients/BatchQueryClient.ts:94-110 | every request is settled with an element of its own id if and only if the response is long enough and its ids are those of the batch in order |
| BatchQuery.FailureRejectsOnce | src/clients/BatchQueryClient.ts:111-117 | on a transport failure each request is rejected exactly once if and only if the ids are distinct |
| BatchQuery.BatchQueryClient.Execute | src/clients/BatchQueryClient.ts:60-69 | the request joins the queue, which is sent when it reaches the limit |
| BatchQuery.BatchQueryClient.Tick | src/clients/BatchQueryClient.ts:85-94 | the first requests up to the limit leave the queue as one batch, an empty queue sends nothing |
| BatchQuery.BatchQueryClient.OnResponse | src/clients/BatchQueryClient.ts:94-110 | request i is settled with element i, resolved or rejected, in order |
| BatchQuery.BatchQueryClient.OnFailure | src/clients/BatchQueryClient.ts:111-117 | for each id in turn the first request with that id is rejected |
| KeyCase.KeyRoundTrip | src/util/type.ts:21-48 | on ASCII keys renaming to snake_case and back is the identity if and only if there is no underscore |
| KeyCase.RenamedKeysDiffer | src/util/type.ts:38-48 | distinct keys without underscore stay distinct |
| KeyCase.SnakeLetterByLetter | src/util/type.ts:38-48 | a key of more than one letter is renamed letter by letter |
| KeyCase.SnakeOfLetter | src/util/type.ts:38-48 | a capital becomes an underscore and its small letter, by the alphabet; other letters, and keys of one letter, stay |
| KeyCase.CapitalLetters | src/util/type.ts:38-48 | the capitals are the 26 letters of that alphabet |
| KeyCase.SnakeToCamelOfParts | src/util/type.ts:21-34 | the parts between underscores are joined, all but the first with a capital |
| KeyCase.ConvertCamelToSnake | src/util/type.ts:38-48 | the loop over the letters computes the recursive renaming |
| Amino.MapObject | src/provider/amino/utils.ts:60-110 | the loop over the keys converts property by property, exceptions and `length` keys included |
| Amino.EncodeMessage | src/provider/amino/utils.ts:173-205 | the loop of `toAmino` computes its recursive form |
| Amino.DecodeMessage | src/provider/amino/utils.ts:206-229 | the loop of `fromAmino` computes its recursive form |
| AminoImage.MessageHasImage | src/provider/amino/utils.ts:169-205 | the Amino form of every well-typed message has the fields that are not dropped, in order, under their renamed keys, each denoting the same number, time or duration, at every depth |
| AminoImage.LeafHasImage | src/provider/amino/utils.ts:118-163 | the Amino form of each scalar on its own: numerals of the same number, the nearest double, the same time, the whole seconds |
| AminoImage.DurationHasImage | src/provider/amino/utils.ts:149-155 | a duration is written as one numeral of its seconds and millionths |
| AminoImage.DoubleIsNearest | src/provider/amino/utils.ts:133-134 | numbers are converted to the nearest multiple of the distance of doubles there, ties to even |
| AminoImage.DecimalsAreRead | src/provider/amino/utils.ts:123-132 | decimals are read from numbers, BigNumbers and numerals alike |
| AminoImage.AminoIsRead | src/provider/amino/utils.ts:133-147 | what Amino numbers, numerals and dates are read as |
| AminoImage.UntaggedDates | src/provider/amino/utils.ts:78-81 | a date without conversion becomes text below the top level and stays a date at the top |
| AminoImage.EmptyLists | src/provider/amino/utils.ts:95-229 | what becomes of an empty list in either direction, at the top and below |
| AminoImage.FalsyItems | src/provider/amino/utils.ts:60-67 | falsy elements of a list stay as they are |
| AminoImage.LengthKeys | src/provider/amino/utils.ts:85-99 | what an object with a `length` key of its own becomes |
| AminoImage.ZeroDecimalsAreDropped | src/provider/amino/utils.ts:215-217 | on the way back a decimal of zero is dropped |
| AminoRoundTrip.LongImage | src/provider/amino/utils.ts:133-134 | every Long comes back as its nearest double modulo 2^32, which up to magnitude 2^53 is its own value modulo 2^32 |
| AminoRoundTrip.LeafRoundTrip | src/provider/amino/utils.ts:118-167 | a scalar survives its conversion if and only if it is in the range of its type |
| AminoRoundTrip.DurationRoundTrip | src/provider/amino/utils.ts:149-163 | a duration survives if and only if its seconds fit 32 bits and its nanos are below 10^6, signs apart |
| AminoRoundTrip.FieldsRoundTrip | src/provider/amino/utils.ts:60-110 | a well-typed nested object can be converted and comes back if and only if every leaf is in range, by induction on the tree |
| AminoRoundTrip.MessageRoundTrip | src/provider/amino/utils.ts:169-231 | every well-typed message can be converted, and comes back as itself if and only if no field is dropped (falsy, or a decimal of zero) and every leaf is in range |
| CanonicalJson.Canonical | src/util/generic.ts:23-33 | two trees are sorted to the same tree if and only if they are equal up to key order at every level |
| CanonicalJson.Idempotent | src/util/generic.ts:23-33 | sorting a sorted tree changes nothing |
| CanonicalJson.PathsArePreserved | src/util/generic.ts:23-33 | every path leads to the same value, sorted, before and after |
| CanonicalJson.SortedIsUnique | src/util/generic.ts:28-30 | strictly sorted lists with the same elements are equal |
| CanonicalJson.OrderIsByCodeUnits | src/util/generic.ts:28-30 | the order of keys: by the first character that differs, and prefixes first |
| BridgeNames.UnifyChainNames | src/clients/TokenClient.ts:514-537 | after the nested loops every bridge has the name that `UnifiedName` gives; only names change, in place |
| BridgeNames.RenameFrom | src/clients/TokenClient.ts:526-533 | the inner loop renames and marks the later bridges of the chain and leaves all others alone |
| BridgeNames.NamesOfFirstBridges | src/clients/TokenClient.ts:514-537 | all bridges of a chain get the original name of its first bridge if and only if that is not empty or all names of the chain are |
| BridgeNames.EmptyNameIsKept | src/clients/TokenClient.ts:514-537 | two bridges of one chain that end up with two names |
| BridgeNames.UnificationIsStable | src/clients/TokenClient.ts:514-537 | unifying twice changes nothing more |
| Eip712Closure.GeneratedTypesAreClosed | src/util/eip712.ts:19-52 | for any messages with non-zero values every struct type named by a field is defined, and `Tx` has the default fields and then one field per message, in order, of a defined type |
| Eip712Success.MessageIsTypedExactly | src/util/eip712.ts:24-47 | over a schema closed under its references, a well-formed message is typed if and only if its type is new or the first type name that contains it, and that the message matches or makes the comparison throw, does not throw |
| Eip712Success.MessagesAreTyped | src/util/eip712.ts:19-52 | for well-formed messages the generator returns, if in every message of a repeated type each list of structs that is not zero has a first element; with non-zero values its types are closed |
| Eip712Closure.ClosedExactly | src/util/eip712.ts:29-47 | one message more keeps the types closed if and only if its value is non-zero, or a type is reused, or its value type's name is taken |
| Eip712Failures.ZeroValueLeavesTypesOpen | src/util/eip712.ts:29-33 | a run over one zero-valued message returns, with closed types if and only if it is named "Value" |
| Eip712Failures.EmptyTextLeavesTypesOpen | src/util/eip712.ts:29-33 | a run over a message whose value is the empty text, not named "Value", returns, and its types are not closed |
| Eip712Closure.MsgValueTypeCloses | src/util/eip712.ts:116-166 | `getMsgValueType` defines the name it is called for and every nested name it introduces |
| Eip712Fields.ValueTypesListFields | src/util/eip712.ts:116-182 | after any run, the type of the value of the k-th typed message lists exactly the schema's fields whose values are not zero, sorted, each number an "int64", each truth value a "bool", each list of texts or without elements a "string[]", each nested message a value type, everything else a "string" |
| Eip712Names.ZeroValuesExactly | src/util/eip712.ts:192-206 | which values count as zero |
| Eip712Names.NestedNameOfParts | src/util/eip712.ts:140-140 | a nested name is made of the parts between underscores, capitalized |
| Eip712Names.CapitalizedLetters | src/util/eip712.ts:140-140 | capitalizing makes the first letter a capital and all others small |
| Eip712Names.MessageName | src/util/eip712.ts:25-25 | the name of a message is the part of its type after the first slash |
| Eip712Names.MessageFieldName | src/util/eip712.ts:30-30 | message number n is the field "msg" and n in decimal |
| Eip712Closure.SortIsOrdered | src/util/eip712.ts:66-72 | for any total order of names sorting puts the fields in order and keeps every one |
| Eip712Freshness.TypeKeysAreFresh | src/util/eip712.ts:26-28 | after any run over messages whose names are the given one or apart from it (neither is the other followed by digits), the next type name for it is not taken; for a name that starts with "Value" if it ends in no digit, no value is zero and no nested field name ends in a digit |
| Eip712Freshness.NextValueNameIsTakenExactly | src/util/eip712.ts:26-33 | after any run over messages with other names, the next type name for "Value" is taken if and only if the value typed under that number is there and not zero |
| Eip712Failures.ValueNamesClash | src/util/eip712.ts:26-33 | a run over a message with the empty text for a value and another one, after which the next name for "Value" is taken |
| Eip712Failures.KeyIsOwnValueType | src/util/eip712.ts:26-31 | a message gets the name of its own value type if and only if it is named "Value" and as many such names are there as messages were typed |
| Eip712Failures.ValueMessageLosesItsType | src/util/eip712.ts:26-33 | a run over one message named "Value", after which its type is that of its value |
| Eip712Freshness.NumberedNamesDiffer | src/util/eip712.ts:28-28 | names followed by numbers are equal only if both parts are, when neither name is the other followed by digits |
| Eip712Matching.LastStructDecides | src/util/eip712.ts:93-114 | no match without all fields; otherwise the last field of a struct type decides alone |
| Eip712Matching.DeepMatchIsFound | src/util/eip712.ts:93-114 | a value with exactly the type's fields at every level is always found to match |
| Eip712Matching.MatchIsExact | src/util/eip712.ts:93-114 | over types of whose struct fields only the last one has fields the converse holds too |
| Eip712Matching.MatchesAreRightExactly | src/util/eip712.ts:93-114 | over inhabited types, every match is right if and only if they are of this kind |
| Eip712Matching.CompareExactly | src/util/eip712.ts:93-114 | for any value and types: it throws if and only if a value that is missing is compared with a type that has fields, at the top or in a field that is read; otherwise it says whether the value matches along the last struct fields |
| Eip712Matching.SearchExactly | src/util/eip712.ts:75-91 | the search throws, finds a type or finds none according to the first type name that contains the message type and does not fail to match |
| Eip712Matching.MatchIsRightExactly | src/util/eip712.ts:93-114 | of a value found to match whose last struct field has all its fields: the match is right if and only if every earlier struct field has all of its too |
| Eip712Reuse.IncompleteMessageIsReused | src/util/eip712.ts:39-43 | a run over two messages of one type, whose second is given the first one's type although it lacks a field that this type names |
| Eip712Reuse.EmptyListThrows | src/util/eip712.ts:75-114 | a run over two messages of one type, whose second has an empty list and makes the generator throw |
| Eip712Reuse.BuyIsTwoNested | src/util/eip712.ts:19-52 | a schema and messages that meet the conditions of both |
| Eip712Own.ReusedTypeIsOwn | src/util/eip712.ts:39-43 | in any run a reused type has the name of the message in its own; if that name is in no default type, value type or type of another message, the type was made for it |
| Eip712Own.TypeOfAnotherMessage | src/util/eip712.ts:75-91 | a run over three messages, the third of which is given the type made for a message with a longer name |
| Eip712Generator.GenerateTypes | src/util/eip712.ts:19-52 | the loop over the messages computes `GetTypes`, exceptions included, those of `fromAmino` as a parameter |
| Eip712Generator.GetLatestMsgTypeIndex | src/util/eip712.ts:54-65 | the loop counts the type names that contain a name |
| Eip712Generator.GetMatch | src/util/eip712.ts:93-114 | the loop over the fields computes `CompareValues`, exceptions included |
| Eip712Generator.FindMatchingType | src/util/eip712.ts:75-91 | the loop finds the first type that matches |
| Eip712Generator.MsgTypeDefinitions.GetMsgValueType | src/util/eip712.ts:116-166 | the nested calls on the shared object leave the definitions that `MsgValueType` gives |
| CdpInterest.RateIsMonotone | src/modules/cdp.ts:754-768 | the rate does not fall as utilisation rises, across the kink |
| CdpInterest.RateIsBounded | src/modules/cdp.ts:754-768 | the rate lies between base and base plus both slopes, up to the kink below base plus the first |
| CdpInterest.InterestIsMonotone | src/modules/cdp.ts:807-817 | interest is non-negative and does not fall when the rate rises or the period ends later |
| CdpInterest.CimNeverFalls | src/modules/cdp.ts:856-861 | the recomputed multiplier is at least the old one and does not fall over time or utilisation |
| CdpExact.CimIsAccurate | src/modules/cdp.ts:807-861 | within a year the multiplier grows by the yearly rate times the started seconds over the seconds of a year, to 18 places |
| CdpAccuracy.NoTimeNoInterest | src/modules/cdp.ts:807-861 | without elapsed time the recomputed multiplier is the old one |
| CdpInterest.DebtNeverShrinks | src/modules/cdp.ts:717-728 | an account's floored debt is at least its principal and does not fall over time or utilisation |
| CdpInterest.PoolDebtBounds | src/modules/cdp.ts:696-702 | the pool's debt lies between its principal and principal plus gross interest |
| CdpAccuracy.RateIsAccurate | src/modules/cdp.ts:754-768 | the rate is the exact kinked line rounded up to a basis point, up to the error of one division |
| CdpAccuracy.ExactRateIsLine | src/modules/cdp.ts:754-768 | that line goes through (0, 0), (optimal, slope1) and (1, slope1 + slope2) above the base rate |
| CdpAccuracy.InterestIsAccurate | src/modules/cdp.ts:807-817 | up to a year, interest is the yearly rate times the seconds over the seconds of a year, to 18 places |
| CdpAccuracy.StartedSeconds | src/modules/cdp.ts:808-813 | those seconds are the started ones: at least the period, and less than a second more |
| CdpAccuracy.AccountDebtIsProportional | src/modules/cdp.ts:717-728 | an account's debt is its principal grown in the ratio of the multipliers, rounded down |
| CdpAccuracy.AccountDebtStarts | src/modules/cdp.ts:717-728 | at the multiplier it was taken at a debt is exactly its principal |
| CdpAccuracy.PoolDebtIsExact | src/modules/cdp.ts:696-702 | principal and accumulated interest grow together by the rate; the fee's share of the growth is left out, rounded by less than 1 |
| CdpLiquidation.ComputeCloseFactor | src/modules/cdp.ts:1044-1076 | the assignments compute `CloseFactor`, between 0 and 1 on all inputs |
| CdpLiquidation.CloseFactorIsMonotone | src/modules/cdp.ts:1044-1076 | the close factor does not fall as the debt grows, and above both thresholds it is at least the minimum |
| CdpExact.CloseFactorIsLine | src/modules/cdp.ts:1044-1076 | the close factor is 0 below either threshold, 1 with a complete threshold of zero, and else the line from the minimum to 1 at the critical value, between 0 and 1, up to one division |
| CdpExact.RepaymentIsLimited | src/modules/cdp.ts:985-996 | the repayment is what was asked for, but at most the close factor's share of the debts |
| CdpLiquidation.MultipliersCancel | src/modules/cdp.ts:1104-1110 | up to 20 decimals the multipliers of the two directions are exact inverses |
| CdpExact.MultiplierOfOneMore | src/modules/cdp.ts:1104-1110 | one decimal more multiplies by ten |
| CdpExact.CollateralIsWorthDebt | src/modules/cdp.ts:1078-1089 | the collateral for a debt is worth the debt, rounded up by less than one unit, up to one division |
| CdpExact.DebtIsWorthCollateral | src/modules/cdp.ts:1091-1102 | the debt that collateral covers is its worth, rounded by at most one half, up to one division |
| CdpLiquidation.ConversionCoversDebt | src/modules/cdp.ts:1078-1102 | converting a debt to collateral and back covers it, and exceeds it by less than a unit's worth and a half, up to the error of two divisions |
| CdpLiquidation.ComputeMaxCollateralForLiquidator | src/modules/cdp.ts:991-1041 | the assignments compute `MaxCollateralForLiquidator`, the error included |
| CdpLiquidation.PayoutBounds | src/modules/cdp.ts:1021-1041 | the payout lies between the collateral without discount and the collateral taken, at most what the debtor has |
| CdpExact.PayoutIsExact | src/modules/cdp.ts:1021-1041 | the payout is the collateral taken less the fee's exact share of the profit; without profit it is the error |
| CdpExact.TakenIsExact | src/modules/cdp.ts:999-1019 | what is taken and repaid, with enough collateral and without |
| CdpExact.DiscountedPriceIsExact | src/modules/cdp.ts:964-970 | the price less the discount in basis points, exactly |
| CdpLiquidation.UncappedNeverFails | src/modules/cdp.ts:999-1034 | while the debtor has enough collateral the profit is never negative |
| CdpLiquidation.CappedFailsExactly | src/modules/cdp.ts:1010-1034 | when it runs out, the error is reached if and only if rounding lifts the repayment to the full-price worth of that collateral and half a unit of the twentieth place |
| CdpLiquidation.DiscountAvoidsError | src/modules/cdp.ts:991-1041 | a discount worth half a unit of debt and that error on the collateral rules it out |
| CdpLiquidation.CappedCanFail | src/modules/cdp.ts:1010-1034 | a family of inputs that reach it |

## Left out

- WalletAgreement.AgreementStep: a grantee's own sequence, which the grantee's wallet keeps, is not modelled.
- WalletAgreement.AgreementLasts: the chain answers each broadcast before the next; a broadcast mode that returns before the transaction is checked, and a mempool that is reset, are not modelled.
- WalletRetry.RetryFollowsReload: does not say that the reload was asked for after the retry was queued, because one already under way counts too.
- Wallet.CarbonWallet.OnBroadcastReply: the timeout height that a retry keeps from its first attempt is not modelled.
- ChannelId.RoundTrip: a missing field is read as the empty string it is printed as; the `subscribeUID` of candlesticks is not part of an id.
- Connector.SubscriptionsAgree: within one connection only; the code keeps `channelHandlers` over a disconnect, so agreement across reconnects does not hold.
- Connector.RequestsCorrelate: events of a socket that was replaced are not told apart from those of the new one; connect promises, connect timeouts and heartbeats are not modelled.
- Connector.FlaggedIffLarger: a message without a sequence number resets its channel's history, as the code overwrites the cache with `undefined`; names such as `constructor` that plain objects inherit are not modelled.
- BatchQuery.FailureRejectsOnce: about the calls of `reject`; a second call on a settled promise has no effect in JavaScript.
- AminoRoundTrip.MessageRoundTrip: nested nulls throw, empty arrays at the top level do not come back, and arrays of strings, byte arrays and BigNumbers there are not stated; messages with these are not well-typed here. (A duration at the top level is converted as an ordinary object, and does come back.) The unsigned flag of Longs and the hooks `toAminoProcess` and `fromAminoProcess` are not modelled, and printing a number or a date and parsing it again is taken to give it back.
- Amino.MapObject: numbers that are not integers are not modelled.
- CanonicalJson.Canonical: integer-like keys, which JavaScript objects keep first, are not modelled; characters stand for UTF-16 code units.
- BridgeNames.UnifyChainNames: bridges are distinct objects, as `map` makes them, and chain ids do not name properties that plain objects inherit.
- Eip712Closure.GeneratedTypesAreClosed: fields of type `google.protobuf.Any`, whose index is recomputed separately, end the model; that nested names of one message can coincide is not excluded.
- Eip712Fields.ValueTypesListFields: of the types of values, not of nested types, whose names can coincide within a message; nested fields have names that do not end in a digit.
- Eip712Success.MessagesAreTyped: nested fields of the schema have names without brackets, as identifiers do.
- Eip712Matching.MatchesAreRightExactly: fields of a type have distinct names, and some value has all fields of the type at every level.
- Eip712Freshness.NextValueNameIsTakenExactly: nested fields have names that do not end in a digit.
- Eip712Generator.GenerateTypes: on which values `fromAmino` throws is a parameter; `null` and `undefined` are always among them.
- Eip712Freshness.TypeKeysAreFresh: of two message names one of which is the other followed by digits it says nothing; no two registered names are so.
- Eip712Failures.KeyIsOwnValueType: for a name that is "Value" or apart from it; of "Value1" and the like it says nothing.
- Eip712Generator.MsgTypeDefinitions.GetMsgValueType: the sort of the fields by name is done on values, by insertion over an unspecified order, instead of in place.
- CdpInterest.RateIsMonotone: for an optimal usage strictly between 0 and 1 and non-negative slopes; at 0 and 1 the code divides by zero on one side of the kink. Inputs are integers as the chain sends them.
- CdpExact.CimIsAccurate: for at most a year, for non-negative usage and base rate.
- CdpAccuracy.InterestIsAccurate: for at most a year; beyond that the rounded number of periods adds a relative error.
- CdpLiquidation.CappedFailsExactly: for amounts of collateral that are not negative and decimals at most 20 apart.
- CdpLiquidation.ConversionCoversDebt: unit worths of 10^20 and more, and decimals more than 20 apart, where the rounding of `div` dominates.
- TaskQueue.BoundedDebounce: times are positive, as milliseconds since 1970 are; when a timer fires is an event of its own, not tied to its due time.
- Module wrappers in src/modules, query orchestration such as `getAccountData`, network and chain-id tables, Insights and Hydrogen clients, code generation and examples: no state and no hard property.
- Cryptography, address encodings, protobuf encoding, HTTP, gRPC, sockets and the clients of other chains: library calls.
- `estimateTxFee`, `GasFee`, `getWeeklyRewards` and src/util/legacyEIP712.ts: easy members.
