/**
 * The two-stage transaction pipeline of `CarbonWallet` (src/wallet/CarbonWallet.ts) as a
 * transition system. A step is a stretch of code between two `await`s; replies of the signer
 * and of the chain, timers and user calls interleave freely. The chain is reduced to the next
 * sequences it accepts for the wallet's two accounts.
 */
module WalletPipeline {
  import opened Basics
  import opened TaskQueue

  // ----- data -----

  datatype Config = Config(disableRetryOnSequenceError: bool, eip712Signer: bool)

  /** `accountInfo`; `evm` says that its address is the wallet's EVM address and not its bech32 one. */
  datatype Account = Account(sequence: nat, evm: bool)

  /** The sequences that the chain accepts next, for the two accounts that a wallet can have. */
  datatype ChainState = ChainState(bech32Next: nat, evmNext: nat) {
    function Next(evm: bool): nat {
      if evm then evmNext else bech32Next
    }

    /** After one more transaction of an account. */
    function Advanced(evm: bool): ChainState {
      if evm then this.(evmNext := evmNext + 1) else this.(bech32Next := bech32Next + 1)
    }
  }

  /**
   * A request and its promise handler, identified by `id`. `optsSequence` is
   * `signOpts.sequence`, `override` is `signOpts.explicitSignerData.sequence`.
   */
  datatype SignTxRequest = SignTxRequest(
    id: nat, reattempts: nat, optsSequence: Option<nat>, override: Option<nat>)

  /** A first attempt without options. */
  function Request(id: nat): SignTxRequest {
    SignTxRequest(id, 0, None, None)
  }

  /**
   * A signed transaction. `requestId` is the allocated sequence (the handler's `requestId`), `sequence` the one that was
   * signed, and `evm` the account it was taken from. `epoch` is bookkeeping of the model: the number of reloads before the allocation.
   */
  datatype BroadcastTxRequest = BroadcastTxRequest(
    request: SignTxRequest, granted: bool, evm: bool, requestId: nat, sequence: nat, epoch: nat)

  /** `Unreadable` is an error object without a message, on which the test for a mismatch throws. */
  datatype Reply = Accepted | SequenceMismatch | OtherError | Unreadable

  /** Where the `signTx` call under way is suspended. */
  datatype SignStage =
    | NotSigning
    | QueryingAccount
    | AccountAnswered(info: Option<Account>)
    | QueryingHeight
    | Signing(tx: BroadcastTxRequest)
    | SigningAsGrantee

  /** Where the `dispatchTx` call under way is suspended. */
  datatype DispatchStage = NotDispatching | Broadcasting | Replied(reply: Reply)

  /** A `reloadAccountSequence` call from outside the pipeline (it is public). */
  datatype OuterReload = NoReload | OuterQuerying | OuterAnswered(info: Option<Account>)

  datatype Settlement = Settlement(request: SignTxRequest, resolved: bool)

  /** A transaction the chain has received, and the sequence the chain expected then. */
  datatype Broadcast = Broadcast(tx: BroadcastTxRequest, expected: nat, reply: Reply)

  datatype Pipeline = Pipeline(
    config: Config,
    account: Option<Account>,
    invalidated: bool,                          // sequenceInvalidated
    signQueue: Queue<SignTxRequest>,            // txSignManager
    signStage: SignStage,
    dispatchQueue: Queue<BroadcastTxRequest>,   // txDispatchManager
    dispatchStage: DispatchStage,
    outer: OuterReload,
    // the surroundings
    chainNext: ChainState,                      // the sequences the chain accepts next
    submitted: nat,                             // requests submitted so far; their ids are below
    settled: seq<Settlement>,
    forgotten: seq<SignTxRequest>,              // requests dropped without a call of their handler
    broadcasts: seq<Broadcast>,
    epoch: nat)                                 // reloads completed so far

  datatype Event =
    | Submit(optsSequence: Option<nat>, override: Option<nat>, now: nat)
    | SignTimer(timer: nat, grantee: bool)
    | SignResume(grantee: bool)
    | AccountReply(info: Option<Account>)
    | AccountLoaded
    | AccountFailed
    | HeightReply
    | Signed(granteeSequence: nat, now: nat)
    | SignFailed(incompatible: bool)
    | DispatchTimer(timer: nat)
    | DispatchResume
    | Receive(consumed: bool, reply: Reply)
    | HandleReply(now: nat)
    | Invalidate
    | OuterCall
    | OuterReply(info: Option<Account>)
    | OuterLoaded
    | OuterFailed
    | OthersTransact(evm: bool)

  function Initial(config: Config, chainNext: ChainState): (s: Pipeline)
    ensures Valid(s)
  {
    Pipeline(config, None, false, Fresh(300, 1000), NotSigning, Fresh(300, 1000), NotDispatching,
             NoReload, chainNext, 0, [], [], [], 0)
  }

  // ----- the pieces of signTx and dispatchTx -----

  predicate NeedsReload(s: Pipeline) {
    s.account.None? || s.account.value.evm || s.invalidated
  }

  /** The synchronous start of `signTx`; `grantee`: a valid grantee may sign these messages. */
  function BeginSign(s: Pipeline, grantee: bool): Pipeline {
    if s.signQueue.current.None? then s
    else if grantee then s.(signStage := SigningAsGrantee)
    else if NeedsReload(s) then s.(invalidated := false, signStage := QueryingAccount)
    else BeforeHeight(s)
  }

  /** EIP-712 signers do not ask for a timeout height. */
  function BeforeHeight(s: Pipeline): Pipeline
    requires s.signQueue.current.Some?
  {
    if s.config.eip712Signer then Allocate(s) else s.(signStage := QueryingHeight)
  }

  /** Takes the next sequence of the cached account, if there is one, and starts signing. */
  function Allocate(s: Pipeline): Pipeline
    requires s.signQueue.current.Some?
  {
    var request := s.signQueue.current.value;
    var sequence := match s.account
      case Some(a) => a.sequence
      case None => request.optsSequence.GetOr(0);
    var evm := s.account.Some? && s.account.value.evm;
    var tx := BroadcastTxRequest(request, false, evm, sequence, request.override.GetOr(sequence), s.epoch);
    s.(signStage := Signing(tx),
       account := match s.account
         case Some(a) => Some(a.(sequence := sequence + 1))
         case None => None)
  }

  /** The end of `reloadAccountSequence`: a missing account leaves the cached one alone. */
  function LoadAccount(s: Pipeline, info: Option<Account>): Pipeline {
    s.(account := if info.Some? then info else s.account, epoch := s.epoch + 1)
  }

  function Settle(s: Pipeline, request: SignTxRequest, resolved: bool): Pipeline {
    s.(settled := s.settled + [Settlement(request, resolved)])
  }

  function BeginDispatch(s: Pipeline): Pipeline {
    if s.dispatchQueue.current.None? then s else s.(dispatchStage := Broadcasting)
  }

  /** The transaction that a `Signed` event puts on the dispatch queue. */
  function SignedTx(s: Pipeline, granteeSequence: nat): BroadcastTxRequest
    requires s.signStage.Signing? || s.signStage.SigningAsGrantee?
    requires s.signQueue.current.Some?
  {
    if s.signStage.Signing? then s.signStage.tx
    else
      var request := s.signQueue.current.value;
      var sequence := request.optsSequence.GetOr(granteeSequence);
      BroadcastTxRequest(request, true, false, sequence, request.override.GetOr(sequence), s.epoch)
  }

  /** The one automatic retry of `dispatchTx`. */
  predicate Retries(s: Pipeline, request: SignTxRequest, reply: Reply) {
    !s.config.disableRetryOnSequenceError && request.reattempts < 1 && reply == SequenceMismatch
  }

  /** The test for a mismatch throws inside the error handler: neither retried nor settled. */
  predicate Forgets(s: Pipeline, request: SignTxRequest, reply: Reply) {
    !s.config.disableRetryOnSequenceError && request.reattempts < 1 && reply == Unreadable
  }

  // ----- steps -----

  /**
   * Which events can happen. The chain consumes a transaction of the wallet's account only if
   * it carries the expected sequence, and reports a mismatch only if it does not; an account
   * query never reports more than the chain has accepted.
   */
  predicate Enabled(s: Pipeline, e: Event) {
    match e
    case Submit(_, _, _) => true
    case SignTimer(timer, _) => timer in s.signQueue.timers
    case SignResume(_) => s.signQueue.current.Some? && s.signStage.NotSigning?
    case AccountReply(info) => s.signStage.QueryingAccount? && Truthful(s, info)
    case AccountLoaded => s.signStage.AccountAnswered?
    case AccountFailed => s.signStage.QueryingAccount? || s.signStage.AccountAnswered?
    case HeightReply => s.signStage.QueryingHeight?
    case Signed(_, _) => s.signStage.Signing? || s.signStage.SigningAsGrantee?
    case SignFailed(_) => s.signStage.Signing? || s.signStage.SigningAsGrantee?
    case DispatchTimer(timer) => timer in s.dispatchQueue.timers
    case DispatchResume => s.dispatchQueue.current.Some? && s.dispatchStage.NotDispatching?
    case Receive(consumed, reply) =>
      s.dispatchStage.Broadcasting? &&
      (s.dispatchQueue.current.Some? && !s.dispatchQueue.current.value.granted ==>
        var tx := s.dispatchQueue.current.value;
        && (consumed ==> tx.sequence == s.chainNext.Next(tx.evm))
        && (reply == SequenceMismatch ==> !consumed && tx.sequence != s.chainNext.Next(tx.evm)))
    case HandleReply(_) => s.dispatchStage.Replied?
    case Invalidate => true
    case OuterCall => s.outer.NoReload?
    case OuterReply(info) => s.outer.OuterQuerying? && Truthful(s, info)
    case OuterLoaded => s.outer.OuterAnswered?
    case OuterFailed => !s.outer.NoReload?
    case OthersTransact(_) => true
  }

  predicate Truthful(s: Pipeline, info: Option<Account>) {
    info.Some? ==> info.value.sequence <= s.chainNext.Next(info.value.evm)
  }

  /** A suspended call always has a request at hand, and signs what it was given. */
  ghost predicate Valid(s: Pipeline) {
    && TaskQueue.Valid(s.signQueue)
    && TaskQueue.Valid(s.dispatchQueue)
    && (!s.signStage.NotSigning? ==> s.signQueue.current.Some?)
    && (s.signStage.Signing? ==> s.signStage.tx.request == s.signQueue.current.value && !s.signStage.tx.granted)
    && (!s.dispatchStage.NotDispatching? ==> s.dispatchQueue.current.Some?)
  }

  function Step(s: Pipeline, e: Event): Pipeline
    requires Valid(s) && Enabled(s, e)
  {
    match e
    case Submit(optsSequence, override, now) =>
      var request := SignTxRequest(s.submitted, 0, optsSequence, override);
      s.(signQueue := AfterEnqueue(s.signQueue, request, false, now), submitted := s.submitted + 1)
    case SignTimer(timer, grantee) =>
      var s1 := s.(signQueue := AfterFire(s.signQueue, timer));
      if s.signQueue.isProcessingQueue then s1 else BeginSign(s1, grantee)
    case SignResume(grantee) =>
      BeginSign(s.(signQueue := Advance(s.signQueue)), grantee)
    case AccountReply(info) =>
      s.(signStage := AccountAnswered(info))
    case AccountLoaded =>
      BeforeHeight(LoadAccount(s, s.signStage.info))
    case AccountFailed =>
      Settle(s, s.signQueue.current.value, false).(signStage := NotSigning)
    case HeightReply =>
      Allocate(s)
    case Signed(granteeSequence, now) =>
      s.(dispatchQueue := AfterEnqueue(s.dispatchQueue, SignedTx(s, granteeSequence), false, now),
         signStage := NotSigning)
    case SignFailed(incompatible) =>
      Settle(s, s.signQueue.current.value, false)
        .(signStage := NotSigning, invalidated := s.invalidated || (incompatible && s.signStage.Signing?))
    case DispatchTimer(timer) =>
      var s1 := s.(dispatchQueue := AfterFire(s.dispatchQueue, timer));
      if s.dispatchQueue.isProcessingQueue then s1 else BeginDispatch(s1)
    case DispatchResume =>
      BeginDispatch(s.(dispatchQueue := Advance(s.dispatchQueue)))
    case Receive(consumed, reply) =>
      var tx := s.dispatchQueue.current.value;
      s.(dispatchStage := Replied(reply),
         broadcasts := s.broadcasts + [Broadcast(tx, s.chainNext.Next(tx.evm), reply)],
         chainNext := if consumed && !tx.granted then s.chainNext.Advanced(tx.evm) else s.chainNext)
    case HandleReply(now) =>
      var request := s.dispatchQueue.current.value.request;
      var s1 := s.(dispatchStage := NotDispatching);
      if Retries(s, request, s.dispatchStage.reply) then
        s1.(invalidated := true,
            signQueue := AfterEnqueue(s.signQueue, request.(reattempts := request.reattempts + 1), false, now))
      else if Forgets(s, request, s.dispatchStage.reply) then s1.(forgotten := s.forgotten + [request])
      else Settle(s1, request, s.dispatchStage.reply == Accepted)
    case Invalidate =>
      s.(invalidated := true)
    case OuterCall =>
      s.(outer := OuterQuerying, invalidated := false)
    case OuterReply(info) =>
      s.(outer := OuterAnswered(info))
    case OuterLoaded =>
      LoadAccount(s, s.outer.info).(outer := NoReload)
    case OuterFailed =>
      s.(outer := NoReload)
    case OthersTransact(evm) =>
      s.(chainNext := s.chainNext.Advanced(evm))
  }

  lemma StepValid(s: Pipeline, e: Event)
    requires Valid(s) && Enabled(s, e)
    ensures Valid(Step(s, e))
  {
    QueuesStayValid(s, e);
    match e
    case SignTimer(_, _) =>
    case SignResume(_) =>
    case DispatchTimer(_) =>
    case _ =>
  }

  lemma QueuesStayValid(s: Pipeline, e: Event)
    requires Valid(s) && Enabled(s, e)
    ensures TaskQueue.Valid(Step(s, e).signQueue)
    ensures TaskQueue.Valid(Step(s, e).dispatchQueue)
  {
    match e
    case Submit(o, x, now) =>
      TaskQueue.StepValid(s.signQueue, Enqueue(SignTxRequest(s.submitted, 0, o, x), false, now));
    case SignTimer(timer, _) =>
      TaskQueue.StepValid(s.signQueue, Fire(timer));
    case SignResume(_) =>
      TaskQueue.StepValid(s.signQueue, ItemSettled(false));
    case Signed(g, now) =>
      TaskQueue.StepValid(s.dispatchQueue, Enqueue(SignedTx(s, g), false, now));
    case DispatchTimer(timer) =>
      TaskQueue.StepValid(s.dispatchQueue, Fire(timer));
    case DispatchResume =>
      TaskQueue.StepValid(s.dispatchQueue, ItemSettled(false));
    case HandleReply(now) =>
      var r := s.dispatchQueue.current.value.request;
      TaskQueue.StepValid(s.signQueue, Enqueue(r.(reattempts := r.reattempts + 1), false, now));
    case _ =>
  }

  // ----- runs -----

  ghost predicate Runnable(s: Pipeline, es: seq<Event>)
    requires Valid(s)
    decreases |es|
  {
    es == [] ||
    (Enabled(s, es[0]) && (StepValid(s, es[0]); Runnable(Step(s, es[0]), es[1..])))
  }

  ghost function Run(s: Pipeline, es: seq<Event>): (r: Pipeline)
    requires Valid(s) && Runnable(s, es)
    ensures Valid(r)
    decreases |es|
  {
    if es == [] then s else (StepValid(s, es[0]); Run(Step(s, es[0]), es[1..]))
  }

  lemma {:induction false} RunSnoc(s: Pipeline, es: seq<Event>, e: Event)
    requires Valid(s) && Runnable(s, es) && Enabled(Run(s, es), e)
    ensures Runnable(s, es + [e]) && Run(s, es + [e]) == Step(Run(s, es), e)
    decreases |es|
  {
    if es == [] {
      StepValid(s, e);
      assert es + [e] == [e];
    } else {
      StepValid(s, es[0]);
      RunSnoc(Step(s, es[0]), es[1..], e);
      assert (es + [e])[1..] == es[1..] + [e];
    }
  }

  /** One more event of a run. */
  lemma Reaches(s: Pipeline, es: seq<Event>, k: nat, before: Pipeline, after: Pipeline)
    requires Valid(s) && k < |es| && Runnable(s, es[..k]) && Run(s, es[..k]) == before
    requires Enabled(before, es[k]) && Step(before, es[k]) == after
    ensures Runnable(s, es[..k + 1]) && Run(s, es[..k + 1]) == after
  {
    RunSnoc(s, es[..k], es[k]);
    assert es[..k + 1] == es[..k] + [es[k]];
  }
}
