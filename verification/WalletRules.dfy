/**
 * Single rules of the pipeline: which sequence a transaction carries, when the account is loaded
 * again, and that both queues keep working while no timer fires during a pass.
 */
module WalletRules {
  import opened Basics
  import opened WalletPipeline
  import opened WalletAgreement

  // ----- sequences -----

  /** The account that a step allocates from, if the wallet has one. */
  function AccountAtHand(s: Pipeline, e: Event): Option<Account>
    requires Enabled(s, e)
  {
    if e.AccountLoaded? && s.signStage.info.Some? then s.signStage.info else s.account
  }

  /**
   * A transaction that the wallet signs itself takes the next sequence of the account at hand,
   * which is advanced by one; without an account it takes the sequence option, or 0. A sequence
   * given explicitly is signed instead of the one taken.
   */
  lemma OwnSequence(s: Pipeline, e: Event)
    requires Valid(s) && Enabled(s, e) && Allocates(s, e)
    ensures var tx, r := Step(s, e).signStage.tx, Step(s, e).signQueue.current.value;
            && tx.request == r && !tx.granted
            && (match AccountAtHand(s, e)
                case Some(a) => tx.requestId == a.sequence && tx.evm == a.evm && Step(s, e).account == Some(Account(a.sequence + 1, a.evm))
                case None => Step(s, e).account == None && !tx.evm && tx.requestId == if r.optsSequence.Some? then r.optsSequence.value else 0)
            && tx.sequence == (if r.override.Some? then r.override.value else tx.requestId)
  {
    match e
    case SignTimer(_, _) =>
    case SignResume(_) =>
    case AccountLoaded =>
    case HeightReply =>
    case _ =>
  }

  /** A transaction that a grantee signs takes the sequence option, or else the grantee's next sequence; the wallet's account stays. */
  lemma GranteeSequence(s: Pipeline, granteeSequence: nat, now: nat)
    requires Valid(s) && s.signStage.SigningAsGrantee?
    ensures var s', r := Step(s, Signed(granteeSequence, now)), s.signQueue.current.value;
            && s'.account == s.account && |s'.dispatchQueue.queue| == |s.dispatchQueue.queue| + 1
            && var tx := s'.dispatchQueue.queue[0];
               && tx.request == r && tx.granted
               && tx.requestId == (if r.optsSequence.Some? then r.optsSequence.value else granteeSequence)
               && tx.sequence == (if r.override.Some? then r.override.value else tx.requestId)
  {
  }

  // ----- reloads -----

  /** The step puts the next request at hand. */
  predicate TakesNext(s: Pipeline, e: Event) {
    s.signQueue.queue != [] && (e.SignResume? || (e.SignTimer? && !s.signQueue.isProcessingQueue))
  }

  /**
   * The next request goes to the grantee if there is one for it; otherwise the account is loaded
   * first exactly when there is none, when it is the EVM one, or when the sequence has been
   * invalidated.
   */
  lemma ReloadsExactly(s: Pipeline, e: Event)
    requires Valid(s) && Enabled(s, e) && TakesNext(s, e)
    ensures var stage, grantee := Step(s, e).signStage, e.grantee;
            && (stage.SigningAsGrantee? <==> grantee)
            && (!grantee ==> (stage.QueryingAccount? <==> s.account == None || s.account.value.evm || s.invalidated))
            && (!grantee && !stage.QueryingAccount? ==> (stage.Signing? <==> s.config.eip712Signer) && (stage.QueryingHeight? <==> !s.config.eip712Signer))
  {
  }

  /** A reload starts, in the pipeline or from outside. */
  predicate StartsReload(s: Pipeline, e: Event)
    requires Valid(s) && Enabled(s, e)
  {
    e.OuterCall? || (TakesNext(s, e) && Step(s, e).signStage.QueryingAccount?)
  }

  /** An own signature that the signer refuses as incompatible, a retry, or a call from outside. */
  predicate Invalidates(s: Pipeline, e: Event)
    requires Valid(s) && Enabled(s, e)
  {
    || e.Invalidate?
    || (e.SignFailed? && e.incompatible && s.signStage.Signing?)
    || (e.HandleReply? && s.dispatchStage.reply == SequenceMismatch && !s.config.disableRetryOnSequenceError
        && s.dispatchQueue.current.value.request.reattempts == 0)
  }

  /** Exactly which steps leave the sequence invalidated. */
  lemma InvalidatedExactly(s: Pipeline, e: Event)
    requires Valid(s) && Enabled(s, e)
    ensures Step(s, e).invalidated <==> Invalidates(s, e) || (s.invalidated && !StartsReload(s, e))
  {
    match e
    case SignTimer(_, _) =>
    case SignResume(_) =>
    case AccountLoaded =>
    case HandleReply(_) =>
    case _ =>
  }

  // ----- both queues keep working -----

  /** Waiting requests have a pass or a timer, on both queues, and no threshold is stale. */
  ghost predicate BothAwake(s: Pipeline) {
    && TaskQueue.Awake(s.signQueue) && !TaskQueue.Stale(s.signQueue)
    && TaskQueue.Awake(s.dispatchQueue) && !TaskQueue.Stale(s.dispatchQueue)
  }

  /** No timer fires during a pass of its queue. */
  predicate Calm(s: Pipeline, e: Event) {
    && !(e.SignTimer? && s.signQueue.isProcessingQueue)
    && !(e.DispatchTimer? && s.dispatchQueue.isProcessingQueue)
    && (e.Submit? || e.Signed? || e.HandleReply? ==> e.now > 0)
  }

  lemma QueueStaysAwake<T>(q: TaskQueue.Queue<T>, e: TaskQueue.Event<T>)
    requires TaskQueue.Valid(q) && TaskQueue.Enabled(q, e) && TaskQueue.Awake(q) && !TaskQueue.Stale(q) && TaskQueue.Timed(e)
    requires !(e.Fire? && q.isProcessingQueue) && !(e.Enqueue? && e.skipTrigger)
    ensures TaskQueue.Awake(TaskQueue.Step(q, e)) && !TaskQueue.Stale(TaskQueue.Step(q, e))
  {
    assert [e][1..] == [];
    TaskQueue.SmoothRunsStayAwake(q, [e]);
  }

  lemma StepStaysAwake(s: Pipeline, e: Event)
    requires Valid(s) && Enabled(s, e) && BothAwake(s) && Calm(s, e)
    ensures BothAwake(Step(s, e))
  {
    match e
    case Submit(o, x, now) =>
      QueueStaysAwake(s.signQueue, TaskQueue.Enqueue(SignTxRequest(s.submitted, 0, o, x), false, now));
    case SignTimer(timer, _) =>
      QueueStaysAwake(s.signQueue, TaskQueue.Fire(timer));
    case SignResume(_) =>
      QueueStaysAwake(s.signQueue, TaskQueue.ItemSettled(false));
    case Signed(g, now) =>
      QueueStaysAwake(s.dispatchQueue, TaskQueue.Enqueue(SignedTx(s, g), false, now));
    case DispatchTimer(timer) =>
      QueueStaysAwake(s.dispatchQueue, TaskQueue.Fire(timer));
    case DispatchResume =>
      QueueStaysAwake(s.dispatchQueue, TaskQueue.ItemSettled(false));
    case HandleReply(now) =>
      var r := s.dispatchQueue.current.value.request;
      QueueStaysAwake(s.signQueue, TaskQueue.Enqueue(r.(reattempts := r.reattempts + 1), false, now));
    case _ =>
  }

  ghost predicate AllCalm(s: Pipeline, es: seq<Event>)
    requires Valid(s) && Runnable(s, es)
    decreases |es|
  {
    es == [] || (Calm(s, es[0]) && (StepValid(s, es[0]); AllCalm(Step(s, es[0]), es[1..])))
  }

  lemma {:induction false} CalmRunsStayAwake(s: Pipeline, es: seq<Event>)
    requires Valid(s) && Runnable(s, es) && BothAwake(s) && AllCalm(s, es)
    ensures BothAwake(Run(s, es))
    decreases |es|
  {
    if es == [] {
    } else {
      StepValid(s, es[0]);
      StepStaysAwake(s, es[0]);
      CalmRunsStayAwake(Step(s, es[0]), es[1..]);
    }
  }

  /** In every run in which no timer fires during a pass, waiting requests, retried ones included, always have a pass or a timer. */
  lemma WalletStaysAwake(config: Config, chainNext: ChainState, es: seq<Event>)
    requires Runnable(Initial(config, chainNext), es) && AllCalm(Initial(config, chainNext), es)
    ensures BothAwake(Run(Initial(config, chainNext), es))
  {
    CalmRunsStayAwake(Initial(config, chainNext), es);
  }
}
