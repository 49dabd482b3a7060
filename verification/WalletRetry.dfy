/**
 * The retry after a sequence mismatch: the wallet does not sign the request again before it has
 * reloaded its account, unless that reload fails or is called off by one from outside.
 */
module WalletRetry {
  import opened WalletPipeline
  import opened WalletFlow
  import opened WalletFate

  predicate Reloading(s: Pipeline) {
    s.signStage.QueryingAccount? || s.signStage.AccountAnswered?
  }

  predicate AtHand(s: Pipeline, id: nat) {
    s.signQueue.current.Some? && s.signQueue.current.value.id == id
  }

  /** A sequence given to the request was given after more than `epoch` reloads. */
  predicate AllocatedAfter(s: Pipeline, id: nat, epoch: nat) {
    s.signStage.Signing? && s.signStage.tx.request.id == id ==> s.signStage.tx.epoch > epoch
  }

  /** There has been a reload since, or there will be one before the request gets a sequence. */
  predicate WillReload(s: Pipeline, id: nat, epoch: nat) {
    && AllocatedAfter(s, id, epoch)
    && (s.epoch > epoch
        || ((s.invalidated || Reloading(s)) && !(s.signStage.QueryingHeight? && AtHand(s, id))))
  }

  /**
   * The reload under way fails and no other one is asked for, or one that is asked for but not
   * under way is called off by one from outside.
   */
  predicate LosesReload(s: Pipeline, e: Event) {
    (e.AccountFailed? && !s.invalidated) || (e.OuterCall? && !Reloading(s))
  }

  ghost predicate NoReloadLost(s: Pipeline, es: seq<Event>)
    requires Valid(s) && Runnable(s, es)
    decreases |es|
  {
    es == [] || (!LosesReload(s, es[0]) && (StepValid(s, es[0]); NoReloadLost(Step(s, es[0]), es[1..])))
  }

  lemma StepWillReload(s: Pipeline, e: Event, id: nat, epoch: nat)
    requires Valid(s) && Enabled(s, e) && !LosesReload(s, e) && s.epoch >= epoch
    requires WillReload(s, id, epoch)
    ensures WillReload(Step(s, e), id, epoch) && Step(s, e).epoch >= epoch
  {
    match e
    case SignTimer(_, _) =>
    case SignResume(_) =>
    case AccountLoaded =>
    case HeightReply =>
    case _ =>
  }

  /** Exactly which steps lose the promise of a reload. */
  lemma ReloadIsLostExactly(s: Pipeline, e: Event, id: nat)
    requires Valid(s) && Enabled(s, e) && WillReload(s, id, s.epoch)
    ensures WillReload(Step(s, e), id, s.epoch) <==> !LosesReload(s, e)
  {
    if !LosesReload(s, e) {
      StepWillReload(s, e, id, s.epoch);
    }
  }

  lemma {:induction false} RunWillReload(s: Pipeline, es: seq<Event>, id: nat, epoch: nat)
    requires Valid(s) && Runnable(s, es) && s.epoch >= epoch && WillReload(s, id, epoch)
    requires NoReloadLost(s, es)
    ensures WillReload(Run(s, es), id, epoch)
    decreases |es|
  {
    if es == [] {
    } else {
      StepValid(s, es[0]);
      StepWillReload(s, es[0], id, epoch);
      RunWillReload(Step(s, es[0]), es[1..], id, epoch);
    }
  }

  /** A request that is being dispatched is not being signed. */
  lemma NotBeingSigned(config: Config, chainNext: ChainState, es: seq<Event>, id: nat)
    requires Runnable(Initial(config, chainNext), es)
    requires var s := Run(Initial(config, chainNext), es);
             s.dispatchStage.Replied? && s.dispatchQueue.current.value.request.id == id
    ensures var s := Run(Initial(config, chainNext), es);
            s.signStage.NotSigning? || s.signQueue.current.value.id != id
  {
    var s := Run(Initial(config, chainNext), es);
    RunConserves(Initial(config, chainNext), es, id);
    assert BeingDispatched(s, Is(id)) == 1;
    assert Total(s, Is(id)) <= 1;
    assert BeingSigned(s, Is(id)) == 0;
  }

  /**
   * In every run: when a request is retried after a mismatch, then as long as no step loses the
   * promise of a reload, the wallet gives that request a sequence of its own only after another
   * reload has been completed.
   */
  lemma RetryFollowsReload(config: Config, chainNext: ChainState, es: seq<Event>, now: nat, later: seq<Event>)
    requires Runnable(Initial(config, chainNext), es)
    requires var s := Run(Initial(config, chainNext), es);
             && s.dispatchStage.Replied?
             && Retries(s, s.dispatchQueue.current.value.request, s.dispatchStage.reply)
             && (StepValid(s, HandleReply(now));
                 Runnable(Step(s, HandleReply(now)), later) && NoReloadLost(Step(s, HandleReply(now)), later))
    ensures var s := Run(Initial(config, chainNext), es);
            (StepValid(s, HandleReply(now));
             AllocatedAfter(Run(Step(s, HandleReply(now)), later), s.dispatchQueue.current.value.request.id, s.epoch))
  {
    var s := Run(Initial(config, chainNext), es);
    var id, s1 := s.dispatchQueue.current.value.request.id, Step(s, HandleReply(now));
    StepValid(s, HandleReply(now));
    NotBeingSigned(config, chainNext, es, id);
    RunWillReload(s1, later, id, s.epoch);
  }
}
