/**
 * How handlers are called: a request is resolved exactly when the chain accepted its last
 * broadcast, and rejected otherwise.
 */
module WalletOutcome {
  import opened Basics
  import opened WalletPipeline
  import opened WalletFlow
  import opened WalletFate

  /** The reply to the last broadcast of a request, if it has been broadcast. */
  function LastReply(broadcasts: seq<Broadcast>, id: nat): Option<Reply> {
    if broadcasts == [] then None
    else if Last(broadcasts).tx.request.id == id then Some(Last(broadcasts).reply)
    else LastReply(Init(broadcasts), id)
  }

  predicate IsAccepted(broadcasts: seq<Broadcast>, id: nat) {
    LastReply(broadcasts, id) == Some(Accepted)
  }

  /** The request is being dispatched and its reply has come. */
  predicate Answered(s: Pipeline, id: nat) {
    s.dispatchStage.Replied? && s.dispatchQueue.current.Some? && s.dispatchQueue.current.value.request.id == id
  }

  ghost predicate IsSettled(s: Pipeline, id: nat) {
    exists i :: 0 <= i < |s.settled| && s.settled[i].request.id == id
  }

  /** A reply that has come is the last one; settlements are right; an accepted request is settled or about to be. */
  ghost predicate Rightly(s: Pipeline, id: nat) {
    && (Answered(s, id) ==> LastReply(s.broadcasts, id) == Some(s.dispatchStage.reply))
    && (forall i :: 0 <= i < |s.settled| && s.settled[i].request.id == id ==>
          (s.settled[i].resolved <==> IsAccepted(s.broadcasts, id)))
    && (IsAccepted(s.broadcasts, id) ==> Answered(s, id) || IsSettled(s, id))
  }

  lemma {:induction false} SettledWeighs(rs: seq<SignTxRequest>, i: nat, id: nat)
    requires i < |rs| && rs[i].id == id
    ensures Sum(rs, AtRest, Is(id)) >= 1
  {
    if i == 0 {
    } else {
      SettledWeighs(rs[1..], i - 1, id);
    }
  }

  /** A request that is being signed or dispatched has not been settled, nor is it at both places. */
  lemma OnePlaceOnly(s: Pipeline, id: nat)
    requires Valid(s) && Conserved(s, id)
    ensures BeingSigned(s, Is(id)) + BeingDispatched(s, Is(id)) <= 1
    ensures BeingSigned(s, Is(id)) + BeingDispatched(s, Is(id)) == 1 ==> !IsSettled(s, id)
  {
    if i :| 0 <= i < |s.settled| && s.settled[i].request.id == id {
      SettledWeighs(Settlers(s.settled), i, id);
    }
  }

  lemma AnsweredIsDispatched(s: Pipeline, id: nat)
    requires Valid(s)
    ensures Answered(s, id) ==> BeingDispatched(s, Is(id)) == 1
  {
  }

  /** Steps that neither settle nor receive anything. */
  predicate Silent(s: Pipeline, e: Event) {
    !e.AccountFailed? && !e.SignFailed? && !e.Receive? && !e.HandleReply?
  }

  lemma SilentLogs(s: Pipeline, e: Event)
    requires Valid(s) && Enabled(s, e) && Silent(s, e)
    ensures Step(s, e).settled == s.settled && Step(s, e).broadcasts == s.broadcasts
  {
  }

  lemma SilentStage(s: Pipeline, e: Event, id: nat)
    requires Valid(s) && Enabled(s, e) && Silent(s, e)
    ensures Answered(Step(s, e), id) <==> Answered(s, id)
    ensures Answered(s, id) ==> Step(s, e).dispatchStage == s.dispatchStage
  {
  }

  lemma SettledMore(s: Pipeline, s': Pipeline, st: Settlement, id: nat)
    requires s'.settled == s.settled + [st]
    ensures IsSettled(s', id) <==> IsSettled(s, id) || st.request.id == id
  {
    assert s'.settled[|s.settled|] == st;
    if i :| 0 <= i < |s.settled| && s.settled[i].request.id == id {
      assert s'.settled[i].request.id == id;
    }
  }

  lemma FailureStep(s: Pipeline, e: Event, id: nat)
    requires Valid(s) && Enabled(s, e) && Conserved(s, id) && Rightly(s, id) && (e.AccountFailed? || e.SignFailed?)
    ensures Rightly(Step(s, e), id)
  {
    var r := s.signQueue.current.value;
    SettledMore(s, Step(s, e), Settlement(r, false), id);
    if r.id == id {
      assert BeingSigned(s, Is(id)) == 1;
      OnePlaceOnly(s, id);
      AnsweredIsDispatched(s, id);
    }
  }

  lemma ReceiveStep(s: Pipeline, e: Event, id: nat)
    requires Valid(s) && Enabled(s, e) && Conserved(s, id) && Rightly(s, id) && e.Receive?
    ensures Rightly(Step(s, e), id)
  {
    var all := Step(s, e).broadcasts;
    assert Init(all) == s.broadcasts;
    if s.dispatchQueue.current.value.request.id == id {
      assert BeingDispatched(s, Is(id)) == 1;
      OnePlaceOnly(s, id);
    }
  }

  lemma HandleStep(s: Pipeline, e: Event, id: nat)
    requires Valid(s) && Enabled(s, e) && Conserved(s, id) && Rightly(s, id) && e.HandleReply?
    ensures Rightly(Step(s, e), id)
  {
    var r, reply := s.dispatchQueue.current.value.request, s.dispatchStage.reply;
    if r.id == id {
      assert BeingDispatched(s, Is(id)) == 1;
      OnePlaceOnly(s, id);
    }
    if !Retries(s, r, reply) && !Forgets(s, r, reply) {
      SettledMore(s, Step(s, e), Last(Step(s, e).settled), id);
    }
  }

  lemma StepRightly(s: Pipeline, e: Event, id: nat)
    requires Valid(s) && Enabled(s, e) && Conserved(s, id) && Rightly(s, id)
    ensures Rightly(Step(s, e), id)
  {
    if e.AccountFailed? || e.SignFailed? {
      FailureStep(s, e, id);
    } else if e.Receive? {
      ReceiveStep(s, e, id);
    } else if e.HandleReply? {
      HandleStep(s, e, id);
    } else {
      SilentLogs(s, e);
      SilentStage(s, e, id);
    }
  }

  lemma {:induction false} RunRightly(s: Pipeline, es: seq<Event>, id: nat)
    requires Valid(s) && Runnable(s, es) && Conserved(s, id) && Rightly(s, id)
    ensures Rightly(Run(s, es), id)
    decreases |es|
  {
    if es == [] {
    } else {
      StepValid(s, es[0]);
      StepRightly(s, es[0], id);
      RunConserves(s, es[..1], id);
      assert Run(s, es[..1]) == Step(s, es[0]) by {
        assert es[..1] == [es[0]] && [es[0]][1..] == [];
      }
      RunRightly(Step(s, es[0]), es[1..], id);
    }
  }

  /**
   * What becomes of a request when its reply is handled: a mismatch on the first attempt is
   * retried and an error without a message on the first attempt is forgotten, unless the retry is
   * disabled; anything else settles it.
   */
  lemma HandledExactly(s: Pipeline, now: nat)
    requires Valid(s) && s.dispatchStage.Replied?
    ensures var s', r := Step(s, HandleReply(now)), s.dispatchQueue.current.value.request;
            var first := r.reattempts == 0 && !s.config.disableRetryOnSequenceError;
            && s'.signQueue.queue == (if first && s.dispatchStage.reply == SequenceMismatch then [r.(reattempts := 1)] else []) + s.signQueue.queue
            && s'.forgotten == s.forgotten + (if first && s.dispatchStage.reply == Unreadable then [r] else [])
            && s'.settled == s.settled + (if first && s.dispatchStage.reply in {SequenceMismatch, Unreadable} then []
                                          else [Settlement(r, s.dispatchStage.reply == Accepted)])
  {
    assert [] + s.signQueue.queue == s.signQueue.queue;
  }

  /**
   * In every run, whatever fails in between and whether or not a grantee signs: a request is
   * settled as resolved exactly when the reply to its last broadcast is that the chain accepted
   * it. One that was never broadcast, or whose last broadcast failed, is only ever rejected.
   */
  lemma ResolvedExactly(config: Config, chainNext: ChainState, es: seq<Event>, i: nat)
    requires Runnable(Initial(config, chainNext), es) && i < |Run(Initial(config, chainNext), es).settled|
    ensures var s := Run(Initial(config, chainNext), es);
            s.settled[i].resolved <==> LastReply(s.broadcasts, s.settled[i].request.id) == Some(Accepted)
  {
    RunRightly(Initial(config, chainNext), es, Run(Initial(config, chainNext), es).settled[i].request.id);
  }

  /** When the pipeline is quiet, a request that the chain accepted last has been resolved. */
  lemma AcceptedIsResolved(config: Config, chainNext: ChainState, es: seq<Event>, id: nat)
    requires Runnable(Initial(config, chainNext), es) && Quiet(Run(Initial(config, chainNext), es))
    requires LastReply(Run(Initial(config, chainNext), es).broadcasts, id) == Some(Accepted)
    ensures var s := Run(Initial(config, chainNext), es);
            exists i :: 0 <= i < |s.settled| && s.settled[i].request.id == id && s.settled[i].resolved
  {
    RunRightly(Initial(config, chainNext), es, id);
  }
}
