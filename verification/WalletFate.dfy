/**
 * What becomes of the requests submitted to the wallet: none is lost or settled twice, the work
 * on them ends, and each is broadcast at most twice, the second time only after a mismatch.
 */
module WalletFate {
  import opened WalletPipeline
  import opened WalletFlow

  // ----- conservation -----

  function Is(id: nat): Weight {
    (p: Place, r: SignTxRequest) => if r.id == id then 1 else 0
  }

  /** Each submitted id is at one place, and no other id is anywhere. */
  ghost predicate Conserved(s: Pipeline, id: nat)
    requires Valid(s)
  {
    Total(s, Is(id)) == if id < s.submitted then 1 else 0
  }

  lemma {:induction false} RunConserves(s: Pipeline, es: seq<Event>, id: nat)
    requires Valid(s) && Runnable(s, es) && Conserved(s, id)
    ensures Conserved(Run(s, es), id)
    decreases |es|
  {
    if es == [] {
    } else {
      Flow(s, es[0], Is(id));
      MovesAreLegal(s, es[0]);
      RunConserves(Step(s, es[0]), es[1..], id);
    }
  }

  /**
   * In every reachable state a submitted request is on the sign queue, being signed, on the
   * dispatch queue, being dispatched, settled or forgotten: exactly one of these, once. In
   * particular its handler has been settled at most once.
   */
  lemma ExactlyOnePlace(config: Config, chainNext: ChainState, es: seq<Event>, id: nat)
    requires Runnable(Initial(config, chainNext), es)
    requires id < Run(Initial(config, chainNext), es).submitted
    ensures var s, w := Run(Initial(config, chainNext), es), Is(id);
            OnSignQueue(s, w) + BeingSigned(s, w) + OnDispatchQueue(s, w) + BeingDispatched(s, w) + SettledOnes(s, w)
            + ForgottenOnes(s, w) == 1
  {
    RunConserves(Initial(config, chainNext), es, id);
  }

  /** Nothing waits and no call is suspended. */
  predicate Quiet(s: Pipeline) {
    s.signQueue.queue == [] && s.signStage.NotSigning? && s.dispatchQueue.queue == [] && s.dispatchStage.NotDispatching?
  }

  /** When the pipeline is quiet, every handler has been settled exactly once, or was forgotten once. */
  lemma QuietMeansSettled(config: Config, chainNext: ChainState, es: seq<Event>, id: nat)
    requires Runnable(Initial(config, chainNext), es)
    requires Quiet(Run(Initial(config, chainNext), es))
    ensures var s := Run(Initial(config, chainNext), es);
            SettledOnes(s, Is(id)) + ForgottenOnes(s, Is(id)) == if id < s.submitted then 1 else 0
  {
    RunConserves(Initial(config, chainNext), es, id);
  }

  /** The error handler of a broadcast threw, for want of a message in the error. */
  predicate Throws(s: Pipeline, e: Event)
    requires Valid(s) && Enabled(s, e)
  {
    e.HandleReply? && Forgets(s, s.dispatchQueue.current.value.request, s.dispatchStage.reply)
  }

  ghost predicate NothingThrows(s: Pipeline, es: seq<Event>)
    requires Valid(s) && Runnable(s, es)
    decreases |es|
  {
    es == [] || (!Throws(s, es[0]) && (StepValid(s, es[0]); NothingThrows(Step(s, es[0]), es[1..])))
  }

  /** Requests are forgotten in exactly those runs in which an error handler throws. */
  lemma {:induction false} ForgottenExactly(s: Pipeline, es: seq<Event>)
    requires Valid(s) && Runnable(s, es)
    ensures s.forgotten <= Run(s, es).forgotten
    ensures Run(s, es).forgotten == s.forgotten <==> NothingThrows(s, es)
    decreases |es|
  {
    if es == [] {
    } else {
      StepValid(s, es[0]);
      ForgottenStep(s, es[0]);
      ForgottenExactly(Step(s, es[0]), es[1..]);
    }
  }

  lemma ForgottenStep(s: Pipeline, e: Event)
    requires Valid(s) && Enabled(s, e)
    ensures Step(s, e).forgotten ==
            s.forgotten + if Throws(s, e) then [s.dispatchQueue.current.value.request] else []
  {
  }

  /** When the pipeline is quiet after a run in which nothing throws, every handler has been settled exactly once. */
  lemma QuietRunsSettle(config: Config, chainNext: ChainState, es: seq<Event>, id: nat)
    requires Runnable(Initial(config, chainNext), es) && NothingThrows(Initial(config, chainNext), es)
    requires Quiet(Run(Initial(config, chainNext), es))
    ensures var s := Run(Initial(config, chainNext), es);
            SettledOnes(s, Is(id)) == if id < s.submitted then 1 else 0
  {
    QuietMeansSettled(config, chainNext, es, id);
    ForgottenExactly(Initial(config, chainNext), es);
  }

  // ----- termination -----

  function EffortAt(p: Place, r: SignTxRequest): nat {
    if r.reattempts == 0 && Rank(p) > 0 then Rank(p) + 8 else Rank(p)
  }

  /** How far a request still has to go, counting a retry that is still open. */
  function Effort(): Weight {
    (p: Place, r: SignTxRequest) => EffortAt(p, r)
  }

  /** Every move of a request lowers the total effort; only a new request raises it. */
  lemma EffortFalls(s: Pipeline, e: Event)
    requires Valid(s) && Enabled(s, e)
    ensures Valid(Step(s, e))
    ensures MoveOf(s, e).Shift? ==> Total(Step(s, e), Effort()) < Total(s, Effort())
    ensures MoveOf(s, e).Enter? ==> Total(Step(s, e), Effort()) == Total(s, Effort()) + 16
    ensures MoveOf(s, e).Stay? ==> Total(Step(s, e), Effort()) == Total(s, Effort())
  {
    Flow(s, e, Effort());
    MovesAreLegal(s, e);
    LegalMovesTakeEffort(MoveOf(s, e));
    assert e.Submit? ==> MoveOf(s, e).request.reattempts == 0;
  }

  lemma LegalMovesTakeEffort(m: Move)
    requires Legal(m)
    ensures m.Shift? ==> Change(m, Effort()) < 0
    ensures m.Enter? && m.request.reattempts == 0 ==> Change(m, Effort()) == 16
    ensures m.Stay? ==> Change(m, Effort()) == 0
  {
  }

  ghost function Moves(s: Pipeline, es: seq<Event>): nat
    requires Valid(s) && Runnable(s, es)
    decreases |es|
  {
    if es == [] then 0
    else
      StepValid(s, es[0]);
      (if MoveOf(s, es[0]).Shift? then 1 else 0) + Moves(Step(s, es[0]), es[1..])
  }

  lemma {:induction false} MovesFrom(s: Pipeline, es: seq<Event>)
    requires Valid(s) && Runnable(s, es)
    ensures Moves(s, es) + Total(Run(s, es), Effort()) <= Total(s, Effort()) + 16 * (Run(s, es).submitted - s.submitted)
    decreases |es|
  {
    if es == [] {
    } else {
      EffortFalls(s, es[0]);
      MovesAreLegal(s, es[0]);
      MovesFrom(Step(s, es[0]), es[1..]);
    }
  }

  /**
   * In any run, n requests are moved at most 16 n times in all: signing, dispatching and
   * retrying them cannot go on for ever, whatever the signer and the chain answer.
   */
  lemma WorkIsBounded(config: Config, chainNext: ChainState, es: seq<Event>)
    requires Runnable(Initial(config, chainNext), es)
    ensures var s := Initial(config, chainNext); Moves(s, es) <= 16 * Run(s, es).submitted
  {
    var s := Initial(config, chainNext);
    MovesFrom(s, es);
  }

  // ----- broadcasts -----

  function Count(log: seq<Broadcast>, f: Broadcast -> bool): nat {
    if log == [] then 0 else (if f(log[0]) then 1 else 0) + Count(log[1..], f)
  }

  lemma {:induction false} CountSnoc(log: seq<Broadcast>, b: Broadcast, f: Broadcast -> bool)
    ensures Count(log + [b], f) == Count(log, f) + if f(b) then 1 else 0
  {
    if log == [] {
      assert log + [b] == [b];
    } else {
      CountSnoc(log[1..], b, f);
      assert (log + [b])[1..] == log[1..] + [b];
    }
  }

  /** Broadcasts of a request, its first attempts, its retries, and first attempts that met a mismatch. */
  function Of(id: nat): Broadcast -> bool { (b: Broadcast) => b.tx.request.id == id }
  function FirstOf(id: nat): Broadcast -> bool { (b: Broadcast) => b.tx.request.id == id && b.tx.request.reattempts == 0 }
  function RetryOf(id: nat): Broadcast -> bool { (b: Broadcast) => b.tx.request.id == id && b.tx.request.reattempts > 0 }
  function MismatchOf(id: nat): Broadcast -> bool {
    (b: Broadcast) => b.tx.request.id == id && b.tx.request.reattempts == 0 && b.reply == SequenceMismatch
  }

  /** First attempts of a request still to come. */
  function Unsent(id: nat): Weight {
    (p: Place, r: SignTxRequest) => if r.id == id && r.reattempts == 0 && Rank(p) >= 2 then 1 else 0
  }

  /** Retries of a request still to come, or to be decided on. */
  function Retrying(id: nat): Weight {
    (p: Place, r: SignTxRequest) =>
      if r.id == id && ((r.reattempts == 0 && p == AtMismatch) || (r.reattempts > 0 && Rank(p) >= 2)) then 1 else 0
  }

  /** First attempts never exceed submissions, and retries never exceed mismatches. */
  ghost predicate Accounted(s: Pipeline, id: nat)
    requires Valid(s)
  {
    && Count(s.broadcasts, FirstOf(id)) + Total(s, Unsent(id)) <= (if id < s.submitted then 1 else 0)
    && Count(s.broadcasts, RetryOf(id)) + Total(s, Retrying(id)) <= Count(s.broadcasts, MismatchOf(id))
  }

  /** What a move other than a broadcast does to the two accounts. */
  lemma AccountsOfMove(m: Move, id: nat)
    requires Legal(m) && (m.Shift? ==> m.from != AtBroadcast)
    ensures Change(m, Unsent(id)) <= if m.Enter? && m.request.id == id then 1 else 0
    ensures Change(m, Retrying(id)) <= 0
  {
  }

  lemma StepAccounted(s: Pipeline, e: Event, id: nat)
    requires Valid(s) && Enabled(s, e) && Accounted(s, id)
    ensures Valid(Step(s, e)) && Accounted(Step(s, e), id)
  {
    Flow(s, e, Unsent(id));
    Flow(s, e, Retrying(id));
    MovesAreLegal(s, e);
    OnlyReceiveBroadcasts(s, e);
    if e.Receive? {
      var b := Received(s, e.reply);
      CountSnoc(s.broadcasts, b, FirstOf(id));
      CountSnoc(s.broadcasts, b, RetryOf(id));
      CountSnoc(s.broadcasts, b, MismatchOf(id));
    } else {
      AccountsOfMove(MoveOf(s, e), id);
    }
  }

  lemma {:induction false} RunAccounted(s: Pipeline, es: seq<Event>, id: nat)
    requires Valid(s) && Runnable(s, es) && Accounted(s, id)
    ensures Accounted(Run(s, es), id)
    decreases |es|
  {
    if es == [] {
    } else {
      StepAccounted(s, es[0], id);
      RunAccounted(Step(s, es[0]), es[1..], id);
    }
  }

  lemma {:induction false} CountsCompare(log: seq<Broadcast>, id: nat)
    ensures Count(log, Of(id)) == Count(log, FirstOf(id)) + Count(log, RetryOf(id))
    ensures Count(log, MismatchOf(id)) <= Count(log, FirstOf(id))
  {
    if log == [] {
    } else {
      CountsCompare(log[1..], id);
    }
  }

  /** No request is broadcast more than twice, and only submitted requests are broadcast. */
  lemma AtMostTwoBroadcasts(config: Config, chainNext: ChainState, es: seq<Event>, id: nat)
    requires Runnable(Initial(config, chainNext), es)
    ensures var s := Run(Initial(config, chainNext), es);
            Count(s.broadcasts, Of(id)) <= if id < s.submitted then 2 else 0
  {
    var s := Run(Initial(config, chainNext), es);
    RunAccounted(Initial(config, chainNext), es, id);
    CountsCompare(s.broadcasts, id);
  }

  /**
   * Whenever the chain receives a request it has received before, the first attempt has met a
   * sequence mismatch, and this is the retry.
   */
  lemma SecondBroadcastFollowsMismatch(config: Config, chainNext: ChainState, es: seq<Event>, e: Event)
    requires Runnable(Initial(config, chainNext), es)
    requires e.Receive? && Enabled(Run(Initial(config, chainNext), es), e)
    ensures var s := Run(Initial(config, chainNext), es);
            var request := s.dispatchQueue.current.value.request;
            Count(s.broadcasts, Of(request.id)) > 0 ==>
              request.reattempts > 0 && Count(s.broadcasts, MismatchOf(request.id)) == 1
  {
    var s := Run(Initial(config, chainNext), es);
    RunAccounted(Initial(config, chainNext), es, s.dispatchQueue.current.value.request.id);
    AccountedAtBroadcast(s, s.dispatchQueue.current.value.request);
  }

  lemma AccountedAtBroadcast(s: Pipeline, r: SignTxRequest)
    requires Valid(s) && s.dispatchStage.Broadcasting? && r == s.dispatchQueue.current.value.request
    requires Accounted(s, r.id)
    ensures Count(s.broadcasts, Of(r.id)) > 0 ==>
              r.reattempts > 0 && Count(s.broadcasts, MismatchOf(r.id)) == 1
  {
    CountsCompare(s.broadcasts, r.id);
    if r.reattempts == 0 {
      assert BeingDispatched(s, Unsent(r.id)) == 1;
    } else {
      assert Rank(AtBroadcast) == 2;
      assert BeingDispatched(s, Retrying(r.id)) == Retrying(r.id)(AtBroadcast, r) == 1;
    }
  }

  // ----- all broadcasts together -----

  /** Broadcasts a request may still need. */
  function Budget(retry: bool): Weight {
    (p: Place, r: SignTxRequest) =>
      var later := if retry && r.reattempts == 0 then 1 else 0;
      if Rank(p) >= 2 then 1 + later else if Rank(p) == 0 then 0 else later
  }

  lemma BudgetOfMove(m: Move, retry: bool)
    requires Legal(m) && (m.Shift? && m.from == AtMismatch && m.to == InSignQueue ==> retry)
    ensures m.Shift? ==> Change(m, Budget(retry)) <= if m.from == AtBroadcast then -1 else 0
    ensures m.Enter? ==> Change(m, Budget(retry)) == if retry then 2 else 1
  {
  }

  lemma {:induction false} BroadcastsFrom(s: Pipeline, es: seq<Event>, retry: bool)
    requires Valid(s) && Runnable(s, es) && retry == !s.config.disableRetryOnSequenceError
    ensures |Run(s, es).broadcasts| + Total(Run(s, es), Budget(retry)) <=
            |s.broadcasts| + Total(s, Budget(retry)) + (if retry then 2 else 1) * (Run(s, es).submitted - s.submitted)
    decreases |es|
  {
    if es == [] {
    } else {
      Flow(s, es[0], Budget(retry));
      MovesAreLegal(s, es[0]);
      OnlyReceiveBroadcasts(s, es[0]);
      BudgetOfMove(MoveOf(s, es[0]), retry);
      BroadcastsFrom(Step(s, es[0]), es[1..], retry);
    }
  }

  /** For n requests there are at most 2 n broadcasts, and at most n with the retry disabled. */
  lemma BroadcastsAreBounded(config: Config, chainNext: ChainState, es: seq<Event>)
    requires Runnable(Initial(config, chainNext), es)
    ensures var s := Run(Initial(config, chainNext), es);
            |s.broadcasts| <= (if config.disableRetryOnSequenceError then 1 else 2) * s.submitted
  {
    var s := Initial(config, chainNext);
    BroadcastsFrom(s, es, !config.disableRetryOnSequenceError);
  }
}
