/**
 * Whether the wallet and the chain agree on the account's sequence. They do as long as the
 * wallet's own transactions that the chain has not received yet are of the cached account and
 * carry exactly the sequences from the chain's next one up to, and excluding, the wallet's next one.
 */
module WalletAgreement {
  import opened Basics
  import opened WalletPipeline

  // ----- transactions on their way -----

  function Sending(s: Pipeline): seq<BroadcastTxRequest> {
    if s.dispatchStage.Broadcasting? && s.dispatchQueue.current.Some? then [s.dispatchQueue.current.value] else []
  }

  function InHand(s: Pipeline): seq<BroadcastTxRequest> {
    if s.signStage.Signing? then [s.signStage.tx] else []
  }

  /** Transactions with a sequence that the chain has not received, in dispatch order. */
  function Line(s: Pipeline): seq<BroadcastTxRequest> {
    Sending(s) + TaskQueue.Waiting(s.dispatchQueue) + InHand(s)
  }

  /** Those signed by the wallet itself rather than by a grantee. */
  function Own(txs: seq<BroadcastTxRequest>): seq<BroadcastTxRequest> {
    if txs == [] then [] else (if txs[0].granted then [] else [txs[0]]) + Own(txs[1..])
  }

  function Outstanding(s: Pipeline): seq<BroadcastTxRequest> {
    Own(Line(s))
  }

  lemma {:induction false} OwnConcat(a: seq<BroadcastTxRequest>, b: seq<BroadcastTxRequest>)
    ensures Own(a + b) == Own(a) + Own(b)
  {
    if a == [] {
      assert a + b == b;
    } else {
      var first := if a[0].granted then [] else [a[0]];
      assert (a + b)[0] == a[0] && (a + b)[1..] == a[1..] + b;
      assert Own(a + b) == first + Own(a[1..] + b);
      OwnConcat(a[1..], b);
      Associate(first, Own(a[1..]), Own(b));
    }
  }

  lemma LineSplits(s: Pipeline)
    ensures Outstanding(s) == DispatchPart(s) + Own(InHand(s))
  {
    OwnConcat(Sending(s) + TaskQueue.Waiting(s.dispatchQueue), InHand(s));
    OwnConcat(Sending(s), TaskQueue.Waiting(s.dispatchQueue));
  }

  function DispatchPart(s: Pipeline): seq<BroadcastTxRequest> {
    Own(Sending(s)) + Own(TaskQueue.Waiting(s.dispatchQueue))
  }

  /** The event gives a sequence of the wallet's account to a request. */
  predicate Allocates(s: Pipeline, e: Event)
    requires Valid(s) && Enabled(s, e)
  {
    !s.signStage.Signing? && Step(s, e).signStage.Signing?
  }

  /** The chain receives a transaction of the wallet's own account. */
  predicate ReceivesOwn(s: Pipeline, e: Event)
    requires Valid(s) && Enabled(s, e)
  {
    e.Receive? && !s.dispatchQueue.current.value.granted
  }

  lemma WaitingCons(txs: seq<BroadcastTxRequest>, tx: BroadcastTxRequest)
    ensures Own(Reverse([tx] + txs)) == Own(Reverse(txs)) + Own([tx])
  {
    ReverseCons(tx, txs);
    OwnConcat(Reverse(txs), [tx]);
  }

  lemma WaitingInit(txs: seq<BroadcastTxRequest>)
    requires txs != []
    ensures Own(Reverse(txs)) == Own([Last(txs)]) + Own(Reverse(Init(txs)))
  {
    ReverseLast(txs);
    OwnConcat([Last(txs)], Reverse(Init(txs)));
  }

  lemma PopKeepsDispatchPart(s: Pipeline, e: Event)
    requires Valid(s) && Enabled(s, e) && (e.DispatchTimer? || e.DispatchResume?)
    ensures DispatchPart(Step(s, e)) == DispatchPart(s)
  {
    if s.dispatchQueue.queue != [] {
      WaitingInit(s.dispatchQueue.queue);
    }
  }

  lemma SignedJoinsDispatchPart(s: Pipeline, e: Event)
    requires Valid(s) && Enabled(s, e) && e.Signed?
    ensures DispatchPart(Step(s, e)) == DispatchPart(s) + Own([SignedTx(s, e.granteeSequence)])
  {
    var tx, s1 := SignedTx(s, e.granteeSequence), Step(s, e);
    assert s1.dispatchQueue.queue == [tx] + s.dispatchQueue.queue;
    assert Sending(s1) == Sending(s);
    WaitingCons(s.dispatchQueue.queue, tx);
    Associate(Own(Sending(s)), Own(TaskQueue.Waiting(s.dispatchQueue)), Own([tx]));
  }

  lemma ReceiveLeavesDispatchPart(s: Pipeline, e: Event)
    requires Valid(s) && Enabled(s, e) && e.Receive?
    ensures DispatchPart(s) ==
            (if ReceivesOwn(s, e) then [s.dispatchQueue.current.value] else []) + DispatchPart(Step(s, e))
  {
    var tx, s1 := s.dispatchQueue.current.value, Step(s, e);
    assert Sending(s) == [tx] && Sending(s1) == [];
    assert Own([tx]) == if tx.granted then [] else [tx];
    assert s1.dispatchQueue == s.dispatchQueue;
  }

  lemma OthersKeepDispatchPart(s: Pipeline, e: Event)
    requires Valid(s) && Enabled(s, e)
    requires !e.DispatchTimer? && !e.DispatchResume? && !e.Signed? && !e.Receive?
    ensures DispatchPart(Step(s, e)) == DispatchPart(s)
  {
    assert Step(s, e).dispatchQueue == s.dispatchQueue;
    assert Sending(Step(s, e)) == Sending(s);
  }

  /** The first two parts of the line, by event. */
  lemma DispatchSide(s: Pipeline, e: Event)
    requires Valid(s) && Enabled(s, e)
    ensures if ReceivesOwn(s, e) then DispatchPart(s) == [s.dispatchQueue.current.value] + DispatchPart(Step(s, e))
            else if e.Signed? then DispatchPart(Step(s, e)) == DispatchPart(s) + Own([SignedTx(s, e.granteeSequence)])
            else DispatchPart(Step(s, e)) == DispatchPart(s)
  {
    match e
    case Signed(_, _) => SignedJoinsDispatchPart(s, e);
    case DispatchTimer(_) => PopKeepsDispatchPart(s, e);
    case DispatchResume => PopKeepsDispatchPart(s, e);
    case Receive(_, _) => ReceiveLeavesDispatchPart(s, e);
    case _ => OthersKeepDispatchPart(s, e);
  }

  /** The last part. */
  lemma SignSide(s: Pipeline, e: Event)
    requires Valid(s) && Enabled(s, e)
    ensures var before, after := Own(InHand(s)), Own(InHand(Step(s, e)));
            if Allocates(s, e) then before == [] && after == [Step(s, e).signStage.tx]
            else if e.SignFailed? then after == []
            else if e.Signed? then after == [] && before == Own([SignedTx(s, e.granteeSequence)])
            else after == before
  {
    OwnInHand(s);
    OwnInHand(Step(s, e));
    SignStageStep(s, e);
  }

  lemma OwnInHand(s: Pipeline)
    ensures Own(InHand(s)) == if s.signStage.Signing? && !s.signStage.tx.granted then [s.signStage.tx] else []
  {
  }

  /** How the signing stage changes. */
  lemma SignStageStep(s: Pipeline, e: Event)
    requires Valid(s) && Enabled(s, e)
    ensures Allocates(s, e) ==> !Step(s, e).signStage.tx.granted && !e.SignFailed? && !e.Signed? && !e.Receive?
    ensures e.SignFailed? || e.Signed? ==> !Step(s, e).signStage.Signing?
    ensures e.Signed? && s.signStage.Signing? ==> SignedTx(s, e.granteeSequence) == s.signStage.tx
    ensures e.Signed? && !s.signStage.Signing? ==> SignedTx(s, e.granteeSequence).granted
    ensures !Allocates(s, e) && !e.SignFailed? && !e.Signed? ==>
              Step(s, e).signStage.Signing? == s.signStage.Signing?
              && (s.signStage.Signing? ==> Step(s, e).signStage.tx == s.signStage.tx)
  {
  }

  /** How each event changes what is outstanding. */
  lemma OutstandingStep(s: Pipeline, e: Event)
    requires Valid(s) && Enabled(s, e)
    ensures ReceivesOwn(s, e) ==> Outstanding(s) == [s.dispatchQueue.current.value] + Outstanding(Step(s, e))
    ensures e.SignFailed? && s.signStage.Signing? ==> Outstanding(s) == Outstanding(Step(s, e)) + [s.signStage.tx]
    ensures Allocates(s, e) ==> Outstanding(Step(s, e)) == Outstanding(s) + [Step(s, e).signStage.tx]
    ensures !ReceivesOwn(s, e) && !(e.SignFailed? && s.signStage.Signing?) && !Allocates(s, e) ==>
              Outstanding(Step(s, e)) == Outstanding(s)
  {
    LineSplits(s);
    LineSplits(Step(s, e));
    DispatchSide(s, e);
    SignSide(s, e);
    OwnInHand(s);
    SignStageStep(s, e);
    PartsMove(DispatchPart(s), Own(InHand(s)), DispatchPart(Step(s, e)), Own(InHand(Step(s, e))));
  }

  /** What follows for the whole when one of its two parts gains or loses an end, or something passes between them. */
  lemma PartsMove<T>(a: seq<T>, b: seq<T>, a': seq<T>, b': seq<T>)
    ensures a' == a && b' == b ==> a' + b' == a + b
    ensures a' == a + b && b' == [] ==> a' + b' == a + b
    ensures b' == b ==> forall x :: a == [x] + a' ==> a + b == [x] + (a' + b')
    ensures a' == a && b == [] ==> a' + b' == (a + b) + b'
    ensures a' == a && b' == [] ==> a + b == (a' + b') + b
  {
    if b' == b {
      forall x | a == [x] + a'
        ensures a + b == [x] + (a' + b')
      {
        Associate([x], a', b);
      }
    }
  }

  // ----- agreement -----

  /** The transactions are of one account and carry from, from + 1, ..., to - 1, in this order. */
  predicate Consecutive(txs: seq<BroadcastTxRequest>, evm: bool, from: nat, to: nat) {
    && |txs| == to - from
    && forall i :: 0 <= i < |txs| ==> txs[i].evm == evm && txs[i].sequence == from + i
  }

  predicate Agreed(s: Pipeline) {
    s.account.Some? &&
    var a := s.account.value;
    Consecutive(Outstanding(s), a.evm, s.chainNext.Next(a.evm), a.sequence)
  }

  /** Account queries that have been answered did not report more than the chain has accepted. */
  predicate Honest(s: Pipeline) {
    && (s.signStage.AccountAnswered? ==> Truthful(s, s.signStage.info))
    && (s.outer.OuterAnswered? ==> Truthful(s, s.outer.info))
  }

  lemma StepHonest(s: Pipeline, e: Event)
    requires Valid(s) && Enabled(s, e) && Honest(s)
    ensures Honest(Step(s, e))
  {
  }

  /** A reload that is out of date when it arrives, or arrives before the chain has received everything. */
  predicate Misleads(s: Pipeline, info: Option<Account>) {
    info.Some? && (Outstanding(s) != [] || info.value.sequence != s.chainNext.Next(info.value.evm))
  }

  /**
   * The events that break agreement: own signing that fails after the allocation, an own
   * broadcast that does not consume its sequence, a reload with own transactions outstanding or
   * an old answer, somebody else using the account, and an explicit sequence in the request.
   */
  predicate Exceptional(s: Pipeline, e: Event)
    requires Valid(s) && Enabled(s, e)
  {
    || (e.SignFailed? && s.signStage.Signing?)
    || (ReceivesOwn(s, e) && !e.consumed)
    || (e.AccountLoaded? && Misleads(s, s.signStage.info))
    || (e.OuterLoaded? && Misleads(s, s.outer.info))
    || (e.OthersTransact? && s.account.Some? && e.evm == s.account.value.evm)
    || (Allocates(s, e) && Step(s, e).signStage.tx.sequence != Step(s, e).signStage.tx.requestId)
  }

  /** The wallet's account once a reload, if this event completes one, has been taken into account. */
  function Loaded(s: Pipeline, e: Event): Account
    requires Enabled(s, e) && s.account.Some?
  {
    if e.AccountLoaded? && s.signStage.info.Some? then s.signStage.info.value
    else if e.OuterLoaded? && s.outer.info.Some? then s.outer.info.value
    else s.account.value
  }

  /** What an event does to the two counters. */
  lemma CountersStep(s: Pipeline, e: Event)
    requires Valid(s) && Enabled(s, e) && s.account.Some?
    ensures Step(s, e).account.Some?
    ensures Step(s, e).chainNext ==
            if e.OthersTransact? then s.chainNext.Advanced(e.evm)
            else if ReceivesOwn(s, e) && e.consumed then s.chainNext.Advanced(s.dispatchQueue.current.value.evm)
            else s.chainNext
    ensures Step(s, e).account.value ==
            Loaded(s, e).(sequence := Loaded(s, e).sequence + if Allocates(s, e) then 1 else 0)
    ensures Allocates(s, e) ==>
              Step(s, e).signStage.tx.requestId == Loaded(s, e).sequence && Step(s, e).signStage.tx.evm == Loaded(s, e).evm
    ensures Allocates(s, e) ==> !e.OthersTransact? && !e.OuterLoaded? && !e.Receive?
  {
    ChainStep(s, e);
    AccountStep(s, e);
  }

  lemma ChainStep(s: Pipeline, e: Event)
    requires Valid(s) && Enabled(s, e)
    ensures Step(s, e).chainNext ==
            if e.OthersTransact? then s.chainNext.Advanced(e.evm)
            else if ReceivesOwn(s, e) && e.consumed then s.chainNext.Advanced(s.dispatchQueue.current.value.evm)
            else s.chainNext
  {
  }

  lemma AccountStep(s: Pipeline, e: Event)
    requires Valid(s) && Enabled(s, e) && s.account.Some?
    ensures Step(s, e).account.Some?
    ensures Step(s, e).account.value ==
            Loaded(s, e).(sequence := Loaded(s, e).sequence + if Allocates(s, e) then 1 else 0)
    ensures Allocates(s, e) ==>
              Step(s, e).signStage.tx.requestId == Loaded(s, e).sequence && Step(s, e).signStage.tx.evm == Loaded(s, e).evm
    ensures Allocates(s, e) ==> !e.OthersTransact? && !e.OuterLoaded? && !e.Receive?
  {
    match e
    case SignTimer(_, _) =>
    case SignResume(_) =>
    case AccountLoaded =>
    case HeightReply =>
    case OuterLoaded =>
    case _ =>
  }

  lemma ConsecutiveDrop(tx: BroadcastTxRequest, rest: seq<BroadcastTxRequest>, evm: bool, from: nat, to: nat)
    requires Consecutive([tx] + rest, evm, from, to)
    ensures tx.evm == evm && tx.sequence == from && Consecutive(rest, evm, from + 1, to) && !Consecutive(rest, evm, from, to)
  {
    assert ([tx] + rest)[0] == tx;
    assert forall i :: 0 <= i < |rest| ==> rest[i] == ([tx] + rest)[i + 1];
  }

  lemma ConsecutiveSnoc(txs: seq<BroadcastTxRequest>, tx: BroadcastTxRequest, evm: bool, from: nat, to: nat)
    requires to >= from
    ensures Consecutive(txs + [tx], evm, from, to + 1) <==> Consecutive(txs, evm, from, to) && tx.evm == evm && tx.sequence == to
  {
    assert forall i :: 0 <= i < |txs| ==> txs[i] == (txs + [tx])[i];
    assert (txs + [tx])[|txs|] == tx;
  }

  /**
   * From agreement, an event leads to agreement exactly when it is none of the exceptional
   * ones. Whether it is can be told from the state before it.
   */
  lemma AgreementStep(s: Pipeline, e: Event)
    requires Valid(s) && Enabled(s, e) && Honest(s) && Agreed(s)
    ensures Agreed(Step(s, e)) <==> !Exceptional(s, e)
  {
    if Allocates(s, e) {
      AgreementAllocate(s, e);
    } else if ReceivesOwn(s, e) {
      AgreementReceive(s, e);
    } else {
      AgreementOtherwise(s, e);
    }
  }

  lemma AgreementReceive(s: Pipeline, e: Event)
    requires Valid(s) && Enabled(s, e) && Honest(s) && Agreed(s) && ReceivesOwn(s, e)
    ensures Agreed(Step(s, e)) <==> !Exceptional(s, e)
  {
    OutstandingStep(s, e);
    CountersStep(s, e);
    var a := s.account.value;
    ConsecutiveDrop(s.dispatchQueue.current.value, Outstanding(Step(s, e)), a.evm, s.chainNext.Next(a.evm), a.sequence);
  }

  lemma AgreementOtherwise(s: Pipeline, e: Event)
    requires Valid(s) && Enabled(s, e) && Honest(s) && Agreed(s) && !ReceivesOwn(s, e) && !Allocates(s, e)
    ensures Agreed(Step(s, e)) <==> !Exceptional(s, e)
  {
    OutstandingStep(s, e);
    CountersStep(s, e);
  }

  lemma AgreementAllocate(s: Pipeline, e: Event)
    requires Valid(s) && Enabled(s, e) && Honest(s) && Agreed(s) && Allocates(s, e)
    ensures Agreed(Step(s, e)) <==> !Exceptional(s, e)
  {
    OutstandingStep(s, e);
    CountersStep(s, e);
    var tx := Step(s, e).signStage.tx;
    if tx.requestId >= s.chainNext.Next(tx.evm) {
      ConsecutiveSnoc(Outstanding(s), tx, tx.evm, s.chainNext.Next(tx.evm), tx.requestId);
    }
  }

  /** While they agree, the chain never reports a mismatch for the wallet's own transactions. */
  lemma NoMismatchWhenAgreed(s: Pipeline, e: Event)
    requires Valid(s) && Enabled(s, e) && Agreed(s) && ReceivesOwn(s, e)
    ensures var tx := s.dispatchQueue.current.value;
            tx.evm == s.account.value.evm && tx.sequence == s.chainNext.Next(tx.evm) && e.reply != SequenceMismatch
  {
    OutstandingStep(s, e);
    assert Outstanding(s)[0] == s.dispatchQueue.current.value;
  }

  // ----- runs -----

  ghost predicate Uneventful(s: Pipeline, es: seq<Event>)
    requires Valid(s) && Runnable(s, es)
    decreases |es|
  {
    es != [] ==>
      && !Exceptional(s, es[0])
      && (StepValid(s, es[0]); Uneventful(Step(s, es[0]), es[1..]))
  }

  /** A logged broadcast of the wallet's own that carried what the chain expected. */
  predicate OnTime(b: Broadcast) {
    !b.tx.granted ==> b.tx.sequence == b.expected && b.reply != SequenceMismatch
  }

  lemma UneventfulStep(s: Pipeline, e: Event)
    requires Valid(s) && Enabled(s, e) && Honest(s) && Agreed(s) && !Exceptional(s, e)
    ensures Agreed(Step(s, e)) && Honest(Step(s, e)) && s.broadcasts <= Step(s, e).broadcasts
    ensures forall i :: |s.broadcasts| <= i < |Step(s, e).broadcasts| ==> OnTime(Step(s, e).broadcasts[i])
  {
    StepHonest(s, e);
    AgreementStep(s, e);
    NewBroadcasts(s, e);
    if ReceivesOwn(s, e) {
      NoMismatchWhenAgreed(s, e);
    }
  }

  /**
   * In every run without an exceptional event, agreement lasts, and each own transaction
   * reaches the chain with the sequence expected there.
   */
  lemma {:induction false} AgreementLasts(s: Pipeline, es: seq<Event>)
    requires Valid(s) && Runnable(s, es) && Honest(s) && Agreed(s) && Uneventful(s, es)
    ensures Agreed(Run(s, es))
    ensures s.broadcasts <= Run(s, es).broadcasts
    ensures forall i :: |s.broadcasts| <= i < |Run(s, es).broadcasts| ==> OnTime(Run(s, es).broadcasts[i])
    decreases |es|
  {
    if es == [] {
    } else {
      var s1, rest := Step(s, es[0]), es[1..];
      StepValid(s, es[0]);
      UneventfulStep(s, es[0]);
      AgreementLasts(s1, rest);
      var log := Run(s1, rest).broadcasts;
      assert Run(s, es).broadcasts == log;
      forall i | |s.broadcasts| <= i < |log|
        ensures OnTime(log[i])
      {
        assert i < |s1.broadcasts| ==> log[i] == s1.broadcasts[i];
      }
    }
  }

  lemma NewBroadcasts(s: Pipeline, e: Event)
    requires Valid(s) && Enabled(s, e)
    ensures Step(s, e).broadcasts ==
            s.broadcasts +
            if e.Receive? then
              var tx := s.dispatchQueue.current.value;
              [Broadcast(tx, s.chainNext.Next(tx.evm), e.reply)]
            else []
  {
  }

  // ----- reloads -----

  /**
   * What a completed reload leaves behind, whatever held before: agreement, exactly when
   * nothing is outstanding and the answer is what the chain accepts next.
   */
  lemma ReloadRestores(s: Pipeline, info: Option<Account>)
    requires Valid(s) && Truthful(s, info)
    ensures Agreed(LoadAccount(s, info)) <==> if info.Some? then !Misleads(s, info) else Agreed(s)
  {
    assert Outstanding(LoadAccount(s, info)) == Outstanding(s);
  }

  /** A reload by the signer, answered and waiting to be applied, with nothing outstanding. */
  predicate FreshAnswer(s: Pipeline) {
    && s.signStage.AccountAnswered? && s.signStage.info.Some?
    && s.signStage.info.value.sequence == s.chainNext.Next(s.signStage.info.value.evm)
    && Outstanding(s) == []
  }

  /** The event is an up-to-date answer to the signer's query, with nothing outstanding. */
  predicate AnswersFreshly(s: Pipeline, e: Event) {
    && e.AccountReply? && e.info.Some?
    && e.info.value.sequence == s.chainNext.Next(e.info.value.evm)
    && Outstanding(s) == []
  }

  /** The answer to a reload stays good until it is applied, since no sequence is given out meanwhile. */
  lemma FreshAnswerLasts(s: Pipeline, e: Event)
    requires Valid(s) && Enabled(s, e) && (FreshAnswer(s) || AnswersFreshly(s, e))
    requires !e.AccountFailed? && !e.AccountLoaded?
    requires e.OthersTransact? ==> e.evm != s.signStage.info.value.evm
    ensures FreshAnswer(Step(s, e))
  {
    OutstandingStep(s, e);
  }

  /** Applying it restores agreement, unless the request at hand brings its own sequence. */
  lemma FreshAnswerRestores(s: Pipeline)
    requires Valid(s) && FreshAnswer(s)
    requires s.signQueue.current.value.override == None
    ensures Agreed(Step(s, AccountLoaded))
  {
    var e := AccountLoaded;
    ReloadRestores(s, s.signStage.info);
    OutstandingStep(s, e);
    if Allocates(s, e) {
      var next := s.chainNext.Next(s.signStage.info.value.evm);
      ConsecutiveSnoc(Outstanding(s), Step(s, e).signStage.tx, s.signStage.info.value.evm, next, next);
    }
  }

  /**
   * A wallet with an EVM account reloads before every signature, to see whether the bech32
   * account has appeared. With an own transaction still outstanding that breaks agreement,
   * whatever the chain answers.
   */
  lemma EvmReloadMisleads(s: Pipeline)
    requires Valid(s) && Honest(s) && Agreed(s) && s.account.value.evm && Outstanding(s) != []
    ensures s.signQueue.current.Some? ==> BeginSign(s, false).signStage.QueryingAccount?
    ensures s.signStage.AccountAnswered? && s.signStage.info.Some? ==> !Agreed(Step(s, AccountLoaded))
  {
    if s.signStage.AccountAnswered? && s.signStage.info.Some? {
      AgreementStep(s, AccountLoaded);
    }
  }

  /** What the wallet does when the account query of a signature fails and another request waits. */
  function FailAndGoOn(s: Pipeline): Pipeline
    requires Valid(s) && s.signStage.QueryingAccount?
  {
    StepValid(s, AccountFailed);
    Step(Step(s, AccountFailed), SignResume(false))
  }

  /**
   * A reload that fails is not made up for: the invalidation that asked for it is gone, and the
   * next request in the queue is given the cached sequence, right or wrong.
   */
  lemma FailedReloadForgets(s: Pipeline, e: Event)
    requires Valid(s) && Enabled(s, e) && (e.SignResume? || (e.SignTimer? && !s.signQueue.isProcessingQueue)) && !e.grantee
    requires |s.signQueue.queue| >= 2 && s.invalidated && s.account.Some? && !s.account.value.evm
    ensures Valid(Step(s, e)) && Step(s, e).signStage.QueryingAccount? && !Step(s, e).invalidated
    ensures var next := FailAndGoOn(Step(s, e));
            && next.account.Some? && !next.invalidated
            && next.signQueue.current == Some(s.signQueue.queue[|s.signQueue.queue| - 2])
            && (if s.config.eip712Signer
                then next.signStage.Signing? && next.signStage.tx.requestId == s.account.value.sequence
                else next.signStage.QueryingHeight? && next.account == s.account
                     && Step(next, HeightReply).signStage.tx.requestId == s.account.value.sequence)
  {
    StepValid(s, e);
    StepValid(Step(s, e), AccountFailed);
    StepValid(Step(Step(s, e), AccountFailed), SignResume(false));
  }
}
