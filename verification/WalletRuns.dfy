/**
 * Runs of a fresh wallet that end badly: the account query of a second request that breaks
 * agreement, a request whose handler is never called, and an invalidation that is lost.
 */
module WalletRuns {
  import opened Basics
  import opened WalletPipeline
  import opened WalletFlow
  import opened WalletFate
  import opened WalletAgreement

  ghost predicate Reached(s: Pipeline, es: seq<Event>, r: Pipeline)
    requires Valid(s)
  {
    Runnable(s, es) && Run(s, es) == r
  }

  lemma ReachedNext(s: Pipeline, es: seq<Event>, r: Pipeline, e: Event)
    requires Valid(s) && Reached(s, es, r) && Enabled(r, e)
    ensures Reached(s, es + [e], Step(r, e)) && Valid(Step(r, e))
  {
    RunSnoc(s, es, e);
  }

  // ----- the first request -----

  /** EIP-712 signers do not ask for a timeout height. */
  function Height(config: Config): seq<Event> {
    if config.eip712Signer then [] else [HeightReply]
  }

  /** The transaction of the first request, of the account that the chain reports. */
  function FirstTx(chainNext: ChainState, evm: bool): BroadcastTxRequest {
    BroadcastTxRequest(Request(0), false, evm, chainNext.Next(evm), chainNext.Next(evm), 1)
  }

  /** A request is submitted, its account looked up, and it is signed. */
  function FirstSigned(config: Config, chainNext: ChainState, evm: bool, t: nat): seq<Event> {
    FirstLoaded(chainNext, evm, t) + Height(config) + [Signed(0, t + 1000)]
  }

  function FirstLoaded(chainNext: ChainState, evm: bool, t: nat): seq<Event> {
    [Submit(None, None, t), SignTimer(0, false), AccountReply(Some(Account(chainNext.Next(evm), evm))), AccountLoaded]
  }

  /** The wallet when the first request waits to be dispatched. */
  function FirstState(config: Config, chainNext: ChainState, evm: bool, t: nat): Pipeline {
    Initial(config, chainNext).(
      account := Some(Account(chainNext.Next(evm) + 1, evm)),
      signQueue := TaskQueue.Queue(300, 1000, 0, Some(0), true, [], Some(Request(0)), map[], 1),
      dispatchQueue := TaskQueue.Queue(300, 1000, t + 2000, Some(0), false, [FirstTx(chainNext, evm)], None, map[0 := t + 1300], 1),
      submitted := 1,
      epoch := 1)
  }

  /** The wallet when the account has been loaded and the request has its sequence. */
  function SigningState(config: Config, chainNext: ChainState, evm: bool): Pipeline {
    Initial(config, chainNext).(
      account := Some(Account(chainNext.Next(evm) + 1, evm)),
      signQueue := TaskQueue.Queue(300, 1000, 0, Some(0), true, [], Some(Request(0)), map[], 1),
      signStage := Signing(FirstTx(chainNext, evm)),
      submitted := 1,
      epoch := 1)
  }

  lemma FirstIsAnswered(config: Config, chainNext: ChainState, evm: bool, t: nat) returns (s: Pipeline)
    ensures Reached(Initial(config, chainNext), FirstLoaded(chainNext, evm, t)[..3], s)
    ensures s == SigningState(config, chainNext, evm).(
                   account := None, signStage := AccountAnswered(Some(Account(chainNext.Next(evm), evm))), epoch := 0)
  {
    var s0, es := Initial(config, chainNext), FirstLoaded(chainNext, evm, t);
    assert es[..0] == [] && es[..1] == [es[0]] && es[..2] == es[..1] + [es[1]] && es[..3] == es[..2] + [es[2]];
    assert [] + [es[0]] == [es[0]];
    ReachedNext(s0, [], s0, es[0]);
    var s1 := Step(s0, es[0]);
    assert s1.signQueue == TaskQueue.Queue(300, 1000, t + 1000, Some(0), false, [Request(0)], None, map[0 := t + 300], 1);
    ReachedNext(s0, es[..1], s1, es[1]);
    var s2 := Step(s1, es[1]);
    assert s2.signQueue == TaskQueue.Queue(300, 1000, 0, Some(0), true, [], Some(Request(0)), map[], 1);
    ReachedNext(s0, es[..2], s2, es[2]);
    s := Step(s2, es[2]);
  }

  lemma FirstIsSigning(config: Config, chainNext: ChainState, evm: bool, t: nat)
    ensures Reached(Initial(config, chainNext), FirstLoaded(chainNext, evm, t) + Height(config), SigningState(config, chainNext, evm))
  {
    var s0, es := Initial(config, chainNext), FirstLoaded(chainNext, evm, t);
    var s3 := FirstIsAnswered(config, chainNext, evm, t);
    assert es == es[..3] + [es[3]];
    ReachedNext(s0, es[..3], s3, es[3]);
    if config.eip712Signer {
      assert es + [] == es;
    } else {
      ReachedNext(s0, es, Step(s3, es[3]), HeightReply);
    }
  }

  lemma FirstIsSigned(config: Config, chainNext: ChainState, evm: bool, t: nat)
    ensures Reached(Initial(config, chainNext), FirstSigned(config, chainNext, evm, t), FirstState(config, chainNext, evm, t))
  {
    var s0, s := Initial(config, chainNext), SigningState(config, chainNext, evm);
    FirstIsSigning(config, chainNext, evm, t);
    ReachedNext(s0, FirstLoaded(chainNext, evm, t) + Height(config), s, Signed(0, t + 1000));
  }

  // ----- agreement lost -----

  /** While the first transaction of an EVM account waits, the account query of a second request is answered. */
  function SecondAnswered(config: Config, chainNext: ChainState, t: nat): seq<Event> {
    FirstSigned(config, chainNext, true, t)
    + [Submit(None, None, t + 1000)] + [SignResume(false)] + [AccountReply(Some(Account(chainNext.evmNext, true)))]
  }

  /**
   * Two requests in quick succession are enough to break the agreement of a wallet whose account
   * is the EVM one, though the chain answers truthfully: the second request is given the sequence
   * of the first.
   */
  lemma EvmAgreementIsLost(config: Config, chainNext: ChainState, t: nat)
    ensures Runnable(Initial(config, chainNext), SecondAnswered(config, chainNext, t))
    ensures var s := Run(Initial(config, chainNext), SecondAnswered(config, chainNext, t));
            && Honest(s) && Agreed(s) && Outstanding(s) == [FirstTx(chainNext, true)]
            && Enabled(s, AccountLoaded) && !Agreed(Step(s, AccountLoaded))
            && (var next := if config.eip712Signer then Step(s, AccountLoaded) else Allocate(Step(s, AccountLoaded));
                next.signStage.Signing? && next.signStage.tx.request == Request(1)
                && next.signStage.tx.sequence == FirstTx(chainNext, true).sequence)
  {
    var s0, es, s1 := Initial(config, chainNext), FirstSigned(config, chainNext, true, t), FirstState(config, chainNext, true, t);
    FirstIsSigned(config, chainNext, true, t);
    var submit, resume, reply := Submit(None, None, t + 1000), SignResume(false), AccountReply(Some(Account(chainNext.evmNext, true)));
    ReachedNext(s0, es, s1, submit);
    var s2 := Step(s1, submit);
    ReachedNext(s0, es + [submit], s2, resume);
    var s3 := Step(s2, resume);
    ReachedNext(s0, es + [submit] + [resume], s3, reply);
    var s4 := Step(s3, reply);
    OneOutstanding(s4, FirstTx(chainNext, true));
    EvmReloadMisleads(s4);
  }

  lemma OneOutstanding(s: Pipeline, tx: BroadcastTxRequest)
    requires s.dispatchQueue.queue == [tx] && s.dispatchStage.NotDispatching? && !s.signStage.Signing? && !tx.granted
    ensures Outstanding(s) == [tx]
  {
    assert TaskQueue.Waiting(s.dispatchQueue) == [tx];
    assert Line(s) == [tx] && [tx][1..] == [];
    assert Own([tx]) == [tx] + Own([]);
  }

  // ----- a request forgotten -----

  /** The broadcast of the first request fails with an error that has no message. */
  function FirstForgotten(config: Config, chainNext: ChainState, evm: bool, t: nat): seq<Event> {
    FirstSigned(config, chainNext, evm, t) + [DispatchTimer(0)] + [Receive(false, Unreadable)] + [HandleReply(t + 2000)]
  }

  /** With the retry enabled the wallet is then idle, and no later run calls the handler of the request. */
  lemma RequestIsForgotten(config: Config, chainNext: ChainState, evm: bool, t: nat)
    requires !config.disableRetryOnSequenceError
    ensures Runnable(Initial(config, chainNext), FirstForgotten(config, chainNext, evm, t))
    ensures var s := Run(Initial(config, chainNext), FirstForgotten(config, chainNext, evm, t));
            && Quiet(s) && s.forgotten == [Request(0)] && s.settled == []
            && forall later :: Runnable(s, later) ==> SettledOnes(Run(s, later), Is(0)) == 0
  {
    var s0, es, s1 := Initial(config, chainNext), FirstSigned(config, chainNext, evm, t), FirstState(config, chainNext, evm, t);
    FirstIsSigned(config, chainNext, evm, t);
    ReachedNext(s0, es, s1, DispatchTimer(0));
    var s2 := Step(s1, DispatchTimer(0));
    assert s2.dispatchQueue.current == Some(FirstTx(chainNext, evm)) && s2.dispatchQueue.queue == [];
    ReachedNext(s0, es + [DispatchTimer(0)], s2, Receive(false, Unreadable));
    var s3 := Step(s2, Receive(false, Unreadable));
    ReachedNext(s0, es + [DispatchTimer(0)] + [Receive(false, Unreadable)], s3, HandleReply(t + 2000));
    var s := Step(s3, HandleReply(t + 2000));
    forall later | Runnable(s, later)
      ensures SettledOnes(Run(s, later), Is(0)) == 0
    {
      ForgottenForever(s0, FirstForgotten(config, chainNext, evm, t), s, later, 0);
    }
  }

  /** A forgotten request stays forgotten. */
  lemma ForgottenForever(s0: Pipeline, es: seq<Event>, s: Pipeline, later: seq<Event>, id: nat)
    requires Valid(s0) && Conserved(s0, id) && Reached(s0, es, s) && Runnable(s, later)
    requires ForgottenOnes(s, Is(id)) > 0
    ensures SettledOnes(Run(s, later), Is(id)) == 0
  {
    RunConserves(s0, es, id);
    RunConserves(s, later, id);
    ForgottenExactly(s, later);
    SumOfPrefix(s.forgotten, Run(s, later).forgotten, Forgotten, Is(id));
  }

  lemma {:induction false} SumOfPrefix(rs: seq<SignTxRequest>, all: seq<SignTxRequest>, p: Place, w: Weight)
    requires rs <= all
    ensures Sum(rs, p, w) <= Sum(all, p, w)
  {
    if rs == [] {
    } else {
      SumOfPrefix(rs[1..], all[1..], p, w);
    }
  }

  // ----- an invalidation lost -----

  /** Two more requests come in, and the sequence is invalidated, before the reload of the second request fails. */
  function ReloadFailed(config: Config, chainNext: ChainState, t: nat): seq<Event> {
    FirstSigned(config, chainNext, false, t)
    + [Submit(None, None, t + 1000)] + [Submit(None, None, t + 1000)] + [Invalidate]
    + [SignResume(false)] + [AccountFailed] + [SignResume(false)]
  }

  /** The third request is given the cached sequence, though no reload has followed the invalidation. */
  lemma InvalidationIsLost(config: Config, chainNext: ChainState, t: nat)
    ensures Runnable(Initial(config, chainNext), ReloadFailed(config, chainNext, t))
    ensures var s := Run(Initial(config, chainNext), ReloadFailed(config, chainNext, t));
            && s.settled == [Settlement(Request(1), false)] && s.epoch == 1 && s.signQueue.current.Some?
            && (var next := if config.eip712Signer then s else Allocate(s);
                next.signStage.Signing? && next.signStage.tx.request == Request(2)
                && next.signStage.tx.sequence == chainNext.bech32Next + 1)
  {
    var s0, es, s1 := Initial(config, chainNext), FirstSigned(config, chainNext, false, t), FirstState(config, chainNext, false, t);
    FirstIsSigned(config, chainNext, false, t);
    var submit, resume := Submit(None, None, t + 1000), SignResume(false);
    ReachedNext(s0, es, s1, submit);
    var s2 := Step(s1, submit);
    ReachedNext(s0, es + [submit], s2, submit);
    var s3 := Step(s2, submit);
    assert s3.signQueue.queue == [Request(2), Request(1)];
    ReachedNext(s0, es + [submit] + [submit], s3, Invalidate);
    var s4 := Step(s3, Invalidate);
    ReachedNext(s0, es + [submit] + [submit] + [Invalidate], s4, resume);
    var s5 := Step(s4, resume);
    FailedReloadForgets(s4, resume);
    assert s5.signQueue.queue == [Request(2)] && s5.signQueue.current == Some(Request(1));
    ReachedNext(s0, es + [submit] + [submit] + [Invalidate] + [resume], s5, AccountFailed);
    var s6 := Step(s5, AccountFailed);
    ReachedNext(s0, es + [submit] + [submit] + [Invalidate] + [resume] + [AccountFailed], s6, resume);
  }
}
