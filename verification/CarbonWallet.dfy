/**
 * `CarbonWallet` itself (src/wallet/CarbonWallet.ts): the two queue managers, the cached
 * account and the code of `signTx`, `dispatchTx` and `reloadAccountSequence`, cut at its
 * `await`s. Each method does one stretch of that code, or one thing that happens on the chain
 * while the code waits, and is proved to be a step of `WalletPipeline`; every event of the
 * pipeline has its method, so everything proved about runs holds of the class.
 */
module Wallet {
  import opened Basics
  import opened WalletPipeline

  class CarbonWallet {
    const config: Config
    const txSignManager: TaskQueue.QueueManager<SignTxRequest>
    const txDispatchManager: TaskQueue.QueueManager<BroadcastTxRequest>
    var accountInfo: Option<Account>
    var sequenceInvalidated: bool

    // the suspended signTx, dispatchTx and outside reloadAccountSequence calls
    var signStage: SignStage
    var dispatchStage: DispatchStage
    var outerReload: OuterReload

    // promise handlers handed out and called, and reloads completed
    var submitted: nat
    var settled: seq<Settlement>
    ghost var forgotten: seq<SignTxRequest>
    var epoch: nat

    // the chain's side
    ghost var chainNext: ChainState
    ghost var broadcasts: seq<Broadcast>

    ghost predicate Distinct()
      reads this
    {
      (txSignManager as object) != txDispatchManager
    }

    ghost function View(): Pipeline
      reads this, txSignManager, txDispatchManager
    {
      Pipeline(config, accountInfo, sequenceInvalidated, txSignManager.View(), signStage,
               txDispatchManager.View(), dispatchStage, outerReload,
               chainNext, submitted, settled, forgotten, broadcasts, epoch)
    }

    constructor (config: Config, ghost chainNext: ChainState)
      ensures Distinct() && fresh(txSignManager) && fresh(txDispatchManager)
      ensures View() == Initial(config, chainNext)
    {
      this.config := config;
      txDispatchManager := new TaskQueue.QueueManager();
      txSignManager := new TaskQueue.QueueManager();
      accountInfo, sequenceInvalidated := None, false;
      signStage, dispatchStage, outerReload := NotSigning, NotDispatching, NoReload;
      submitted, settled, epoch := 0, [], 0;
      this.chainNext, forgotten, broadcasts := chainNext, [], [];
    }

    method SignAndBroadcast(optsSequence: Option<nat>, override: Option<nat>, now: nat)
      requires Distinct() && Valid(View())
      modifies this, txSignManager
      ensures View() == Step(old(View()), Submit(optsSequence, override, now))
    {
      txSignManager.Enqueue(SignTxRequest(submitted, 0, optsSequence, override), false, now);
      submitted := submitted + 1;
    }

    // ----- signTx -----

    method OnSignTimer(timer: nat, grantee: bool)
      requires Distinct() && Valid(View()) && Enabled(View(), SignTimer(timer, grantee))
      modifies this, txSignManager
      ensures View() == Step(old(View()), SignTimer(timer, grantee))
    {
      var running := txSignManager.isProcessingQueue;
      txSignManager.OnTimer(timer);
      if !running {
        StartSignTx(grantee);
      }
    }

    method OnSignTxReturned(grantee: bool)
      requires Distinct() && Valid(View()) && Enabled(View(), SignResume(grantee))
      modifies this, txSignManager
      ensures View() == Step(old(View()), SignResume(grantee))
    {
      txSignManager.NextItem();
      StartSignTx(grantee);
    }

    method StartSignTx(grantee: bool)
      modifies this
      ensures View() == BeginSign(old(View()), grantee)
    {
      if txSignManager.current.None? {
        return;
      }
      if grantee {
        signStage := SigningAsGrantee;
      } else if accountInfo.None? || accountInfo.value.evm || sequenceInvalidated {
        sequenceInvalidated := false;
        signStage := QueryingAccount;
      } else {
        AskHeight();
      }
    }

    method AskHeight()
      requires txSignManager.current.Some?
      modifies this
      ensures View() == BeforeHeight(old(View()))
    {
      if config.eip712Signer {
        AllocateSequence();
      } else {
        signStage := QueryingHeight;
      }
    }

    method AllocateSequence()
      requires txSignManager.current.Some?
      modifies this
      ensures View() == Allocate(old(View()))
    {
      var request := txSignManager.current.value;
      var sequence, evm;
      if accountInfo.None? {
        sequence, evm := request.optsSequence.GetOr(0), false;
      } else {
        sequence, evm := accountInfo.value.sequence, accountInfo.value.evm;
        accountInfo := Some(accountInfo.value.(sequence := sequence + 1));
      }
      signStage := Signing(BroadcastTxRequest(request, false, evm, sequence, request.override.GetOr(sequence), epoch));
    }

    method OnAccountReply(info: Option<Account>)
      requires Valid(View()) && Enabled(View(), AccountReply(info))
      modifies this
      ensures View() == Step(old(View()), AccountReply(info))
    {
      signStage := AccountAnswered(info);
    }

    method OnAccountLoaded()
      requires Valid(View()) && Enabled(View(), AccountLoaded)
      modifies this
      ensures View() == Step(old(View()), AccountLoaded)
    {
      SetAccount(signStage.info);
      AskHeight();
    }

    method SetAccount(info: Option<Account>)
      modifies this
      ensures View() == LoadAccount(old(View()), info)
    {
      if info.Some? {
        accountInfo := info;
      }
      epoch := epoch + 1;
    }

    method OnAccountFailed()
      requires Valid(View()) && Enabled(View(), AccountFailed)
      modifies this
      ensures View() == Step(old(View()), AccountFailed)
    {
      settled := settled + [Settlement(txSignManager.current.value, false)];
      signStage := NotSigning;
    }

    method OnHeightReply()
      requires Valid(View()) && Enabled(View(), HeightReply)
      modifies this
      ensures View() == Step(old(View()), HeightReply)
    {
      AllocateSequence();
    }

    method OnSigned(granteeSequence: nat, now: nat)
      requires Distinct() && Valid(View()) && Enabled(View(), Signed(granteeSequence, now))
      modifies this, txDispatchManager
      ensures View() == Step(old(View()), Signed(granteeSequence, now))
    {
      var tx;
      if signStage.Signing? {
        tx := signStage.tx;
      } else {
        var request := txSignManager.current.value;
        var sequence := request.optsSequence.GetOr(granteeSequence);
        tx := BroadcastTxRequest(request, true, false, sequence, request.override.GetOr(sequence), epoch);
      }
      txDispatchManager.Enqueue(tx, false, now);
      signStage := NotSigning;
    }

    method OnSignFailed(incompatible: bool)
      requires Valid(View()) && Enabled(View(), SignFailed(incompatible))
      modifies this
      ensures View() == Step(old(View()), SignFailed(incompatible))
    {
      if incompatible && signStage.Signing? {
        sequenceInvalidated := true;
      }
      settled := settled + [Settlement(txSignManager.current.value, false)];
      signStage := NotSigning;
    }

    // ----- dispatchTx -----

    method OnDispatchTimer(timer: nat)
      requires Distinct() && Valid(View()) && Enabled(View(), DispatchTimer(timer))
      modifies this, txDispatchManager
      ensures View() == Step(old(View()), DispatchTimer(timer))
    {
      var running := txDispatchManager.isProcessingQueue;
      txDispatchManager.OnTimer(timer);
      if !running && txDispatchManager.current.Some? {
        dispatchStage := Broadcasting;
      }
    }

    method OnDispatchTxReturned()
      requires Distinct() && Valid(View()) && Enabled(View(), DispatchResume)
      modifies this, txDispatchManager
      ensures View() == Step(old(View()), DispatchResume)
    {
      txDispatchManager.NextItem();
      if txDispatchManager.current.Some? {
        dispatchStage := Broadcasting;
      }
    }

    method OnBroadcastReply(now: nat)
      requires Distinct() && Valid(View()) && Enabled(View(), HandleReply(now))
      modifies this, txSignManager
      ensures View() == Step(old(View()), HandleReply(now))
    {
      var request := txDispatchManager.current.value.request;
      var reply := dispatchStage.reply;
      dispatchStage := NotDispatching;
      if reply == Accepted {
        settled := settled + [Settlement(request, true)];
      } else if !config.disableRetryOnSequenceError && request.reattempts < 1 && reply == Unreadable {
        // isNonceMismatchError throws; the queue logs that and goes on
        forgotten := forgotten + [request];
      } else if !config.disableRetryOnSequenceError && request.reattempts < 1 && reply == SequenceMismatch {
        sequenceInvalidated := true;
        txSignManager.Enqueue(request.(reattempts := request.reattempts + 1), false, now);
      } else {
        settled := settled + [Settlement(request, false)];
      }
    }

    // ----- on the chain -----

    /** The chain gets the transaction, and its reply is on the way back. */
    method OnReceived(consumed: bool, reply: Reply)
      requires Valid(View()) && Enabled(View(), Receive(consumed, reply))
      modifies this
      ensures View() == Step(old(View()), Receive(consumed, reply))
    {
      ghost var tx := txDispatchManager.current.value;
      broadcasts := broadcasts + [Broadcast(tx, chainNext.Next(tx.evm), reply)];
      chainNext := if consumed && !tx.granted then chainNext.Advanced(tx.evm) else chainNext;
      dispatchStage := Replied(reply);
    }

    /** Somebody else uses one of the accounts. */
    ghost method OnOthersTransact(evm: bool)
      requires Valid(View())
      modifies this
      ensures View() == Step(old(View()), OthersTransact(evm))
    {
      chainNext := chainNext.Advanced(evm);
    }

    // ----- calls from outside -----

    method UpdateMergeAccountStatus()
      requires Valid(View())
      modifies this
      ensures View() == Step(old(View()), Invalidate)
    {
      sequenceInvalidated := true;
    }

    method ReloadAccountSequence()
      requires Valid(View()) && Enabled(View(), OuterCall)
      modifies this
      ensures View() == Step(old(View()), OuterCall)
    {
      if sequenceInvalidated {
        sequenceInvalidated := false;
      }
      outerReload := OuterQuerying;
    }

    method OnOuterReply(info: Option<Account>)
      requires Valid(View()) && Enabled(View(), OuterReply(info))
      modifies this
      ensures View() == Step(old(View()), OuterReply(info))
    {
      outerReload := OuterAnswered(info);
    }

    method OnOuterLoaded()
      requires Valid(View()) && Enabled(View(), OuterLoaded)
      modifies this
      ensures View() == Step(old(View()), OuterLoaded)
    {
      SetAccount(outerReload.info);
      outerReload := NoReload;
    }

    method OnOuterFailed()
      requires Valid(View()) && Enabled(View(), OuterFailed)
      modifies this
      ensures View() == Step(old(View()), OuterFailed)
    {
      outerReload := NoReload;
    }
  }
}
