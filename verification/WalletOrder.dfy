/**
 * The order of the wallet's own transactions: they reach the chain in the order of (number of
 * reloads before the allocation, allocated sequence), so between two reloads they go out in
 * strictly increasing sequence order.
 */
module WalletOrder {
  import opened Basics
  import opened WalletPipeline
  import opened WalletAgreement

  predicate Before(a: BroadcastTxRequest, b: BroadcastTxRequest) {
    a.epoch < b.epoch || (a.epoch == b.epoch && a.requestId < b.requestId)
  }

  ghost predicate Ordered(txs: seq<BroadcastTxRequest>) {
    forall i, j :: 0 <= i < j < |txs| ==> Before(txs[i], txs[j])
  }

  function Received(log: seq<Broadcast>): seq<BroadcastTxRequest> {
    seq(|log|, i requires 0 <= i < |log| => log[i].tx)
  }

  /** Every own transaction so far: received ones first, then the outstanding ones. */
  function History(s: Pipeline): seq<BroadcastTxRequest> {
    Own(Received(s.broadcasts)) + Outstanding(s)
  }

  /** Anything allocated from here on comes after `tx`. */
  predicate Past(s: Pipeline, tx: BroadcastTxRequest) {
    || tx.epoch < s.epoch
    || (tx.epoch == s.epoch &&
        match s.account
        case Some(a) => tx.requestId < a.sequence
        case None => !s.signStage.QueryingHeight?)
  }

  ghost predicate InOrder(s: Pipeline) {
    && Ordered(History(s))
    && (forall i :: 0 <= i < |History(s)| ==> Past(s, History(s)[i]))
  }

  /** How the history grows and shrinks. */
  lemma HistoryStep(s: Pipeline, e: Event)
    requires Valid(s) && Enabled(s, e)
    ensures if e.SignFailed? && s.signStage.Signing? then History(s) == History(Step(s, e)) + [s.signStage.tx]
            else if Allocates(s, e) then History(Step(s, e)) == History(s) + [Step(s, e).signStage.tx]
            else History(Step(s, e)) == History(s)
  {
    OutstandingStep(s, e);
    ReceivedStep(s, e);
    AllocationReceivesNothing(s, e);
    if ReceivesOwn(s, e) {
      HistoryMoves(s, Step(s, e), s.dispatchQueue.current.value);
    } else if e.SignFailed? && s.signStage.Signing? {
      HistoryGrows(Step(s, e), s, s.signStage.tx);
    } else if Allocates(s, e) {
      HistoryGrows(s, Step(s, e), Step(s, e).signStage.tx);
    }
  }

  lemma AllocationReceivesNothing(s: Pipeline, e: Event)
    requires Valid(s) && Enabled(s, e)
    ensures Allocates(s, e) ==> !e.Receive? && !e.SignFailed?
  {
    SignStageStep(s, e);
  }

  lemma HistoryGrows(before: Pipeline, after: Pipeline, tx: BroadcastTxRequest)
    requires Own(Received(after.broadcasts)) == Own(Received(before.broadcasts))
    requires Outstanding(after) == Outstanding(before) + [tx]
    ensures History(after) == History(before) + [tx]
  {
    Associate(Own(Received(before.broadcasts)), Outstanding(before), [tx]);
  }

  lemma HistoryMoves(before: Pipeline, after: Pipeline, tx: BroadcastTxRequest)
    requires Own(Received(after.broadcasts)) == Own(Received(before.broadcasts)) + [tx]
    requires Outstanding(before) == [tx] + Outstanding(after)
    ensures History(after) == History(before)
  {
    Associate(Own(Received(before.broadcasts)), [tx], Outstanding(after));
  }

  /** How the received part of the history grows. */
  lemma ReceivedStep(s: Pipeline, e: Event)
    requires Valid(s) && Enabled(s, e)
    ensures Own(Received(Step(s, e).broadcasts)) ==
            Own(Received(s.broadcasts)) + if ReceivesOwn(s, e) then [s.dispatchQueue.current.value] else []
  {
    NewBroadcasts(s, e);
    if e.Receive? {
      var tx := s.dispatchQueue.current.value;
      assert Received(Step(s, e).broadcasts) == Received(s.broadcasts) + [tx];
      OwnConcat(Received(s.broadcasts), [tx]);
    }
  }

  /** What is past stays past, and an allocation comes after it. */
  lemma PastStep(s: Pipeline, e: Event, tx: BroadcastTxRequest)
    requires Valid(s) && Enabled(s, e) && Past(s, tx)
    ensures Past(Step(s, e), tx)
    ensures Allocates(s, e) ==> Before(tx, Step(s, e).signStage.tx)
  {
  }

  lemma AllocatedIsPast(s: Pipeline, e: Event)
    requires Valid(s) && Enabled(s, e) && Allocates(s, e)
    ensures Past(Step(s, e), Step(s, e).signStage.tx)
  {
  }

  lemma StepInOrder(s: Pipeline, e: Event)
    requires Valid(s) && Enabled(s, e) && InOrder(s)
    ensures InOrder(Step(s, e))
  {
    HistoryStep(s, e);
    forall i | 0 <= i < |History(s)|
      ensures Past(Step(s, e), History(s)[i])
      ensures Allocates(s, e) ==> Before(History(s)[i], Step(s, e).signStage.tx)
    {
      PastStep(s, e, History(s)[i]);
    }
    if Allocates(s, e) {
      AllocatedIsPast(s, e);
      SnocInOrder(History(s), Step(s, e).signStage.tx, Step(s, e));
    } else {
      PrefixInOrder(History(s), History(Step(s, e)), Step(s, e));
    }
  }

  lemma SnocInOrder(txs: seq<BroadcastTxRequest>, tx: BroadcastTxRequest, s: Pipeline)
    requires Ordered(txs) && Past(s, tx) && History(s) == txs + [tx]
    requires forall i :: 0 <= i < |txs| ==> Past(s, txs[i]) && Before(txs[i], tx)
    ensures InOrder(s)
  {
    assert forall i :: 0 <= i < |txs| ==> (txs + [tx])[i] == txs[i];
    assert (txs + [tx])[|txs|] == tx;
  }

  lemma PrefixInOrder(txs: seq<BroadcastTxRequest>, fewer: seq<BroadcastTxRequest>, s: Pipeline)
    requires Ordered(txs) && fewer <= txs && History(s) == fewer
    requires forall i :: 0 <= i < |txs| ==> Past(s, txs[i])
    ensures InOrder(s)
  {
    assert forall i :: 0 <= i < |fewer| ==> fewer[i] == txs[i];
  }

  lemma {:induction false} RunInOrder(s: Pipeline, es: seq<Event>)
    requires Valid(s) && Runnable(s, es) && InOrder(s)
    ensures InOrder(Run(s, es))
    decreases |es|
  {
    if es == [] {
    } else {
      StepValid(s, es[0]);
      StepInOrder(s, es[0]);
      RunInOrder(Step(s, es[0]), es[1..]);
    }
  }

  lemma {:induction false} OwnPair(txs: seq<BroadcastTxRequest>, i: nat, j: nat) returns (k: nat, l: nat)
    requires i < j < |txs| && !txs[i].granted && !txs[j].granted
    ensures k < l < |Own(txs)| && Own(txs)[k] == txs[i] && Own(txs)[l] == txs[j]
  {
    if i == 0 {
      k := 0;
      l := OwnIndex(txs[1..], j - 1);
      l := l + 1;
    } else {
      k, l := OwnPair(txs[1..], i - 1, j - 1);
      if !txs[0].granted {
        k, l := k + 1, l + 1;
      }
    }
  }

  lemma {:induction false} OwnIndex(txs: seq<BroadcastTxRequest>, i: nat) returns (k: nat)
    requires i < |txs| && !txs[i].granted
    ensures k < |Own(txs)| && Own(txs)[k] == txs[i]
  {
    if i == 0 {
      k := 0;
    } else {
      k := OwnIndex(txs[1..], i - 1);
      if !txs[0].granted {
        k := k + 1;
      }
    }
  }

  /**
   * In every run: of two own transactions allocated between the same two reloads, the one that
   * reaches the chain first has the smaller allocated sequence; and across reloads the one
   * allocated after fewer reloads comes first.
   */
  lemma DispatchedInOrder(config: Config, chainNext: ChainState, es: seq<Event>, i: nat, j: nat)
    requires Runnable(Initial(config, chainNext), es)
    requires i < j < |Run(Initial(config, chainNext), es).broadcasts|
    requires var log := Run(Initial(config, chainNext), es).broadcasts;
             !log[i].tx.granted && !log[j].tx.granted
    ensures var log := Run(Initial(config, chainNext), es).broadcasts;
            Before(log[i].tx, log[j].tx)
  {
    var s := Run(Initial(config, chainNext), es);
    RunInOrder(Initial(config, chainNext), es);
    var k, l := OwnPair(Received(s.broadcasts), i, j);
    assert History(s)[k] == s.broadcasts[i].tx && History(s)[l] == s.broadcasts[j].tx;
  }
}
