/**
 * Where requests are and how they move. Every question about the fate of requests -- is one
 * lost or settled twice, does the work end, how often is one broadcast -- is a question about a
 * sum of weights over the requests in the pipeline, so one lemma about sums answers them all.
 */
module WalletFlow {
  import opened Basics
  import opened WalletPipeline

  datatype Place =
    | InSignQueue
    | AtAccountQuery | AtAccountReply | AtHeightQuery | AtSigner | AtGrantee
    | InDispatchQueue
    | AtBroadcast | AtReply | AtMismatch
    | AtRest | Forgotten

  type Weight = (Place, SignTxRequest) -> nat

  datatype Move =
    | Stay
    | Enter(request: SignTxRequest)
    | Shift(from: Place, request: SignTxRequest, to: Place, after: SignTxRequest)

  // ----- sums of weights -----

  function Requests(txs: seq<BroadcastTxRequest>): seq<SignTxRequest> {
    seq(|txs|, i requires 0 <= i < |txs| => txs[i].request)
  }

  function Settlers(settled: seq<Settlement>): seq<SignTxRequest> {
    seq(|settled|, i requires 0 <= i < |settled| => settled[i].request)
  }

  function Sum(rs: seq<SignTxRequest>, p: Place, w: Weight): nat {
    if rs == [] then 0 else w(p, rs[0]) + Sum(rs[1..], p, w)
  }

  function SignPlace(stage: SignStage): Place
    requires !stage.NotSigning?
  {
    match stage
    case QueryingAccount => AtAccountQuery
    case AccountAnswered(_) => AtAccountReply
    case QueryingHeight => AtHeightQuery
    case Signing(_) => AtSigner
    case SigningAsGrantee => AtGrantee
  }

  function DispatchPlace(stage: DispatchStage): Place
    requires !stage.NotDispatching?
  {
    match stage
    case Broadcasting => AtBroadcast
    case Replied(reply) => if reply == SequenceMismatch then AtMismatch else AtReply
  }

  ghost function OnSignQueue(s: Pipeline, w: Weight): nat {
    Sum(s.signQueue.queue, InSignQueue, w)
  }

  ghost function BeingSigned(s: Pipeline, w: Weight): nat
    requires Valid(s)
  {
    if s.signStage.NotSigning? then 0 else w(SignPlace(s.signStage), s.signQueue.current.value)
  }

  ghost function OnDispatchQueue(s: Pipeline, w: Weight): nat {
    Sum(Requests(s.dispatchQueue.queue), InDispatchQueue, w)
  }

  ghost function BeingDispatched(s: Pipeline, w: Weight): nat
    requires Valid(s)
  {
    if s.dispatchStage.NotDispatching? then 0
    else w(DispatchPlace(s.dispatchStage), s.dispatchQueue.current.value.request)
  }

  ghost function SettledOnes(s: Pipeline, w: Weight): nat {
    Sum(Settlers(s.settled), AtRest, w)
  }

  ghost function ForgottenOnes(s: Pipeline, w: Weight): nat {
    Sum(s.forgotten, Forgotten, w)
  }

  ghost function Total(s: Pipeline, w: Weight): nat
    requires Valid(s)
  {
    OnSignQueue(s, w) + BeingSigned(s, w) + OnDispatchQueue(s, w) + BeingDispatched(s, w) + SettledOnes(s, w) + ForgottenOnes(s, w)
  }

  lemma {:induction false} SumSnoc(rs: seq<SignTxRequest>, r: SignTxRequest, p: Place, w: Weight)
    ensures Sum(rs + [r], p, w) == Sum(rs, p, w) + w(p, r)
  {
    if rs == [] {
      assert rs + [r] == [r];
    } else {
      SumSnoc(rs[1..], r, p, w);
      assert (rs + [r])[1..] == rs[1..] + [r];
    }
  }

  lemma SumInit(rs: seq<SignTxRequest>, p: Place, w: Weight)
    requires rs != []
    ensures Sum(rs, p, w) == Sum(Init(rs), p, w) + w(p, Last(rs))
  {
    SumSnoc(Init(rs), Last(rs), p, w);
    assert rs == Init(rs) + [Last(rs)];
  }

  lemma RequestsSnocAndCons(txs: seq<BroadcastTxRequest>, tx: BroadcastTxRequest)
    ensures Requests([tx] + txs) == [tx.request] + Requests(txs)
    ensures txs != [] ==> Requests(Init(txs)) == Init(Requests(txs)) && Last(Requests(txs)) == Last(txs).request
  {
  }

  // ----- moves -----

  /** The one request that an event moves, if any. */
  ghost function MoveOf(s: Pipeline, e: Event): Move
    requires Valid(s) && Enabled(s, e)
  {
    match e
    case Submit(optsSequence, override, _) =>
      Enter(SignTxRequest(s.submitted, 0, optsSequence, override))
    case SignTimer(_, _) =>
      if s.signQueue.isProcessingQueue || s.signQueue.queue == [] then Stay else LeaveSignQueue(s, e)
    case SignResume(_) =>
      if s.signQueue.queue == [] then Stay else LeaveSignQueue(s, e)
    case AccountReply(_) => MoveSigning(s, AtAccountReply)
    case AccountLoaded => MoveSigning(s, SignPlace(Step(s, e).signStage))
    case AccountFailed => MoveSigning(s, AtRest)
    case HeightReply => MoveSigning(s, AtSigner)
    case Signed(_, _) => MoveSigning(s, InDispatchQueue)
    case SignFailed(_) => MoveSigning(s, AtRest)
    case DispatchTimer(_) =>
      if s.dispatchQueue.isProcessingQueue || s.dispatchQueue.queue == [] then Stay else LeaveDispatchQueue(s)
    case DispatchResume =>
      if s.dispatchQueue.queue == [] then Stay else LeaveDispatchQueue(s)
    case Receive(_, _) =>
      var r := s.dispatchQueue.current.value.request;
      Shift(AtBroadcast, r, DispatchPlace(Step(s, e).dispatchStage), r)
    case HandleReply(_) =>
      var r := s.dispatchQueue.current.value.request;
      if Retries(s, r, s.dispatchStage.reply)
      then Shift(AtMismatch, r, InSignQueue, r.(reattempts := r.reattempts + 1))
      else if Forgets(s, r, s.dispatchStage.reply) then Shift(DispatchPlace(s.dispatchStage), r, Forgotten, r)
      else Shift(DispatchPlace(s.dispatchStage), r, AtRest, r)
    case _ => Stay
  }

  ghost function LeaveSignQueue(s: Pipeline, e: Event): Move
    requires Valid(s) && Enabled(s, e) && s.signQueue.queue != []
    requires e.SignResume? || (e.SignTimer? && !s.signQueue.isProcessingQueue)
  {
    var r := Last(s.signQueue.queue);
    Shift(InSignQueue, r, SignPlace(Step(s, e).signStage), r)
  }

  ghost function MoveSigning(s: Pipeline, to: Place): Move
    requires Valid(s) && !s.signStage.NotSigning?
  {
    var r := s.signQueue.current.value;
    Shift(SignPlace(s.signStage), r, to, r)
  }

  ghost function LeaveDispatchQueue(s: Pipeline): Move
    requires s.dispatchQueue.queue != []
  {
    var r := Last(s.dispatchQueue.queue).request;
    Shift(InDispatchQueue, r, AtBroadcast, r)
  }

  ghost function Change(m: Move, w: Weight): int {
    match m
    case Stay => 0
    case Enter(r) => w(InSignQueue, r)
    case Shift(from, r, to, r') => w(to, r') - w(from, r)
  }

  /** The event moves exactly the request that `MoveOf` names, as far as this weight can tell. */
  ghost predicate Flows(s: Pipeline, e: Event, w: Weight)
    requires Valid(s) && Enabled(s, e)
  {
    Valid(Step(s, e)) && Total(Step(s, e), w) == Total(s, w) + Change(MoveOf(s, e), w)
  }

  /** Every event moves exactly the request that `MoveOf` names: all weighted sums say so. */
  lemma Flow(s: Pipeline, e: Event, w: Weight)
    requires Valid(s) && Enabled(s, e)
    ensures Flows(s, e, w)
  {
    match e
    case Submit(_, _, _) => FlowSubmit(s, e, w);
    case SignTimer(_, _) => FlowSignTimer(s, e, w);
    case SignResume(_) => FlowSignResume(s, e, w);
    case AccountReply(_) => FlowSigning(s, e, w);
    case AccountLoaded => FlowSigning(s, e, w);
    case AccountFailed => FlowFailure(s, e, w);
    case HeightReply => FlowSigning(s, e, w);
    case Signed(_, _) => FlowSigned(s, e, w);
    case SignFailed(_) => FlowFailure(s, e, w);
    case DispatchTimer(_) => FlowDispatchQueue(s, e, w);
    case DispatchResume => FlowDispatchQueue(s, e, w);
    case Receive(_, _) => FlowReceive(s, e, w);
    case HandleReply(_) => FlowReply(s, e, w);
    case Invalidate => FlowOutside(s, e, w);
    case OuterCall => FlowOutside(s, e, w);
    case OuterReply(_) => FlowOutside(s, e, w);
    case OuterLoaded => FlowOutside(s, e, w);
    case OuterFailed => FlowOutside(s, e, w);
    case OthersTransact(_) => FlowOutside(s, e, w);
  }

  lemma FlowSubmit(s: Pipeline, e: Event, w: Weight)
    requires Valid(s) && Enabled(s, e) && e.Submit?
    ensures Flows(s, e, w)
  {
    StepValid(s, e);
  }

  lemma FlowOutside(s: Pipeline, e: Event, w: Weight)
    requires Valid(s) && Enabled(s, e)
    requires e.Invalidate? || e.OuterCall? || e.OuterReply? || e.OuterLoaded? || e.OuterFailed? || e.OthersTransact?
    ensures Flows(s, e, w)
  {
    StepValid(s, e);
  }

  lemma FlowSigning(s: Pipeline, e: Event, w: Weight)
    requires Valid(s) && Enabled(s, e) && (e.AccountReply? || e.AccountLoaded? || e.HeightReply?)
    ensures Flows(s, e, w)
  {
    StepValid(s, e);
  }

  lemma FlowFailure(s: Pipeline, e: Event, w: Weight)
    requires Valid(s) && Enabled(s, e) && (e.AccountFailed? || e.SignFailed?)
    ensures Flows(s, e, w)
  {
    StepValid(s, e);
    FlowSettle(s, s.signQueue.current.value, false, w);
  }

  lemma FlowSigned(s: Pipeline, e: Event, w: Weight)
    requires Valid(s) && Enabled(s, e) && e.Signed?
    ensures Flows(s, e, w)
  {
    StepValid(s, e);
    RequestsSnocAndCons(s.dispatchQueue.queue, SignedTx(s, e.granteeSequence));
  }

  lemma FlowReceive(s: Pipeline, e: Event, w: Weight)
    requires Valid(s) && Enabled(s, e) && e.Receive?
    ensures Flows(s, e, w)
  {
    StepValid(s, e);
  }

  lemma FlowReply(s: Pipeline, e: Event, w: Weight)
    requires Valid(s) && Enabled(s, e) && e.HandleReply?
    ensures Flows(s, e, w)
  {
    var r, reply := s.dispatchQueue.current.value.request, s.dispatchStage.reply;
    if Retries(s, r, reply) {
      FlowRetry(s, e, r, w);
    } else if Forgets(s, r, reply) {
      FlowForgotten(s, e, r, w);
    } else {
      FlowSettled(s, e, r, w);
    }
  }

  lemma FlowRetry(s: Pipeline, e: Event, r: SignTxRequest, w: Weight)
    requires Valid(s) && Enabled(s, e) && e.HandleReply? && r == s.dispatchQueue.current.value.request
    requires Retries(s, r, s.dispatchStage.reply)
    ensures Flows(s, e, w)
  {
    StepValid(s, e);
  }

  lemma FlowForgotten(s: Pipeline, e: Event, r: SignTxRequest, w: Weight)
    requires Valid(s) && Enabled(s, e) && e.HandleReply? && r == s.dispatchQueue.current.value.request
    requires !Retries(s, r, s.dispatchStage.reply) && Forgets(s, r, s.dispatchStage.reply)
    ensures Flows(s, e, w)
  {
    StepValid(s, e);
    SumSnoc(s.forgotten, r, Forgotten, w);
  }

  lemma FlowSettled(s: Pipeline, e: Event, r: SignTxRequest, w: Weight)
    requires Valid(s) && Enabled(s, e) && e.HandleReply? && r == s.dispatchQueue.current.value.request
    requires !Retries(s, r, s.dispatchStage.reply) && !Forgets(s, r, s.dispatchStage.reply)
    ensures Flows(s, e, w)
  {
    StepValid(s, e);
    FlowSettle(s, r, s.dispatchStage.reply == Accepted, w);
  }

  lemma FlowSignTimer(s: Pipeline, e: Event, w: Weight)
    requires Valid(s) && Enabled(s, e) && e.SignTimer?
    ensures Flows(s, e, w)
  {
    if s.signQueue.isProcessingQueue || s.signQueue.queue == [] {
      StepValid(s, e);
    } else {
      FlowSignPass(s, e, w);
    }
  }

  lemma FlowSignPass(s: Pipeline, e: Event, w: Weight)
    requires Valid(s) && Enabled(s, e) && e.SignTimer? && !s.signQueue.isProcessingQueue && s.signQueue.queue != []
    ensures Flows(s, e, w)
  {
    StepValid(s, e);
    SumInit(s.signQueue.queue, InSignQueue, w);
    SigningBegins(s.(signQueue := TaskQueue.AfterFire(s.signQueue, e.timer)), e.grantee);
  }

  /** Where the next request on the sign queue goes; nothing else moves. */
  lemma SigningBegins(s: Pipeline, grantee: bool)
    requires s.signQueue.current.Some?
    ensures var s' := BeginSign(s, grantee);
            && !s'.signStage.NotSigning? && s'.signQueue == s.signQueue
            && s'.dispatchQueue == s.dispatchQueue && s'.dispatchStage == s.dispatchStage
            && s'.settled == s.settled && s'.forgotten == s.forgotten
  {
  }

  lemma FlowSignResume(s: Pipeline, e: Event, w: Weight)
    requires Valid(s) && Enabled(s, e) && e.SignResume?
    ensures Flows(s, e, w)
  {
    StepValid(s, e);
    if s.signQueue.queue != [] {
      SumInit(s.signQueue.queue, InSignQueue, w);
    }
  }

  lemma FlowDispatchQueue(s: Pipeline, e: Event, w: Weight)
    requires Valid(s) && Enabled(s, e) && (e.DispatchTimer? || e.DispatchResume?)
    ensures Flows(s, e, w)
  {
    StepValid(s, e);
    if s.dispatchQueue.queue != [] {
      RequestsSnocAndCons(s.dispatchQueue.queue, s.dispatchQueue.queue[0]);
      SumInit(Requests(s.dispatchQueue.queue), InDispatchQueue, w);
    }
  }

  lemma FlowSettle(s: Pipeline, r: SignTxRequest, resolved: bool, w: Weight)
    ensures SettledOnes(Settle(s, r, resolved), w) == SettledOnes(s, w) + w(AtRest, r)
  {
    SumSnoc(Settlers(s.settled), r, AtRest, w);
    assert Settlers(s.settled + [Settlement(r, resolved)]) == Settlers(s.settled) + [r];
  }

  // ----- which moves there are -----

  /** The stages in the order the code goes through them. */
  function Rank(p: Place): nat {
    match p
    case InSignQueue => 8
    case AtAccountQuery => 7
    case AtAccountReply => 6
    case AtHeightQuery => 5
    case AtSigner => 4
    case AtGrantee => 4
    case InDispatchQueue => 3
    case AtBroadcast => 2
    case AtReply => 1
    case AtMismatch => 1
    case AtRest => 0
    case Forgotten => 0
  }

  /** A request moves forward, or back to the start on its first mismatch. */
  predicate Legal(m: Move) {
    match m
    case Stay => true
    case Enter(r) => r.reattempts == 0
    case Shift(from, r, to, r') =>
      || (Rank(to) < Rank(from) && r' == r && (Rank(from) > 2 ==> Rank(to) >= 2 || to == AtRest))
      || (from == AtMismatch && to == InSignQueue && r.reattempts == 0 && r' == r.(reattempts := 1))
  }

  lemma MovesAreLegal(s: Pipeline, e: Event)
    requires Valid(s) && Enabled(s, e)
    ensures Legal(MoveOf(s, e))
    ensures MoveOf(s, e).Enter? <==> e.Submit?
    ensures e.Submit? ==> MoveOf(s, e).request.id == s.submitted
    ensures Step(s, e).submitted == s.submitted + if e.Submit? then 1 else 0
  {
    OnlySubmitEnters(s, e);
    if e.SignTimer? || e.SignResume? {
      NextIsLegal(s, e);
    } else if e.HandleReply? {
      ReplyIsLegal(s, e);
    } else {
      OthersAreLegal(s, e);
    }
  }

  lemma NextIsLegal(s: Pipeline, e: Event)
    requires Valid(s) && Enabled(s, e) && (e.SignTimer? || e.SignResume?)
    ensures Legal(MoveOf(s, e))
  {
  }

  lemma ReplyIsLegal(s: Pipeline, e: Event)
    requires Valid(s) && Enabled(s, e) && e.HandleReply?
    ensures Legal(MoveOf(s, e))
  {
  }

  lemma OthersAreLegal(s: Pipeline, e: Event)
    requires Valid(s) && Enabled(s, e) && !e.SignTimer? && !e.SignResume? && !e.HandleReply?
    ensures Legal(MoveOf(s, e))
  {
  }

  lemma OnlySubmitEnters(s: Pipeline, e: Event)
    requires Valid(s) && Enabled(s, e)
    ensures Step(s, e).submitted == s.submitted + if e.Submit? then 1 else 0
    ensures if e.Submit? then MoveOf(s, e).Enter? && MoveOf(s, e).request.id == s.submitted else !MoveOf(s, e).Enter?
  {
  }

  /** The log entry for the transaction at hand. */
  function Received(s: Pipeline, reply: Reply): Broadcast
    requires s.dispatchQueue.current.Some?
  {
    var tx := s.dispatchQueue.current.value;
    Broadcast(tx, s.chainNext.Next(tx.evm), reply)
  }

  /** The chain's log grows exactly when a request leaves the broadcast. */
  lemma OnlyReceiveBroadcasts(s: Pipeline, e: Event)
    requires Valid(s) && Enabled(s, e)
    ensures Step(s, e).config == s.config
    ensures !e.Receive? ==>
              Step(s, e).broadcasts == s.broadcasts && (MoveOf(s, e).Shift? ==> MoveOf(s, e).from != AtBroadcast)
    ensures e.Receive? ==>
              var r := s.dispatchQueue.current.value.request;
              && Step(s, e).broadcasts == s.broadcasts + [Received(s, e.reply)]
              && MoveOf(s, e) == Shift(AtBroadcast, r, if e.reply == SequenceMismatch then AtMismatch else AtReply, r)
    ensures MoveOf(s, e).Shift? && MoveOf(s, e).from == AtMismatch && MoveOf(s, e).to == InSignQueue ==>
              !s.config.disableRetryOnSequenceError
  {
    LogStep(s, e);
    BroadcastMoves(s, e);
    RetryMoves(s, e);
  }

  lemma LogStep(s: Pipeline, e: Event)
    requires Valid(s) && Enabled(s, e)
    ensures Step(s, e).config == s.config
    ensures Step(s, e).broadcasts ==
            s.broadcasts + if e.Receive? then [Received(s, e.reply)] else []
  {
  }

  lemma BroadcastMoves(s: Pipeline, e: Event)
    requires Valid(s) && Enabled(s, e)
    ensures !e.Receive? && MoveOf(s, e).Shift? ==> MoveOf(s, e).from != AtBroadcast
    ensures e.Receive? ==>
              var r := s.dispatchQueue.current.value.request;
              MoveOf(s, e) == Shift(AtBroadcast, r, if e.reply == SequenceMismatch then AtMismatch else AtReply, r)
  {
  }

  lemma RetryMoves(s: Pipeline, e: Event)
    requires Valid(s) && Enabled(s, e)
    ensures MoveOf(s, e).Shift? && MoveOf(s, e).from == AtMismatch && MoveOf(s, e).to == InSignQueue ==>
              e.HandleReply? && !s.config.disableRetryOnSequenceError
  {
  }
}
