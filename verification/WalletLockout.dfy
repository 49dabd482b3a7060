/**
 * What the queue's lost wake-up means for the wallet: once the sign queue is stuck, no request
 * submitted to this wallet is signed any more.
 */
module WalletLockout {
  import opened Basics
  import opened WalletPipeline

  predicate NotBefore(e: Event, since: nat) {
    (e.Submit? ==> e.now >= since) && (e.HandleReply? ==> e.now >= since)
  }

  /**
   * From a stuck sign queue on, whatever is submitted and whatever signer and chain answer,
   * every request on that queue stays there.
   */
  lemma {:induction false} LockedOut(s: Pipeline, since: nat, es: seq<Event>)
    requires Valid(s) && TaskQueue.Stuck(s.signQueue, since) && Runnable(s, es)
    requires forall i :: 0 <= i < |es| ==> NotBefore(es[i], since)
    ensures TaskQueue.Stuck(Run(s, es).signQueue, since)
    ensures TaskQueue.Waiting(s.signQueue) <= TaskQueue.Waiting(Run(s, es).signQueue)
    decreases |es|
  {
    if es == [] {
    } else {
      assert NotBefore(es[0], since);
      StepValid(s, es[0]);
      StuckStep(s, since, es[0]);
      LockedOut(Step(s, es[0]), since, es[1..]);
    }
  }

  lemma StuckStep(s: Pipeline, since: nat, e: Event)
    requires Valid(s) && TaskQueue.Stuck(s.signQueue, since) && Enabled(s, e) && NotBefore(e, since)
    ensures TaskQueue.Stuck(Step(s, e).signQueue, since)
    ensures TaskQueue.Waiting(s.signQueue) <= TaskQueue.Waiting(Step(s, e).signQueue)
  {
    match e
    case Submit(o, x, _) =>
      ReverseCons(SignTxRequest(s.submitted, 0, o, x), s.signQueue.queue);
    case HandleReply(_) =>
      var r := s.dispatchQueue.current.value.request;
      ReverseCons(r.(reattempts := r.reattempts + 1), s.signQueue.queue);
    case _ =>
  }

  /** A second request comes in while the first waits for its account, and both queries are slow and fail. */
  function SlowStart(t: nat): seq<Event> {
    [Submit(None, None, t), SignTimer(0, false), Submit(None, None, t + 400), SignTimer(1, false),
     AccountFailed, SignResume(false), AccountFailed, SignResume(false), Submit(None, None, t + 1200)]
  }

  /** The sign queue after the first k events. */
  function ExampleQueue(t: nat, k: nat): TaskQueue.Queue<SignTxRequest>
    requires k < 10
  {
    var a, b, c := Request(0), Request(1), Request(2);
    match k
    case 0 => TaskQueue.Fresh(300, 1000)
    case 1 => TaskQueue.Queue(300, 1000, t + 1000, Some(0), false, [a], None, map[0 := t + 300], 1)
    case 2 => TaskQueue.Queue(300, 1000, 0, Some(0), true, [], Some(a), map[], 1)
    case 3 => TaskQueue.Queue(300, 1000, t + 1400, Some(1), true, [b], Some(a), map[1 := t + 700], 2)
    case 4 | 5 => TaskQueue.Queue(300, 1000, t + 1400, Some(1), true, [b], Some(a), map[], 2)
    case 6 | 7 => TaskQueue.Queue(300, 1000, t + 1400, Some(1), true, [], Some(b), map[], 2)
    case 8 => TaskQueue.Queue(300, 1000, t + 1400, Some(1), false, [], None, map[], 2)
    case _ => TaskQueue.Queue(300, 1000, t + 1400, Some(1), false, [c], None, map[], 2)
  }

  /** The requests whose account query has failed by then. */
  function ExampleSettled(k: nat): seq<Settlement> {
    if k < 5 then [] else if k < 7 then [Settlement(Request(0), false)]
    else [Settlement(Request(0), false), Settlement(Request(1), false)]
  }

  /** The wallet after the first k events. */
  function ExampleState(config: Config, chainNext: ChainState, t: nat, k: nat): Pipeline
    requires k < 10
  {
    Initial(config, chainNext).(
      signQueue := ExampleQueue(t, k),
      signStage := if k in {2, 3, 4, 6} then QueryingAccount else NotSigning,
      submitted := if k == 0 then 0 else if k < 3 then 1 else if k < 9 then 2 else 3,
      settled := ExampleSettled(k))
  }

  /** Event k leads from state k to state k + 1. */
  ghost predicate ExampleStep(config: Config, chainNext: ChainState, t: nat, k: nat)
    requires k < 9
  {
    var s, e := ExampleState(config, chainNext, t, k), SlowStart(t)[k];
    Valid(s) && Enabled(s, e) && Step(s, e) == ExampleState(config, chainNext, t, k + 1)
  }

  lemma ExampleStarts(config: Config, chainNext: ChainState, t: nat, k: nat)
    requires t > 0 && k < 4
    ensures ExampleStep(config, chainNext, t, k)
  {
  }

  lemma ExampleFails(config: Config, chainNext: ChainState, t: nat, k: nat)
    requires t > 0 && (k == 4 || k == 6)
    ensures ExampleStep(config, chainNext, t, k)
  {
    assert ExampleSettled(k) + [Settlement(Request(if k == 4 then 0 else 1), false)] == ExampleSettled(k + 1);
  }

  lemma ExampleEnds(config: Config, chainNext: ChainState, t: nat, k: nat)
    requires t > 0 && (k == 5 || k == 7 || k == 8)
    ensures ExampleStep(config, chainNext, t, k)
  {
    assert k == 5 ==> Init([Request(1)]) == [];
    assert k == 8 ==> [Request(2)] + [] == [Request(2)];
  }

  lemma {:induction false} ExampleRun(config: Config, chainNext: ChainState, t: nat, k: nat)
    requires t > 0 && k <= 9
    ensures var s := Initial(config, chainNext);
            Runnable(s, SlowStart(t)[..k]) && Run(s, SlowStart(t)[..k]) == ExampleState(config, chainNext, t, k)
  {
    var s := Initial(config, chainNext);
    if k == 0 {
      assert SlowStart(t)[..0] == [] && s == ExampleState(config, chainNext, t, 0);
    } else {
      ExampleRun(config, chainNext, t, k - 1);
      match k - 1 {
        case 4 => ExampleFails(config, chainNext, t, 4);
        case 6 => ExampleFails(config, chainNext, t, 6);
        case 5 => ExampleEnds(config, chainNext, t, 5);
        case 7 => ExampleEnds(config, chainNext, t, 7);
        case 8 => ExampleEnds(config, chainNext, t, 8);
        case _ => ExampleStarts(config, chainNext, t, k - 1);
      }
      Reaches(s, SlowStart(t), k - 1, ExampleState(config, chainNext, t, k - 1), ExampleState(config, chainNext, t, k));
    }
  }

  /** A fresh wallet with default options can get there: its third request is never signed. */
  lemma WalletCanBeLockedOut(config: Config, chainNext: ChainState, t: nat)
    requires t > 0
    ensures var s := Initial(config, chainNext);
            && Runnable(s, SlowStart(t))
            && TaskQueue.Stuck(Run(s, SlowStart(t)).signQueue, t + 1200)
            && Run(s, SlowStart(t)).signQueue.queue == [SignTxRequest(2, 0, None, None)]
  {
    ExampleRun(config, chainNext, t, 9);
    assert SlowStart(t)[..9] == SlowStart(t);
  }
}
