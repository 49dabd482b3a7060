/**
 * The debounced task queue of the wallet: `QueueManager` in src/util/generic.ts.
 *
 * JavaScript runs one stretch of code between two `await`s at a time, so the model is a
 * transition system whose steps are those stretches: an enqueue or a bare trigger, the firing
 * of an armed timer (which starts a pass), and the settling of the item a pass waits for
 * (which pops the next one or ends the pass). The timers that `setTimeout` has armed and that
 * have neither fired nor been cleared are part of the state.
 */
module TaskQueue {
  import opened Basics

  datatype Queue<T> = Queue(
    triggerDelay: nat,
    maxDelayThreshold: int,
    currTriggerThreshold: int,       // 0: no threshold set
    currQueueTrigger: Option<nat>,   // the timer armed last
    isProcessingQueue: bool,
    queue: seq<T>,                   // newest first: tasks enter at the front, leave at the back
    current: Option<T>,              // the item the running pass awaits
    timers: map<nat, int>,           // armed timers and the times they are due
    nextTimer: nat)

  datatype Event<T> =
    | Enqueue(task: T, skipTrigger: bool, now: nat)
    | Trigger(now: nat)
    | Fire(timer: nat)
    | ItemSettled(failed: bool)

  /** What the outside sees of a pass: the processor is handed an item, and it settles. */
  datatype Activity<T> = Started(item: T) | Finished(item: T, failed: bool)

  function Fresh<T>(triggerDelay: nat, maxDelayThreshold: int): Queue<T> {
    Queue(triggerDelay, maxDelayThreshold, 0, None, false, [], None, map[], 0)
  }

  /** Tasks not yet handed to the processor, oldest first. */
  function Waiting<T>(q: Queue<T>): seq<T> {
    Reverse(q.queue)
  }

  // ----- the steps -----

  /** The early return of `trigger`: a threshold is set and the new due time would pass it. */
  predicate TooLate<T>(q: Queue<T>, now: nat) {
    q.currTriggerThreshold != 0 && now + q.triggerDelay > q.currTriggerThreshold
  }

  function AfterTrigger<T>(q: Queue<T>, now: nat): Queue<T> {
    if TooLate(q, now) then q
    else
      var cleared := match q.currQueueTrigger
        case Some(t) => q.timers - {t}
        case None => q.timers;
      q.(currTriggerThreshold :=
           if q.currTriggerThreshold == 0 && q.maxDelayThreshold > 0 then now + q.maxDelayThreshold
           else q.currTriggerThreshold,
         currQueueTrigger := Some(q.nextTimer),
         timers := cleared[q.nextTimer := now + q.triggerDelay],
         nextTimer := q.nextTimer + 1)
  }

  function AfterEnqueue<T>(q: Queue<T>, task: T, skipTrigger: bool, now: nat): Queue<T> {
    var q1 := q.(queue := [task] + q.queue);
    if skipTrigger then q1 else AfterTrigger(q1, now)
  }

  /** The head of the `while` loop of `process`: pop the oldest task, or end the pass. */
  function Advance<T>(q: Queue<T>): Queue<T> {
    if q.queue != [] then q.(queue := Init(q.queue), current := Some(Last(q.queue)))
    else q.(current := None, isProcessingQueue := false)
  }

  function AfterFire<T>(q: Queue<T>, timer: nat): Queue<T> {
    var q1 := q.(timers := q.timers - {timer});
    if q1.isProcessingQueue then q1
    else Advance(q1.(isProcessingQueue := true, currTriggerThreshold := 0))
  }

  predicate Enabled<T>(q: Queue<T>, e: Event<T>) {
    match e
    case Fire(timer) => timer in q.timers
    case ItemSettled(_) => q.current.Some?
    case _ => true
  }

  function Step<T>(q: Queue<T>, e: Event<T>): Queue<T> {
    match e
    case Enqueue(task, skipTrigger, now) => AfterEnqueue(q, task, skipTrigger, now)
    case Trigger(now) => AfterTrigger(q, now)
    case Fire(timer) => AfterFire(q, timer)
    case ItemSettled(_) => Advance(q)
  }

  function StartedBy<T>(q: Queue<T>, e: Event<T>): seq<Activity<T>> {
    if e.Enqueue? || e.Trigger? || (e.Fire? && q.isProcessingQueue) then []
    else if Step(q, e).current.Some? then [Started(Step(q, e).current.value)] else []
  }

  function Emitted<T>(q: Queue<T>, e: Event<T>): seq<Activity<T>>
    requires Enabled(q, e)
  {
    (if e.ItemSettled? then [Finished(q.current.value, e.failed)] else []) + StartedBy(q, e)
  }

  // ----- runs -----

  predicate Runnable<T>(q: Queue<T>, es: seq<Event<T>>)
    decreases |es|
  {
    es == [] || (Enabled(q, es[0]) && Runnable(Step(q, es[0]), es[1..]))
  }

  function Run<T>(q: Queue<T>, es: seq<Event<T>>): Queue<T>
    decreases |es|
  {
    if es == [] then q else Run(Step(q, es[0]), es[1..])
  }

  function Log<T>(q: Queue<T>, es: seq<Event<T>>): seq<Activity<T>>
    requires Runnable(q, es)
    decreases |es|
  {
    if es == [] then [] else Emitted(q, es[0]) + Log(Step(q, es[0]), es[1..])
  }

  function Enqueued<T>(es: seq<Event<T>>): seq<T> {
    if es == [] then [] else EnqueuedBy(es[0]) + Enqueued(es[1..])
  }

  function EnqueuedBy<T>(e: Event<T>): seq<T> {
    if e.Enqueue? then [e.task] else []
  }

  function StartedItems<T>(log: seq<Activity<T>>): seq<T> {
    if log == [] then [] else StartedItem(log[0]) + StartedItems(log[1..])
  }

  function StartedItem<T>(a: Activity<T>): seq<T> {
    if a.Started? then [a.item] else []
  }

  // ----- the inductive invariant -----

  /** At most one timer is armed, and a pass is running exactly while it awaits an item. */
  ghost predicate Valid<T>(q: Queue<T>) {
    && (forall t :: t in q.timers ==> q.currQueueTrigger == Some(t))
    && (q.currQueueTrigger.Some? ==> q.currQueueTrigger.value < q.nextTimer)
    && (q.isProcessingQueue <==> q.current.Some?)
    && q.currTriggerThreshold >= 0
    && (q.maxDelayThreshold <= 0 ==> q.currTriggerThreshold == 0)
  }

  lemma FreshValid<T>(triggerDelay: nat, maxDelayThreshold: int)
    ensures Valid(Fresh<T>(triggerDelay, maxDelayThreshold))
  {
  }

  lemma StepValid<T>(q: Queue<T>, e: Event<T>)
    requires Valid(q) && Enabled(q, e)
    ensures Valid(Step(q, e))
    ensures Step(q, e).triggerDelay == q.triggerDelay
    ensures Step(q, e).maxDelayThreshold == q.maxDelayThreshold
  {
  }

  lemma {:induction false} RunValid<T>(q: Queue<T>, es: seq<Event<T>>)
    requires Valid(q) && Runnable(q, es)
    ensures Valid(Run(q, es))
    decreases |es|
  {
    if es == [] {
    } else {
      StepValid(q, es[0]);
      RunValid(Step(q, es[0]), es[1..]);
    }
  }

  /** After any run of a fresh queue, with any delays, at most one timer is armed. */
  lemma AtMostOneTimer<T>(triggerDelay: nat, maxDelayThreshold: int, es: seq<Event<T>>, t: nat, u: nat)
    requires Runnable(Fresh(triggerDelay, maxDelayThreshold), es)
    requires t in Run(Fresh(triggerDelay, maxDelayThreshold), es).timers
    requires u in Run(Fresh(triggerDelay, maxDelayThreshold), es).timers
    ensures t == u
  {
    FreshValid<T>(triggerDelay, maxDelayThreshold);
    RunValid(Fresh(triggerDelay, maxDelayThreshold), es);
  }

  // ----- order and exclusion -----

  lemma {:induction false} StartedItemsConcat<T>(a: seq<Activity<T>>, b: seq<Activity<T>>)
    ensures StartedItems(a + b) == StartedItems(a) + StartedItems(b)
  {
    if a == [] {
      assert a + b == b;
    } else {
      StartedItemsConcat(a[1..], b);
      assert (a + b)[1..] == a[1..] + b && (a + b)[0] == a[0];
      Associate(StartedItem(a[0]), StartedItems(a[1..]), StartedItems(b));
    }
  }

  function AsSeq<T>(x: Option<T>): seq<T> {
    match x
    case Some(v) => [v]
    case None => []
  }

  lemma AdvanceOrder<T>(q: Queue<T>)
    ensures AsSeq(Advance(q).current) + Waiting(Advance(q)) == Waiting(q)
  {
    if q.queue != [] {
      ReverseLast(q.queue);
    }
  }

  lemma StepOrder<T>(q: Queue<T>, e: Event<T>)
    requires Enabled(q, e)
    ensures StartedItems(Emitted(q, e)) + Waiting(Step(q, e)) == Waiting(q) + EnqueuedBy(e)
  {
    match e
    case Enqueue(task, _, _) =>
      ReverseCons(task, q.queue);
      assert Emitted(q, e) == [];
      assert [] + Waiting(Step(q, e)) == Waiting(Step(q, e));
    case Trigger(_) =>
      assert [] + Waiting(q) == Waiting(q) + [];
    case Fire(_) =>
      OrderOnFire(q, e);
    case ItemSettled(_) =>
      OrderOnSettled(q, e);
  }

  lemma OrderOnFire<T>(q: Queue<T>, e: Event<T>)
    requires Enabled(q, e) && e.Fire?
    ensures StartedItems(Emitted(q, e)) + Waiting(Step(q, e)) == Waiting(q) + EnqueuedBy(e)
  {
    if q.isProcessingQueue {
      assert [] + Waiting(q) == Waiting(q) + [];
    } else {
      AdvanceOrder(q.(timers := q.timers - {e.timer}, isProcessingQueue := true, currTriggerThreshold := 0));
      assert StartedItems(StartedBy(q, e)) == AsSeq(Step(q, e).current);
      assert Waiting(q) + [] == Waiting(q);
    }
  }

  lemma OrderOnSettled<T>(q: Queue<T>, e: Event<T>)
    requires Enabled(q, e) && e.ItemSettled?
    ensures StartedItems(Emitted(q, e)) + Waiting(Step(q, e)) == Waiting(q) + EnqueuedBy(e)
  {
    AdvanceOrder(q);
    StartedItemsConcat([Finished(q.current.value, e.failed)], StartedBy(q, e));
    assert StartedItems(StartedBy(q, e)) == AsSeq(Step(q, e).current);
    assert Waiting(q) + [] == Waiting(q) && [] + StartedItems(StartedBy(q, e)) == StartedItems(StartedBy(q, e));
  }

  /**
   * First in, first out, nothing lost and nothing twice, whatever the interleaving and
   * whichever items fail: what the processor has been handed, followed by what still waits, is
   * what waited at the start followed by what was enqueued since.
   */
  lemma {:induction false} FirstInFirstOut<T>(q: Queue<T>, es: seq<Event<T>>)
    requires Runnable(q, es)
    ensures StartedItems(Log(q, es)) + Waiting(Run(q, es)) == Waiting(q) + Enqueued(es)
    decreases |es|
  {
    if es == [] {
    } else {
      var e, rest, q1 := es[0], es[1..], Step(q, es[0]);
      StepOrder(q, e);
      FirstInFirstOut(q1, rest);
      StartedItemsConcat(Emitted(q, e), Log(q1, rest));
      Regroup(StartedItems(Emitted(q, e)), StartedItems(Log(q1, rest)), Waiting(Run(q1, rest)),
              Waiting(q1), Enqueued(rest), Waiting(q), EnqueuedBy(e));
    }
  }

  lemma Regroup<T>(a: seq<T>, b: seq<T>, c: seq<T>, d: seq<T>, f: seq<T>, g: seq<T>, h: seq<T>)
    requires b + c == d + f && a + d == g + h
    ensures (a + b) + c == g + (h + f)
  {
    assert (a + b) + c == a + (b + c) == (a + d) + f;
    assert (g + h) + f == g + (h + f);
  }

  /** A log in which items are worked on strictly one after the other; `busy` is under way. */
  predicate OneAtATime<T(==)>(busy: Option<T>, log: seq<Activity<T>>)
    decreases |log|
  {
    if log == [] then true
    else match log[0]
      case Started(x) => busy.None? && OneAtATime(Some(x), log[1..])
      case Finished(x, _) => busy == Some(x) && OneAtATime(None, log[1..])
  }

  lemma {:induction false} OneAtATimeConcat<T>(busy: Option<T>, mid: Option<T>, a: seq<Activity<T>>, b: seq<Activity<T>>)
    requires |a| <= 2 && OneAtATime(busy, a) && OneAtATime(mid, b)
    requires a == [] ==> mid == busy
    requires a != [] ==> mid == if Last(a).Started? then Some(Last(a).item) else None
    ensures OneAtATime(busy, a + b)
    decreases |a|
  {
    if a == [] {
      assert a + b == b;
    } else {
      assert (a + b)[1..] == a[1..] + b;
      OneAtATimeConcat(if a[0].Started? then Some(a[0].item) else None, mid, a[1..], b);
    }
  }

  /** Exclusion: over any run the processor is given an item only when the last one has settled. */
  lemma {:induction false} Exclusion<T>(q: Queue<T>, es: seq<Event<T>>)
    requires Valid(q) && Runnable(q, es)
    ensures OneAtATime(q.current, Log(q, es))
    decreases |es|
  {
    if es == [] {
    } else {
      var e := es[0];
      var q1 := Step(q, e);
      StepValid(q, e);
      Exclusion(q1, es[1..]);
      var a := Emitted(q, e);
      if e.ItemSettled? && |a| == 2 {
        assert a[1..] == [Started(q1.current.value)];
      }
      OneAtATimeConcat(q.current, q1.current, a, Log(q1, es[1..]));
    }
  }

  // ----- bounded debounce -----

  /** Events that carry a time carry a positive one (milliseconds since 1970). */
  predicate Timed<T>(e: Event<T>) {
    e.Enqueue? || e.Trigger? ==> e.now > 0
  }

  /** The time of the trigger that opened the current burst, if one is open. */
  function BurstStart<T>(q: Queue<T>): Option<int> {
    if q.currTriggerThreshold == 0 then None else Some(q.currTriggerThreshold - q.maxDelayThreshold)
  }

  predicate Triggers<T>(e: Event<T>) {
    e.Trigger? || (e.Enqueue? && !e.skipTrigger)
  }

  /** The same time read off the events of a run: set by a trigger, cleared when a pass starts. */
  function FirstTrigger<T>(q: Queue<T>, es: seq<Event<T>>, open: Option<int>): Option<int>
    decreases |es|
  {
    if es == [] then open else FirstTrigger(Step(q, es[0]), es[1..], NextOpen(q, es[0], open))
  }

  function NextOpen<T>(q: Queue<T>, e: Event<T>, open: Option<int>): Option<int> {
    if Triggers(e) && open == None then Some(e.now)
    else if e.Fire? && !q.isProcessingQueue then None
    else open
  }

  predicate AllTimed<T>(es: seq<Event<T>>) {
    forall i :: 0 <= i < |es| ==> Timed(es[i])
  }

  /** Every armed timer is due within the larger of the two delays of the burst's first trigger. */
  ghost predicate Bounded<T>(q: Queue<T>) {
    q.maxDelayThreshold > 0 && q.currTriggerThreshold != 0 ==>
      q.currTriggerThreshold > q.maxDelayThreshold &&
      forall t :: t in q.timers ==> q.timers[t] <= BurstStart(q).value + Max(q.triggerDelay, q.maxDelayThreshold)
  }

  function Max(a: int, b: int): int {
    if a < b then b else a
  }

  lemma {:induction false} BoundedDebounceFrom<T>(q: Queue<T>, es: seq<Event<T>>)
    requires Valid(q) && Bounded(q) && q.maxDelayThreshold > 0
    requires q.timers != map[] ==> q.currTriggerThreshold != 0
    requires Runnable(q, es) && AllTimed(es)
    ensures Valid(Run(q, es)) && Bounded(Run(q, es))
    ensures Run(q, es).timers != map[] ==> Run(q, es).currTriggerThreshold != 0
    ensures FirstTrigger(q, es, BurstStart(q)) == BurstStart(Run(q, es))
    decreases |es|
  {
    if es == [] {
    } else {
      StepValid(q, es[0]);
      BoundedDebounceFrom(Step(q, es[0]), es[1..]);
    }
  }

  /**
   * With a positive `maxDelayThreshold`, after any run an armed timer is due no later than the
   * first trigger of its burst plus the larger of the two delays, however many triggers followed.
   */
  lemma BoundedDebounce<T>(triggerDelay: nat, maxDelayThreshold: nat, es: seq<Event<T>>, t: nat)
    requires maxDelayThreshold > 0
    requires Runnable(Fresh(triggerDelay, maxDelayThreshold), es) && AllTimed(es)
    requires t in Run(Fresh(triggerDelay, maxDelayThreshold), es).timers
    ensures var q := Fresh(triggerDelay, maxDelayThreshold);
            var first := FirstTrigger(q, es, None);
            first.Some? && Run(q, es).timers[t] <= first.value + Max(triggerDelay, maxDelayThreshold)
  {
    BoundedDebounceFrom(Fresh<T>(triggerDelay, maxDelayThreshold), es);
    RunKeepsOptions(Fresh<T>(triggerDelay, maxDelayThreshold), es);
  }

  // ----- exact debounce -----

  /** A burst is open since `open`, and the due time of a trigger now would pass its limit. */
  predicate PastLimit<T>(q: Queue<T>, open: Option<int>, now: nat) {
    q.maxDelayThreshold > 0 && open.Some? && now + q.triggerDelay > open.value + q.maxDelayThreshold
  }

  /**
   * The last trigger of a run that was not past the limit of its burst, if no timer has fired
   * since, read off the events; `open` is the start of the burst, as in `FirstTrigger`.
   */
  function LastTrigger<T>(q: Queue<T>, es: seq<Event<T>>, open: Option<int>, last: Option<int>): Option<int>
    decreases |es|
  {
    if es == [] then last
    else LastTrigger(Step(q, es[0]), es[1..], NextOpen(q, es[0], open), NextLast(q, es[0], open, last))
  }

  function NextLast<T>(q: Queue<T>, e: Event<T>, open: Option<int>, last: Option<int>): Option<int> {
    if Triggers(e) && !PastLimit(q, open, e.now) then Some(e.now) else if e.Fire? then None else last
  }

  /** There is a timer exactly if there is such a trigger, and it is due one delay after that. */
  ghost predicate DueAfter<T>(q: Queue<T>, last: Option<int>) {
    && (q.timers != map[] <==> last.Some?)
    && forall t :: t in q.timers ==> q.timers[t] == last.value + q.triggerDelay
  }

  /** The burst read off the run is that of the threshold. */
  predicate OpenSince<T>(q: Queue<T>, open: Option<int>) {
    q.maxDelayThreshold > 0 ==> open == BurstStart(q)
  }

  lemma DueStep<T>(q: Queue<T>, e: Event<T>, open: Option<int>, last: Option<int>)
    requires Valid(q) && Enabled(q, e) && OpenSince(q, open) && DueAfter(q, last)
    ensures OpenSince(Step(q, e), NextOpen(q, e, open)) && DueAfter(Step(q, e), NextLast(q, e, open, last))
  {
    if Triggers(e) {
      assert TooLate(q, e.now) <==> PastLimit(q, open, e.now);
      assert !TooLate(q, e.now) ==> q.nextTimer in Step(q, e).timers;
    }
    if e.Fire? {
      assert forall t :: t in q.timers ==> t == e.timer;
    }
  }

  lemma {:induction false} DueFrom<T>(q: Queue<T>, es: seq<Event<T>>, open: Option<int>, last: Option<int>)
    requires Valid(q) && Runnable(q, es) && OpenSince(q, open) && DueAfter(q, last)
    ensures DueAfter(Run(q, es), LastTrigger(q, es, open, last))
    decreases |es|
  {
    if es == [] {
    } else {
      StepValid(q, es[0]);
      DueStep(q, es[0], open, last);
      DueFrom(Step(q, es[0]), es[1..], NextOpen(q, es[0], open), NextLast(q, es[0], open, last));
    }
  }

  /**
   * After any run of a fresh queue, with any delays: a timer is armed exactly when a trigger that
   * was not past the limit of its burst has come since the last timer fired, and it is due
   * exactly `triggerDelay` after the last such trigger.
   */
  lemma DueExactly<T>(triggerDelay: nat, maxDelayThreshold: int, es: seq<Event<T>>)
    requires Runnable(Fresh(triggerDelay, maxDelayThreshold), es)
    ensures var q := Fresh(triggerDelay, maxDelayThreshold);
            var r, last := Run(q, es), LastTrigger(q, es, None, None);
            && (r.timers != map[] <==> last.Some?)
            && forall t :: t in r.timers ==> r.timers[t] == last.value + triggerDelay
  {
    var q := Fresh<T>(triggerDelay, maxDelayThreshold);
    FreshValid<T>(triggerDelay, maxDelayThreshold);
    DueFrom(q, es, None, None);
    RunKeepsOptions(q, es);
  }

  lemma {:induction false} RunKeepsOptions<T>(q: Queue<T>, es: seq<Event<T>>)
    ensures Run(q, es).triggerDelay == q.triggerDelay
    ensures Run(q, es).maxDelayThreshold == q.maxDelayThreshold
    decreases |es|
  {
    if es == [] {
    } else {
      RunKeepsOptions(Step(q, es[0]), es[1..]);
    }
  }

  // ----- wake-up -----

  /** Waiting work is going to be looked at: a pass runs, or a timer that will start one is armed. */
  predicate Awake<T>(q: Queue<T>) {
    q.queue != [] && !q.isProcessingQueue ==> q.timers != map[]
  }

  /** A threshold left behind by no armed timer. */
  predicate Stale<T>(q: Queue<T>) {
    q.currTriggerThreshold != 0 && q.timers == map[]
  }

  /**
   * Exactly when an enqueue leaves the queue awake. The caller can see all of it beforehand: a
   * pass is running, a timer is armed, or the enqueue triggers and is not too late.
   */
  lemma EnqueueWakes<T>(q: Queue<T>, task: T, skipTrigger: bool, now: nat)
    requires Valid(q)
    ensures Awake(AfterEnqueue(q, task, skipTrigger, now)) <==>
            q.isProcessingQueue || q.timers != map[] || (!skipTrigger && !TooLate(q, now))
  {
    var q1 := AfterEnqueue(q, task, skipTrigger, now);
    if !skipTrigger && !TooLate(q, now) {
      assert q.nextTimer in q1.timers;
    }
  }

  /**
   * Exactly how a threshold goes stale: the early return of `process` swallows the one armed
   * timer during a pass and does not reset the threshold.
   */
  lemma HowThresholdGoesStale<T>(q: Queue<T>, e: Event<T>)
    requires Valid(q) && Enabled(q, e) && Timed(e) && !Stale(q)
    ensures Stale(Step(q, e)) <==> e.Fire? && q.isProcessingQueue && q.currTriggerThreshold != 0
  {
    var q1 := Step(q, e);
    if Triggers(e) && !TooLate(q, e.now) {
      assert q.nextTimer in q1.timers;
    } else if e.Fire? {
      assert forall t :: t in q.timers ==> t == e.timer;
      assert q1.timers == map[];
    }
  }

  /** No timer fires during a pass, and every enqueue triggers. */
  predicate Smooth<T>(q: Queue<T>, es: seq<Event<T>>)
    decreases |es|
  {
    es != [] ==>
      && !(es[0].Fire? && q.isProcessingQueue)
      && !(es[0].Enqueue? && es[0].skipTrigger)
      && Smooth(Step(q, es[0]), es[1..])
  }

  /** In every smooth run, waiting work keeps a pass or a timer at all times. */
  lemma {:induction false} SmoothRunsStayAwake<T>(q: Queue<T>, es: seq<Event<T>>)
    requires Valid(q) && Awake(q) && !Stale(q)
    requires Runnable(q, es) && AllTimed(es) && Smooth(q, es)
    ensures Awake(Run(q, es)) && !Stale(Run(q, es))
    decreases |es|
  {
    if es == [] {
    } else {
      var e := es[0];
      var q1 := Step(q, e);
      StepValid(q, e);
      HowThresholdGoesStale(q, e);
      if e.Enqueue? {
        EnqueueWakes(q, e.task, e.skipTrigger, e.now);
      } else if e.Trigger? && !TooLate(q, e.now) {
        assert q.nextTimer in q1.timers;
      }
      SmoothRunsStayAwake(q1, es[1..]);
    }
  }

  // ----- the lost wake-up -----

  /** Idle with a stale threshold that any trigger at `since` or later would find too close. */
  predicate Stuck<T>(q: Queue<T>, since: nat) {
    Stale(q) && !q.isProcessingQueue && q.current == None && TooLate(q, since)
  }

  predicate NotBefore<T>(e: Event<T>, since: nat) {
    e.Enqueue? || e.Trigger? ==> e.now >= since
  }

  /**
   * Being stuck is for ever: on every later run no item is handed to the processor, and
   * everything enqueued just joins what waits.
   */
  lemma {:induction false} StuckForever<T>(q: Queue<T>, since: nat, es: seq<Event<T>>)
    requires Stuck(q, since) && Runnable(q, es)
    requires forall i :: 0 <= i < |es| ==> NotBefore(es[i], since)
    ensures Stuck(Run(q, es), since)
    ensures Log(q, es) == []
    ensures Waiting(Run(q, es)) == Waiting(q) + Enqueued(es)
    decreases |es|
  {
    if es == [] {
    } else {
      assert NotBefore(es[0], since);
      StuckForever(Step(q, es[0]), since, es[1..]);
      FirstInFirstOut(q, es);
    }
  }

  /** Appending an event to a run. */
  lemma {:induction false} RunSnoc<T>(q: Queue<T>, es: seq<Event<T>>, e: Event<T>)
    requires Runnable(q, es) && Enabled(Run(q, es), e)
    ensures Runnable(q, es + [e]) && Run(q, es + [e]) == Step(Run(q, es), e)
    decreases |es|
  {
    if es == [] {
      assert es + [e] == [e];
    } else {
      RunSnoc(Step(q, es[0]), es[1..], e);
      assert (es + [e])[1..] == es[1..] + [e];
    }
  }

  function LostWakeUp<T>(a: T, b: T, c: T, t: nat): seq<Event<T>> {
    [Enqueue(a, false, t), Fire(0), Enqueue(b, false, t + 400), Fire(1),
     ItemSettled(false), ItemSettled(false), Enqueue(c, false, t + 1200)]
  }

  /**
   * It happens with the default options: a task arrives while another is being processed, its
   * timer fires before that pass ends, the pass takes the task and ends, and the next task
   * arrives more than `maxDelayThreshold - triggerDelay` after the second one.
   */
  lemma StuckIsReachable<T>(a: T, b: T, c: T, t: nat)
    requires t > 0
    ensures Runnable(Fresh(300, 1000), LostWakeUp(a, b, c, t))
    ensures Stuck(Run(Fresh(300, 1000), LostWakeUp(a, b, c, t)), t + 1200)
    ensures Waiting(Run(Fresh(300, 1000), LostWakeUp(a, b, c, t))) == [c]
  {
    var q, es := Fresh<T>(300, 1000), LostWakeUp(a, b, c, t);
    var q1 := Queue(300, 1000, t + 1000, Some(0), false, [a], None, map[0 := t + 300], 1);
    var q2 := Queue(300, 1000, 0, Some(0), true, [], Some(a), map[], 1);
    var q3 := Queue(300, 1000, t + 1400, Some(1), true, [b], Some(a), map[1 := t + 700], 2);
    var q5 := Queue(300, 1000, t + 1400, Some(1), true, [], Some(b), map[], 2);
    var q7 := Queue(300, 1000, t + 1400, Some(1), false, [c], None, map[], 2);
    assert Step(q, es[0]) == q1;
    assert Step(q1, es[1]) == q2;
    assert Step(q2, es[2]) == q3;
    assert Step(Step(q3, es[3]), es[4]) == q5;
    assert Step(Step(q5, es[5]), es[6]) == q7;
    assert forall k :: 0 <= k < 7 ==> es[..k + 1] == es[..k] + [es[k]];
    forall k | 0 <= k < 7
      ensures Runnable(q, es[..k]) && Enabled(Run(q, es[..k]), es[k]) ==>
        Runnable(q, es[..k + 1]) && Run(q, es[..k + 1]) == Step(Run(q, es[..k]), es[k])
    {
      if Runnable(q, es[..k]) && Enabled(Run(q, es[..k]), es[k]) {
        RunSnoc(q, es[..k], es[k]);
      }
    }
    assert Run(q, es[..5]) == q5;
    assert es[..7] == es;
  }

  // ----- the class -----

  /**
   * `QueueManager`. The fields down to `queue` are the source's; `current`, `timers` and
   * `nextTimer` hold what a JavaScript engine keeps for it: the item the suspended `process`
   * awaits, and the armed timers.
   */
  class QueueManager<T> {
    const triggerDelay: nat
    const maxDelayThreshold: int
    var currTriggerThreshold: int
    var currQueueTrigger: Option<nat>
    var isProcessingQueue: bool
    var queue: seq<T>
    var current: Option<T>
    var timers: map<nat, int>
    var nextTimer: nat

    function View(): Queue<T>
      reads this
    {
      Queue(triggerDelay, maxDelayThreshold, currTriggerThreshold, currQueueTrigger,
            isProcessingQueue, queue, current, timers, nextTimer)
    }

    constructor (triggerDelay: nat := 300, maxDelayThreshold: int := 1000)
      ensures View() == Fresh(triggerDelay, maxDelayThreshold)
    {
      this.triggerDelay, this.maxDelayThreshold := triggerDelay, maxDelayThreshold;
      currTriggerThreshold, currQueueTrigger, isProcessingQueue := 0, None, false;
      queue, current, timers, nextTimer := [], None, map[], 0;
    }

    method Enqueue(task: T, skipTrigger: bool, now: nat)
      modifies this
      ensures View() == AfterEnqueue(old(View()), task, skipTrigger, now)
    {
      queue := [task] + queue;
      if !skipTrigger {
        Trigger(now);
      }
    }

    method Trigger(now: nat)
      modifies this
      ensures View() == AfterTrigger(old(View()), now)
    {
      if currTriggerThreshold != 0 && now + triggerDelay > currTriggerThreshold {
        return;
      }
      if currTriggerThreshold == 0 && maxDelayThreshold > 0 {
        currTriggerThreshold := now + maxDelayThreshold;
      }
      if currQueueTrigger.Some? {
        timers := timers - {currQueueTrigger.value};
      }
      currQueueTrigger := Some(nextTimer);
      timers := timers[nextTimer := now + triggerDelay];
      nextTimer := nextTimer + 1;
    }

    /** The engine fires an armed timer, which calls `process`. */
    method OnTimer(timer: nat)
      requires timer in timers
      modifies this
      ensures View() == AfterFire(old(View()), timer)
    {
      timers := timers - {timer};
      if isProcessingQueue {
        return;
      }
      isProcessingQueue := true;
      currTriggerThreshold := 0;
      NextItem();
    }

    /** One turn of the loop of `process`, up to its `await`. */
    method NextItem()
      modifies this
      ensures View() == Advance(old(View()))
    {
      if |queue| > 0 {
        current := Some(queue[|queue| - 1]);
        queue := queue[..|queue| - 1];
      } else {
        current := None;
        isProcessingQueue := false;
      }
    }

    /** The awaited processor call settles; a failure is only logged. */
    method OnItemSettled(failed: bool)
      requires current.Some?
      modifies this
      ensures View() == Step(old(View()), ItemSettled(failed))
    {
      NextItem();
    }
  }
}
