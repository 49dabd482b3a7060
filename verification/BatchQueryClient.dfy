/**
 * The batching JSON-RPC client (src/clients/BatchQueryClient.ts): a bounded queue, batches cut
 * off its front, and responses matched to requests by position (JSON-RPC 2.0 Specification,
 * section 6 "Batch", lets a server answer in any order).
 */
module BatchQuery {

  /** A JSON-RPC request and its promise handlers, numbered in the order of the calls. */
  datatype Queued = Queued(handler: nat, id: int)

  /** An element of a batch response; `Malformed` makes `parseJsonRpcResponse` throw. */
  datatype Element = Malformed | ErrorResponse(id: int) | SuccessResponse(id: int, result: int)

  datatype Settlement = Resolved(handler: nat, response: Element) | Rejected(handler: nat)

  const MAX_SAFE_INTEGER := 0x1F_FFFF_FFFF_FFFF

  /** `validate`: for any other limit the constructor throws. */
  predicate ValidBatchSize(limit: int) {
    1 <= limit <= MAX_SAFE_INTEGER
  }

  function Flatten<T>(batches: seq<seq<T>>): seq<T> {
    if batches == [] then [] else batches[0] + Flatten(batches[1..])
  }

  lemma {:induction false} FlattenSnoc<T>(batches: seq<seq<T>>, batch: seq<T>)
    ensures Flatten(batches + [batch]) == Flatten(batches) + batch
  {
    if batches == [] {
      assert batches + [batch] == [batch];
    } else {
      FlattenSnoc(batches[1..], batch);
      assert (batches + [batch])[1..] == batches[1..] + [batch];
    }
  }

  // ----- batch formation -----

  /** The queue, the batches sent and the requests executed so far. */
  datatype Client = Client(limit: nat, queue: seq<Queued>, sent: seq<seq<Queued>>, executed: seq<Queued>)

  datatype Event = Execute(id: int) | Tick

  function AfterTick(c: Client): Client {
    var n := if |c.queue| < c.limit then |c.queue| else c.limit;
    if n == 0 then c
    else c.(queue := c.queue[n..], sent := c.sent + [c.queue[..n]])
  }

  function AfterExecute(c: Client, id: int): Client {
    var request := Queued(|c.executed|, id);
    var c1 := c.(queue := c.queue + [request], executed := c.executed + [request]);
    if |c1.queue| >= c1.limit then AfterTick(c1) else c1
  }

  function Run(c: Client, es: seq<Event>): Client
    decreases |es|
  {
    if es == [] then c
    else Run(match es[0] case Execute(id) => AfterExecute(c, id) case Tick => AfterTick(c), es[1..])
  }

  /** Between calls: no request is lost, repeated or overtaken, and no batch or queue is too long. */
  ghost predicate Conserves(c: Client) {
    && Flatten(c.sent) + c.queue == c.executed
    && (forall i :: 0 <= i < |c.sent| ==> 1 <= |c.sent[i]| <= c.limit)
    && |c.queue| < c.limit
  }

  lemma TickConserves(c: Client)
    requires c.limit > 0 && Flatten(c.sent) + c.queue == c.executed && |c.queue| <= c.limit
    requires forall i :: 0 <= i < |c.sent| ==> 1 <= |c.sent[i]| <= c.limit
    ensures Conserves(AfterTick(c)) && AfterTick(c).queue == []
  {
    if c.queue != [] {
      FlattenSnoc(c.sent, c.queue);
      assert c.queue[..|c.queue|] == c.queue && c.queue[|c.queue|..] == [];
    }
  }

  /**
   * Over any run of calls and timer ticks: the batches sent, followed by the queue, are all
   * executed requests in order; every batch has between 1 and `limit` requests; and the queue
   * is shorter than the limit.
   */
  lemma {:induction false} BatchingConserves(c: Client, es: seq<Event>)
    requires c.limit > 0 && Conserves(c)
    ensures Conserves(Run(c, es))
    decreases |es|
  {
    if es == [] {
    } else {
      match es[0] {
        case Tick =>
          TickConserves(c);
          BatchingConserves(AfterTick(c), es[1..]);
        case Execute(id) =>
          var request := Queued(|c.executed|, id);
          var c1 := c.(queue := c.queue + [request], executed := c.executed + [request]);
          assert Flatten(c.sent) + (c.queue + [request]) == (Flatten(c.sent) + c.queue) + [request];
          if |c1.queue| >= c1.limit {
            TickConserves(c1);
          }
          BatchingConserves(AfterExecute(c, id), es[1..]);
      }
    }
  }

  // ----- responses -----

  function SettleWith(request: Queued, element: Element): Settlement
    requires !element.Malformed?
  {
    if element.SuccessResponse? then Resolved(request.handler, element) else Rejected(request.handler)
  }

  /** The handlers that a response calls, in order. */
  function Settlements(batch: seq<Queued>, response: seq<Element>): seq<Settlement> {
    if batch == [] || response == [] || response[0].Malformed? then []
    else [SettleWith(batch[0], response[0])] + Settlements(batch[1..], response[1..])
  }

  /**
   * A response resolves exactly the requests that have a success at their position, with that
   * success, and rejects exactly those that have an error there, up to the first malformed element.
   */
  lemma {:induction false} ResolvedExactly(batch: seq<Queued>, response: seq<Element>, i: nat)
    requires i < |batch|
    ensures var r := Settlements(batch, response);
            && |r| == Settled(|batch|, response)
            && (i < |r| ==>
                  && i < |response| && (r[i].Resolved? <==> response[i].SuccessResponse?) && (r[i].Rejected? <==> response[i].ErrorResponse?)
                  && r[i].handler == batch[i].handler && (r[i].Resolved? ==> r[i].response == response[i]))
  {
    if response == [] || response[0].Malformed? {
    } else if i > 0 {
      ResolvedExactly(batch[1..], response[1..], i - 1);
    } else if |batch| > 1 {
      ResolvedExactly(batch[1..], response[1..], 0);
    } else {
      assert batch[1..] == [];
    }
  }

  /** How many requests of a batch of n are settled by a response: up to the first malformed element. */
  function Settled(n: nat, response: seq<Element>): nat {
    if n == 0 || response == [] || response[0].Malformed? then 0 else 1 + Settled(n - 1, response[1..])
  }

  /** Request i of a batch is settled exactly when it has an element and no malformed one comes before or at it. */
  lemma {:induction false} SettledExactly(n: nat, response: seq<Element>, i: nat)
    requires i < n
    ensures i < Settled(n, response) <==>
            i < |response| && forall j :: 0 <= j <= i ==> !response[j].Malformed?
  {
    if response == [] || response[0].Malformed? || i == 0 {
    } else {
      SettledExactly(n - 1, response[1..], i - 1);
      assert forall j :: 0 <= j < i && i < |response| ==> response[1..][j] == response[j + 1];
      if i < |response| && (forall j :: 0 <= j <= i - 1 ==> !response[1..][j].Malformed?) {
        forall j | 0 <= j <= i
          ensures !response[j].Malformed?
        {
          if j > 0 {
            assert response[j] == response[1..][j - 1];
          }
        }
      }
    }
  }

  /** The request is settled, and with the element that carries its own id. */
  predicate SettledWithOwn(batch: seq<Queued>, response: seq<Element>, i: nat)
    requires i < |batch|
  {
    i < Settled(|batch|, response) && i < |response| && !response[i].Malformed? && response[i].id == batch[i].id
  }

  /**
   * Elements are matched by position, not by id: a request that is settled gets the element of
   * its own id exactly when the server put that element at the request's position.
   */
  lemma OwnElementExactly(batch: seq<Queued>, response: seq<Element>, i: nat, p: nat)
    requires i < |batch| && i < Settled(|batch|, response) && p < |response|
    requires forall j :: 0 <= j < |response| ==> !response[j].Malformed?
    requires forall j, k :: 0 <= j < k < |response| ==> response[j].id != response[k].id
    requires response[p].id == batch[i].id
    ensures SettledWithOwn(batch, response, i) <==> p == i
  {
    SettledExactly(|batch|, response, i);
  }

  /** So every request of a batch gets its own element exactly when the response keeps the order of the requests. */
  lemma AllGetOwnExactly(batch: seq<Queued>, response: seq<Element>)
    ensures (forall i :: 0 <= i < |batch| ==> SettledWithOwn(batch, response, i)) <==>
            |batch| <= |response| && forall i :: 0 <= i < |batch| ==> !response[i].Malformed? && response[i].id == batch[i].id
  {
    if forall i :: 0 <= i < |batch| ==> SettledWithOwn(batch, response, i) {
      assert |batch| > 0 ==> SettledWithOwn(batch, response, |batch| - 1);
      forall i | 0 <= i < |batch|
        ensures !response[i].Malformed? && response[i].id == batch[i].id
      {
        assert SettledWithOwn(batch, response, i);
      }
    } else {
      var i :| 0 <= i < |batch| && !SettledWithOwn(batch, response, i);
      SettledExactly(|batch|, response, i);
    }
  }

  /** The first request with the given id: `batch.find`. */
  function FirstWithId(batch: seq<Queued>, id: int): (k: nat)
    requires exists i :: 0 <= i < |batch| && batch[i].id == id
    ensures k < |batch| && batch[k].id == id && forall i :: 0 <= i < k ==> batch[i].id != id
  {
    if batch[0].id == id then 0 else 1 + FirstWithId(batch[1..], id)
  }

  /** The positions rejected, in turn, when the transport fails. */
  function RejectedPositions(batch: seq<Queued>): (r: seq<nat>)
    ensures |r| == |batch|
  {
    seq(|batch|, i requires 0 <= i < |batch| => FirstWithId(batch, batch[i].id))
  }

  ghost predicate DistinctIds(batch: seq<Queued>) {
    forall i, j :: 0 <= i < j < |batch| ==> batch[i].id != batch[j].id
  }

  /** Position k is rejected at one turn and no other. */
  ghost predicate RejectedOnce(batch: seq<Queued>, k: nat) {
    exists i :: 0 <= i < |batch| && RejectedPositions(batch)[i] == k &&
      forall j :: 0 <= j < |batch| && RejectedPositions(batch)[j] == k ==> j == i
  }

  /** On a transport failure every request of the batch is rejected exactly once, if and only if their ids are distinct. */
  lemma FailureRejectsOnce(batch: seq<Queued>)
    ensures (forall k :: 0 <= k < |batch| ==> RejectedOnce(batch, k)) <==> DistinctIds(batch)
  {
    var r := RejectedPositions(batch);
    if DistinctIds(batch) {
      forall k | 0 <= k < |batch|
        ensures RejectedOnce(batch, k)
      {
        assert r[k] == k;
        assert forall j :: 0 <= j < |batch| ==> r[j] == j;
      }
    } else {
      var i, j :| 0 <= i < j < |batch| && batch[i].id == batch[j].id;
      forall t | 0 <= t < |batch|
        ensures r[t] != j
      {
        assert batch[r[t]].id == batch[t].id && (batch[t].id == batch[i].id ==> r[t] <= i);
      }
      assert !RejectedOnce(batch, j);
    }
  }

  // ----- the class -----

  class BatchQueryClient {
    const batchSizeLimit: nat
    var queue: seq<Queued>
    var sent: seq<seq<Queued>>       // batches handed to the transport
    var settled: seq<Settlement>     // handlers called
    var executed: seq<Queued>

    function View(): Client
      reads this
    {
      Client(batchSizeLimit, queue, sent, executed)
    }

    constructor (batchSizeLimit: nat)
      requires ValidBatchSize(batchSizeLimit)
      ensures View() == Client(batchSizeLimit, [], [], []) && settled == []
      ensures Conserves(View())
    {
      this.batchSizeLimit := batchSizeLimit;
      queue, sent, settled, executed := [], [], [], [];
    }

    method Execute(id: int)
      modifies this`queue, this`sent, this`executed
      ensures View() == AfterExecute(old(View()), id)
    {
      var request := Queued(|executed|, id);
      queue := queue + [request];
      executed := executed + [request];
      if |queue| >= batchSizeLimit {
        Tick();
      }
    }

    method Tick()
      modifies this`queue, this`sent
      ensures View() == AfterTick(old(View()))
    {
      var n := if |queue| < batchSizeLimit then |queue| else batchSizeLimit;
      var batch := queue[..n];
      queue := queue[n..];
      if |batch| == 0 {
        assert queue == old(queue);
        return;
      }
      sent := sent + [batch];
    }

    /** The transport answers a batch: request i is settled with element i, until one is malformed. */
    method OnResponse(batch: seq<Queued>, response: seq<Element>)
      modifies this`settled
      ensures settled == old(settled) + Settlements(batch, response)
    {
      var i := 0;
      while i < |response| && i < |batch| && !response[i].Malformed?
        invariant i <= |response| && i <= |batch|
        invariant old(settled) + Settlements(batch, response) == settled + Settlements(batch[i..], response[i..])
      {
        assert response[i..][1..] == response[i + 1..] && batch[i..][1..] == batch[i + 1..];
        settled := settled +
          [if response[i].SuccessResponse? then Resolved(batch[i].handler, response[i]) else Rejected(batch[i].handler)];
        i := i + 1;
      }
    }

    /** The transport fails: for each request id, the first request with that id is rejected. */
    method OnFailure(batch: seq<Queued>)
      modifies this`settled
      ensures |settled| == |old(settled)| + |batch| && old(settled) <= settled
      ensures forall i :: 0 <= i < |batch| ==>
                settled[|old(settled)| + i] == Rejected(batch[RejectedPositions(batch)[i]].handler)
    {
      for i := 0 to |batch|
        invariant |settled| == |old(settled)| + i && old(settled) <= settled
        invariant forall k :: 0 <= k < i ==>
                    settled[|old(settled)| + k] == Rejected(batch[RejectedPositions(batch)[k]].handler)
      {
        var k := 0;
        while batch[k].id != batch[i].id
          invariant k <= i
          invariant forall j :: 0 <= j < k ==> batch[j].id != batch[i].id
          decreases i - k
        {
          k := k + 1;
        }
        assert RejectedPositions(batch)[i] == k;
        settled := settled + [Rejected(batch[k].handler)];
      }
    }
  }

  lemma {:induction false} AtMostAll(n: nat, response: seq<Element>)
    ensures Settled(n, response) <= n
  {
    if n == 0 || response == [] || response[0].Malformed? {
    } else {
      AtMostAll(n - 1, response[1..]);
    }
  }

  /** A response settles the whole batch exactly when it is long enough and well-formed that far. */
  lemma SettlesAllExactly(n: nat, response: seq<Element>)
    ensures Settled(n, response) == n <==> n <= |response| && forall i :: 0 <= i < n ==> !response[i].Malformed?
  {
    AtMostAll(n, response);
    if n > 0 {
      SettledExactly(n, response, n - 1);
    }
  }
}
