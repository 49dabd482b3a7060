/**
 * Which handlers the connector calls, with what, read off the events alone: the deliveries of any
 * run are those that the subscriptions and messages of the run say.
 */
module ConnectorHandlers {
  import opened Basics
  import opened ChannelId
  import opened Connector

  // ----- what the events say -----

  /** A message without request id that names a channel. */
  predicate ForChannel(m: Incoming) {
    m.Message? && m.id == None && m.channel.Some? && m.channel.value != ""
  }

  /** The loop over the parameters gets to one with this channel id, before any that it throws on. */
  ghost predicate Names(params: seq<Params>, channel: string) {
    exists i :: 0 <= i < |params| && GenerateChannelId(params[i]) == Some(channel)
      && forall j :: 0 <= j < i ==> GenerateChannelId(params[j]).Some?
  }

  /**
   * The handler of a channel after the given events: that of the subscribe that named the channel
   * when it had none, until an unsubscribe names it. A message for a channel without handler is
   * answered by an unsubscribe from the bare name of its kind of channel.
   */
  ghost function Owner(es: seq<Event>, channel: string): Option<nat>
    decreases |es|
  {
    if es == [] then None
    else
      var before := Owner(Init(es), channel);
      match Last(es)
      case Subscribe(params, handler) => if before.None? && channel != "" && Names(params, channel) then Some(handler) else before
      case Unsubscribe(params) => if Names(params, channel) then None else before
      case Receive(m) =>
        if ForChannel(m) && Owner(Init(es), m.channel.value).None? && ParseChannelId(m.channel.value).Some?
           && Names([OnlyChannel(ParseChannelId(m.channel.value).value.channel)], channel)
        then None else before
      case _ => before
  }

  /** The numbers received on this connection. */
  function Numbers(es: seq<Event>): seq<(string, Option<int>)> {
    if es == [] then [] else NextNumbers(Numbers(Init(es)), Last(es))
  }

  function NextNumbers(before: seq<(string, Option<int>)>, e: Event): seq<(string, Option<int>)> {
    match e
    case Connect(_) => []
    case Disconnect => []
    case Closed => []
    case Receive(m) => before + if m.Message? then [(m.channel.GetOr("undefined"), m.sequenceNumber)] else []
    case _ => before
  }

  /** The delivery that a message asks for after the given events. */
  ghost function Called(es: seq<Event>, m: Incoming): seq<Delivery> {
    if ForChannel(m) && Owner(es, m.channel.value).Some? then
      [Delivery(Owner(es, m.channel.value).value, m.channel.value,
                m.sequenceNumber.Some? && exists x :: x in Recent(Numbers(es), m.channel.value) && x > m.sequenceNumber.value)]
    else []
  }

  ghost function Calls(es: seq<Event>): seq<Delivery> {
    if es == [] then []
    else Calls(Init(es)) + if Last(es).Receive? then Called(Init(es), Last(es).message) else []
  }

  // ----- the handlers -----

  function HandlerOf(handlers: map<string, nat>, channel: string): Option<nat> {
    if channel in handlers then Some(handlers[channel]) else None
  }

  ghost predicate Reached(ids: seq<Option<string>>, channel: string) {
    exists i :: 0 <= i < |ids| && ids[i] == Some(channel) && forall j :: 0 <= j < i ==> ids[j].Some?
  }

  lemma ReachedCons(ids: seq<Option<string>>, channel: string)
    requires ids != []
    ensures Reached(ids, channel) <==> ids[0] == Some(channel) || (ids[0].Some? && Reached(ids[1..], channel))
  {
    if Reached(ids, channel) {
      var i :| 0 <= i < |ids| && ids[i] == Some(channel) && forall j :: 0 <= j < i ==> ids[j].Some?;
      if i > 0 {
        assert ids[1..][i - 1] == Some(channel) && ids[0].Some?;
      }
    }
    if ids[0].Some? && Reached(ids[1..], channel) {
      var i :| 0 <= i < |ids[1..]| && ids[1..][i] == Some(channel) && forall j :: 0 <= j < i ==> ids[1..][j].Some?;
      assert ids[i + 1] == Some(channel);
      assert forall j :: 0 < j < i + 1 ==> ids[j] == ids[1..][j - 1];
    }
  }

  lemma NamesReached(params: seq<Params>, channel: string)
    ensures Names(params, channel) <==> Reached(ChannelIds(params), channel)
  {
    var ids := ChannelIds(params);
    assert forall i :: 0 <= i < |params| ==> ids[i] == GenerateChannelId(params[i]);
    if Names(params, channel) {
      var i :| 0 <= i < |params| && GenerateChannelId(params[i]) == Some(channel)
        && forall j :: 0 <= j < i ==> GenerateChannelId(params[j]).Some?;
      assert ids[i] == Some(channel);
    }
  }

  lemma {:induction false} RegisterGives(handlers: map<string, nat>, ids: seq<Option<string>>, handler: nat, channel: string)
    ensures HandlerOf(Register(handlers, ids, handler).handlers, channel) ==
            if channel !in handlers && channel != "" && Reached(ids, channel) then Some(handler) else HandlerOf(handlers, channel)
    decreases |ids|
  {
    if ids == [] {
    } else {
      ReachedCons(ids, channel);
      if ids[0].Some? {
        var id := ids[0].value;
        RegisterGives(if id !in handlers && |id| > 0 then handlers[id := handler] else handlers, ids[1..], handler, channel);
      }
    }
  }

  lemma {:induction false} UnregisterTakes(handlers: map<string, nat>, ids: seq<Option<string>>, channel: string)
    ensures HandlerOf(Unregister(handlers, ids).handlers, channel) ==
            if Reached(ids, channel) then None else HandlerOf(handlers, channel)
    decreases |ids|
  {
    if ids == [] {
    } else {
      ReachedCons(ids, channel);
      if ids[0].Some? {
        UnregisterTakes(handlers - {ids[0].value}, ids[1..], channel);
      }
    }
  }

  lemma {:induction false} RunSnoc(s: Conn, es: seq<Event>, e: Event)
    ensures Run(s, es + [e]) == Step(Run(s, es), e)
    decreases |es|
  {
    if es == [] {
      assert es + [e] == [e] && [e][1..] == [];
    } else {
      RunSnoc(Step(s, es[0]), es[1..], e);
      assert (es + [e])[1..] == es[1..] + [e];
    }
  }

  lemma RunLast(es: seq<Event>)
    requires es != []
    ensures Run(Initial(), es) == Step(Run(Initial(), Init(es)), Last(es))
  {
    RunSnoc(Initial(), Init(es), Last(es));
    assert es == Init(es) + [Last(es)];
  }

  /** The handlers of any run are the owners that its events say. */
  lemma {:induction false} HandlersAreOwners(es: seq<Event>, channel: string)
    ensures HandlerOf(Run(Initial(), es).channelHandlers, channel) == Owner(es, channel)
    decreases |es|
  {
    if es == [] {
    } else {
      var s := Run(Initial(), Init(es));
      RunLast(es);
      HandlersAreOwners(Init(es), channel);
      match Last(es)
      case Subscribe(params, handler) =>
        NamesReached(params, channel);
        RegisterGives(s.channelHandlers, ChannelIds(params), handler, channel);
      case Unsubscribe(params) =>
        NamesReached(params, channel);
        UnregisterTakes(s.channelHandlers, ChannelIds(params), channel);
      case Receive(m) =>
        if ForChannel(m) {
          HandlersAreOwners(Init(es), m.channel.value);
        }
        MessageHandlers(s, es, m, channel);
      case _ =>
    }
  }

  lemma MessageHandlers(s: Conn, es: seq<Event>, m: Incoming, channel: string)
    requires es != [] && Last(es) == Receive(m)
    requires HandlerOf(s.channelHandlers, channel) == Owner(Init(es), channel)
    requires ForChannel(m) ==> HandlerOf(s.channelHandlers, m.channel.value) == Owner(Init(es), m.channel.value)
    ensures HandlerOf(AfterMessage(s, m).channelHandlers, channel) == Owner(es, channel)
  {
    if ForChannel(m) {
      var parsed := ParseChannelId(m.channel.value);
      if m.channel.value !in s.channelHandlers && parsed.Some? {
        var params := [OnlyChannel(parsed.value.channel)];
        NamesReached(params, channel);
        UnregisterTakes(s.channelHandlers, ChannelIds(params), channel);
      }
    }
  }

  lemma StepReceives(s: Conn, e: Event)
    requires !s.shouldConnect
    ensures Step(s, e).received == NextNumbers(s.received, e)
  {
    match e
    case Receive(m) =>
      assert m.Message? ==> SameNumbering(AfterParse(s, m), AfterMessage(s, m));
    case _ =>
  }

  lemma {:induction false} NumbersAreReceived(es: seq<Event>)
    ensures Run(Initial(), es).received == Numbers(es)
  {
    if es == [] {
    } else {
      RunLast(es);
      NumbersAreReceived(Init(es));
      ConnectNeverDeduplicates(Init(es));
      StepReceives(Run(Initial(), Init(es)), Last(es));
    }
  }

  // ----- deliveries -----

  lemma QuietStep(s: Conn, e: Event)
    requires !e.Receive?
    ensures Step(s, e).deliveries == s.deliveries
  {
  }

  lemma OrphanCallsNobody(s: Conn, channel: string)
    ensures AfterOrphan(s, channel).deliveries == s.deliveries
  {
  }

  /**
   * Over every run the handlers called are exactly those that the events say: each message
   * without request id on a channel that is subscribed calls the handler of the subscribe that
   * put the channel there, once, with that channel, flagged exactly when a larger recent number
   * came on it; nothing else calls a handler.
   */
  lemma {:induction false} DeliveriesExactly(es: seq<Event>)
    ensures Run(Initial(), es).deliveries == Calls(es)
  {
    if es == [] {
    } else {
      var s := Run(Initial(), Init(es));
      RunLast(es);
      DeliveriesExactly(Init(es));
      match Last(es)
      case Receive(m) =>
        if ForChannel(m) {
          HandlersAreOwners(Init(es), m.channel.value);
          NumbersAreReceived(Init(es));
          FlaggedIffLarger(Init(es), m);
          OrphanCallsNobody(AfterParse(s, m), m.channel.value);
        }
      case _ => QuietStep(s, Last(es));
    }
  }

  // ----- requests -----

  /**
   * A request takes a new id. On a connection that is open it sends one frame with that id and is
   * open from then on; otherwise it throws, and neither sends nor opens anything.
   */
  lemma RequestOpensOne(es: seq<Event>)
    ensures var s, s' := Run(Initial(), es), Step(Run(Initial(), es), Request);
            && |s'.ids| == |s.ids| + 1 && s.ids < s'.ids && Last(s'.ids) !in s.ids && s'.settled == s.settled
            && s'.requestHandlers == s.requestHandlers + (if s.connected then [Last(s'.ids)] else [])
            && s'.frames == s.frames + (if s.connected && s.socket then [OtherFrame(Last(s'.ids))] else [])
            && (AfterRequest(s).threw <==> !s.connected)
  {
    RequestsCorrelate(es);
  }

  /**
   * A new socket starts without open requests, and their promises are not settled; losing the
   * connection, or failing to make a socket, leaves them open. The handlers of channels stay.
   */
  lemma ConnectionsKeepHandlers(es: seq<Event>, e: Event)
    requires e.Connect? || e.Disconnect? || e.Closed? || e.Open?
    ensures var s, s' := Run(Initial(), es), Step(Run(Initial(), es), e);
            && s'.channelHandlers == s.channelHandlers && s'.settled == s.settled && s'.deliveries == s.deliveries && s'.ids == s.ids
            && s'.requestHandlers == (if e.Connect? && e.ok then [] else s.requestHandlers)
            && s'.connected == e.Open? && s'.socket == (if e.Open? then s.socket else e.Connect? && e.ok)
  {
    ConnectNeverDeduplicates(es);
  }

  /** An error of the socket rejects every open request, and no other, in the order of their ids. */
  lemma ErrorRejectsAll(s: Conn, i: nat)
    requires i < |s.requestHandlers|
    ensures var s' := Step(s, SocketError);
            && s'.requestHandlers == [] && |s'.settled| == |s.settled| + |s.requestHandlers| && s.settled <= s'.settled
            && s'.settled[|s.settled| + i] == Reply(s.requestHandlers[i], false)
  {
  }

  /** Nothing but messages and errors settles a request. */
  lemma OthersSettleNothing(s: Conn, e: Event)
    requires !e.Receive? && !e.SocketError?
    ensures Step(s, e).settled == s.settled
  {
  }
}
