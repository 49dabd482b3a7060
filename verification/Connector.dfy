/**
 * `WSConnector` (src/websocket/connector.ts): subscriptions, requests and message numbering
 * over a websocket, as a state machine driven by user calls and socket events.
 */
module Connector {
  import opened Basics
  import opened ChannelId

  // ----- data -----

  /** `subscribe` and `unsubscribe` frames, and all others. */
  datatype Frame = Subscribed(channels: seq<string>) | Unsubscribed(channels: seq<string>) | OtherFrame(id: nat)

  /** The id of an incoming message: one of ours, `r<n>` or `g<n>`, or something else. */
  datatype MessageId = R(n: nat) | G(n: nat) | Foreign

  datatype Incoming =
    | Pong
    | Malformed                       // JSON.parse throws
    | Message(id: Option<MessageId>, channel: Option<string>, sequenceNumber: Option<int>, error: bool)

  datatype Reply = Reply(requestId: nat, resolved: bool)

  /** A channel handler being called. */
  datatype Delivery = Delivery(handler: nat, channel: string, outOfSequence: bool)

  /**
   * The fields down to `sequenceNumberCache` are the source's. `requestHandlers` lists the keys
   * of the handler object in insertion order; handlers of channels are known by number. The
   * rest is history: frames and numbered messages of the current connection, requests issued
   * since the last new socket, and every id, settlement and delivery so far.
   */
  datatype Conn = Conn(
    connected: bool,
    socket: bool,
    shouldConnect: bool,
    requestIdCounter: nat,
    requestHandlers: seq<nat>,
    channelHandlers: map<string, nat>,
    sequenceNumberCache: map<string, Option<int>>,
    frames: seq<Frame>,
    received: seq<(string, Option<int>)>,
    issued: seq<nat>,
    ids: seq<nat>,
    settled: seq<Reply>,
    deliveries: seq<Delivery>)

  datatype Event =
    | Connect(ok: bool)               // ok: the WebSocket constructor does not throw
    | Disconnect
    | Subscribe(params: seq<Params>, handler: nat)
    | Unsubscribe(params: seq<Params>)
    | Send
    | Request
    | Open
    | Receive(message: Incoming)
    | SocketError
    | Closed

  /** The state after a call, and whether the call threw. */
  datatype Outcome = Outcome(conn: Conn, threw: bool)

  function Initial(): Conn {
    Conn(false, false, false, 0, [], map[], map[], [], [], [], [], [], [])
  }

  // ----- the methods -----

  /** `send` and `sendMessage`: the id is spent even when the call throws; without a socket the frame is dropped. */
  function SendFrame(s: Conn, frame: Frame): Outcome {
    var n := s.requestIdCounter + 1;
    var s1 := s.(requestIdCounter := n, ids := s.ids + [n]);
    if !s.connected then Outcome(s1, true)
    else Outcome(if s.socket then s1.(frames := s.frames + [frame]) else s1, false)
  }

  /** A pass of the loop of `subscribe` or `unsubscribe`: the handlers after it, and the channels to name. */
  datatype Pass = Pass(handlers: map<string, nat>, channels: seq<string>, threw: bool)

  /** `ids` are the channel ids of the parameters; `None`: `generateChannelId` throws. */
  function Register(handlers: map<string, nat>, ids: seq<Option<string>>, handler: nat): Pass
    decreases |ids|
  {
    if ids == [] then Pass(handlers, [], false)
    else match ids[0]
      case None => Pass(handlers, [], true)
      case Some(id) =>
        if id !in handlers && |id| > 0 then
          var rest := Register(handlers[id := handler], ids[1..], handler);
          rest.(channels := [id] + rest.channels)
        else Register(handlers, ids[1..], handler)
  }

  function Unregister(handlers: map<string, nat>, ids: seq<Option<string>>): Pass
    decreases |ids|
  {
    if ids == [] then Pass(handlers, [], false)
    else match ids[0]
      case None => Pass(handlers, [], true)
      case Some(id) =>
        var rest := Unregister(handlers - {id}, ids[1..]);
        if id in handlers && |id| > 0 then rest.(channels := [id] + rest.channels) else rest
  }

  /** One turn of the loop of `subscribe`, and of `unsubscribe`. */
  lemma RegisterAt(handlers: map<string, nat>, ids: seq<Option<string>>, i: nat, handler: nat, channels: seq<string>)
    requires i < |ids| && ids[i].Some?
    ensures var id, rest := ids[i].value, Register(handlers, ids[i..], handler);
            if id !in handlers && |id| > 0 then
              var next := Register(handlers[id := handler], ids[i + 1..], handler);
              rest.(channels := channels + rest.channels) == next.(channels := (channels + [id]) + next.channels)
            else rest == Register(handlers, ids[i + 1..], handler)
  {
    assert ids[i..][0] == ids[i] && ids[i..][1..] == ids[i + 1..];
  }

  lemma UnregisterAt(handlers: map<string, nat>, ids: seq<Option<string>>, i: nat, channels: seq<string>)
    requires i < |ids| && ids[i].Some?
    ensures var id, rest := ids[i].value, Unregister(handlers, ids[i..]);
            var next := Unregister(handlers - {id}, ids[i + 1..]);
            if id in handlers && |id| > 0
            then rest.(channels := channels + rest.channels) == next.(channels := (channels + [id]) + next.channels)
            else rest == next
  {
    assert ids[i..][0] == ids[i] && ids[i..][1..] == ids[i + 1..];
  }

  function ChannelIds(params: seq<Params>): seq<Option<string>> {
    seq(|params|, i requires 0 <= i < |params| => GenerateChannelId(params[i]))
  }

  predicate SameNumbering(s: Conn, s': Conn) {
    s'.sequenceNumberCache == s.sequenceNumberCache && s'.received == s.received
  }

  function AfterSubscribe(s: Conn, params: seq<Params>, handler: nat): (o: Outcome)
    ensures o.conn.shouldConnect == s.shouldConnect && SameNumbering(s, o.conn)
  {
    var pass := Register(s.channelHandlers, ChannelIds(params), handler);
    var s1 := s.(channelHandlers := pass.handlers);
    if pass.threw then Outcome(s1, true)
    else if |pass.channels| > 0 then SendFrame(s1, Subscribed(pass.channels))
    else Outcome(s1, false)
  }

  function AfterUnsubscribe(s: Conn, params: seq<Params>): (o: Outcome)
    ensures o.conn.shouldConnect == s.shouldConnect && SameNumbering(s, o.conn)
  {
    var pass := Unregister(s.channelHandlers, ChannelIds(params));
    var s1 := s.(channelHandlers := pass.handlers);
    if pass.threw then Outcome(s1, true)
    else if |pass.channels| > 0 then SendFrame(s1, Unsubscribed(pass.channels))
    else Outcome(s1, false)
  }

  /** `request`: the handler is registered only after the frame has gone out. */
  function AfterRequest(s: Conn): Outcome {
    var n := s.requestIdCounter + 1;
    var sent := SendFrame(s, OtherFrame(n));
    if sent.threw then sent
    else Outcome(sent.conn.(requestHandlers := s.requestHandlers + [n], issued := s.issued + [n]), false)
  }

  function AfterDisconnectWebsocket(s: Conn): Conn {
    s.(sequenceNumberCache := map[], socket := false, connected := false, frames := [], received := [])
  }

  /** `connect`, including the `disconnect` inside `connectWebSocket`, which clears `shouldConnect` again. */
  function AfterConnect(s: Conn, ok: bool): Conn {
    if s.shouldConnect then s
    else
      var s1 := AfterDisconnectWebsocket(s).(shouldConnect := false);
      if ok then s1.(socket := true, requestHandlers := [], issued := []) else s1
  }

  function Rejections(requestIds: seq<nat>): seq<Reply> {
    seq(|requestIds|, i requires 0 <= i < |requestIds| => Reply(requestIds[i], false))
  }

  /** `onError` sweeps all request handlers. */
  function AfterError(s: Conn): Conn {
    s.(settled := s.settled + Rejections(s.requestHandlers), requestHandlers := [])
  }

  /** An object key made from `undefined`. */
  function CacheKey(channel: Option<string>): string {
    channel.GetOr("undefined")
  }

  function Cached(s: Conn, key: string): Option<int> {
    if key in s.sequenceNumberCache then s.sequenceNumberCache[key] else None
  }

  /** Comparing with `undefined` gives false. */
  predicate OutOfSequence(s: Conn, m: Incoming)
    requires m.Message?
  {
    var cached := Cached(s, CacheKey(m.channel));
    m.sequenceNumber.Some? && cached.Some? && m.sequenceNumber.value < cached.value
  }

  function AfterParse(s: Conn, m: Incoming): Conn
    requires m.Message?
  {
    var key := CacheKey(m.channel);
    s.(sequenceNumberCache := if OutOfSequence(s, m) then s.sequenceNumberCache
                              else s.sequenceNumberCache[key := m.sequenceNumber],
       received := s.received + [(key, m.sequenceNumber)])
  }

  function Remove(ids: seq<nat>, n: nat): seq<nat> {
    if ids == [] then [] else (if ids[0] == n then [] else [ids[0]]) + Remove(ids[1..], n)
  }

  /** A message on a channel nobody listens to: unsubscribe with the channel name alone; errors are ignored. */
  function AfterOrphan(s: Conn, channel: string): (s': Conn)
    ensures s'.shouldConnect == s.shouldConnect && SameNumbering(s, s')
  {
    match ParseChannelId(channel)
    case None => s
    case Some(params) => AfterUnsubscribe(s, [OnlyChannel(params.channel)]).conn
  }

  predicate IsChannelMessage(m: Incoming) {
    m.Message? && m.id.None? && m.channel.Some? && m.channel.value != ""
  }

  function AfterMessage(s: Conn, m: Incoming): Conn {
    if !m.Message? then s
    else
      var s1 := AfterParse(s, m);
      if IsChannelMessage(m) then
        if m.channel.value in s.channelHandlers
        then s1.(deliveries := s.deliveries +
                   [Delivery(s.channelHandlers[m.channel.value], m.channel.value, OutOfSequence(s, m))])
        else AfterOrphan(s1, m.channel.value)
      else if m.id.Some? && m.id.value.R? && m.id.value.n in s.requestHandlers then
        s1.(settled := s.settled + [Reply(m.id.value.n, !m.error)],
            requestHandlers := Remove(s.requestHandlers, m.id.value.n))
      else s1
  }

  function Step(s: Conn, e: Event): Conn {
    match e
    case Connect(ok) => AfterConnect(s, ok)
    case Disconnect => AfterDisconnectWebsocket(s).(shouldConnect := false)
    case Subscribe(params, handler) => AfterSubscribe(s, params, handler).conn
    case Unsubscribe(params) => AfterUnsubscribe(s, params).conn
    case Send => SendFrame(s, OtherFrame(s.requestIdCounter + 1)).conn
    case Request => AfterRequest(s).conn
    case Open => s.(connected := true)
    case Receive(m) => AfterMessage(s, m)
    case SocketError => AfterError(s)
    case Closed => AfterDisconnectWebsocket(s)
  }

  function Run(s: Conn, es: seq<Event>): Conn
    decreases |es|
  {
    if es == [] then s else Run(Step(s, es[0]), es[1..])
  }

  // ----- subscriptions agree with the server -----

  function Elements(channels: seq<string>): set<string> {
    set c | c in channels
  }

  /** The server's view: the channels subscribed after the given frames. */
  function Replay(server: set<string>, frames: seq<Frame>): set<string>
    decreases |frames|
  {
    if frames == [] then server else Replay(Serve(server, frames[0]), frames[1..])
  }

  function Serve(server: set<string>, frame: Frame): set<string> {
    match frame
    case Subscribed(channels) => server + Elements(channels)
    case Unsubscribed(channels) => server - Elements(channels)
    case OtherFrame(_) => server
  }

  predicate Distinct<T(==)>(s: seq<T>) {
    forall i, j :: 0 <= i < j < |s| ==> s[i] != s[j]
  }

  /** A frame that names no channel twice, subscribes only new ones and unsubscribes only present ones. */
  predicate Proper(server: set<string>, frame: Frame) {
    match frame
    case Subscribed(channels) => channels != [] && Distinct(channels) && Elements(channels) !! server
    case Unsubscribed(channels) => channels != [] && Distinct(channels) && Elements(channels) <= server
    case OtherFrame(_) => true
  }

  predicate AllProper(server: set<string>, frames: seq<Frame>)
    decreases |frames|
  {
    frames != [] ==> Proper(server, frames[0]) && AllProper(Serve(server, frames[0]), frames[1..])
  }

  lemma {:induction false} ReplaySnoc(server: set<string>, frames: seq<Frame>, f: Frame)
    ensures Replay(server, frames + [f]) == Serve(Replay(server, frames), f)
    ensures AllProper(server, frames + [f]) <==> AllProper(server, frames) && Proper(Replay(server, frames), f)
    decreases |frames|
  {
    if frames == [] {
      assert frames + [f] == [f];
    } else {
      ReplaySnoc(Serve(server, frames[0]), frames[1..], f);
      assert (frames + [f])[1..] == frames[1..] + [f];
    }
  }

  lemma ConsDistinct(x: string, s: seq<string>)
    requires Distinct(s) && x !in s
    ensures Distinct([x] + s) && Elements([x] + s) == {x} + Elements(s)
  {
  }

  /** The pass has registered exactly the channels it names, over the handlers it started from. */
  ghost predicate Registers(handlers: map<string, nat>, pass: Pass) {
    && Distinct(pass.channels) && Elements(pass.channels) !! handlers.Keys
    && pass.handlers.Keys == handlers.Keys + Elements(pass.channels)
    && forall c :: c in handlers ==> c in pass.handlers && pass.handlers[c] == handlers[c]
  }

  lemma RegistersOneMore(handlers: map<string, nat>, id: string, handler: nat, rest: Pass)
    requires id !in handlers && Registers(handlers[id := handler], rest)
    ensures Registers(handlers, rest.(channels := [id] + rest.channels))
  {
    assert forall c :: c in rest.channels ==> c in Elements(rest.channels);
    assert id in handlers[id := handler].Keys;
    ConsDistinct(id, rest.channels);
    assert handlers[id := handler].Keys == handlers.Keys + {id};
    forall c | c in handlers
      ensures c in rest.handlers && rest.handlers[c] == handlers[c]
    {
      assert handlers[id := handler][c] == handlers[c];
    }
  }

  lemma {:induction false} RegisterNames(handlers: map<string, nat>, ids: seq<Option<string>>, handler: nat)
    ensures Registers(handlers, Register(handlers, ids, handler))
    decreases |ids|
  {
    if ids == [] || ids[0].None? {
    } else {
      var id := ids[0].value;
      if id !in handlers && |id| > 0 {
        RegisterNames(handlers[id := handler], ids[1..], handler);
        RegistersOneMore(handlers, id, handler, Register(handlers[id := handler], ids[1..], handler));
      } else {
        RegisterNames(handlers, ids[1..], handler);
      }
    }
  }

  lemma {:induction false} UnregisterNames(handlers: map<string, nat>, ids: seq<Option<string>>)
    requires "" !in handlers
    ensures var pass := Unregister(handlers, ids);
            && Distinct(pass.channels) && Elements(pass.channels) <= handlers.Keys
            && pass.handlers == handlers - Elements(pass.channels)
    decreases |ids|
  {
    if ids == [] || ids[0].None? {
    } else {
      var id := ids[0].value;
      UnregisterNames(handlers - {id}, ids[1..]);
      if id in handlers {
        ConsDistinct(id, Unregister(handlers - {id}, ids[1..]).channels);
      }
    }
  }

  /** The handlers are exactly what the server has after the frames of this connection. */
  predicate Agreed(s: Conn) {
    s.channelHandlers.Keys == Replay({}, s.frames) && "" !in s.channelHandlers
  }

  predicate Usable(s: Conn) {
    s.connected && s.socket
  }

  /** The handlers that a subscribe or unsubscribe leaves behind. */
  function PassOf(s: Conn, e: Event): Pass
    requires e.Subscribe? || e.Unsubscribe?
  {
    if e.Subscribe? then Register(s.channelHandlers, ChannelIds(e.params), e.handler) else Unregister(s.channelHandlers, ChannelIds(e.params))
  }

  /** Sending a proper frame that accounts for the new handlers keeps the two sides in step. */
  lemma FrameStep(s: Conn, pass: Pass, frame: Frame)
    requires Agreed(s) && Proper(s.channelHandlers.Keys, frame)
    requires pass.handlers.Keys == Serve(s.channelHandlers.Keys, frame)
    requires pass.handlers.Keys != s.channelHandlers.Keys && "" !in pass.handlers
    ensures var s' := SendFrame(s.(channelHandlers := pass.handlers), frame).conn;
            && (Agreed(s') <==> Usable(s))
            && (AllProper({}, s.frames) ==> AllProper({}, s'.frames))
            && s'.connected == s.connected && s'.socket == s.socket
  {
    ReplaySnoc({}, s.frames, frame);
  }

  lemma EmptyElements(channels: seq<string>)
    ensures Elements(channels) == {} <==> channels == []
  {
    if channels != [] {
      assert channels[0] in Elements(channels);
    }
  }

  /**
   * A subscribe or unsubscribe keeps agreement exactly when it changes no handler, or all its
   * channels are valid and the frame reaches the socket.
   */
  lemma SubscriptionStep(s: Conn, e: Event)
    requires Agreed(s) && (e.Subscribe? || e.Unsubscribe?)
    ensures Agreed(Step(s, e)) <==>
            PassOf(s, e).handlers.Keys == s.channelHandlers.Keys || (Usable(s) && !PassOf(s, e).threw)
    ensures AllProper({}, s.frames) ==> AllProper({}, Step(s, e).frames)
    ensures Step(s, e).connected == s.connected && Step(s, e).socket == s.socket
  {
    var pass := PassOf(s, e);
    PassNames(s, e);
    EmptyElements(pass.channels);
    if !pass.threw && pass.channels != [] {
      FrameStep(s, pass, if e.Subscribe? then Subscribed(pass.channels) else Unsubscribed(pass.channels));
    }
  }

  lemma PassNames(s: Conn, e: Event)
    requires Agreed(s) && (e.Subscribe? || e.Unsubscribe?)
    ensures var pass, before := PassOf(s, e), s.channelHandlers.Keys;
            && Distinct(pass.channels) && "" !in pass.handlers
            && (e.Subscribe? ==> Elements(pass.channels) !! before && pass.handlers.Keys == before + Elements(pass.channels))
            && (e.Unsubscribe? ==> Elements(pass.channels) <= before && pass.handlers.Keys == before - Elements(pass.channels))
  {
    if e.Subscribe? {
      RegisterNames(s.channelHandlers, ChannelIds(e.params), e.handler);
      NoEmptyName(s.channelHandlers, ChannelIds(e.params), e.handler);
    } else {
      UnregisterNames(s.channelHandlers, ChannelIds(e.params));
    }
  }

  lemma {:induction false} NoEmptyName(handlers: map<string, nat>, ids: seq<Option<string>>, handler: nat)
    requires "" !in handlers
    ensures "" !in Register(handlers, ids, handler).handlers
    decreases |ids|
  {
    if ids == [] || ids[0].None? {
    } else {
      var id := ids[0].value;
      if id !in handlers && |id| > 0 {
        NoEmptyName(handlers[id := handler], ids[1..], handler);
      } else {
        NoEmptyName(handlers, ids[1..], handler);
      }
    }
  }

  /** Valid parameters: `generateChannelId` accepts them. */
  predicate ValidParams(params: seq<Params>) {
    forall i :: 0 <= i < |params| ==> GenerateChannelId(params[i]).Some?
  }

  predicate AllSome(ids: seq<Option<string>>) {
    forall i :: 0 <= i < |ids| ==> ids[i].Some?
  }

  lemma {:induction false} RegisterDoesNotThrow(handlers: map<string, nat>, ids: seq<Option<string>>, handler: nat)
    requires AllSome(ids)
    ensures !Register(handlers, ids, handler).threw
    decreases |ids|
  {
    if ids == [] {
    } else {
      RegisterDoesNotThrow(handlers, ids[1..], handler);
      RegisterDoesNotThrow(handlers[ids[0].value := handler], ids[1..], handler);
    }
  }

  lemma {:induction false} UnregisterDoesNotThrow(handlers: map<string, nat>, ids: seq<Option<string>>)
    requires AllSome(ids)
    ensures !Unregister(handlers, ids).threw
    decreases |ids|
  {
    if ids == [] {
    } else {
      UnregisterDoesNotThrow(handlers - {ids[0].value}, ids[1..]);
    }
  }

  /** What can happen while the connection stays up, with valid parameters. */
  predicate WithinConnection(e: Event) {
    match e
    case Connect(_) => false
    case Disconnect => false
    case Closed => false
    case Subscribe(params, _) => ValidParams(params)
    case Unsubscribe(params) => ValidParams(params)
    case _ => true
  }

  lemma OrphanStep(s: Conn, channel: string)
    requires Usable(s) && Agreed(s) && AllProper({}, s.frames)
    ensures var s' := AfterOrphan(s, channel);
            Usable(s') && Agreed(s') && AllProper({}, s'.frames)
  {
    var parsed := ParseChannelId(channel);
    if parsed.Some? {
      var params := [OnlyChannel(parsed.value.channel)];
      ParsedChannelIsValid(channel);
      UnregisterDoesNotThrow(s.channelHandlers, ChannelIds(params));
      SubscriptionStep(s, Unsubscribe(params));
    }
  }

  lemma ParsedChannelIsValid(channel: string)
    requires ParseChannelId(channel).Some?
    ensures GenerateChannelId(OnlyChannel(ParseChannelId(channel).value.channel)).Some?
  {
    LayoutsAgree(ParseChannelId(channel).value.channel);
  }

  lemma ConnectionStep(s: Conn, e: Event)
    requires Usable(s) && Agreed(s) && AllProper({}, s.frames) && WithinConnection(e)
    ensures Usable(Step(s, e)) && Agreed(Step(s, e)) && AllProper({}, Step(s, e).frames)
  {
    match e
    case Subscribe(params, handler) =>
      RegisterDoesNotThrow(s.channelHandlers, ChannelIds(params), handler);
      SubscriptionStep(s, e);
    case Unsubscribe(params) =>
      UnregisterDoesNotThrow(s.channelHandlers, ChannelIds(params));
      SubscriptionStep(s, e);
    case Receive(m) =>
      if IsChannelMessage(m) && m.channel.value !in s.channelHandlers {
        OrphanStep(AfterParse(s, m), m.channel.value);
      }
    case Send => ReplaySnoc({}, s.frames, OtherFrame(s.requestIdCounter + 1));
    case Request => ReplaySnoc({}, s.frames, OtherFrame(s.requestIdCounter + 1));
    case _ =>
  }

  /**
   * During one connection begun without handlers, whatever is subscribed, unsubscribed,
   * requested and received in whatever order: the channels with a handler are exactly those the
   * server has, and no frame sent subscribes a channel the server has, unsubscribes one it does
   * not have, or names one twice.
   */
  lemma {:induction false} SubscriptionsAgree(s: Conn, es: seq<Event>)
    requires Usable(s) && Agreed(s) && AllProper({}, s.frames)
    requires forall i :: 0 <= i < |es| ==> WithinConnection(es[i])
    ensures Usable(Run(s, es)) && Agreed(Run(s, es)) && AllProper({}, Run(s, es).frames)
    decreases |es|
  {
    if es == [] {
    } else {
      ConnectionStep(s, es[0]);
      SubscriptionsAgree(Step(s, es[0]), es[1..]);
    }
  }

  /** A connection begun without handlers satisfies the hypotheses above. */
  lemma NewConnectionAgrees(s: Conn)
    requires s.channelHandlers == map[] && !s.shouldConnect
    ensures var s' := Step(Step(s, Connect(true)), Open);
            Usable(s') && Agreed(s') && AllProper({}, s'.frames)
  {
  }

  /**
   * The unsubscribe that `onMessage` tries for a channel without handler never names that
   * channel: the server goes on sending.
   */
  lemma OrphanStaysSubscribed(s: Conn, channel: string)
    requires channel !in s.channelHandlers
    ensures var frames := AfterOrphan(s, channel).frames;
            frames == s.frames ||
            exists other :: other != channel && other in s.channelHandlers && frames == s.frames + [Unsubscribed([other])]
  {
    var parsed := ParseChannelId(channel);
    if parsed.Some? {
      var p := OnlyChannel(parsed.value.channel);
      ParsedChannelIsValid(channel);
      assert ChannelIds([p]) == [GenerateChannelId(p)];
      UnregisterOne(s.channelHandlers, GenerateChannelId(p).value);
    }
  }

  lemma UnregisterOne(handlers: map<string, nat>, id: string)
    ensures Unregister(handlers, [Some(id)]) ==
            Pass(handlers - {id}, if id in handlers && |id| > 0 then [id] else [], false)
  {
    assert [Some(id)][1..] == [];
    assert [id] + [] == [id];
  }

  // ----- requests and replies -----

  function RepliedTo(settled: seq<Reply>): seq<nat> {
    seq(|settled|, i requires 0 <= i < |settled| => settled[i].requestId)
  }

  ghost predicate Increasing(ids: seq<nat>) {
    forall i, j :: 0 <= i < j < |ids| ==> ids[i] < ids[j]
  }

  /**
   * Ids are used once, in order; the open requests are those issued since the last new socket
   * and not settled; and nothing has been settled twice.
   */
  ghost predicate Correlated(s: Conn) {
    && Increasing(s.ids) && (forall i :: 0 <= i < |s.ids| ==> s.ids[i] <= s.requestIdCounter)
    && Increasing(s.issued) && (forall i :: 0 <= i < |s.issued| ==> s.issued[i] <= s.requestIdCounter)
    && Increasing(s.requestHandlers)
    && (forall n :: n in s.requestHandlers <==> n in s.issued && n !in RepliedTo(s.settled))
    && Distinct(RepliedTo(s.settled))
    && (forall i :: 0 <= i < |s.settled| ==> s.settled[i].requestId <= s.requestIdCounter)
  }

  lemma {:induction false} RemoveKeepsOthers(ids: seq<nat>, n: nat)
    requires Increasing(ids)
    ensures forall m :: m in Remove(ids, n) <==> m in ids && m != n
    ensures Increasing(Remove(ids, n))
  {
    if ids == [] {
    } else {
      RemoveKeepsOthers(ids[1..], n);
      assert ids == [ids[0]] + ids[1..];
      var rest := Remove(ids[1..], n);
      forall i | 0 <= i < |rest|
        ensures ids[0] < rest[i]
      {
        assert rest[i] in ids[1..];
      }
    }
  }

  lemma SendKeepsCorrelation(s: Conn, frame: Frame)
    requires Correlated(s)
    ensures Correlated(SendFrame(s, frame).conn)
  {
  }

  lemma SubscriptionKeepsCorrelation(s: Conn, e: Event)
    requires Correlated(s) && (e.Subscribe? || e.Unsubscribe?)
    ensures Correlated(Step(s, e))
  {
    var pass := PassOf(s, e);
    var s1 := s.(channelHandlers := pass.handlers);
    SendKeepsCorrelation(s1, if e.Subscribe? then Subscribed(pass.channels) else Unsubscribed(pass.channels));
  }

  lemma ReplyKeepsCorrelation(s: Conn, n: nat, resolved: bool)
    requires Correlated(s) && n in s.requestHandlers
    ensures Correlated(s.(settled := s.settled + [Reply(n, resolved)], requestHandlers := Remove(s.requestHandlers, n)))
  {
    var settled := s.settled + [Reply(n, resolved)];
    RemoveKeepsOthers(s.requestHandlers, n);
    assert RepliedTo(settled) == RepliedTo(s.settled) + [n];
  }

  lemma ErrorKeepsCorrelation(s: Conn)
    requires Correlated(s)
    ensures Correlated(AfterError(s))
  {
    OpenRequests(s);
    assert RepliedTo(AfterError(s).settled) == RepliedTo(s.settled) + s.requestHandlers;
  }

  lemma OpenRequests(s: Conn)
    requires Correlated(s)
    ensures forall i :: 0 <= i < |s.requestHandlers| ==> s.requestHandlers[i] <= s.requestIdCounter
    ensures forall i, j :: 0 <= i < |RepliedTo(s.settled)| && 0 <= j < |s.requestHandlers| ==>
              RepliedTo(s.settled)[i] != s.requestHandlers[j]
  {
    forall j | 0 <= j < |s.requestHandlers|
      ensures s.requestHandlers[j] <= s.requestIdCounter && s.requestHandlers[j] !in RepliedTo(s.settled)
    {
      assert s.requestHandlers[j] in s.requestHandlers;
    }
  }

  lemma RequestKeepsCorrelation(s: Conn)
    requires Correlated(s)
    ensures Correlated(AfterRequest(s).conn)
  {
    var n := s.requestIdCounter + 1;
    SendKeepsCorrelation(s, OtherFrame(n));
    OpenRequests(s);
    assert n !in RepliedTo(s.settled);
  }

  lemma MessageKeepsCorrelation(s: Conn, m: Incoming)
    requires Correlated(s)
    ensures Correlated(AfterMessage(s, m))
  {
    if m.Message? {
      var s1 := AfterParse(s, m);
      if IsChannelMessage(m) {
        if m.channel.value !in s.channelHandlers {
          OrphanKeepsCorrelation(s1, m.channel.value);
        }
      } else if m.id.Some? && m.id.value.R? && m.id.value.n in s.requestHandlers {
        ReplyKeepsCorrelation(s1, m.id.value.n, !m.error);
      }
    }
  }

  lemma OrphanKeepsCorrelation(s: Conn, channel: string)
    requires Correlated(s)
    ensures Correlated(AfterOrphan(s, channel))
  {
    var parsed := ParseChannelId(channel);
    if parsed.Some? {
      SubscriptionKeepsCorrelation(s, Unsubscribe([OnlyChannel(parsed.value.channel)]));
    }
  }

  lemma StepCorrelated(s: Conn, e: Event)
    requires Correlated(s)
    ensures Correlated(Step(s, e))
  {
    match e
    case Subscribe(_, _) => SubscriptionKeepsCorrelation(s, e);
    case Unsubscribe(_) => SubscriptionKeepsCorrelation(s, e);
    case Send => SendKeepsCorrelation(s, OtherFrame(s.requestIdCounter + 1));
    case Request => RequestKeepsCorrelation(s);
    case Receive(m) => MessageKeepsCorrelation(s, m);
    case SocketError => ErrorKeepsCorrelation(s);
    case _ =>
  }

  /**
   * Over the whole life of a connector, reconnects included: no id is used twice; the open
   * requests are exactly those issued since the last new socket and not settled yet; and no
   * request is settled twice, over replies and error sweeps.
   */
  lemma {:induction false} RequestsCorrelate(es: seq<Event>)
    ensures Correlated(Run(Initial(), es))
  {
    RunCorrelated(Initial(), es);
  }

  lemma {:induction false} RunCorrelated(s: Conn, es: seq<Event>)
    requires Correlated(s)
    ensures Correlated(Run(s, es))
    decreases |es|
  {
    if es == [] {
    } else {
      StepCorrelated(s, es[0]);
      RunCorrelated(Step(s, es[0]), es[1..]);
    }
  }

  /**
   * An incoming message settles the request whose id it carries if that is open, with its own
   * outcome, and leaves every other request alone; any other message settles nothing.
   */
  lemma MessageSettlesItsOwnRequest(s: Conn, m: Incoming)
    requires Correlated(s)
    ensures var s' := AfterMessage(s, m);
            if m.Message? && m.id.Some? && m.id.value.R? && m.id.value.n in s.requestHandlers
            then
              && s'.settled == s.settled + [Reply(m.id.value.n, !m.error)]
              && (forall n :: n in s'.requestHandlers <==> n in s.requestHandlers && n != m.id.value.n)
            else s'.settled == s.settled && s'.requestHandlers == s.requestHandlers
  {
    if m.Message? && m.id.Some? && m.id.value.R? {
      RemoveKeepsOthers(s.requestHandlers, m.id.value.n);
    }
  }

  /**
   * `shouldConnect` never survives the call that sets it, so `connect` never sees it set: each
   * call opens a socket of its own.
   */
  lemma {:induction false} ConnectNeverDeduplicates(es: seq<Event>)
    ensures !Run(Initial(), es).shouldConnect
  {
    NeverShouldConnect(Initial(), es);
  }

  lemma {:induction false} NeverShouldConnect(s: Conn, es: seq<Event>)
    requires !s.shouldConnect
    ensures !Run(s, es).shouldConnect
    decreases |es|
  {
    if es == [] {
    } else {
      StepNeverShouldConnect(s, es[0]);
      NeverShouldConnect(Step(s, es[0]), es[1..]);
    }
  }

  lemma StepNeverShouldConnect(s: Conn, e: Event)
    requires !s.shouldConnect
    ensures !Step(s, e).shouldConnect
  {
  }

  // ----- out-of-sequence messages -----

  /** Numbers received for a key since the last message for it without a number. */
  function Recent(received: seq<(string, Option<int>)>, key: string): seq<int> {
    if received == [] then []
    else
      var (k, number) := Last(received);
      var before := Recent(Init(received), key);
      if k != key then before else match number
        case Some(x) => before + [x]
        case None => []
  }

  ghost predicate IsMaximum(x: Option<int>, numbers: seq<int>) {
    match x
    case None => numbers == []
    case Some(m) => m in numbers && forall i :: 0 <= i < |numbers| ==> numbers[i] <= m
  }

  /** The cache holds the running maxima of the numbers of this connection. */
  ghost predicate Tracks(s: Conn) {
    forall key :: IsMaximum(Cached(s, key), Recent(s.received, key))
  }

  lemma ParseTracks(s: Conn, m: Incoming)
    requires Tracks(s) && m.Message?
    ensures Tracks(AfterParse(s, m))
  {
    var s1 := AfterParse(s, m);
    forall key
      ensures IsMaximum(Cached(s1, key), Recent(s1.received, key))
    {
      assert IsMaximum(Cached(s, key), Recent(s.received, key));
      assert Init(s1.received) == s.received;
    }
  }

  lemma StepTracks(s: Conn, e: Event)
    requires Tracks(s)
    ensures Tracks(Step(s, e))
  {
    match e
    case Connect(_) =>
    case Disconnect =>
    case Closed =>
    case Receive(m) =>
      if m.Message? {
        ParseTracks(s, m);
        SameNumberingTracks(AfterParse(s, m), Step(s, e));
      }
    case _ => SameNumberingTracks(s, Step(s, e));
  }

  lemma SameNumberingTracks(s: Conn, s': Conn)
    requires Tracks(s) && SameNumbering(s, s')
    ensures Tracks(s')
  {
    forall key
      ensures IsMaximum(Cached(s', key), Recent(s'.received, key))
    {
      assert IsMaximum(Cached(s, key), Recent(s.received, key));
    }
  }

  lemma {:induction false} RunTracks(s: Conn, es: seq<Event>)
    requires Tracks(s)
    ensures Tracks(Run(s, es))
    decreases |es|
  {
    if es == [] {
    } else {
      StepTracks(s, es[0]);
      RunTracks(Step(s, es[0]), es[1..]);
    }
  }

  /**
   * After any run, a message is flagged as out of sequence exactly when it carries a number and
   * a message on its channel in this connection (since the last unnumbered one) carried a larger.
   */
  lemma FlaggedIffLarger(es: seq<Event>, m: Incoming)
    requires m.Message?
    ensures var s := Run(Initial(), es);
            OutOfSequence(s, m) <==>
            m.sequenceNumber.Some? && exists x :: x in Recent(s.received, CacheKey(m.channel)) && x > m.sequenceNumber.value
  {
    RunTracks(Initial(), es);
    var s := Run(Initial(), es);
    assert IsMaximum(Cached(s, CacheKey(m.channel)), Recent(s.received, CacheKey(m.channel)));
  }
}
