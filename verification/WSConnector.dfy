/**
 * The class `WSConnector` (src/websocket/connector.ts), each method proved to be the transition
 * of `Connector` it stands for. Exceptions are reported by the out-parameter `threw`.
 */
module WebSocketConnector {
  import opened Basics
  import opened ChannelId
  import opened Connector

  class WSConnector {
    var connected: bool
    var socket: bool
    var shouldConnect: bool
    var requestIdCounter: nat
    var requestHandlers: seq<nat>
    var channelHandlers: map<string, nat>
    var sequenceNumberCache: map<string, Option<int>>

    // promise handlers and channel handlers called so far
    var settled: seq<Reply>
    var deliveries: seq<Delivery>

    // history
    ghost var frames: seq<Frame>
    ghost var received: seq<(string, Option<int>)>
    ghost var issued: seq<nat>
    ghost var ids: seq<nat>

    ghost function View(): Conn
      reads this
    {
      Conn(connected, socket, shouldConnect, requestIdCounter, requestHandlers, channelHandlers,
           sequenceNumberCache, frames, received, issued, ids, settled, deliveries)
    }

    constructor ()
      ensures View() == Initial()
    {
      connected, socket, shouldConnect, requestIdCounter := false, false, false, 0;
      requestHandlers, channelHandlers, sequenceNumberCache := [], map[], map[];
      settled, deliveries, frames, received, issued, ids := [], [], [], [], [], [];
    }

    method Connect(ok: bool)
      modifies this
      ensures View() == AfterConnect(old(View()), ok)
    {
      if shouldConnect {
        return;
      }
      shouldConnect := true;
      Disconnect();
      if ok {
        socket := true;
        requestHandlers := [];
        issued := [];
      }
    }

    method Disconnect()
      modifies this
      ensures View() == AfterDisconnectWebsocket(old(View())).(shouldConnect := false)
    {
      shouldConnect := false;
      DisconnectWebsocket();
    }

    /** Also the handler of the socket's close event. */
    method DisconnectWebsocket()
      modifies this
      ensures View() == AfterDisconnectWebsocket(old(View()))
    {
      sequenceNumberCache := map[];
      socket := false;
      if connected {
        connected := false;
      }
      frames, received := [], [];
    }

    method OnOpen()
      modifies this
      ensures View() == Step(old(View()), Open)
    {
      connected := true;
    }

    method Send(frame: Frame) returns (threw: bool)
      modifies this
      ensures Outcome(View(), threw) == SendFrame(old(View()), frame)
    {
      requestIdCounter := requestIdCounter + 1;
      ids := ids + [requestIdCounter];
      if !connected {
        return true;
      }
      if socket {
        frames := frames + [frame];
      }
      return false;
    }

    method Subscribe(params: seq<Params>, handler: nat) returns (threw: bool)
      modifies this
      ensures Outcome(View(), threw) == AfterSubscribe(old(View()), params, handler)
    {
      var channels;
      channels, threw := RegisterHandlers(params, handler);
      if !threw && |channels| > 0 {
        threw := Send(Subscribed(channels));
      }
    }

    /** The loop of `subscribe`. */
    method RegisterHandlers(params: seq<Params>, handler: nat) returns (channels: seq<string>, threw: bool)
      modifies this`channelHandlers
      ensures Pass(channelHandlers, channels, threw) == Register(old(channelHandlers), ChannelIds(params), handler)
    {
      ghost var ids := ChannelIds(params);
      channels, threw := [], false;
      var i := 0;
      while i < |params| && !threw
        invariant i <= |params|
        invariant var rest := if threw then Pass(channelHandlers, [], true) else Register(channelHandlers, ids[i..], handler);
                  Register(old(channelHandlers), ids, handler) == rest.(channels := channels + rest.channels)
        decreases |params| - i, !threw
      {
        var channelId := GenerateChannelId(params[i]);
        assert ids[i] == channelId && ids[i..][0] == channelId;
        if channelId.None? {
          threw := true;
        } else {
          RegisterAt(channelHandlers, ids, i, handler, channels);
          if channelId.value !in channelHandlers && |channelId.value| > 0 {
            channelHandlers := channelHandlers[channelId.value := handler];
            channels := channels + [channelId.value];
          }
          i := i + 1;
        }
      }
    }

    method Unsubscribe(params: seq<Params>) returns (threw: bool)
      modifies this
      ensures Outcome(View(), threw) == AfterUnsubscribe(old(View()), params)
    {
      var channels;
      channels, threw := UnregisterHandlers(params);
      if !threw && |channels| > 0 {
        threw := Send(Unsubscribed(channels));
      }
    }

    /** The loop of `unsubscribe`. */
    method UnregisterHandlers(params: seq<Params>) returns (channels: seq<string>, threw: bool)
      modifies this`channelHandlers
      ensures Pass(channelHandlers, channels, threw) == Unregister(old(channelHandlers), ChannelIds(params))
    {
      ghost var ids := ChannelIds(params);
      channels, threw := [], false;
      var i := 0;
      while i < |params| && !threw
        invariant i <= |params|
        invariant var rest := if threw then Pass(channelHandlers, [], true) else Unregister(channelHandlers, ids[i..]);
                  Unregister(old(channelHandlers), ids) == rest.(channels := channels + rest.channels)
        decreases |params| - i, !threw
      {
        var channelId := GenerateChannelId(params[i]);
        assert ids[i] == channelId && ids[i..][0] == channelId;
        if channelId.None? {
          threw := true;
        } else {
          UnregisterAt(channelHandlers, ids, i, channels);
          var shouldUnsubscribe := channelId.value in channelHandlers;
          channelHandlers := channelHandlers - {channelId.value};
          if shouldUnsubscribe && |channelId.value| > 0 {
            channels := channels + [channelId.value];
          }
          i := i + 1;
        }
      }
    }

    method Request() returns (threw: bool)
      modifies this
      ensures Outcome(View(), threw) == AfterRequest(old(View()))
    {
      threw := Send(OtherFrame(requestIdCounter + 1));
      if !threw {
        requestHandlers := requestHandlers + [requestIdCounter];
        issued := issued + [requestIdCounter];
      }
    }

    method OnMessage(m: Incoming)
      modifies this
      ensures View() == AfterMessage(old(View()), m)
    {
      if !m.Message? {
        return;
      }
      var outOfSequence := ParseWsMessage(m);
      if m.id.None? && m.channel.Some? && m.channel.value != "" {
        var channel := m.channel.value;
        if channel !in channelHandlers {
          var params := ParseChannelId(channel);
          if params.Some? {
            var _ := Unsubscribe([OnlyChannel(params.value.channel)]);
          }
          return;
        }
        deliveries := deliveries + [Delivery(channelHandlers[channel], channel, outOfSequence)];
        return;
      }
      if m.id.None? || !m.id.value.R? || m.id.value.n !in requestHandlers {
        return;
      }
      settled := settled + [Reply(m.id.value.n, !m.error)];
      requestHandlers := Remove(requestHandlers, m.id.value.n);
    }

    method ParseWsMessage(m: Incoming) returns (outOfSequence: bool)
      requires m.Message?
      modifies this
      ensures View() == AfterParse(old(View()), m)
      ensures outOfSequence == OutOfSequence(old(View()), m)
    {
      var key := m.channel.GetOr("undefined");
      outOfSequence := false;
      if m.sequenceNumber.Some? && key in sequenceNumberCache && sequenceNumberCache[key].Some? {
        outOfSequence := m.sequenceNumber.value < sequenceNumberCache[key].value;
      }
      if !outOfSequence {
        sequenceNumberCache := sequenceNumberCache[key := m.sequenceNumber];
      }
      received := received + [(key, m.sequenceNumber)];
    }

    method OnError()
      modifies this
      ensures View() == AfterError(old(View()))
    {
      var handlers := requestHandlers;
      for i := 0 to |handlers|
        invariant View() == old(View()).(settled := old(settled) + Rejections(handlers[..i]), requestHandlers := handlers[i..])
      {
        settled := settled + [Reply(handlers[i], false)];
        requestHandlers := requestHandlers[1..];
      }
      assert handlers[..|handlers|] == handlers;
    }
  }
}
