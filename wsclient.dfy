/** The WebSocket connection manager: one current socket, an authentication
    frame on open, a FIFO queue of frames sent while no socket is open, a
    single 3-second reconnect timer, and a publish/subscribe registry of
    handlers. The transport is abstract: the browser's socket events are the
    methods `OnOpen`, `OnMessage`, `OnError`, `OnClose` and `TimerFires`, and
    every frame a socket transmits is recorded, with that socket, on `wire`. */
module Connection {
  import opened JsValues

  /** `WebSocket.readyState` */
  datatype ReadyState = SocketConnecting | SocketOpen | SocketClosing | SocketClosed

  /** The `status` string published on `ws_status`. */
  datatype Status = Disconnected | Connecting | Connected | Error

  function StatusText(s: Status): string {
    match s
    case Disconnected => "disconnected"
    case Connecting => "connecting"
    case Connected => "connected"
    case Error => "error"
  }

  /** A frame as serialised by `JSON.stringify`: the authentication object, or
      an event `{ type, payload }`. */
  datatype Frame = AuthFrame(accessToken: Option<string>) | EventFrame(kind: string, payload: JsValue)

  /** One `ws.send(...)`: the frame and the socket that transmitted it. */
  datatype Transmission = Transmission(socket: nat, frame: Frame)

  /** A registered handler is identified by the function value the caller passed. */
  type HandlerId = nat

  /** One invocation `fn(arg)` of a registered handler. */
  datatype Call = Call(handler: HandlerId, arg: JsValue)

  /** The unsubscriber `on` returns. */
  datatype Subscription = Subscription(kind: string, handler: HandlerId)

  /** `if (token)` */
  predicate TokenHeld(t: Option<string>) {
    t.Some? && t.value != ""
  }

  function Frames(w: seq<Transmission>): seq<Frame> {
    seq(|w|, i requires 0 <= i < |w| => w[i].frame)
  }

  function Transmit(socket: nat, fs: seq<Frame>): seq<Transmission> {
    seq(|fs|, i requires 0 <= i < |fs| => Transmission(socket, fs[i]))
  }

  lemma FramesOfTransmit(w: seq<Transmission>, socket: nat, fs: seq<Frame>)
    ensures Frames(w + Transmit(socket, fs)) == Frames(w) + fs
  {
  }

  // ---------------------------------------------------------------------------
  // The handler registry: `listeners[type]` is a `Set`, iterated in insertion order.

  predicate NoDuplicates(hs: seq<HandlerId>) {
    forall i, j :: 0 <= i < j < |hs| ==> hs[i] != hs[j]
  }

  function HandlersOf(listeners: map<string, seq<HandlerId>>, kind: string): seq<HandlerId> {
    if kind in listeners then listeners[kind] else []
  }

  /** `set.add(h)` */
  function AddHandler(hs: seq<HandlerId>, h: HandlerId): seq<HandlerId> {
    if h in hs then hs else hs + [h]
  }

  /** `set.delete(h)` */
  function RemoveHandler(hs: seq<HandlerId>, h: HandlerId): seq<HandlerId>
    decreases |hs|
  {
    if hs == [] then []
    else if hs[0] == h then RemoveHandler(hs[1..], h)
    else [hs[0]] + RemoveHandler(hs[1..], h)
  }

  /** Registering a handler makes it a member once, whether or not it already was. */
  lemma AddHandlerSpec(hs: seq<HandlerId>, h: HandlerId)
    requires NoDuplicates(hs)
    ensures NoDuplicates(AddHandler(hs, h))
    ensures forall g :: g in AddHandler(hs, h) <==> g in hs || g == h
    ensures AddHandler(AddHandler(hs, h), h) == AddHandler(hs, h)
  {
  }

  /** Removing a handler removes exactly that one and keeps the others' order. */
  lemma {:induction false} RemoveHandlerSpec(hs: seq<HandlerId>, h: HandlerId)
    requires NoDuplicates(hs)
    ensures NoDuplicates(RemoveHandler(hs, h))
    ensures forall g :: g in RemoveHandler(hs, h) <==> g in hs && g != h
    ensures h !in hs ==> RemoveHandler(hs, h) == hs
    decreases |hs|
  {
    if hs != [] {
      RemoveHandlerSpec(hs[1..], h);
      if hs[0] != h {
        assert hs[0] !in hs[1..];
        assert hs == [hs[0]] + hs[1..];
      }
    }
  }

  /** Unsubscribing right after subscribing a new handler restores the set. */
  lemma OnThenOffRestores(hs: seq<HandlerId>, h: HandlerId)
    requires NoDuplicates(hs) && h !in hs
    ensures RemoveHandler(AddHandler(hs, h), h) == hs
  {
    RemoveAppended(hs, h);
  }

  lemma {:induction false} RemoveAppended(hs: seq<HandlerId>, h: HandlerId)
    requires h !in hs
    ensures RemoveHandler(hs + [h], h) == hs
    decreases |hs|
  {
    if hs == [] {
      assert RemoveHandler([h][1..], h) == [];
    } else {
      assert (hs + [h])[1..] == hs[1..] + [h];
      RemoveAppended(hs[1..], h);
      assert hs == [hs[0]] + hs[1..];
    }
  }

  function CallsTo(hs: seq<HandlerId>, arg: JsValue): seq<Call> {
    seq(|hs|, i requires 0 <= i < |hs| => Call(hs[i], arg))
  }

  /** The calls `emit(type, payload)` makes: the handlers of `type` with the
      payload, then the `'*'` handlers with `{ type, payload }`. */
  function Deliveries(listeners: map<string, seq<HandlerId>>, kind: JsValue, payload: JsValue): seq<Call> {
    CallsTo(HandlersOf(listeners, PropertyKey(kind)), payload)
      + CallsTo(HandlersOf(listeners, "*"), Obj(map["type" := kind, "payload" := payload]))
  }

  function CountCalls(cs: seq<Call>, c: Call): nat
    decreases |cs|
  {
    if cs == [] then 0 else (if cs[0] == c then 1 else 0) + CountCalls(cs[1..], c)
  }

  lemma {:induction false} CountCallsTo(hs: seq<HandlerId>, h: HandlerId, arg: JsValue)
    requires NoDuplicates(hs)
    ensures CountCalls(CallsTo(hs, arg), Call(h, arg)) == if h in hs then 1 else 0
    decreases |hs|
  {
    if hs != [] {
      assert CallsTo(hs, arg)[1..] == CallsTo(hs[1..], arg);
      CountCallsTo(hs[1..], h, arg);
    }
  }

  /** A handler registered for a type (once or several times) is called exactly
      once with the payload when that type is emitted, unless it is also a
      `'*'` handler and the payload coincides with the envelope. */
  lemma EmitCallsEachHandlerOnce(listeners: map<string, seq<HandlerId>>, kind: string, h: HandlerId, payload: JsValue)
    requires kind != "*" && PropertyKey(Str(kind)) == kind
    requires NoDuplicates(HandlersOf(listeners, kind))
    requires h in HandlersOf(listeners, kind) && h !in HandlersOf(listeners, "*")
    ensures CountCalls(Deliveries(listeners, Str(kind), payload), Call(h, payload)) == 1
  {
    var a := CallsTo(HandlersOf(listeners, kind), payload);
    var b := CallsTo(HandlersOf(listeners, "*"), Obj(map["type" := Str(kind), "payload" := payload]));
    CountCallsTo(HandlersOf(listeners, kind), h, payload);
    CountAppend(a, b, Call(h, payload));
    CountAbsent(b, Call(h, payload));
  }

  lemma {:induction false} CountAppend(a: seq<Call>, b: seq<Call>, c: Call)
    ensures CountCalls(a + b, c) == CountCalls(a, c) + CountCalls(b, c)
    decreases |a|
  {
    if a != [] {
      assert (a + b)[0] == a[0];
      assert (a + b)[1..] == a[1..] + b;
      CountAppend(a[1..], b, c);
    } else {
      assert a + b == b;
    }
  }

  lemma {:induction false} CountAbsent(cs: seq<Call>, c: Call)
    requires forall i :: 0 <= i < |cs| ==> cs[i].handler != c.handler
    ensures CountCalls(cs, c) == 0
    decreases |cs|
  {
    if cs != [] {
      CountAbsent(cs[1..], c);
    }
  }

  // ---------------------------------------------------------------------------

  class WSClient {
    /** Every socket created so far, by creation order, with its ready state. */
    var sockets: seq<ReadyState>
    /** `this.ws`: the current socket, if any. */
    var ws: Option<nat>
    var token: Option<string>
    var status: Status
    var shouldReconnect: bool
    /** `this.reconnectTimer !== null` */
    var reconnectTimer: bool
    var listeners: map<string, seq<HandlerId>>
    var pendingMessages: seq<Frame>
    /** Every frame transmitted so far, in order. */
    var wire: seq<Transmission>
    /** Every handler invocation so far, in order. */
    var calls: seq<Call>
    /** The reconnect timers started and not yet fired. */
    ghost var liveTimers: nat

    /** The bookkeeping every step keeps, even halfway through `onopen`. */
    ghost predicate Sound()
      reads this
    {
      && (ws.Some? ==> ws.value < |sockets|)
      && liveTimers == (if reconnectTimer then 1 else 0)
      && forall k :: k in listeners ==> NoDuplicates(listeners[k])
    }

    /** Between events, nothing is queued while the current socket is open. */
    ghost predicate Valid()
      reads this
    {
      Sound() && (IsOpen() ==> pendingMessages == [])
    }

    /** `this.ws && this.ws.readyState === WebSocket.OPEN` */
    predicate IsOpen()
      reads this
    {
      ws.Some? && ws.value < |sockets| && sockets[ws.value] == SocketOpen
    }

    /** `!this.ws || this.ws.readyState === WebSocket.CLOSED` */
    predicate GoneOrClosed()
      reads this
    {
      ws.None? || (ws.value < |sockets| && sockets[ws.value] == SocketClosed)
    }

    /** Everything handed to the client for sending, in order: what went out on
        the wire, then what is still queued. */
    function Outbound(): seq<Frame>
      reads this
    {
      Frames(wire) + pendingMessages
    }

    constructor()
      ensures Valid()
      ensures sockets == [] && ws == None && token == None && status == Disconnected
      ensures !shouldReconnect && !reconnectTimer && listeners == map[]
      ensures pendingMessages == [] && wire == [] && calls == []
    {
      sockets, ws, token, status := [], None, None, Disconnected;
      shouldReconnect, reconnectTimer := false, false;
      listeners, pendingMessages, wire, calls := map[], [], [], [];
      liveTimers := 0;
    }

    /** `emit(type, payload)`: the calls are recorded; what the handlers do is
        not part of this model. */
    method Emit(kind: JsValue, payload: JsValue)
      modifies this
      ensures calls == old(calls) + Deliveries(listeners, kind, payload)
      ensures unchanged(this`sockets, this`ws, this`token, this`status, this`shouldReconnect, this`reconnectTimer)
      ensures unchanged(this`listeners, this`pendingMessages, this`wire, this`liveTimers)
    {
      CallEach(HandlersOf(listeners, PropertyKey(kind)), payload);
      CallEach(HandlersOf(listeners, "*"), Obj(map["type" := kind, "payload" := payload]));
    }

    /** `set.forEach(fn => fn(arg))`: one call per handler, in set order. */
    method CallEach(hs: seq<HandlerId>, arg: JsValue)
      modifies this`calls
      ensures calls == old(calls) + CallsTo(hs, arg)
    {
      var i := 0;
      while i < |hs|
        invariant 0 <= i <= |hs|
        invariant calls == old(calls) + CallsTo(hs[..i], arg)
      {
        assert CallsTo(hs[..i + 1], arg) == CallsTo(hs[..i], arg) + [Call(hs[i], arg)];
        calls := calls + [Call(hs[i], arg)];
        i := i + 1;
      }
      assert hs[..i] == hs;
    }

    /** `updateStatus(status)`: set the status and publish it once on `ws_status`. */
    method UpdateStatus(s: Status)
      modifies this
      ensures status == s
      ensures calls == old(calls) + Deliveries(listeners, Str("ws_status"), Str(StatusText(s)))
      ensures unchanged(this`sockets, this`ws, this`token, this`shouldReconnect, this`reconnectTimer)
      ensures unchanged(this`listeners, this`pendingMessages, this`wire, this`liveTimers)
    {
      status := s;
      Emit(Str("ws_status"), Str(StatusText(s)));
    }

    /** `on(type, handler)` */
    method On(kind: string, handler: HandlerId) returns (sub: Subscription)
      requires Valid()
      modifies this
      ensures Valid()
      ensures listeners == old(listeners)[kind := AddHandler(HandlersOf(old(listeners), kind), handler)]
      ensures sub == Subscription(kind, handler)
      ensures unchanged(this`sockets, this`ws, this`token, this`status, this`shouldReconnect, this`reconnectTimer)
      ensures unchanged(this`pendingMessages, this`wire, this`calls, this`liveTimers)
    {
      AddHandlerSpec(HandlersOf(listeners, kind), handler);
      listeners := listeners[kind := AddHandler(HandlersOf(listeners, kind), handler)];
      sub := Subscription(kind, handler);
    }

    /** `off(type, handler)` */
    method Off(kind: string, handler: HandlerId)
      requires Valid()
      modifies this
      ensures Valid()
      ensures listeners == if kind in old(listeners)
        then old(listeners)[kind := RemoveHandler(old(listeners)[kind], handler)]
        else old(listeners)
      ensures unchanged(this`sockets, this`ws, this`token, this`status, this`shouldReconnect, this`reconnectTimer)
      ensures unchanged(this`pendingMessages, this`wire, this`calls, this`liveTimers)
    {
      if kind in listeners {
        RemoveHandlerSpec(listeners[kind], handler);
        listeners := listeners[kind := RemoveHandler(listeners[kind], handler)];
      }
    }

    /** Calling the unsubscriber `on` returned. */
    method Unsubscribe(sub: Subscription)
      requires Valid()
      modifies this
      ensures Valid()
      ensures listeners == if sub.kind in old(listeners)
        then old(listeners)[sub.kind := RemoveHandler(old(listeners)[sub.kind], sub.handler)]
        else old(listeners)
      ensures sub.handler !in HandlersOf(listeners, sub.kind)
      ensures forall k :: k != sub.kind ==> HandlersOf(listeners, k) == HandlersOf(old(listeners), k)
      ensures unchanged(this`sockets, this`ws, this`token, this`status, this`shouldReconnect, this`reconnectTimer)
      ensures unchanged(this`pendingMessages, this`wire, this`calls, this`liveTimers)
    {
      if sub.kind in listeners {
        RemoveHandlerSpec(listeners[sub.kind], sub.handler);
      }
      Off(sub.kind, sub.handler);
    }

    /** `sendRaw(obj)`: transmit when open, queue otherwise. */
    method SendRaw(f: Frame)
      requires Sound()
      modifies this
      ensures Sound() && (old(Valid()) ==> Valid())
      ensures old(Valid()) ==> Outbound() == old(Outbound()) + [f]
      ensures old(IsOpen()) ==> wire == old(wire) + [Transmission(old(ws).value, f)] && pendingMessages == old(pendingMessages)
      ensures !old(IsOpen()) ==> wire == old(wire) && pendingMessages == old(pendingMessages) + [f]
      ensures unchanged(this`sockets, this`ws, this`token, this`status, this`shouldReconnect, this`reconnectTimer)
      ensures unchanged(this`listeners, this`calls, this`liveTimers)
    {
      if IsOpen() {
        assert Transmit(ws.value, [f]) == [Transmission(ws.value, f)];
        FramesOfTransmit(wire, ws.value, [f]);
        wire := wire + [Transmission(ws.value, f)];
      } else {
        pendingMessages := pendingMessages + [f];
      }
    }

    /** `scheduleReconnect()`: start the timer unless one is pending. */
    method ScheduleReconnect()
      requires Valid()
      modifies this
      ensures Valid()
      ensures reconnectTimer && liveTimers == 1
      ensures unchanged(this`sockets, this`ws, this`token, this`status, this`shouldReconnect)
      ensures unchanged(this`listeners, this`pendingMessages, this`wire, this`calls)
    {
      if reconnectTimer {
        return;
      }
      reconnectTimer := true;
      liveTimers := liveTimers + 1;
    }

    /** `send(type, payload)`: transmit when open; otherwise queue, and schedule
        a reconnect when there is no socket or it is closed. */
    method Send(kind: string, payload: JsValue)
      requires Valid()
      modifies this
      ensures Valid()
      ensures Outbound() == old(Outbound()) + [EventFrame(kind, payload)]
      ensures old(IsOpen()) ==> wire == old(wire) + [Transmission(old(ws).value, EventFrame(kind, payload))]
      ensures !old(IsOpen()) ==> wire == old(wire) && pendingMessages == old(pendingMessages) + [EventFrame(kind, payload)]
      ensures reconnectTimer == (old(reconnectTimer) || (!old(IsOpen()) && old(GoneOrClosed())))
      ensures unchanged(this`sockets, this`ws, this`token, this`status, this`shouldReconnect)
      ensures unchanged(this`listeners, this`calls)
    {
      var f := EventFrame(kind, payload);
      if IsOpen() {
        assert Transmit(ws.value, [f]) == [Transmission(ws.value, f)];
        FramesOfTransmit(wire, ws.value, [f]);
        wire := wire + [Transmission(ws.value, f)];
      } else {
        pendingMessages := pendingMessages + [f];
        if GoneOrClosed() {
          ScheduleReconnect();
        }
      }
    }

    /** `flushQueue()`: when open, drain the queue onto the socket in FIFO order. */
    method FlushQueue()
      requires Sound()
      modifies this
      ensures Valid()
      ensures Outbound() == old(Outbound())
      ensures old(IsOpen()) ==> wire == old(wire) + Transmit(old(ws).value, old(pendingMessages)) && pendingMessages == []
      ensures !old(IsOpen()) ==> wire == old(wire) && pendingMessages == old(pendingMessages)
      ensures unchanged(this`sockets, this`ws, this`token, this`status, this`shouldReconnect, this`reconnectTimer)
      ensures unchanged(this`listeners, this`calls, this`liveTimers)
    {
      if !IsOpen() {
        return;
      }
      var sid := ws.value;
      ghost var queued := pendingMessages;
      ghost var sent := wire;
      ghost var n := 0;
      while |pendingMessages| > 0
        invariant 0 <= n <= |queued|
        invariant pendingMessages == queued[n..]
        invariant wire == sent + Transmit(sid, queued[..n])
        invariant ws == Some(sid) && IsOpen()
        invariant unchanged(this`sockets, this`ws, this`token, this`status, this`shouldReconnect, this`reconnectTimer)
        invariant unchanged(this`listeners, this`calls, this`liveTimers)
        decreases |pendingMessages|
      {
        assert Transmit(sid, queued[..n + 1]) == Transmit(sid, queued[..n]) + [Transmission(sid, queued[n])];
        wire := wire + [Transmission(sid, pendingMessages[0])];
        pendingMessages := pendingMessages[1..];
        n := n + 1;
      }
      assert queued[..n] == queued;
      FramesOfTransmit(sent, sid, queued);
    }

    /** `openSocket()`: publish 'connecting' and make a new socket current. */
    method OpenSocket()
      requires Valid()
      modifies this
      ensures Valid()
      ensures sockets == old(sockets) + [SocketConnecting] && ws == Some(|old(sockets)|)
      ensures status == Connecting
      ensures calls == old(calls) + Deliveries(listeners, Str("ws_status"), Str("connecting"))
      ensures unchanged(this`token, this`shouldReconnect, this`reconnectTimer)
      ensures unchanged(this`listeners, this`pendingMessages, this`wire, this`liveTimers)
    {
      UpdateStatus(Connecting);
      sockets := sockets + [SocketConnecting];
      ws := Some(|sockets| - 1);
    }

    /** `setAuthToken(token)`: re-authenticate at once when open. */
    method SetAuthToken(t: Option<string>)
      requires Valid()
      modifies this
      ensures Valid()
      ensures token == t
      ensures old(IsOpen()) ==> wire == old(wire) + [Transmission(old(ws).value, AuthFrame(t))]
      ensures !old(IsOpen()) ==> wire == old(wire)
      ensures pendingMessages == old(pendingMessages)
      ensures unchanged(this`sockets, this`ws, this`status, this`shouldReconnect, this`reconnectTimer)
      ensures unchanged(this`listeners, this`calls, this`liveTimers)
    {
      token := t;
      if IsOpen() {
        SendRaw(AuthFrame(t));
      }
    }

    /** `connect(token)`: without any token, nothing; otherwise reconnecting is
        enabled, and a socket is opened unless the current one is open or
        connecting. */
    method Connect(t: Option<string>)
      requires Valid()
      modifies this
      ensures Valid()
      ensures token == if TokenHeld(t) then t else old(token)
      ensures !TokenHeld(token) ==> unchanged(this)
      ensures TokenHeld(token) ==> shouldReconnect
      ensures var busy := old(ws).Some? && old(sockets)[old(ws).value] in {SocketOpen, SocketConnecting};
        if TokenHeld(token) && !busy
        then && sockets == old(sockets) + [SocketConnecting] && ws == Some(|old(sockets)|) && status == Connecting
             && calls == old(calls) + Deliveries(listeners, Str("ws_status"), Str("connecting"))
        else sockets == old(sockets) && ws == old(ws) && status == old(status) && calls == old(calls)
      ensures unchanged(this`reconnectTimer, this`listeners, this`pendingMessages, this`wire)
    {
      if TokenHeld(t) {
        token := t;
      }
      if !TokenHeld(token) {
        return;
      }
      shouldReconnect := true;
      if ws.Some? && sockets[ws.value] in {SocketOpen, SocketConnecting} {
        return;
      }
      OpenSocket();
    }

    /** `disconnect()`: stop reconnecting, close and forget the current socket,
        publish 'disconnected'. A pending reconnect timer and the queue are
        left as they are. */
    method Disconnect()
      requires Valid()
      modifies this
      ensures Valid()
      ensures !shouldReconnect && ws == None && status == Disconnected
      ensures old(ws).None? ==> sockets == old(sockets)
      ensures old(ws).Some? ==> sockets == old(sockets)[old(ws).value := Closed(old(sockets)[old(ws).value])]
      ensures calls == old(calls) + Deliveries(listeners, Str("ws_status"), Str("disconnected"))
      ensures unchanged(this`token, this`reconnectTimer, this`listeners, this`pendingMessages, this`wire, this`liveTimers)
    {
      shouldReconnect := false;
      if ws.Some? {
        sockets := sockets[ws.value := Closed(sockets[ws.value])];
      }
      ws := None;
      UpdateStatus(Disconnected);
    }

    /** The socket `sid` finished its handshake (`onopen`): publish
        'connected', authenticate when a token is held, then drain the queue. */
    method OnOpen(sid: nat)
      requires Valid()
      requires sid < |sockets| && sockets[sid] == SocketConnecting
      modifies this
      ensures Valid()
      ensures sockets == old(sockets)[sid := SocketOpen] && ws == old(ws)
      ensures status == Connected
      ensures calls == old(calls) + Deliveries(listeners, Str("ws_status"), Str("connected"))
      ensures var auth := if TokenHeld(token) then [AuthFrame(token)] else [];
        if IsOpen()
        then wire == old(wire) + Transmit(ws.value, auth + old(pendingMessages)) && pendingMessages == []
        else wire == old(wire) && pendingMessages == old(pendingMessages) + auth
      ensures unchanged(this`token, this`shouldReconnect, this`reconnectTimer, this`listeners, this`liveTimers)
    {
      sockets := sockets[sid := SocketOpen];
      UpdateStatus(Connected);
      AuthenticateAndFlush();
    }

    /** The rest of `onopen`: the auth frame when a token is held, then the
        queue, both onto the current socket when it is open. */
    method AuthenticateAndFlush()
      requires Sound()
      modifies this
      ensures Valid()
      ensures var auth := if TokenHeld(token) then [AuthFrame(token)] else [];
        if IsOpen()
        then wire == old(wire) + Transmit(ws.value, auth + old(pendingMessages)) && pendingMessages == []
        else wire == old(wire) && pendingMessages == old(pendingMessages) + auth
      ensures unchanged(this`sockets, this`ws, this`token, this`status, this`shouldReconnect, this`reconnectTimer)
      ensures unchanged(this`listeners, this`calls, this`liveTimers)
    {
      ghost var queued := pendingMessages;
      if TokenHeld(token) {
        SendRaw(AuthFrame(token));
      }
      FlushQueue();
      if IsOpen() {
        assert Transmit(ws.value, (if TokenHeld(token) then [AuthFrame(token)] else []) + queued) ==
          Transmit(ws.value, if TokenHeld(token) then [AuthFrame(token)] else []) + Transmit(ws.value, queued);
      }
    }

    /** A frame arrived on socket `sid` (`onmessage`); `data` is the parsed
        JSON, `None` when parsing failed (the error is only logged). A frame
        with a truthy `type` is emitted with `payload || message || data`. */
    method OnMessage(sid: nat, data: Option<JsValue>)
      requires Valid()
      requires sid < |sockets| && sockets[sid] == SocketOpen
      modifies this
      ensures Valid()
      ensures match data
        case None => calls == old(calls)
        case Some(d) =>
          var o := AsObject(d);
          if Truthy(Get(o, "type"))
          then calls == old(calls) + Deliveries(listeners, Get(o, "type"), Or(Get(o, "payload"), Or(Get(o, "message"), d)))
          else calls == old(calls)
      ensures unchanged(this`sockets, this`ws, this`token, this`status, this`shouldReconnect, this`reconnectTimer)
      ensures unchanged(this`listeners, this`pendingMessages, this`wire, this`liveTimers)
    {
      if data.Some? {
        var o := AsObject(data.value);
        if Truthy(Get(o, "type")) {
          Emit(Get(o, "type"), Or(Get(o, "payload"), Or(Get(o, "message"), data.value)));
        }
      }
    }

    /** The socket `sid` reported an error (`onerror`). */
    method OnError(sid: nat)
      requires Valid()
      requires sid < |sockets| && sockets[sid] != SocketClosed
      modifies this
      ensures Valid()
      ensures status == Error
      ensures calls == old(calls) + Deliveries(listeners, Str("ws_status"), Str("error"))
      ensures unchanged(this`sockets, this`ws, this`token, this`shouldReconnect, this`reconnectTimer)
      ensures unchanged(this`listeners, this`pendingMessages, this`wire, this`liveTimers)
    {
      UpdateStatus(Error);
    }

    /** The socket `sid` closed (`onclose`): publish 'disconnected' and, when
        reconnecting is enabled, schedule a reconnect. The current socket is
        not forgotten. */
    method OnClose(sid: nat)
      requires Valid()
      requires sid < |sockets| && sockets[sid] != SocketClosed
      modifies this
      ensures Valid()
      ensures sockets == old(sockets)[sid := SocketClosed] && ws == old(ws)
      ensures status == Disconnected
      ensures calls == old(calls) + Deliveries(listeners, Str("ws_status"), Str("disconnected"))
      ensures reconnectTimer == (old(reconnectTimer) || shouldReconnect)
      ensures unchanged(this`token, this`shouldReconnect, this`listeners, this`pendingMessages, this`wire)
    {
      sockets := sockets[sid := SocketClosed];
      UpdateStatus(Disconnected);
      if shouldReconnect {
        ScheduleReconnect();
      }
    }

    /** The socket `sid` entered its closing handshake without a call to
        `close()` here (the server closed it): `readyState` becomes CLOSING and
        no handler runs until `onclose`. */
    method ClosingStarts(sid: nat)
      requires Valid()
      requires sid < |sockets| && sockets[sid] == SocketOpen
      modifies this
      ensures Valid()
      ensures sockets == old(sockets)[sid := SocketClosing]
      ensures unchanged(this`ws, this`token, this`status, this`shouldReconnect, this`reconnectTimer)
      ensures unchanged(this`listeners, this`pendingMessages, this`wire, this`calls, this`liveTimers)
    {
      sockets := sockets[sid := SocketClosing];
    }

    /** The reconnect timer fired: clear it and open a socket, whatever
        happened since it was started. */
    method TimerFires()
      requires Valid() && reconnectTimer
      modifies this
      ensures Valid()
      ensures !reconnectTimer && liveTimers == 0
      ensures sockets == old(sockets) + [SocketConnecting] && ws == Some(|old(sockets)|) && status == Connecting
      ensures calls == old(calls) + Deliveries(listeners, Str("ws_status"), Str("connecting"))
      ensures unchanged(this`token, this`shouldReconnect, this`listeners, this`pendingMessages, this`wire)
    {
      reconnectTimer := false;
      liveTimers := liveTimers - 1;
      OpenSocket();
    }
  }

  /** `ws.close()`: a connecting or open socket starts closing; otherwise nothing. */
  function Closed(s: ReadyState): ReadyState {
    if s == SocketConnecting || s == SocketOpen then SocketClosing else s
  }

  // ---------------------------------------------------------------------------
  // Runs of the state machine.

  /** Frames sent before any connection are transmitted after the auth frame,
      in call order, once the socket opens; the timer started by the first
      send is still pending afterwards. */
  method QueueDrainsAfterAuth() returns (wire: seq<Transmission>, timerPending: bool, status: Status)
    ensures wire == [Transmission(0, AuthFrame(Some("t"))), Transmission(0, EventFrame("a", Num(1))),
                     Transmission(0, EventFrame("b", Num(2))), Transmission(0, EventFrame("c", Num(3)))]
    ensures timerPending && status == Connected
  {
    var c := new WSClient();
    c.Send("a", Num(1));
    c.Send("b", Num(2));
    c.Send("c", Num(3));
    c.Connect(Some("t"));
    c.OnOpen(0);
    wire, timerPending, status := c.wire, c.reconnectTimer, c.status;
  }

  /** A close while reconnecting is enabled starts the timer; a user
      disconnect does not stop it, and when it fires a new socket is opened. */
  method TimerOutlivesDisconnect() returns (sockets: seq<ReadyState>, status: Status, shouldReconnect: bool)
    ensures sockets == [SocketClosed, SocketConnecting]
    ensures status == Connecting && !shouldReconnect
  {
    var c := new WSClient();
    c.Connect(Some("t"));
    c.OnOpen(0);
    c.OnClose(0);
    c.Disconnect();
    c.TimerFires();
    sockets, status, shouldReconnect := c.sockets, c.status, c.shouldReconnect;
  }

  /** If the timer fires after a manual reconnect has already opened a socket,
      a second socket is opened and the first stays open. */
  method TimerOpensSecondSocket() returns (sockets: seq<ReadyState>, ws: Option<nat>)
    ensures sockets == [SocketClosed, SocketOpen, SocketConnecting] && ws == Some(2)
  {
    var c := new WSClient();
    c.Connect(Some("t"));
    c.OnClose(0);
    c.Connect(None);
    c.OnOpen(1);
    c.TimerFires();
    sockets, ws := c.sockets, c.ws;
  }

  /** A frame sent while the current socket is closing is queued, and no
      reconnect is scheduled: the socket is neither gone nor closed yet. */
  method SendWhileClosingQueues() returns (queued: seq<Frame>, timerPending: bool)
    ensures queued == [EventFrame("a", Num(1))] && !timerPending
  {
    var c := new WSClient();
    c.Connect(Some("t"));
    c.OnOpen(0);
    c.ClosingStarts(0);
    c.Send("a", Num(1));
    queued, timerPending := c.pendingMessages, c.reconnectTimer;
  }

  /** `connect` during the closing handshake opens a second socket, which
      becomes current while the first is still closing. */
  method ConnectWhileClosing() returns (c: WSClient)
    ensures fresh(c) && c.Valid()
    ensures c.sockets == [SocketClosing, SocketOpen] && c.ws == Some(1)
    ensures c.shouldReconnect && !c.reconnectTimer
  {
    c := new WSClient();
    c.Connect(Some("t"));
    c.OnOpen(0);
    c.ClosingStarts(0);
    c.Connect(None);
    c.OnOpen(1);
  }

  /** The first socket's late `onclose` then reports 'disconnected' although
      the new socket is open and current, and arms a timer that replaces it. */
  method LateCloseReplacesSocket() returns (status: Status, timerPending: bool, sockets: seq<ReadyState>, ws: Option<nat>)
    ensures status == Disconnected && timerPending
    ensures sockets == [SocketClosed, SocketOpen, SocketConnecting] && ws == Some(2)
  {
    var c := ConnectWhileClosing();
    c.OnClose(0);
    status, timerPending := c.status, c.reconnectTimer;
    c.TimerFires();
    sockets, ws := c.sockets, c.ws;
  }
}
