/** The chat gateway (src/messages-ws/messages-ws.gateway.ts) as a
    transition function: each transport event takes the registry to a new
    registry and produces, in order, the effects the handler has on the
    outside world. Each handler runs as one atomic step. */
module Gateway {
  import opened Wrappers
  import opened Users
  import opened Registry

  /** The part of a verified JWT the gateway reads. */
  datatype JwtPayload = JwtPayload(id: string)

  /** Events the server sends to every socket. */
  datatype ServerEvent =
    | Roster(ids: seq<SocketId>)
    | Chat(fullName: string, message: string)

  /** The wire name of a server event. */
  function EventName(e: ServerEvent): string {
    match e
    case Roster(_) => "connected-clients"
    case Chat(_, _) => "message-from-server"
  }

  /** One externally visible effect of a handler. */
  datatype Effect =
      /** `socket.disconnect()` */
    | Disconnect(socket: SocketId)
      /** `this.wss.emit(name, payload)`: every connected socket, the sender included */
    | EmitAll(event: ServerEvent)
      /** a rejection of the un-awaited `registerClient` promise, which no
          `catch` sees */
    | Unhandled(error: string)
      /** `getUserFullName` throwing for a socket that is not registered */
    | SenderUnknown(socket: SocketId)

  /** The registry after a handler and the effects it produced. */
  datatype Step = Step(clients: Clients, effects: seq<Effect>)

  /** Events the transport delivers. */
  datatype Event =
    | Connection(client: SocketId, token: string)
    | Disconnection(client: SocketId)
    | MessageFromClient(client: SocketId, message: Option<string>)

  /** `payload.message || 'Empty message'`. */
  function MessageText(message: Option<string>): (text: string)
    ensures text != []
    ensures message.Some? && message.value != [] ==> text == message.value
    ensures message.None? || message.value == [] ==> text == "Empty message"
  {
    if message.None? || message.value == [] then "Empty message" else message.value
  }

  /** The rest of `handleConnection` once registration has been tried: a
      failed registration escapes the `try` (its promise is not awaited), so
      the socket stays open; then the roster goes to every socket. */
  function AfterRegistration(cs: Clients, reg: Result<Registration, string>): (s: Step)
    requires Valid(cs)
    requires reg.Ok? ==> Valid(reg.value.clients)
    ensures Valid(s.clients)
    ensures |s.effects| >= 1
    ensures s.effects[|s.effects| - 1] == EmitAll(Roster(ConnectedClients(s.clients)))
    ensures forall k | 0 <= k < |s.effects| - 1 :: !s.effects[k].EmitAll?
    ensures reg.Err? ==> s.clients == cs && s.effects[0] == Unhandled(reg.error)
    ensures reg.Err? ==> s.effects == [Unhandled(reg.error), EmitAll(Roster(ConnectedClients(cs)))]
    ensures reg.Ok? ==> s.clients == reg.value.clients
    ensures forall k | 0 <= k < |s.effects| && s.effects[k].Disconnect? ::
      k == 0 && reg.Ok? && reg.value.displaced == Some(s.effects[k].socket)
    ensures reg.Ok? ==>
      s.effects == (if reg.value.displaced.Some? then [Disconnect(reg.value.displaced.value)] else [])
                   + [EmitAll(Roster(ConnectedClients(s.clients)))]
    ensures EventName(s.effects[|s.effects| - 1].event) == "connected-clients"
  {
    match reg
    case Err(e) => Step(cs, [Unhandled(e), EmitAll(Roster(ConnectedClients(cs)))])
    case Ok(r) =>
      var closes := if r.displaced.Some? then [Disconnect(r.displaced.value)] else [];
      Step(r.clients, closes + [EmitAll(Roster(ConnectedClients(r.clients)))])
  }

  /** `handleConnection`: a token that does not verify closes the socket and
      nothing else happens, no roster included; otherwise registration runs
      with `payload.id` and the roster is broadcast afterwards. */
  function HandleConnection(cs: Clients, users: seq<User>, verify: string -> Option<JwtPayload>,
                            client: SocketId, token: string): (s: Step)
    requires Valid(cs)
    ensures Valid(s.clients)
    ensures verify(token).None? ==> s == Step(cs, [Disconnect(client)])
    ensures verify(token).Some? ==>
      s == AfterRegistration(cs, RegisterClient(cs, client, verify(token).value.id, users))
  {
    match verify(token)
    case None => Step(cs, [Disconnect(client)])
    case Some(payload) => AfterRegistration(cs, RegisterClient(cs, client, payload.id, users))
  }

  /** `handleDisconnect`: forget the socket, then broadcast the roster. */
  function HandleDisconnect(cs: Clients, client: SocketId): (s: Step)
    requires Valid(cs)
    ensures Valid(s.clients)
    ensures Lookup(s.clients, client).None?
    ensures forall id | id != client :: Lookup(s.clients, id) == Lookup(cs, id)
    ensures client !in Keys(cs) ==> s.clients == cs
    ensures forall i | 0 <= i < |cs| && cs[i].socket == client :: s.clients == cs[..i] + cs[i + 1..]
    ensures s.effects == [EmitAll(Roster(ConnectedClients(s.clients)))]
    ensures client !in s.effects[0].event.ids
    ensures EventName(s.effects[0].event) == "connected-clients"
  {
    RemoveValid(cs, client);
    forall i | 0 <= i < |cs| && cs[i].socket == client
      ensures Remove(cs, client) == cs[..i] + cs[i + 1..]
    {
      RemoveKeepsOrder(cs, client, i);
    }
    var after := Remove(cs, client);
    Step(after, [EmitAll(Roster(ConnectedClients(after)))])
  }

  /** `handleMessageFromClient`: one `message-from-server` to every socket,
      named after the sender; the registry is only read. */
  function HandleMessage(cs: Clients, client: SocketId, message: Option<string>): (s: Step)
    requires Valid(cs)
    ensures s.clients == cs
    ensures |s.effects| == 1
    ensures Lookup(cs, client).Some? ==>
      s.effects[0] == EmitAll(Chat(Lookup(cs, client).value.fullName, MessageText(message)))
    ensures Lookup(cs, client).Some? ==> EventName(s.effects[0].event) == "message-from-server"
    ensures Lookup(cs, client).None? ==> s.effects[0] == SenderUnknown(client)
  {
    if Lookup(cs, client).None? then Step(cs, [SenderUnknown(client)])
    else Step(cs, [EmitAll(Chat(UserFullName(cs, client), MessageText(message)))])
  }

  /** Dispatch one transport event to its handler. */
  function Handle(cs: Clients, users: seq<User>, verify: string -> Option<JwtPayload>, e: Event): (s: Step)
    requires Valid(cs)
    ensures Valid(s.clients)
  {
    match e
    case Connection(client, token) => HandleConnection(cs, users, verify, client, token)
    case Disconnection(client) => HandleDisconnect(cs, client)
    case MessageFromClient(client, message) => HandleMessage(cs, client, message)
  }

  /** Handle a sequence of events in order, collecting every effect. */
  function Run(cs: Clients, users: seq<User>, verify: string -> Option<JwtPayload>, events: seq<Event>): (s: Step)
    requires Valid(cs)
    ensures Valid(s.clients)
    decreases |events|
  {
    if |events| == 0 then Step(cs, [])
    else
      var first := Handle(cs, users, verify, events[0]);
      var rest := Run(first.clients, users, verify, events[1..]);
      Step(rest.clients, first.effects + rest.effects)
  }

  /** Chat messages never change the registry, however many arrive. */
  lemma {:induction false} MessagesKeepRegistry(cs: Clients, users: seq<User>,
                                                verify: string -> Option<JwtPayload>, events: seq<Event>)
    requires Valid(cs)
    requires forall k | 0 <= k < |events| :: events[k].MessageFromClient?
    ensures Run(cs, users, verify, events).clients == cs
    decreases |events|
  {
    if |events| > 0 {
      MessagesKeepRegistry(cs, users, verify, events[1..]);
    }
  }

  /** The disconnects the transport reports back for the sockets a step
      closed. */
  function Reported(effects: seq<Effect>): (events: seq<Event>)
    ensures |events| <= |effects|
    ensures forall k | 0 <= k < |events| :: events[k].Disconnection?
  {
    if |effects| == 0 then []
    else if effects[0].Disconnect? then [Disconnection(effects[0].socket)] + Reported(effects[1..])
    else Reported(effects[1..])
  }

  /** A connection keeps a single session per user once the transport has
      reported the disconnects it asked for: the displaced socket lingers in
      the registry until then. */
  lemma {:induction false} ConnectionSettlesToSingleSession(cs: Clients, users: seq<User>,
      verify: string -> Option<JwtPayload>, client: SocketId, token: string)
    requires Valid(cs) && SingleSession(cs)
    ensures
      var s := HandleConnection(cs, users, verify, client, token);
      SingleSession(Run(s.clients, users, verify, Reported(s.effects)).clients)
  {
    var s := HandleConnection(cs, users, verify, client, token);
    match verify(token)
    case None =>
      assert Reported(s.effects) == [Disconnection(client)];
      RemoveKeepsSingleSession(cs, client);
    case Some(payload) =>
      var reg := RegisterClient(cs, client, payload.id, users);
      if reg.Err? {
        assert Reported(s.effects) == [];
      } else {
        RegisterThenSettle(cs, client, payload.id, users);
        var roster := [EmitAll(Roster(ConnectedClients(reg.value.clients)))];
        match reg.value.displaced
        case None =>
          assert Reported(s.effects) == Reported(roster) == [];
        case Some(d) =>
          assert s.effects == [Disconnect(d)] + roster;
          assert Reported(s.effects) == [Disconnection(d)] + Reported(roster);
          assert Reported(roster) == [];
          assert Run(reg.value.clients, users, verify, [Disconnection(d)]).clients
              == Remove(reg.value.clients, d);
      }
  }
}
