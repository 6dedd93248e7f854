/** The connected-client registry (src/messages-ws/messages-ws.service.ts):
    an insertion-ordered map from socket id to the socket and the user
    holding it. JavaScript object keys keep insertion order, which decides
    both the roster order and which earlier connection of a user is
    disconnected first, so the map is kept as a sequence of entries. */
module Registry {
  import opened Wrappers
  import opened Users
  import Seqs

  type SocketId = string

  /** One value of `connectedClients`: the socket, known by its id, and the
      user it was registered for. */
  datatype Client = Client(socket: SocketId, user: User)

  /** `connectedClients`, in key-insertion order. */
  type Clients = seq<Client>

  /** `Object.keys(connectedClients)`. */
  function Keys(cs: Clients): (ks: seq<SocketId>)
    ensures |ks| == |cs|
    ensures forall i | 0 <= i < |cs| :: ks[i] == cs[i].socket
  {
    if |cs| == 0 then [] else [cs[0].socket] + Keys(cs[1..])
  }

  /** Each socket id is a key at most once. */
  predicate Valid(cs: Clients) {
    Seqs.Distinct(Keys(cs))
  }

  /** `connectedClients[id]?.user`. */
  function Lookup(cs: Clients, id: SocketId): (u: Option<User>)
    ensures u.None? <==> id !in Keys(cs)
  {
    if |cs| == 0 then None
    else if cs[0].socket == id then Some(cs[0].user)
    else Lookup(cs[1..], id)
  }

  /** How keys and lookup read an entry placed in front of a map. */
  lemma Cons(c: Client, rest: Clients)
    ensures Keys([c] + rest) == [c.socket] + Keys(rest)
    ensures forall id :: Lookup([c] + rest, id) == if id == c.socket then Some(c.user) else Lookup(rest, id)
  {
    assert ([c] + rest)[1..] == rest;
  }

  /** The tail of a valid map is valid and does not hold its first key. */
  lemma ValidTail(cs: Clients)
    requires Valid(cs) && |cs| > 0
    ensures Valid(cs[1..]) && cs[0].socket !in Keys(cs[1..])
  {
    assert Keys(cs)[1..] == Keys(cs[1..]);
  }

  /** In a valid map, the value under the key of entry `i` is that entry's. */
  lemma {:induction false} LookupAt(cs: Clients, i: nat)
    requires Valid(cs) && i < |cs|
    ensures Lookup(cs, cs[i].socket) == Some(cs[i].user)
  {
    if i > 0 {
      Seqs.DistinctIndices(Keys(cs));
      assert Keys(cs)[0] != Keys(cs)[i];
      assert cs[1..][i - 1] == cs[i];
      LookupAt(cs[1..], i - 1);
    }
  }

  /** `LookupAt` for every entry at once. */
  lemma LookupAll(cs: Clients)
    requires Valid(cs)
    ensures forall i | 0 <= i < |cs| :: Lookup(cs, cs[i].socket) == Some(cs[i].user)
  {
    forall i | 0 <= i < |cs| ensures Lookup(cs, cs[i].socket) == Some(cs[i].user) {
      LookupAt(cs, i);
    }
  }

  /** A key that is present belongs to some entry holding its value. */
  lemma {:induction false} LookupFound(cs: Clients, id: SocketId) returns (i: nat)
    requires Lookup(cs, id).Some?
    ensures i < |cs| && cs[i].socket == id && cs[i].user == Lookup(cs, id).value
  {
    if cs[0].socket == id {
      i := 0;
    } else {
      var j := LookupFound(cs[1..], id);
      i := j + 1;
    }
  }

  /** The assignment `connectedClients[c.socket] = c`, on any map. */
  function Assign(cs: Clients, c: Client): Clients {
    if |cs| == 0 then [c]
    else if cs[0].socket == c.socket then [c] + cs[1..]
    else [cs[0]] + Assign(cs[1..], c)
  }

  /** After the assignment the key holds the new value and no other key
      changes. */
  lemma {:induction false} AssignLookup(cs: Clients, c: Client)
    ensures Lookup(Assign(cs, c), c.socket) == Some(c.user)
    ensures forall id | id != c.socket :: Lookup(Assign(cs, c), id) == Lookup(cs, id)
  {
    if |cs| == 0 {
      Cons(c, []);
    } else {
      assert cs == [cs[0]] + cs[1..];
      Cons(cs[0], cs[1..]);
      if cs[0].socket == c.socket {
        Cons(c, cs[1..]);
      } else {
        AssignLookup(cs[1..], c);
        Cons(cs[0], Assign(cs[1..], c));
      }
    }
  }

  /** The assignment keeps an existing key where it stands and appends a
      new one. */
  lemma {:induction false} AssignKeys(cs: Clients, c: Client)
    ensures c.socket in Keys(cs) ==> Keys(Assign(cs, c)) == Keys(cs)
    ensures c.socket !in Keys(cs) ==> Keys(Assign(cs, c)) == Keys(cs) + [c.socket]
  {
    if |cs| == 0 {
      Cons(c, []);
    } else {
      assert cs == [cs[0]] + cs[1..];
      Cons(cs[0], cs[1..]);
      if cs[0].socket == c.socket {
        Cons(c, cs[1..]);
      } else {
        AssignKeys(cs[1..], c);
        Cons(cs[0], Assign(cs[1..], c));
      }
    }
  }

  /** `connectedClients[c.socket] = { socket, user }`: an existing key is
      overwritten where it stands, a new key goes last. */
  function Put(cs: Clients, c: Client): (r: Clients)
    requires Valid(cs)
    ensures Valid(r)
    ensures Lookup(r, c.socket) == Some(c.user)
    ensures forall id | id != c.socket :: Lookup(r, id) == Lookup(cs, id)
    ensures c.socket in Keys(cs) ==> Keys(r) == Keys(cs)
    ensures c.socket !in Keys(cs) ==> Keys(r) == Keys(cs) + [c.socket]
  {
    AssignLookup(cs, c);
    AssignKeys(cs, c);
    if c.socket !in Keys(cs) then
      Seqs.DistinctAppend(Keys(cs), c.socket);
      Assign(cs, c)
    else
      Assign(cs, c)
  }

  /** `removeClient(id)`, i.e. `delete connectedClients[id]`: the key is
      gone, every other key keeps its value, and an absent key is a no-op. */
  function Remove(cs: Clients, id: SocketId): (r: Clients)
    ensures Lookup(r, id).None?
    ensures forall k | k != id :: Lookup(r, k) == Lookup(cs, k)
    ensures id !in Keys(cs) ==> r == cs
  {
    if |cs| == 0 then []
    else
      assert cs == [cs[0]] + cs[1..];
      Cons(cs[0], cs[1..]);
      var rest := Remove(cs[1..], id);
      if cs[0].socket == id then
        rest
      else
        Cons(cs[0], rest);
        [cs[0]] + rest
  }

  /** Removing a key keeps the map valid. */
  lemma {:induction false} RemoveValid(cs: Clients, id: SocketId)
    requires Valid(cs)
    ensures Valid(Remove(cs, id))
  {
    if |cs| > 0 {
      RemoveValid(cs[1..], id);
      var rest := Remove(cs[1..], id);
      if cs[0].socket != id {
        Cons(cs[0], rest);
        assert Lookup(rest, cs[0].socket) == Lookup(cs[1..], cs[0].socket);
      }
    }
  }

  /** Removing a key keeps the other keys in their insertion order: the
      entry is cut out where it stands. */
  lemma {:induction false} RemoveKeepsOrder(cs: Clients, id: SocketId, i: nat)
    requires Valid(cs) && i < |cs| && cs[i].socket == id
    ensures Remove(cs, id) == cs[..i] + cs[i + 1..]
  {
    ValidTail(cs);
    if i == 0 {
      assert Remove(cs, id) == Remove(cs[1..], id);
      assert cs[..0] + cs[1..] == cs[1..];
    } else {
      var tail := cs[1..];
      assert tail[i - 1] == cs[i];
      assert cs[0].socket != id;
      assert Remove(cs, id) == [cs[0]] + Remove(tail, id);
      RemoveKeepsOrder(tail, id, i - 1);
      SpliceShift(cs, i);
    }
  }

  /** Cutting entry `i` out of a map is keeping its head and cutting entry
      `i - 1` out of its tail. */
  lemma SpliceShift(cs: Clients, i: nat)
    requires 0 < i < |cs|
    ensures [cs[0]] + (cs[1..][..i - 1] + cs[1..][i..]) == cs[..i] + cs[i + 1..]
  {
    assert [cs[0]] + cs[1..][..i - 1] == cs[..i];
    assert cs[1..][i..] == cs[i + 1..];
  }

  /** `getConnectedClients()`: every key once, in insertion order. */
  function ConnectedClients(cs: Clients): (ids: seq<SocketId>)
    requires Valid(cs)
    ensures |ids| == |cs|
    ensures forall i, j | 0 <= i < j < |ids| :: ids[i] != ids[j]
    ensures forall id :: id in ids <==> Lookup(cs, id).Some?
    ensures forall i | 0 <= i < |cs| :: ids[i] == cs[i].socket
  {
    Seqs.DistinctIndices(Keys(cs));
    Keys(cs)
  }

  /** `getUserFullName(socketId)`: only defined for a registered socket. */
  function UserFullName(cs: Clients, socketId: SocketId): (name: string)
    requires Valid(cs) && Lookup(cs, socketId).Some?
    ensures forall i | 0 <= i < |cs| && cs[i].socket == socketId :: name == cs[i].user.fullName
  {
    LookupAll(cs);
    Lookup(cs, socketId).value.fullName
  }

  /** `checkUserConnection(userId)`: the first socket, in key order, that is
      registered for `userId`; that socket is the one disconnected. */
  function CheckUserConnection(cs: Clients, userId: string): (s: Option<SocketId>)
    ensures s.None? <==> forall i | 0 <= i < |cs| :: cs[i].user.id != userId
    ensures s.Some? ==> exists i | 0 <= i < |cs| ::
      && cs[i].socket == s.value
      && cs[i].user.id == userId
      && forall j | 0 <= j < i :: cs[j].user.id != userId
  {
    match Seqs.FirstIndex(cs, (c: Client) => c.user.id == userId)
    case None => None
    case Some(i) => Some(cs[i].socket)
  }

  /** A successful `registerClient`: the new map and the socket, if any, that
      was told to disconnect. */
  datatype Registration = Registration(clients: Clients, displaced: Option<SocketId>)

  /** `registerClient(client, userId)`: look the user up, refuse a missing or
      inactive one, disconnect the user's first earlier socket (which stays in
      the map until the transport reports the disconnect), then store the
      new socket. */
  function RegisterClient(cs: Clients, client: SocketId, userId: string, users: seq<User>)
    : (r: Result<Registration, string>)
    requires Valid(cs)
    ensures FindUserById(users, userId).None? ==> r == Err("User not found")
    ensures FindUserById(users, userId).Some? && !FindUserById(users, userId).value.isActive ==>
      r == Err("User is not active")
    ensures r.Ok? <==> FindUserById(users, userId).Some? && FindUserById(users, userId).value.isActive
    ensures r.Ok? ==>
      var after := r.value.clients;
      && Valid(after)
      && Lookup(after, client) == FindUserById(users, userId)
      && (forall id | id != client :: Lookup(after, id) == Lookup(cs, id))
      && (client in Keys(cs) ==> Keys(after) == Keys(cs))
      && (client !in Keys(cs) ==> Keys(after) == Keys(cs) + [client])
    ensures r.Ok? ==> r.value.displaced == CheckUserConnection(cs, userId)
  {
    match FindUserById(users, userId)
    case None => Err("User not found")
    case Some(user) =>
      if !user.isActive then Err("User is not active")
      else
        var displaced := CheckUserConnection(cs, userId);
        Ok(Registration(Put(cs, Client(client, user)), displaced))
  }

  /** No two registered sockets belong to the same user. */
  ghost predicate SingleSession(cs: Clients) {
    forall a, b | a != b && Lookup(cs, a).Some? && Lookup(cs, b).Some? ::
      Lookup(cs, a).value.id != Lookup(cs, b).value.id
  }

  /** In a valid map, the socket `checkUserConnection` names is registered
      for that user, and under a single session per user it is the only one. */
  lemma CheckUserConnectionFindsOwner(cs: Clients, userId: string)
    requires Valid(cs)
    ensures CheckUserConnection(cs, userId).Some? ==>
      var s := CheckUserConnection(cs, userId).value;
      Lookup(cs, s).Some? && Lookup(cs, s).value.id == userId
    ensures CheckUserConnection(cs, userId).None? ==>
      forall id | Lookup(cs, id).Some? :: Lookup(cs, id).value.id != userId
  {
    LookupAll(cs);
    if CheckUserConnection(cs, userId).None? {
      forall id | Lookup(cs, id).Some? ensures Lookup(cs, id).value.id != userId {
        var i := LookupFound(cs, id);
      }
    }
  }

  /** Registering a user and then removing the socket it displaced leaves at
      most one socket per user, provided that held before. Between the two
      steps the invariant may fail (see `DisplacedEntryLingers`). */
  lemma {:induction false} RegisterThenSettle(cs: Clients, client: SocketId, userId: string, users: seq<User>)
    requires Valid(cs) && SingleSession(cs)
    requires RegisterClient(cs, client, userId, users).Ok?
    ensures
      var reg := RegisterClient(cs, client, userId, users).value;
      var settled := if reg.displaced.Some? then Remove(reg.clients, reg.displaced.value) else reg.clients;
      SingleSession(settled)
  {
    var reg := RegisterClient(cs, client, userId, users).value;
    var after := reg.clients;
    CheckUserConnectionFindsOwner(cs, userId);
    assert Lookup(after, client).Some? && Lookup(after, client).value.id == userId;
    match reg.displaced
    case None =>
      forall a, b | a != b && Lookup(after, a).Some? && Lookup(after, b).Some?
        ensures Lookup(after, a).value.id != Lookup(after, b).value.id
      {
        if a != client && b != client {
          assert Lookup(after, a) == Lookup(cs, a) && Lookup(after, b) == Lookup(cs, b);
        }
      }
    case Some(d) =>
      var settled := Remove(after, d);
      forall a, b | a != b && Lookup(settled, a).Some? && Lookup(settled, b).Some?
        ensures Lookup(settled, a).value.id != Lookup(settled, b).value.id
      {
        assert a != d && b != d;
        assert Lookup(settled, a) == Lookup(after, a) && Lookup(settled, b) == Lookup(after, b);
        if a != client && b != client {
          assert Lookup(after, a) == Lookup(cs, a) && Lookup(after, b) == Lookup(cs, b);
        } else if a == client {
          assert Lookup(after, b) == Lookup(cs, b);
        } else {
          assert Lookup(after, a) == Lookup(cs, a);
        }
      }
  }

  /** Right after a registration that displaced another socket, that socket
      is still registered for the same user as the new one: until the
      transport reports the disconnect, the user holds two sessions. */
  lemma DisplacedEntryLingers(cs: Clients, client: SocketId, userId: string, users: seq<User>)
    requires Valid(cs)
    requires FindUserById(users, userId).Some? && FindUserById(users, userId).value.isActive
    requires CheckUserConnection(cs, userId).Some? && CheckUserConnection(cs, userId).value != client
    ensures RegisterClient(cs, client, userId, users).Ok?
    ensures
      var reg := RegisterClient(cs, client, userId, users).value;
      && reg.displaced == CheckUserConnection(cs, userId)
      && Lookup(reg.clients, reg.displaced.value).Some?
      && Lookup(reg.clients, reg.displaced.value).value.id == userId
      && Lookup(reg.clients, client).value.id == userId
      && !SingleSession(reg.clients)
  {
    var reg := RegisterClient(cs, client, userId, users).value;
    CheckUserConnectionFindsOwner(cs, userId);
    var d := reg.displaced.value;
    assert Lookup(reg.clients, d) == Lookup(cs, d);
  }

  /** `removeClient` keeps a single session per user. */
  lemma {:induction false} RemoveKeepsSingleSession(cs: Clients, id: SocketId)
    requires SingleSession(cs)
    ensures SingleSession(Remove(cs, id))
  {
    var r := Remove(cs, id);
    forall a, b | a != b && Lookup(r, a).Some? && Lookup(r, b).Some?
      ensures Lookup(r, a).value.id != Lookup(r, b).value.id
    {
      assert a != id && b != id;
    }
  }
}
