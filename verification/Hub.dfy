/**
The websocket hub: the registry of clients, its index by user, and the circle rooms.
 */
module Hub {

  datatype Client = Client(id: string, user: string)

  type Members = map<string, Client>

  datatype State = State(clients: Members, userClients: map<string, Members>, rooms: map<string, Members>, closed: bool)

  const EMPTY: State := State(map[], map[], map[], false)

  // ---------------------------------------------------------------------------------------
  // The operations as functions of the state
  // ---------------------------------------------------------------------------------------

  function Group(index: map<string, Members>, key: string): (m: Members) {
    if key in index then index[key] else map[]
  }

  /** Takes a client out of one entry of an index, and the entry out of the index when that
      empties it. */
  function Without(index: map<string, Members>, key: string, id: string): (r: map<string, Members>) {
    if key !in index then index
    else
      var left := index[key] - {id};
      if left == map[] then index - {key} else index[key := left]
  }

  /** Takes a client out of every room and forgets the rooms that are empty afterwards. */
  ghost function OutOfRooms(rooms: map<string, Members>, id: string): (r: map<string, Members>) {
    map room | room in rooms && rooms[room] - {id} != map[] :: rooms[room] - {id}
  }

  /** The rooms half way through that: the client is still in those of todo. */
  ghost function PartlyLeft(rooms: map<string, Members>, todo: set<string>, id: string): (r: map<string, Members>) {
    map room | room in rooms && (room in todo || rooms[room] - {id} != map[]) ::
      if room in todo then rooms[room] else rooms[room] - {id}
  }

  lemma LeaveOneMore(rooms: map<string, Members>, todo: set<string>, id: string, room: string)
    requires room in todo && room in rooms
    ensures var was, left := PartlyLeft(rooms, todo, id), rooms[room] - {id};
      PartlyLeft(rooms, todo - {room}, id) == if left == map[] then was - {room} else was[room := left]
  {
  }

  ghost function Registered(h: State, c: Client): (r: State) {
    if h.closed || c.id in h.clients then h
    else h.(clients := h.clients[c.id := c],
            userClients := h.userClients[c.user := Group(h.userClients, c.user)[c.id := c]])
  }

  ghost function Unregistered(h: State, c: Client): (r: State) {
    h.(clients := h.clients - {c.id},
       userClients := Without(h.userClients, c.user, c.id),
       rooms := OutOfRooms(h.rooms, c.id))
  }

  /** The answer of the membership check, when an authorizer is configured; an error is a no. */
  datatype Authorizer = NoAuthorizer | Answers(allowed: bool)

  predicate MayJoin(clients: Members, id: string, auth: Authorizer) {
    auth.NoAuthorizer? || (id in clients && auth.allowed)
  }

  ghost function Joined(h: State, room: string, id: string, auth: Authorizer): (r: State) {
    if !MayJoin(h.clients, id, auth) then h
    else
      var members := Group(h.rooms, room);
      h.(rooms := h.rooms[room := if id in h.clients then members[id := h.clients[id]] else members])
  }

  ghost function LeftRoom(h: State, room: string, id: string): (r: State) {
    h.(rooms := Without(h.rooms, room, id))
  }

  // ---------------------------------------------------------------------------------------
  // The three maps agree
  // ---------------------------------------------------------------------------------------

  /** userClients is exactly the grouping of clients by user, with no empty groups. */
  ghost predicate IsGrouping(clients: Members, userClients: map<string, Members>) {
    && (forall u :: u in userClients ==> userClients[u] != map[])
    && (forall u, id :: u in userClients && id in userClients[u] ==>
          id in clients && clients[id].user == u && userClients[u][id] == clients[id])
    && (forall id :: id in clients ==> clients[id].user in userClients && id in userClients[clients[id].user])
  }

  ghost predicate MembersAreRegistered(clients: Members, rooms: map<string, Members>) {
    forall room, id :: room in rooms && id in rooms[room] ==> id in clients && rooms[room][id] == clients[id]
  }

  ghost predicate Agree(h: State) {
    && (forall id :: id in h.clients ==> h.clients[id].id == id)
    && IsGrouping(h.clients, h.userClients)
    && MembersAreRegistered(h.clients, h.rooms)
  }

  /** The registry knows no other user for this client's id. */
  predicate Known(clients: Members, c: Client) {
    c.id in clients ==> clients[c.id].user == c.user
  }

  lemma GroupingGrows(clients: Members, userClients: map<string, Members>, c: Client)
    requires IsGrouping(clients, userClients) && c.id !in clients
    ensures IsGrouping(clients[c.id := c], userClients[c.user := Group(userClients, c.user)[c.id := c]])
  {
    var index := userClients[c.user := Group(userClients, c.user)[c.id := c]];
    assert c.id in index[c.user];
  }

  lemma RegisterAgrees(h: State, c: Client)
    requires Agree(h)
    ensures Agree(Registered(h, c))
  {
    if !h.closed && c.id !in h.clients {
      GroupingGrows(h.clients, h.userClients, c);
    }
  }

  lemma OutOfRoomsMember(rooms: map<string, Members>, id: string, room: string, other: string)
    requires room in OutOfRooms(rooms, id) && other in OutOfRooms(rooms, id)[room]
    ensures room in rooms && other in rooms[room] && other != id
        && OutOfRooms(rooms, id)[room][other] == rooms[room][other]
  {
  }

  lemma RoomsShrink(clients: Members, rooms: map<string, Members>, id: string)
    requires MembersAreRegistered(clients, rooms)
    ensures MembersAreRegistered(clients - {id}, OutOfRooms(rooms, id))
  {
    forall room, other | room in OutOfRooms(rooms, id) && other in OutOfRooms(rooms, id)[room]
      ensures other in clients - {id} && OutOfRooms(rooms, id)[room][other] == (clients - {id})[other]
    {
      OutOfRoomsMember(rooms, id, room, other);
    }
  }

  lemma StaleGroup(h: State, c: Client)
    requires IsGrouping(h.clients, h.userClients) && !Known(h.clients, c)
    ensures !IsGrouping(h.clients - {c.id}, Without(h.userClients, c.user, c.id))
  {
    var u := h.clients[c.id].user;
    var index := Without(h.userClients, c.user, c.id);
    var left := h.clients - {c.id};
    assert u in index && c.id in index[u] && c.id !in left;
  }

  /** Unregistering keeps the agreement if and only if the id is not registered for another user;
      connection ids are minted per connection, so every caller meets this. */
  lemma UnregisterAgreesIffKnown(h: State, c: Client)
    requires Agree(h)
    ensures Agree(Unregistered(h, c)) <==> Known(h.clients, c)
  {
    if Known(h.clients, c) {
      GroupingShrinks(h.clients, h.userClients, c);
      RoomsShrink(h.clients, h.rooms, c.id);
    } else {
      StaleGroup(h, c);
    }
  }

  lemma GroupingShrinks(clients: Members, userClients: map<string, Members>, c: Client)
    requires IsGrouping(clients, userClients) && Known(clients, c)
    ensures IsGrouping(clients - {c.id}, Without(userClients, c.user, c.id))
  {
    var left, index := clients - {c.id}, Without(userClients, c.user, c.id);
    forall id | id in left ensures left[id].user in index && id in index[left[id].user] {
      var u := clients[id].user;
      assert u in userClients && id in userClients[u];
      if u == c.user {
        assert id in userClients[u] - {c.id};
      }
    }
  }

  lemma JoinAgrees(h: State, room: string, id: string, auth: Authorizer)
    requires Agree(h)
    ensures Agree(Joined(h, room, id, auth))
  {
  }

  lemma LeaveAgrees(h: State, room: string, id: string)
    requires Agree(h)
    ensures Agree(LeftRoom(h, room, id))
  {
  }

  // ---------------------------------------------------------------------------------------
  // Runs
  // ---------------------------------------------------------------------------------------

  datatype Action =
    | Register(client: Client)
    | Unregister(client: Client)
    | Join(room: string, id: string, auth: Authorizer)
    | Leave(room: string, id: string)
    | Close

  ghost function Step(h: State, a: Action): (r: State) {
    match a
    case Register(c) => Registered(h, c)
    case Unregister(c) => Unregistered(h, c)
    case Join(room, id, auth) => Joined(h, room, id, auth)
    case Leave(room, id) => LeftRoom(h, room, id)
    case Close => h.(closed := true)
  }

  ghost function Run(h: State, actions: seq<Action>): (r: State)
    decreases |actions|
  {
    if actions == [] then h else Step(Run(h, actions[..|actions| - 1]), actions[|actions| - 1])
  }

  /** Connection ids are unique: an id always comes with the same user. */
  ghost predicate UniqueIds(actions: seq<Action>, owner: map<string, string>) {
    forall i :: 0 <= i < |actions| && (actions[i].Register? || actions[i].Unregister?) ==>
      actions[i].client.id in owner && owner[actions[i].client.id] == actions[i].client.user
  }

  ghost predicate Owned(clients: Members, owner: map<string, string>) {
    forall id :: id in clients ==> id in owner && owner[id] == clients[id].user
  }

  /** In every reachable state the three maps agree. */
  lemma {:induction false} MapsAlwaysAgree(actions: seq<Action>, owner: map<string, string>)
    requires UniqueIds(actions, owner)
    ensures Agree(Run(EMPTY, actions)) && Owned(Run(EMPTY, actions).clients, owner)
    decreases |actions|
  {
    if actions != [] {
      var init, a := actions[..|actions| - 1], actions[|actions| - 1];
      MapsAlwaysAgree(init, owner);
      var h := Run(EMPTY, init);
      match a {
        case Register(c) => RegisterAgrees(h, c);
        case Unregister(c) => UnregisterAgreesIffKnown(h, c);
        case Join(room, id, auth) => JoinAgrees(h, room, id, auth);
        case Leave(room, id) => LeaveAgrees(h, room, id);
        case Close =>
      }
    }
  }

  // ---------------------------------------------------------------------------------------
  // Who is registered and who is in a room
  // ---------------------------------------------------------------------------------------

  ghost predicate InRoom(h: State, room: string, id: string) {
    room in h.rooms && id in h.rooms[room]
  }

  /** The action lets the client in: a new id on an open hub. */
  ghost predicate LetsIn(h: State, a: Action, c: Client) {
    a == Register(c) && !h.closed && c.id !in h.clients
  }

  ghost predicate Drops(a: Action, id: string) {
    a.Unregister? && a.client.id == id
  }

  /** The action puts a registered client into the room: without an authorizer, or with its consent. */
  ghost predicate PutsIn(h: State, a: Action, room: string, id: string) {
    a.Join? && a.room == room && a.id == id && id in h.clients && (a.auth.NoAuthorizer? || a.auth.allowed)
  }

  ghost predicate TakesOut(a: Action, room: string, id: string) {
    Drops(a, id) || a == Leave(room, id)
  }

  /** One step, exactly: who is registered afterwards, and as whom. */
  lemma RegistersExactly(h: State, a: Action, id: string, c: Client)
    ensures id in Step(h, a).clients <==>
      (id in h.clients && !Drops(a, id)) || (exists d :: LetsIn(h, a, d) && d.id == id)
    ensures id in h.clients && !Drops(a, id) ==> Step(h, a).clients[id] == h.clients[id]
    ensures LetsIn(h, a, c) ==> c.id in Step(h, a).clients && Step(h, a).clients[c.id] == c
    ensures Step(h, a).closed <==> h.closed || a == Close
  {
    if a.Register? && !h.closed && a.client.id !in h.clients {
      assert LetsIn(h, a, a.client);
    }
  }

  lemma OutOfRoomsExactly(rooms: map<string, Members>, id: string, room: string, other: string)
    ensures (room in OutOfRooms(rooms, id) && other in OutOfRooms(rooms, id)[room])
      <==> room in rooms && other in rooms[room] && other != id
  {
    if room in rooms && other in rooms[room] && other != id {
      assert other in rooms[room] - {id};
    }
  }

  /** One step, exactly: who is in which room afterwards. */
  lemma MovesExactly(h: State, a: Action, room: string, id: string)
    ensures InRoom(Step(h, a), room, id) <==> (InRoom(h, room, id) && !TakesOut(a, room, id)) || PutsIn(h, a, room, id)
  {
    if a.Unregister? {
      OutOfRoomsExactly(h.rooms, a.client.id, room, id);
    } else if a.Leave? && a.room in h.rooms && id in h.rooms[a.room] && a.id != id {
      assert id in h.rooms[a.room] - {a.id};
    }
  }

  ghost predicate QuietFrom(actions: seq<Action>, k: nat, room: string, id: string) {
    forall i :: k <= i < |actions| ==> !TakesOut(actions[i], room, id)
  }

  /** At some step of the run the client was put into the room, and nothing has taken it out since. */
  ghost predicate JoinedSince(actions: seq<Action>, room: string, id: string, k: nat) {
    && k < |actions| && PutsIn(Run(EMPTY, actions[..k]), actions[k], room, id) && QuietFrom(actions, k + 1, room, id)
  }

  /** In every run a client is in a room if and only if it joined it as a registered client and has not
      left it or been unregistered since. */
  lemma {:induction false} InRoomIffJoined(actions: seq<Action>, room: string, id: string)
    ensures InRoom(Run(EMPTY, actions), room, id) <==> exists k: nat :: JoinedSince(actions, room, id, k)
    decreases |actions|
  {
    if actions != [] {
      var n := |actions| - 1;
      var init, a := actions[..n], actions[n];
      InRoomIffJoined(init, room, id);
      MovesExactly(Run(EMPTY, init), a, room, id);
      if InRoom(Run(EMPTY, actions), room, id) {
        if PutsIn(Run(EMPTY, init), a, room, id) {
          assert JoinedSince(actions, room, id, n);
        } else {
          var k: nat :| JoinedSince(init, room, id, k);
          assert init[..k] == actions[..k];
          assert JoinedSince(actions, room, id, k);
        }
      }
      if k: nat :| JoinedSince(actions, room, id, k) {
        if k < n {
          assert init[..k] == actions[..k];
          assert JoinedSince(init, room, id, k);
        }
      }
    }
  }

  ghost predicate RegisteredSince(actions: seq<Action>, c: Client, k: nat) {
    && k < |actions| && LetsIn(Run(EMPTY, actions[..k]), actions[k], c)
    && forall i :: k < i < |actions| ==> !Drops(actions[i], c.id)
  }

  /** In every run a client is registered if and only if it was let in and has not been unregistered
      since. */
  lemma {:induction false} RegisteredIffLetIn(actions: seq<Action>, c: Client)
    ensures (c.id in Run(EMPTY, actions).clients && Run(EMPTY, actions).clients[c.id] == c)
      <==> exists k: nat :: RegisteredSince(actions, c, k)
    decreases |actions|
  {
    if actions != [] {
      var n := |actions| - 1;
      var init, a := actions[..n], actions[n];
      RegisteredIffLetIn(init, c);
      RegistersExactly(Run(EMPTY, init), a, c.id, c);
      if c.id in Run(EMPTY, actions).clients && Run(EMPTY, actions).clients[c.id] == c {
        if LetsIn(Run(EMPTY, init), a, c) {
          assert RegisteredSince(actions, c, n);
        } else if c.id in Run(EMPTY, init).clients {
          var k: nat :| RegisteredSince(init, c, k);
          assert init[..k] == actions[..k];
          assert RegisteredSince(actions, c, k);
        }
      }
      if k: nat :| RegisteredSince(actions, c, k) {
        if k < n {
          assert init[..k] == actions[..k];
          assert RegisteredSince(init, c, k);
        }
      }
    }
  }

  ghost predicate NoEmptyRooms(h: State) {
    forall room :: room in h.rooms ==> h.rooms[room] != map[]
  }

  /** Somebody unknown asks for a room that is not there, and nobody checks. */
  ghost predicate OpensEmptyRoom(h: State, a: Action) {
    a.Join? && a.auth.NoAuthorizer? && a.id !in h.clients && a.room !in h.rooms
  }

  /** Rooms are forgotten when they empty; an empty one appears if and only if an unknown client joins a new
      room without an authorizer. */
  lemma EmptyRoomIff(h: State, a: Action)
    requires NoEmptyRooms(h)
    ensures NoEmptyRooms(Step(h, a)) <==> !OpensEmptyRoom(h, a)
  {
    if a.Join? && MayJoin(h.clients, a.id, a.auth) {
      var next := Step(h, a);
      if a.id in h.clients {
        assert a.id in next.rooms[a.room];
      } else if a.room !in h.rooms {
        assert next.rooms[a.room] == map[];
      }
    }
  }

  /** So in every run in which that does not happen there are no empty rooms. */
  lemma {:induction false} RoomsAreNeverEmpty(actions: seq<Action>)
    requires forall i :: 0 <= i < |actions| ==> !OpensEmptyRoom(Run(EMPTY, actions[..i]), actions[i])
    ensures NoEmptyRooms(Run(EMPTY, actions))
    decreases |actions|
  {
    if actions != [] {
      var n := |actions| - 1;
      var init := actions[..n];
      forall i | 0 <= i < n ensures !OpensEmptyRoom(Run(EMPTY, init[..i]), init[i]) {
        assert init[..i] == actions[..i];
      }
      RoomsAreNeverEmpty(init);
      EmptyRoomIff(Run(EMPTY, init), actions[n]);
    }
  }

  // ---------------------------------------------------------------------------------------
  // Shutdown
  // ---------------------------------------------------------------------------------------

  /** A closed hub stays closed and only loses clients, whatever runs. */
  lemma {:induction false} ClosedOnlyShrinks(h: State, actions: seq<Action>)
    requires h.closed
    ensures var end := Run(h, actions);
      end.closed && forall id :: id in end.clients ==> id in h.clients && end.clients[id] == h.clients[id]
    decreases |actions|
  {
    if actions != [] {
      ClosedOnlyShrinks(h, actions[..|actions| - 1]);
    }
  }

  lemma {:induction false} UnregisteredStaysOut(h: State, actions: seq<Action>, k: nat)
    requires h.closed && k < |actions| && actions[k].Unregister?
    ensures actions[k].client.id !in Run(h, actions).clients
    decreases |actions|
  {
    var init := actions[..|actions| - 1];
    ClosedOnlyShrinks(h, init);
    if k < |init| {
      UnregisteredStaysOut(h, init, k);
    }
  }

  ghost predicate UnregistersAll(clients: Members, actions: seq<Action>) {
    forall id :: id in clients ==>
        exists k :: 0 <= k < |actions| && actions[k].Unregister? && actions[k].client.id == id
  }

  lemma {:induction false} RunSplits(h: State, before: seq<Action>, after: seq<Action>)
    ensures Run(h, before + after) == Run(Run(h, before), after)
    decreases |after|
  {
    if after == [] {
      assert before + after == before;
    } else {
      RunSplits(h, before, after[..|after| - 1]);
      assert (before + after)[..|before + after| - 1] == before + after[..|after| - 1];
    }
  }

  /** Shutdown is final. It closes the hub and returns only after every client still registered has
      been unregistered, among whatever else runs meanwhile; from then on, and through every later
      action, no client is registered, indexed or in a room. */
  lemma ShutdownIsFinal(before: seq<Action>, drain: seq<Action>, later: seq<Action>, owner: map<string, string>)
    requires UniqueIds(before + [Close] + drain + later, owner)
    requires UnregistersAll(Run(EMPTY, before + [Close]).clients, drain)
    ensures var end := Run(EMPTY, before + [Close] + drain + later);
      && end.closed && end.clients == map[] && end.userClients == map[]
      && forall room :: room in end.rooms ==> end.rooms[room] == map[]
  {
    var closing := before + [Close];
    assert closing[..|closing| - 1] == before;
    var h := Run(EMPTY, closing);
    assert h.closed;
    RunSplits(EMPTY, closing, drain);
    RunSplits(EMPTY, closing + drain, later);
    var drained := Run(h, drain);
    ClosedOnlyShrinks(h, drain);
    forall id ensures id !in drained.clients {
      if id in drained.clients {
        var k :| 0 <= k < |drain| && drain[k].Unregister? && drain[k].client.id == id;
        UnregisteredStaysOut(h, drain, k);
      }
    }
    ClosedOnlyShrinks(drained, later);
    var end := Run(EMPTY, closing + drain + later);
    MapsAlwaysAgree(closing + drain + later, owner);
    assert end.clients == map[];
    NobodyLeft(end);
  }

  lemma NobodyLeft(h: State)
    requires Agree(h) && h.clients == map[]
    ensures h.userClients == map[] && forall room :: room in h.rooms ==> h.rooms[room] == map[]
  {
    assert forall u, id :: u in h.userClients && id in h.userClients[u] ==> id in h.clients;
    assert h.userClients.Keys == {};
    assert forall room, id :: room in h.rooms && id in h.rooms[room] ==> id in h.clients;
    assert forall room :: room in h.rooms ==> h.rooms[room] == map[];
  }

  // ---------------------------------------------------------------------------------------
  // Broadcast
  // ---------------------------------------------------------------------------------------

  /** Connections of one user form a group; an anonymous connection is a group of its own. */
  function GroupOf(c: Client): (g: string) {
    if c.user == "" then "client:" + c.id else c.user
  }

  ghost function GroupsOf(members: set<Client>): (groups: set<string>) {
    set c | c in members :: GroupOf(c)
  }

  ghost function Chosen(chosen: seq<Client>): (members: set<Client>) {
    set c | c in chosen
  }

  /** Exactly one member of every group of the room is chosen, and nobody else. */
  ghost predicate OnePerGroup(chosen: seq<Client>, members: set<Client>) {
    && Chosen(chosen) <= members
    && GroupsOf(Chosen(chosen)) == GroupsOf(members)
    && (forall i, j :: 0 <= i < j < |chosen| ==> GroupOf(chosen[i]) != GroupOf(chosen[j]))
  }

  /** The hub after the drops of a broadcast; between(i) are the steps of others before the i-th drop, for
      which the hub is unlocked. */
  ghost function DroppedAmid(h: State, dropped: seq<Client>, between: nat -> seq<Action>): (r: State) {
    if dropped == [] then h
    else
      var n := |dropped| - 1;
      Unregistered(Run(DroppedAmid(h, dropped[..n], between), between(n)), dropped[n])
  }

  /** The same as a run of steps. */
  ghost function DropSteps(dropped: seq<Client>, between: nat -> seq<Action>): (actions: seq<Action>) {
    if dropped == [] then []
    else
      var n := |dropped| - 1;
      DropSteps(dropped[..n], between) + between(n) + [Unregister(dropped[n])]
  }

  /** A broadcast among other steps is a run, so that what holds of every run holds of it. */
  lemma {:induction false} DropsAreSteps(h: State, dropped: seq<Client>, between: nat -> seq<Action>)
    ensures DroppedAmid(h, dropped, between) == Run(h, DropSteps(dropped, between))
  {
    if dropped != [] {
      var n := |dropped| - 1;
      DropsAreSteps(h, dropped[..n], between);
      var steps, last := DropSteps(dropped[..n], between), [Unregister(dropped[n])];
      RunSplits(h, steps, between(n));
      RunSplits(h, steps + between(n), last);
      assert last[..0] == [];
      var was := Run(h, steps + between(n));
      assert Run(was, last) == Step(Run(was, last[..0]), last[0]);
    }
  }

  /** The chosen clients whose send buffer is full. */
  function Slow(chosen: seq<Client>, full: set<string>): (r: seq<Client>) {
    if chosen == [] then []
    else if chosen[|chosen| - 1].id in full then Slow(chosen[..|chosen| - 1], full) + [chosen[|chosen| - 1]]
    else Slow(chosen[..|chosen| - 1], full)
  }

  /** Exactly the chosen clients with a full buffer are dropped. */
  lemma {:induction false} SlowAreFull(chosen: seq<Client>, full: set<string>, c: Client)
    ensures c in Slow(chosen, full) <==> c in chosen && c.id in full
  {
    if chosen != [] {
      SlowAreFull(chosen[..|chosen| - 1], full, c);
      assert chosen == chosen[..|chosen| - 1] + [chosen[|chosen| - 1]];
    }
  }

  /** Two named connections are one group if and only if they are of one user, two anonymous ones if and
      only if they are the same; a named one and an anonymous one only if the user is called like it. */
  lemma GroupsAreUsers(a: Client, b: Client)
    ensures a.user != "" && b.user != "" ==> (GroupOf(a) == GroupOf(b) <==> a.user == b.user)
    ensures a.user == "" && b.user == "" ==> (GroupOf(a) == GroupOf(b) <==> a.id == b.id)
    ensures a.user == "" && b.user != "" ==> (GroupOf(a) == GroupOf(b) <==> b.user == "client:" + a.id)
  {
    if a.user == "" && b.user == "" {
      assert GroupOf(a)[7..] == a.id && GroupOf(b)[7..] == b.id;
    }
  }

  /** A client that joined is reached: a broadcast to the room has a recipient of its group. */
  lemma JoinedIsReached(h: State, room: string, id: string, chosen: seq<Client>)
    requires InRoom(h, room, id) && OnePerGroup(chosen, h.rooms[room].Values)
    ensures exists k :: 0 <= k < |chosen| && GroupOf(chosen[k]) == GroupOf(h.rooms[room][id])
  {
    assert h.rooms[room][id] in h.rooms[room].Values;
    assert GroupOf(h.rooms[room][id]) in GroupsOf(Chosen(chosen));
  }

  lemma ChosenGrows(chosen: seq<Client>, c: Client, done: set<Client>)
    requires OnePerGroup(chosen, done)
    ensures GroupOf(c) in GroupsOf(Chosen(chosen)) ==> OnePerGroup(chosen, done + {c})
    ensures GroupOf(c) !in GroupsOf(Chosen(chosen)) ==> OnePerGroup(chosen + [c], done + {c})
    ensures GroupsOf(Chosen(chosen + [c])) == GroupsOf(Chosen(chosen)) + {GroupOf(c)}
  {
    assert Chosen(chosen + [c]) == Chosen(chosen) + {c};
    assert GroupsOf(done + {c}) == GroupsOf(done) + {GroupOf(c)};
    assert forall i :: 0 <= i < |chosen| ==>
        chosen[i] in Chosen(chosen) && GroupOf(chosen[i]) in GroupsOf(Chosen(chosen));
  }

  /** Picks the recipients of a broadcast, one per group, in whatever order the room is iterated. */
  method PickRecipients(members: set<Client>) returns (chosen: seq<Client>)
    ensures OnePerGroup(chosen, members)
  {
    chosen := [];
    var seen: set<string> := {};
    var todo := members;
    while todo != {}
      invariant todo <= members
      invariant OnePerGroup(chosen, members - todo)
      invariant seen == GroupsOf(Chosen(chosen))
      decreases |todo|
    {
      var c :| c in todo;
      ChosenGrows(chosen, c, members - todo);
      assert members - (todo - {c}) == (members - todo) + {c};
      todo := todo - {c};
      if GroupOf(c) in seen {
        continue;
      }
      seen := seen + {GroupOf(c)};
      chosen := chosen + [c];
    }
    assert members - todo == members;
  }

  // ---------------------------------------------------------------------------------------
  // The hub as it runs
  // ---------------------------------------------------------------------------------------

  class WebsocketHub {
    var clients: Members
    var userClients: map<string, Members>
    var rooms: map<string, Members>
    var closed: bool

    ghost function Contents(): (h: State)
      reads this
    {
      State(clients, userClients, rooms, closed)
    }

    constructor ()
      ensures Contents() == EMPTY
    {
      clients, userClients, rooms, closed := map[], map[], map[], false;
    }

    method RegisterClient(c: Client)
      modifies this
      ensures Contents() == Registered(old(Contents()), c)
    {
      if closed {
        return;
      }
      if c.id !in clients {
        clients := clients[c.id := c];
        if c.user !in userClients {
          userClients := userClients[c.user := map[]];
        }
        userClients := userClients[c.user := userClients[c.user][c.id := c]];
      }
    }

    method UnregisterClient(c: Client)
      modifies this
      ensures Contents() == Unregistered(old(Contents()), c)
    {
      if c.id in clients {
        clients := clients - {c.id};
      }
      if c.user in userClients {
        userClients := userClients[c.user := userClients[c.user] - {c.id}];
        if userClients[c.user] == map[] {
          userClients := userClients - {c.user};
        }
      }
      LeaveAllRooms(c.id);
    }

    method LeaveAllRooms(id: string)
      modifies this`rooms
      ensures rooms == OutOfRooms(old(rooms), id)
    {
      var todo := rooms.Keys;
      assert rooms == PartlyLeft(rooms, todo, id);
      while todo != {}
        invariant todo <= old(rooms).Keys && rooms == PartlyLeft(old(rooms), todo, id)
        decreases |todo|
      {
        var room :| room in todo;
        LeaveOneMore(old(rooms), todo, id, room);
        todo := todo - {room};
        var left := rooms[room] - {id};
        if left == map[] {
          rooms := rooms - {room};
        } else {
          rooms := rooms[room := left];
        }
      }
      assert PartlyLeft(old(rooms), {}, id) == OutOfRooms(old(rooms), id);
    }

    method JoinRoom(room: string, id: string, auth: Authorizer) returns (ok: bool)
      modifies this
      ensures ok == MayJoin(old(clients), id, auth)
      ensures Contents() == Joined(old(Contents()), room, id, auth)
    {
      if auth.Answers? {
        if id !in clients || !auth.allowed {
          return false;
        }
      }
      if room !in rooms {
        rooms := rooms[room := map[]];
      }
      if id in clients {
        rooms := rooms[room := rooms[room][id := clients[id]]];
      }
      return true;
    }

    method LeaveRoom(room: string, id: string)
      modifies this
      ensures Contents() == LeftRoom(old(Contents()), room, id)
    {
      if room in rooms {
        rooms := rooms[room := rooms[room] - {id}];
        if rooms[room] == map[] {
          rooms := rooms - {room};
        }
      }
    }

    /** The locked part of a broadcast: one connection per user in the room. */
    method Recipients(room: string) returns (chosen: seq<Client>)
      ensures if room in rooms then OnePerGroup(chosen, rooms[room].Values) else chosen == []
    {
      if room !in rooms {
        return [];
      }
      chosen := PickRecipients(rooms[room].Values);
    }

    /** Sends to one connection per user in the room, and drops the recipients that cannot keep up. The
        hub is unlocked between the two parts and between the drops; between(i) is what others do to it
        before the i-th drop. */
    method Broadcast(room: string, full: set<string>, between: nat -> seq<Action>) returns (sent: seq<Client>)
      modifies this
      ensures if room in old(rooms) then OnePerGroup(sent, old(rooms)[room].Values) else sent == []
      ensures Contents() == DroppedAmid(old(Contents()), Slow(sent, full), between)
    {
      sent := Recipients(room);
      var dropped := Slow(sent, full);
      var i := 0;
      while i < |dropped|
        invariant 0 <= i <= |dropped| && Contents() == DroppedAmid(old(Contents()), dropped[..i], between)
      {
        assert dropped[..i + 1][..i] == dropped[..i];
        PerformAll(between(i));
        UnregisterClient(dropped[i]);
        i := i + 1;
      }
      assert dropped[..i] == dropped;
    }

    /** A step of another caller. */
    method Perform(a: Action)
      modifies this
      ensures Contents() == Step(old(Contents()), a)
    {
      match a {
        case Register(c) => RegisterClient(c);
        case Unregister(c) => UnregisterClient(c);
        case Join(room, id, auth) => var _ := JoinRoom(room, id, auth);
        case Leave(room, id) => LeaveRoom(room, id);
        case Close => closed := true;
      }
    }

    method PerformAll(actions: seq<Action>)
      modifies this
      ensures Contents() == Run(old(Contents()), actions)
    {
      var i := 0;
      while i < |actions|
        invariant 0 <= i <= |actions| && Contents() == Run(old(Contents()), actions[..i])
      {
        assert actions[..i + 1][..i] == actions[..i];
        Perform(actions[i]);
        i := i + 1;
      }
      assert actions[..i] == actions;
    }

    /** The forced end of a shutdown: the hub is closed and every remaining client unregistered. */
    method ForceShutdown()
      requires Agree(Contents())
      modifies this
      ensures closed && clients == map[] && userClients == map[]
      ensures forall room :: room in rooms ==> rooms[room] == map[]
    {
      closed := true;
      while clients != map[]
        invariant closed && Agree(Contents())
        decreases clients.Keys
      {
        var id :| id in clients;
        UnregisterAgreesIffKnown(Contents(), clients[id]);
        UnregisterClient(clients[id]);
      }
      NobodyLeft(Contents());
    }
  }
}
