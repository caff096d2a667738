/**
 The WebSocket hub of internal/streamer/hub.go: which client watches which auction room, and when a
 client's Send channel is closed.

 `ServeWS` gives every connection a fresh client id and registers it once; joins and leaves may already
 run before the hub has taken the registration.
 */
module Hub {
  /** `joined` has every client ever connected with its Rooms set, `closed` how often its channel was
      closed, `seen` who has been registered. */
  datatype HubState = HubState(
    clients: set<string>, rooms: map<string, set<string>>, joined: map<string, set<string>>,
    closed: map<string, nat>, seen: set<string>)

  const EMPTY := HubState({}, map[], map[], map[], {})

  datatype Event =
    | Connect(id: string)
    | Register(id: string)
    | Unregister(id: string)
    | Join(id: string, room: string)
    | Leave(id: string, room: string)

  predicate Enabled(s: HubState, e: Event) {
    match e
    case Connect(id) => id !in s.joined && id !in s.closed
    case Register(id) => id in s.joined && id !in s.seen
    case _ => e.id in s.joined && e.id in s.closed
  }

  /** Deletes the client from the given rooms, and every one of them left empty. */
  function DropFrom(rooms: map<string, set<string>>, id: string, from: set<string>): map<string, set<string>> {
    map r | r in rooms && (r in from ==> rooms[r] - {id} != {}) :: if r in from then rooms[r] - {id} else rooms[r]
  }

  function Members(rooms: map<string, set<string>>, room: string): set<string> {
    if room in rooms then rooms[room] else {}
  }

  function Step(s: HubState, e: Event): HubState
    requires Enabled(s, e)
  {
    match e
    case Connect(id) => s.(joined := s.joined[id := {}], closed := s.closed[id := 0])
    case Register(id) => s.(clients := s.clients + {id}, seen := s.seen + {id})
    case Unregister(id) =>
      if id !in s.clients then s
      else s.(clients := s.clients - {id}, rooms := DropFrom(s.rooms, id, s.joined[id]),
              closed := s.closed[id := s.closed[id] + 1])
    case Join(id, room) =>
      s.(rooms := s.rooms[room := Members(s.rooms, room) + {id}], joined := s.joined[id := s.joined[id] + {room}])
    case Leave(id, room) =>
      s.(rooms := DropFrom(s.rooms, id, {room}), joined := s.joined[id := s.joined[id] - {room}])
  }

  /** A broadcast sends on every member's channel; one that is closed makes the hub panic. */
  predicate BroadcastPanics(s: HubState, room: string) {
    exists id :: id in Members(s.rooms, room) && id in s.closed && s.closed[id] > 0
  }

  lemma MembersAfterDrop(rooms: map<string, set<string>>, id: string, from: set<string>, r: string)
    ensures Members(DropFrom(rooms, id, from), r) == if r in from then Members(rooms, r) - {id} else Members(rooms, r)
  {
  }

  // ----- what every step keeps --------------------------------------------------------------------------

  ghost predicate ClientAgrees(s: HubState, id: string)
    requires id in s.joined && id in s.closed
  {
    && s.closed[id] <= 1
    && (s.closed[id] == 1 ==> id in s.seen && id !in s.clients)
    && (s.closed[id] == 0 && id in s.seen ==> id in s.clients)
    && forall r :: id in Members(s.rooms, r) <==> s.closed[id] == 0 && r in s.joined[id]
  }

  ghost predicate Agrees(s: HubState) {
    && s.joined.Keys == s.closed.Keys && s.clients <= s.seen <= s.joined.Keys
    && (forall r, id :: id in Members(s.rooms, r) ==> id in s.joined)
    && (forall id :: id in s.joined ==> ClientAgrees(s, id))
    && (forall r :: r in s.rooms ==> s.rooms[r] != {})
  }

  /** A client the hub has removed never joins a room again. */
  predicate Proper(s: HubState, e: Event) {
    e.Join? && e.id in s.closed ==> s.closed[e.id] == 0
  }

  lemma StepAgrees(s: HubState, e: Event)
    requires Agrees(s) && Enabled(s, e) && Proper(s, e)
    ensures Agrees(Step(s, e))
  {
    var d := Step(s, e);
    forall r, id | id in Members(d.rooms, r)
      ensures id in d.joined
    {
      StepMembers(s, e, r);
    }
    forall id | id in d.joined
      ensures ClientAgrees(d, id)
    {
      forall r
        ensures id in Members(d.rooms, r) <==> d.closed[id] == 0 && r in d.joined[id]
      {
        StepMembers(s, e, r);
        if id in s.joined { assert ClientAgrees(s, id); }
        assert e.id in s.joined ==> ClientAgrees(s, e.id);
      }
      if id in s.joined { assert ClientAgrees(s, id); }
    }
  }

  /** How a step changes the members of one room. */
  lemma StepMembers(s: HubState, e: Event, r: string)
    requires Enabled(s, e)
    ensures var was, now := Members(s.rooms, r), Members(Step(s, e).rooms, r);
            match e
            case Join(id, room) => now == if r == room then was + {id} else was
            case Leave(id, room) => now == if r == room then was - {id} else was
            case Unregister(id) => now == if id in s.clients && r in s.joined[id] then was - {id} else was
            case _ => now == was
  {
    match e
    case Leave(id, room) => MembersAfterDrop(s.rooms, id, {room}, r);
    case Unregister(id) => MembersAfterDrop(s.rooms, id, s.joined[id], r);
    case _ =>
  }

  ghost predicate Leads(s: HubState, events: seq<Event>, t: HubState)
    decreases |events|
  {
    if events == [] then s == t
    else Enabled(s, events[0]) && Leads(Step(s, events[0]), events[1..], t)
  }

  ghost predicate ProperRun(s: HubState, events: seq<Event>)
    decreases |events|
  {
    events != [] && Enabled(s, events[0]) ==> Proper(s, events[0]) && ProperRun(Step(s, events[0]), events[1..])
  }

  /** Rooms and Rooms sets agree, no room is empty and no channel is closed twice, over every run. */
  lemma {:induction false} RunAgrees(s: HubState, events: seq<Event>, t: HubState)
    requires Agrees(s) && Leads(s, events, t) && ProperRun(s, events)
    ensures Agrees(t)
    decreases |events|
  {
    if events != [] {
      StepAgrees(s, events[0]);
      RunAgrees(Step(s, events[0]), events[1..], t);
    }
  }

  /** The members of a room are exactly the clients not removed that have it in their Rooms set. */
  lemma MembersAreWatchers(events: seq<Event>, s: HubState, room: string)
    requires Leads(EMPTY, events, s) && ProperRun(EMPTY, events)
    ensures s.joined.Keys == s.closed.Keys
    ensures Members(s.rooms, room) == set id | id in s.joined && s.closed[id] == 0 && room in s.joined[id]
  {
    RunAgrees(EMPTY, events, s);
    forall id
      ensures id in Members(s.rooms, room) <==> id in s.joined && s.closed[id] == 0 && room in s.joined[id]
    {
      if id in s.joined { assert ClientAgrees(s, id); }
    }
  }

  /** Who is registered: exactly the clients that have been and whose channel is not closed. */
  lemma ClientsAreOpen(events: seq<Event>, s: HubState)
    requires Leads(EMPTY, events, s) && ProperRun(EMPTY, events)
    ensures s.joined.Keys == s.closed.Keys && s.seen <= s.closed.Keys
    ensures s.clients == set id | id in s.seen && s.closed[id] == 0
  {
    RunAgrees(EMPTY, events, s);
    forall id
      ensures id in s.clients <==> id in s.seen && s.closed[id] == 0
    {
      if id in s.joined { assert ClientAgrees(s, id); }
    }
  }

  /** After an unregister of a client that was ever registered, it is in no room and its channel has been
      closed exactly once. */
  lemma UnregisterLeavesNoTrace(events: seq<Event>, s: HubState, id: string)
    requires Leads(EMPTY, events, s) && ProperRun(EMPTY, events) && id in s.seen && Enabled(s, Unregister(id))
    ensures var d := Step(s, Unregister(id));
            id !in d.clients && d.closed[id] == 1 && forall r :: id !in Members(d.rooms, r)
  {
    RunAgrees(EMPTY, events, s);
    StepAgrees(s, Unregister(id));
    assert ClientAgrees(s, id) && ClientAgrees(Step(s, Unregister(id)), id);
  }

  lemma NoBroadcastPanics(events: seq<Event>, s: HubState, room: string)
    requires Leads(EMPTY, events, s) && ProperRun(EMPTY, events)
    ensures !BroadcastPanics(s, room)
  {
    RunAgrees(EMPTY, events, s);
    forall id | id in Members(s.rooms, room)
      ensures s.closed[id] == 0
    {
      assert ClientAgrees(s, id);
    }
  }

  /** The proviso is exact: after a join the next broadcast to the room is safe if and only if the
      joining client had not been removed. */
  lemma JoinIsSafeExactly(s: HubState, id: string, room: string)
    requires Agrees(s) && Enabled(s, Join(id, room))
    ensures BroadcastPanics(Step(s, Join(id, room)), room) <==> s.closed[id] > 0
  {
    var d := Step(s, Join(id, room));
    assert id in Members(d.rooms, room);
    forall x | x in Members(d.rooms, room) && x != id
      ensures s.closed[x] == 0
    {
      StepMembers(s, Join(id, room), room);
      assert ClientAgrees(s, x);
    }
  }

  lemma {:induction false} GoesOn(s: HubState, events: seq<Event>, t: HubState, e: Event)
    requires Leads(s, events, t) && ProperRun(s, events) && Enabled(t, e) && Proper(t, e)
    ensures Leads(s, events + [e], Step(t, e)) && ProperRun(s, events + [e])
    decreases |events|
  {
    if events == [] {
      assert [e][1..] == [];
    } else {
      GoesOn(Step(s, events[0]), events[1..], t, e);
      assert (events + [e])[1..] == events[1..] + [e];
    }
  }

  /** A proper run after which the client is connected but removed. */
  lemma ComesAndGoes(id: string) returns (events: seq<Event>, s: HubState)
    ensures Leads(EMPTY, events, s) && ProperRun(EMPTY, events)
    ensures id in s.joined && id in s.closed && s.closed[id] == 1
  {
    events, s := [], EMPTY;
    GoesOn(EMPTY, events, s, Connect(id));
    events, s := events + [Connect(id)], Step(s, Connect(id));
    GoesOn(EMPTY, events, s, Register(id));
    events, s := events + [Register(id)], Step(s, Register(id));
    GoesOn(EMPTY, events, s, Unregister(id));
    events, s := events + [Unregister(id)], Step(s, Unregister(id));
  }

  /** For every client and room there is a proper run, at whose end the client's join makes the next
      broadcast to the room panic. */
  lemma RejoinPanics(id: string, room: string) returns (events: seq<Event>, s: HubState)
    ensures Leads(EMPTY, events, s) && ProperRun(EMPTY, events) && Enabled(s, Join(id, room))
    ensures !BroadcastPanics(s, room) && BroadcastPanics(Step(s, Join(id, room)), room)
  {
    events, s := ComesAndGoes(id);
    NoBroadcastPanics(events, s, room);
    RunAgrees(EMPTY, events, s);
    JoinIsSafeExactly(s, id, room);
  }

  // ----- the hub as it runs -----------------------------------------------------------------------------

  class Client {
    const id: string
    var rooms: set<string>
    var closes: nat
    var inbox: seq<string>

    constructor (id: string)
      ensures this.id == id && rooms == {} && closes == 0 && inbox == []
    {
      this.id, rooms, closes, inbox := id, {}, 0, [];
    }
  }

  class Hub {
    var clients: map<string, Client>
    var rooms: map<string, map<string, Client>>
    ghost var known: map<string, Client>
    ghost var seen: set<string>

    ghost predicate Valid()
      reads this
    {
      && (forall id :: id in known ==> known[id].id == id)
      && (forall id :: id in clients ==> id in known && clients[id] == known[id])
      && (forall r, id :: r in rooms && id in rooms[r] ==> id in known && rooms[r][id] == known[id])
    }

    ghost function State(): HubState
      reads this, known.Values
    {
      HubState(clients.Keys, RoomSets(rooms),
               Joined(), Closes(), seen)
    }

    ghost function Joined(): map<string, set<string>>
      reads this`known, known.Values`rooms
    {
      map id | id in known :: known[id].rooms
    }

    ghost function Closes(): map<string, nat>
      reads this`known, known.Values`closes
    {
      map id | id in known :: known[id].closes
    }

    constructor ()
      ensures Valid() && State() == EMPTY
    {
      clients, rooms, known, seen := map[], map[], map[], {};
    }

    /** The client object `ServeWS` makes for a new connection, with a fresh id. */
    method Connect(id: string) returns (c: Client)
      requires Valid() && id !in known
      modifies this`known
      ensures Valid() && fresh(c) && c.id == id && known == old(known)[id := c]
      ensures State() == Step(old(State()), Event.Connect(id))
    {
      c := new Client(id);
      known := known[id := c];
      assert State().joined == Step(old(State()), Event.Connect(id)).joined;
      assert State().closed == Step(old(State()), Event.Connect(id)).closed;
    }

    method Register(c: Client)
      requires Valid() && c.id in known && known[c.id] == c && c.id !in seen
      modifies this`clients, this`seen
      ensures Valid() && State() == Step(old(State()), Event.Register(c.id))
    {
      clients := clients[c.id := c];
      seen := seen + {c.id};
    }

    /** One room of the loop over the client's Rooms set. */
    method DropOne(id: string, room: string)
      requires Valid()
      modifies this`rooms
      ensures Valid() && RoomSets(rooms) == DropFrom(RoomSets(old(rooms)), id, {room})
    {
      DropOneSets(rooms, id, room);
      if room in rooms {
        var left := rooms[room] - {id};
        rooms := rooms[room := left];
        if |left| == 0 {
          rooms := rooms - {room};
        }
      }
    }

    /** The client's Send channel is closed. */
    method Close(c: Client)
      requires Valid() && c.id in known && known[c.id] == c
      modifies c`closes
      ensures Valid() && State() == old(State()).(closed := old(Closes())[c.id := old(Closes())[c.id] + 1])
    {
      assert forall id :: id in known && id != c.id ==> known[id] != c;
      c.closes := c.closes + 1;
      assert Closes() == old(Closes())[c.id := old(Closes())[c.id] + 1];
    }

    /** The client is taken out of the registered ones. */
    method Forget(c: Client)
      requires Valid()
      modifies this`clients
      ensures Valid() && State() == old(State()).(clients := old(State()).clients - {c.id})
    {
      KeysLess(clients, c.id);
      clients := clients - {c.id};
    }

    /** Takes the client out of every room in its Rooms set, in whatever order. */
    method DropAll(c: Client)
      requires Valid()
      modifies this`rooms
      ensures Valid() && State() == old(State()).(rooms := DropFrom(RoomSets(old(rooms)), c.id, c.rooms))
    {
      ghost var before := RoomSets(rooms);
      ghost var done := {};
      var todo := c.rooms;
      DropNone(before, c.id);
      while todo != {}
        invariant Valid() && todo <= c.rooms && done == c.rooms - todo
        invariant RoomSets(rooms) == DropFrom(before, c.id, done)
        decreases todo
      {
        var room :| room in todo;
        todo := todo - {room};
        DropOne(c.id, room);
        DropOneMore(before, c.id, done, room);
        done := done + {room};
      }
      assert done == c.rooms;
    }

    method Unregister(c: Client)
      requires Valid() && c.id in known && known[c.id] == c
      modifies this`rooms, this`clients, c`closes
      ensures Valid() && State() == Step(old(State()), Event.Unregister(c.id))
    {
      if c.id in clients {
        DropAll(c);
        Close(c);
        Forget(c);
      }
    }

    /** The room, made when it is new, takes the client in. */
    method AddToRoom(c: Client, room: string)
      requires Valid() && c.id in known && known[c.id] == c
      modifies this`rooms
      ensures Valid()
      ensures RoomSets(rooms) == RoomSets(old(rooms))[room := Members(RoomSets(old(rooms)), room) + {c.id}]
    {
      JoinSets(rooms, c, room);
      if room !in rooms {
        rooms := rooms[room := map[]];
      }
      rooms := rooms[room := rooms[room][c.id := c]];
    }

    /** The client's own Rooms set. */
    method SetRooms(c: Client, joined: set<string>)
      requires Valid() && c.id in known && known[c.id] == c
      modifies c`rooms
      ensures Valid() && c.rooms == joined
      ensures State() == old(State()).(joined := old(State()).joined[c.id := joined])
    {
      assert forall id :: id in known && id != c.id ==> known[id] != c;
      c.rooms := joined;
      assert Joined() == old(Joined())[c.id := joined];
    }

    method JoinRoom(c: Client, room: string)
      requires Valid() && c.id in known && known[c.id] == c
      modifies this`rooms, c`rooms
      ensures Valid() && State() == Step(old(State()), Event.Join(c.id, room))
    {
      AddToRoom(c, room);
      SetRooms(c, c.rooms + {room});
    }

    method LeaveRoom(c: Client, room: string)
      requires Valid() && c.id in known && known[c.id] == c
      modifies this`rooms, c`rooms
      ensures Valid() && State() == Step(old(State()), Event.Leave(c.id, room))
    {
      DropOne(c.id, room);
      SetRooms(c, c.rooms - {room});
    }

    method GetRoomClientCount(room: string) returns (n: nat)
      requires Valid()
      ensures n == |Members(State().rooms, room)|
    {
      if room in rooms {
        return |rooms[room]|;
      }
      return 0;
    }

    /** Sends to the members in whatever order; `full` are those whose buffer is full, which are put up
        for unregistering instead.  A closed channel stops the hub. */
    method Broadcast(room: string, data: string, full: set<string>) returns (panicked: bool, dropped: set<string>)
      requires Valid()
      modifies (set id | id in known :: known[id])`inbox
      ensures Valid() && State() == old(State())
      ensures panicked <==> BroadcastPanics(State(), room)
      ensures !panicked ==> dropped == Members(State().rooms, room) * full
      ensures !panicked ==> forall id :: id in known ==>
                known[id].inbox
                == old(known[id].inbox) + if id in Members(State().rooms, room) - full then [data] else []
    {
      panicked, dropped := false, {};
      if room !in rooms {
        return;
      }
      var members := rooms[room];
      var todo := members.Keys;
      while todo != {}
        invariant todo <= members.Keys
        invariant forall id :: id in members && id !in todo ==> members[id].closes == 0
        invariant forall id :: id in dropped <==> id in members && id !in todo && id in full
        invariant forall id :: id in known ==>
                    known[id].inbox
                    == old(known[id].inbox) + if id in members && id !in todo && id !in full then [data] else []
        decreases todo
      {
        var id :| id in todo;
        var c := members[id];
        if c.closes > 0 {
          assert id in Members(State().rooms, room) && State().closed[id] > 0;
          return true, {};
        }
        todo := todo - {id};
        if c.id in full {
          dropped := dropped + {c.id};
        } else {
          c.inbox := c.inbox + [data];
        }
      }
    }
  }

  // ----- rooms as sets of ids -----------------------------------------------------------------------------

  function RoomSets(rooms: map<string, map<string, Client>>): map<string, set<string>> {
    map r | r in rooms :: rooms[r].Keys
  }

  lemma KeysLess(clients: map<string, Client>, id: string)
    ensures (clients - {id}).Keys == clients.Keys - {id}
  {
  }

  lemma DropOneSets(rooms: map<string, map<string, Client>>, id: string, room: string)
    ensures room !in rooms ==> RoomSets(rooms) == DropFrom(RoomSets(rooms), id, {room})
    ensures room in rooms ==>
              var left := rooms[room] - {id}; var next := rooms[room := left];
              RoomSets(if |left| == 0 then next - {room} else next) == DropFrom(RoomSets(rooms), id, {room})
  {
    if room in rooms {
      var left := rooms[room] - {id};
      KeysLess(rooms[room], id);
      assert |left| == |left.Keys|;
      if |left| == 0 {
        LastLeaves(rooms, id, room);
      } else {
        SomeStay(rooms, id, room, left);
      }
    }
  }

  lemma LastLeaves(rooms: map<string, map<string, Client>>, id: string, room: string)
    requires room in rooms && rooms[room].Keys - {id} == {}
    ensures RoomSets(rooms[room := rooms[room] - {id}] - {room}) == DropFrom(RoomSets(rooms), id, {room})
  {
  }

  lemma SomeStay(rooms: map<string, map<string, Client>>, id: string, room: string, left: map<string, Client>)
    requires room in rooms && left.Keys == rooms[room].Keys - {id} && left.Keys != {}
    ensures RoomSets(rooms[room := left]) == DropFrom(RoomSets(rooms), id, {room})
  {
  }

  lemma JoinSets(rooms: map<string, map<string, Client>>, c: Client, room: string)
    ensures var made := if room in rooms then rooms else rooms[room := map[]];
            RoomSets(made[room := made[room][c.id := c]])
            == RoomSets(rooms)[room := Members(RoomSets(rooms), room) + {c.id}]
  {
    var made := if room in rooms then rooms else rooms[room := map[]];
    assert made[room][c.id := c].Keys == Members(RoomSets(rooms), room) + {c.id};
  }

  lemma DropNone(rooms: map<string, set<string>>, id: string)
    ensures DropFrom(rooms, id, {}) == rooms
  {
  }

  lemma DropOneMore(rooms: map<string, set<string>>, id: string, from: set<string>, room: string)
    ensures DropFrom(DropFrom(rooms, id, from), id, {room}) == DropFrom(rooms, id, from + {room})
  {
    forall r | r in rooms
      ensures rooms[r] - {id} - {id} == rooms[r] - {id}
    {
    }
  }
}
