/**
 * The live-room registry, `ConnectionManager`: which connection handles are
 * in which game room, and which handle each user last connected with.
 * Handles are opaque values of type `H`; a failed send is given as the set
 * of handles whose send fails.
 */
module Registry {

  /** The two maps of `ConnectionManager`, as a value. */
  datatype Rooms<H> = Rooms(active: map<string, set<H>>, users: map<int, H>)

  /** The handles connected to game `g`; none when it has no room. */
  function RoomOf<H>(s: Rooms<H>, g: string): set<H> {
    if g in s.active then s.active[g] else {}
  }

  /** A room entry exists only while some handle is in it. */
  ghost predicate NoEmptyRoom<H>(s: Rooms<H>) {
    forall g | g in s.active :: s.active[g] != {}
  }

  /**
   * `connect`: adds `h` to the room of `g`, creating the room if absent,
   * and records `h` as the connection of user `u`. An earlier handle of the
   * same user stays in the room.
   */
  function AfterConnect<H>(s: Rooms<H>, h: H, g: string, u: int): (r: Rooms<H>)
    ensures g in r.active && r.active[g] == RoomOf(s, g) + {h}
    ensures r.active - {g} == s.active - {g}
    ensures u in r.users && r.users[u] == h
    ensures r.users - {u} == s.users - {u}
  {
    var room := if g in s.active then s.active[g] else {};
    Rooms(s.active[g := room + {h}], s.users[u := h])
  }

  /**
   * `disconnect`: removes `h` from the room of `g`, dropping the room when
   * it becomes empty, and forgets user `u`'s connection only if it is `h`.
   */
  function AfterDisconnect<H(==)>(s: Rooms<H>, h: H, g: string, u: int): (r: Rooms<H>)
    ensures g in r.active <==> g in s.active && s.active[g] - {h} != {}
    ensures g in r.active ==> r.active[g] == s.active[g] - {h}
    ensures r.active - {g} == s.active - {g}
    ensures u in r.users <==> u in s.users && s.users[u] != h
    ensures u in r.users ==> r.users[u] == s.users[u]
    ensures r.users - {u} == s.users - {u}
  {
    var active :=
      if g !in s.active then s.active
      else if s.active[g] - {h} == {} then s.active - {g}
      else s.active[g := s.active[g] - {h}];
    var users := if u in s.users && s.users[u] == h then s.users - {u} else s.users;
    Rooms(active, users)
  }

  /**
   * `broadcast_to_game`, sending over a snapshot of the room: every handle
   * whose send fails is evicted, the others stay; the room entry itself is
   * kept, and no other room and no user entry changes.
   */
  function AfterBroadcast<H>(s: Rooms<H>, g: string, failing: set<H>): (r: Rooms<H>)
    ensures r.users == s.users
    ensures r.active.Keys == s.active.Keys
    ensures g in s.active ==> r.active[g] == s.active[g] - failing
    ensures r.active - {g} == s.active - {g}
  {
    if g in s.active then Rooms(s.active[g := s.active[g] - failing], s.users) else s
  }

  /** The handles a broadcast to `g` reaches. */
  function Delivered<H>(s: Rooms<H>, g: string, failing: set<H>): (d: set<H>)
    ensures d <= RoomOf(s, g) && d !! failing
    ensures forall h | h in RoomOf(s, g) && h !in failing :: h in d
  {
    RoomOf(s, g) - failing
  }

  lemma ConnectKeepsRoomsNonEmpty<H>(s: Rooms<H>, h: H, g: string, u: int)
    requires NoEmptyRoom(s)
    ensures NoEmptyRoom(AfterConnect(s, h, g, u))
  {
    var r := AfterConnect(s, h, g, u);
    forall g' | g' in r.active ensures r.active[g'] != {} {
      if g' == g {
        assert h in r.active[g'];
      } else {
        assert g' in r.active - {g};
      }
    }
  }

  lemma DisconnectKeepsRoomsNonEmpty<H>(s: Rooms<H>, h: H, g: string, u: int)
    requires NoEmptyRoom(s)
    ensures NoEmptyRoom(AfterDisconnect(s, h, g, u))
  {
    var r := AfterDisconnect(s, h, g, u);
    forall g' | g' in r.active ensures r.active[g'] != {} {
      if g' != g {
        assert g' in r.active - {g};
      }
    }
  }

  /**
   * A broadcast whose every send fails leaves an empty room behind: unlike
   * `disconnect`, it never drops the room entry.
   */
  lemma BroadcastCanLeaveEmptyRoom()
    ensures var s := Rooms(map["g" := {1}], map[]);
      NoEmptyRoom(s) && !NoEmptyRoom(AfterBroadcast(s, "g", {1}))
  {
    var r := AfterBroadcast(Rooms(map["g" := {1}], map[]), "g", {1});
    assert "g" in r.active && r.active["g"] == {};
  }

  /**
   * A connection that joins and then leaves, without another connection in
   * between, leaves the registry as it found it, provided its user had no
   * other connection recorded.
   */
  lemma DisconnectUndoesConnect<H>(s: Rooms<H>, h: H, g: string, u: int)
    requires NoEmptyRoom(s)
    requires h !in RoomOf(s, g) && u !in s.users
    ensures AfterDisconnect(AfterConnect(s, h, g, u), h, g, u) == s
  {
    var c := AfterConnect(s, h, g, u);
    var r := AfterDisconnect(c, h, g, u);
    assert c.active[g] - {h} == RoomOf(s, g);
    assert r.active.Keys == s.active.Keys by {
      assert r.active - {g} == s.active - {g};
    }
    forall g' | g' in r.active ensures r.active[g'] == s.active[g'] {
      if g' != g {
        assert g' in r.active - {g};
      }
    }
    assert r.users.Keys == s.users.Keys by {
      assert r.users - {u} == s.users - {u};
    }
    forall u' | u' in r.users ensures r.users[u'] == s.users[u'] {
      assert u' in r.users - {u};
    }
  }

  /**
   * A user who reconnects with `h2` and whose old connection `h1` then
   * disconnects keeps `h2` as their connection and in the room.
   */
  lemma StaleDisconnectKeepsNewerConnection<H>(s: Rooms<H>, h1: H, h2: H, g: string, u: int)
    requires h1 != h2
    ensures var r := AfterDisconnect(AfterConnect(AfterConnect(s, h1, g, u), h2, g, u), h1, g, u);
      && u in r.users && r.users[u] == h2
      && h2 in RoomOf(r, g) && h1 !in RoomOf(r, g)
  {
    var c := AfterConnect(AfterConnect(s, h1, g, u), h2, g, u);
    assert h2 in c.active[g] - {h1};
  }

  /**
   * A user with a recorded handle `h0` who connects `h1` and then drops
   * `h1` is left with no recorded handle at all: `h0` is not restored.
   */
  lemma DroppingNewHandleForgetsOlder<H>(s: Rooms<H>, h0: H, h1: H, g: string, u: int)
    requires u in s.users && s.users[u] == h0 && h0 != h1
    ensures u !in AfterDisconnect(AfterConnect(s, h1, g, u), h1, g, u).users
  {
  }

  /**
   * `connect` does not replace a user's earlier handle in the room: after
   * two joins by one user both handles are in the room and a broadcast
   * without failures reaches both.
   */
  lemma RejoinKeepsBothHandles<H>(s: Rooms<H>, h1: H, h2: H, g: string, u: int)
    ensures var r := AfterConnect(AfterConnect(s, h1, g, u), h2, g, u);
      && h1 in RoomOf(r, g) && h2 in RoomOf(r, g)
      && {h1, h2} <= Delivered(r, g, {})
  {
  }

  /** The outcome of one call of `broadcast_to_game` as written. */
  datatype Delivery<H> = Delivery(delivered: set<H>, room: set<H>, raised: bool)

  /** The handles listed in `order`. */
  function Elements<H>(order: seq<H>): (e: set<H>)
    ensures forall i | 0 <= i < |order| :: order[i] in e
    ensures forall h | h in e :: h in order
  {
    if order == [] then {} else {order[0]} + Elements(order[1..])
  }

  /** `order[i]` is the first handle of `order` whose send fails. */
  ghost predicate FirstFailing<H>(order: seq<H>, failing: set<H>, i: int) {
    && 0 <= i < |order| && order[i] in failing
    && forall j | 0 <= j < i :: order[j] !in failing
  }

  /**
   * `broadcast_to_game` as written: it iterates the live room set (in the
   * set's own order, `order`) and discards a failing handle from that same
   * set. The next step of the iteration then raises RuntimeError ("Set
   * changed size during iteration"): exactly the handles before the first
   * failure get the message, only that failing handle is evicted, and the
   * later handles, failing or not, are left as they are.
   */
  function BroadcastAsWritten<H>(order: seq<H>, room: set<H>, failing: set<H>): (d: Delivery<H>)
    ensures d.raised <==> exists i | 0 <= i < |order| :: order[i] in failing
    ensures !d.raised ==> d.room == room && d.delivered == Elements(order)
  {
    if order == [] then Delivery({}, room, false)
    else if order[0] in failing then Delivery({}, room - {order[0]}, true)
    else
      var rest := BroadcastAsWritten(order[1..], room, failing);
      assert forall i | 0 <= i < |order[1..]| :: order[1..][i] == order[i + 1];
      rest.(delivered := rest.delivered + {order[0]})
  }

  /**
   * When the send to `order[i]` is the first to fail, the code as written
   * reaches exactly the handles before it, evicts it alone and raises.
   */
  lemma {:induction false} AsWrittenStopsAtFirstFailure<H>(order: seq<H>, room: set<H>, failing: set<H>, i: nat)
    requires FirstFailing(order, failing, i)
    ensures var d := BroadcastAsWritten(order, room, failing);
      && d.raised && d.room == room - {order[i]} && d.delivered == Elements(order[..i])
    decreases i
  {
    if i == 0 {
      assert order[..0] == [];
    } else {
      assert FirstFailing(order[1..], failing, i - 1);
      AsWrittenStopsAtFirstFailure(order[1..], room, failing, i - 1);
      assert order[..i][1..] == order[1..][..i - 1];
    }
  }

  /**
   * Two failing handles in a room: the code as written evicts only the
   * first and raises, while the snapshot broadcast evicts both.
   */
  lemma AsWrittenMissesSecondFailure()
    ensures BroadcastAsWritten([1, 2], {1, 2}, {1, 2}) == Delivery({}, {2}, true)
    ensures AfterBroadcast(Rooms(map["g" := {1, 2}], map[]), "g", {1, 2}).active["g"] == {}
  {
  }

  /**
   * A failing handle before a healthy one: the code as written never sends
   * to the healthy handle, while the snapshot broadcast reaches it.
   */
  lemma AsWrittenSkipsHealthyHandle()
    ensures 2 !in BroadcastAsWritten([1, 2], {1, 2}, {1}).delivered
    ensures 2 in Delivered(Rooms(map["g" := {1, 2}], map[]), "g", {1})
  {
  }

  /** The registry object: both maps are updated in place. */
  class ConnectionManager<H(==)> {
    var activeConnections: map<string, set<H>>
    var userConnections: map<int, H>

    /** Both maps, as a value. */
    function State(): (s: Rooms<H>)
      reads this
      ensures s.active == activeConnections && s.users == userConnections
    {
      Rooms(activeConnections, userConnections)
    }

    constructor ()
      ensures activeConnections == map[] && userConnections == map[]
    {
      activeConnections := map[];
      userConnections := map[];
    }

    /** `connect`, without accepting the connection on the transport. */
    method Connect(websocket: H, gameId: string, userId: int)
      modifies this
      ensures State() == AfterConnect(old(State()), websocket, gameId, userId)
    {
      if gameId !in activeConnections {
        activeConnections := activeConnections[gameId := {}];
      }
      activeConnections := activeConnections[gameId := activeConnections[gameId] + {websocket}];
      userConnections := userConnections[userId := websocket];
    }

    /** `disconnect`. */
    method Disconnect(websocket: H, gameId: string, userId: int)
      modifies this
      ensures State() == AfterDisconnect(old(State()), websocket, gameId, userId)
    {
      if gameId in activeConnections {
        activeConnections := activeConnections[gameId := activeConnections[gameId] - {websocket}];
        if activeConnections[gameId] == {} {
          activeConnections := activeConnections - {gameId};
        }
      }
      if userId in userConnections && userConnections[userId] == websocket {
        userConnections := userConnections - {userId};
      }
    }

    /**
     * `broadcast_to_game`, iterating a snapshot of the room so that
     * evicting a handle does not disturb the iteration. Returns the handles
     * the message reached.
     */
    method BroadcastToGame(gameId: string, failing: set<H>) returns (delivered: set<H>)
      modifies this
      ensures State() == AfterBroadcast(old(State()), gameId, failing)
      ensures delivered == Delivered(old(State()), gameId, failing)
    {
      delivered := {};
      if gameId in activeConnections {
        var snapshot := activeConnections[gameId];
        var pending := snapshot;
        ghost var evicted: set<H> := {};
        while pending != {}
          invariant pending <= snapshot
          invariant evicted == (snapshot - pending) * failing
          invariant delivered == (snapshot - pending) - failing
          invariant userConnections == old(userConnections)
          invariant activeConnections.Keys == old(activeConnections).Keys
          invariant activeConnections[gameId] == snapshot - evicted
          invariant forall g | g in activeConnections && g != gameId ::
            activeConnections[g] == old(activeConnections)[g]
          decreases pending
        {
          var connection :| connection in pending;
          if connection in failing {
            activeConnections := activeConnections[gameId := activeConnections[gameId] - {connection}];
            evicted := evicted + {connection};
          } else {
            delivered := delivered + {connection};
          }
          pending := pending - {connection};
        }
        assert activeConnections[gameId] == snapshot - failing;
        assert activeConnections == old(activeConnections)[gameId := snapshot - failing];
      }
    }
  }
}
