/**
 * The chat server's shared state and the per-connection request loop.
 * Every request is handled as one atomic method call; sockets are
 * connection identifiers, and `failing` names the connections whose
 * `send` raises.
 */
module Server {
  import opened Wrappers
  import opened Accounts
  import opened MessageLog
  import opened RoomDirectory
  import opened Broadcasting
  import opened Protocol

  /** The `username` and `current_room` locals of one `handle_client` call, with its socket. */
  datatype Conn = Conn(id: ConnId, username: Option<string>, currentRoom: Option<string>)

  /** The server's tables at one moment: what a request reads and what it leaves behind. */
  datatype Snapshot = Snapshot(users: UserTable, log: seq<Msg>, clients: Clients, rooms: Rooms,
                               roomOrder: seq<string>, wire: seq<Delivery>)

  /** Users, log rows, sent frames and room names are only ever added. */
  ghost predicate Grew(before: Snapshot, after: Snapshot) {
    && (forall k :: k in before.users ==> k in after.users && after.users[k] == before.users[k])
    && before.log <= after.log && before.wire <= after.wire && before.rooms.Keys <= after.rooms.Keys
  }

  /**
   * What `remove_client(u, room)` leaves behind: `u` has no session; when a
   * truthy room lists `u`, one occurrence leaves it and the remaining
   * members are told with `user_left`, else nothing is sent.
   */
  ghost predicate Removed(before: Snapshot, after: Snapshot, u: string, room: Option<string>, failing: set<ConnId>) {
    && after.users == before.users && after.log == before.log && after.roomOrder == before.roomOrder
    && after.rooms == Depart(before.rooms, u, room)
    && u !in after.clients
    && (!IsMember(before.rooms, u, room) ==> after.clients == before.clients - {u} && after.wire == before.wire)
    && (IsMember(before.rooms, u, room) ==>
          var left := Fanout(after.rooms[room.value], None, before.clients - {u}, failing);
          after.clients == left.clients && after.wire == before.wire + Envelopes(left.sent, UserLeft(u, after.rooms[room.value])))
  }

  /**
   * The `join_room` branch: moves the connection's user from its current
   * room to `room`, replies with the room's history and members, and tells
   * the other members with `user_joined`. If the user is no longer listed
   * in the current room, `list.remove` raises and nothing changes.
   */
  ghost predicate Joined(before: Snapshot, after: Snapshot, conn: Conn, room: string, failing: set<ConnId>,
                         next: Conn, alive: bool)
  {
    if !CanLeave(before.rooms, conn.currentRoom, conn.username) then
      !alive && next == conn && after == before
    else
      var moved := Join(before.rooms, conn.currentRoom, room, conn.username);
      && next == conn.(currentRoom := Some(room))
      && alive == (conn.id !in failing)
      && after.users == before.users && after.log == before.log && after.rooms == moved
      && after.roomOrder == before.roomOrder + (if room in before.rooms then [] else [room])
      && (!alive ==> after.clients == before.clients && after.wire == before.wire)
      && (alive ==>
            var joined := RoomJoined(room, History(before.log, room, HistoryLimit), moved[room]);
            var notified := Fanout(moved[room], conn.username, before.clients, failing);
            && after.clients == notified.clients
            && after.wire == before.wire + [Delivery(conn.id, joined)]
                             + Envelopes(notified.sent, UserJoined(conn.username, room, moved[room])))
  }

  /**
   * The `send_message` branch: logs the message under the client-supplied
   * room (not the connection's current room), then broadcasts it to that
   * room without the sender. Before login the author is `None`, the row
   * violates `NOT NULL` and the connection ends.
   */
  ghost predicate Posted(before: Snapshot, after: Snapshot, conn: Conn, room: string, message: string,
                         kind: Option<string>, at: Moment, failing: set<ConnId>, alive: bool)
  {
    if conn.username.None? then !alive && after == before
    else
      var poster := conn.username.value;
      var msgKind := kind.GetOr("text");
      var told := Fanout(MembersOf(before.rooms, room), conn.username, before.clients, failing);
      && alive
      && after == before.(log := before.log + [Msg(poster, room, message, at.dbStamp, msgKind)],
                          clients := told.clients,
                          wire := before.wire + Envelopes(told.sent, NewMessage(poster, message, msgKind, at.localStamp)))
  }

  /**
   * The `send_file` branch: logs `[FILE:name]` with kind `file` (never the
   * payload) under the client-supplied room, then broadcasts the file
   * itself to that room without the sender.
   */
  ghost predicate Shared(before: Snapshot, after: Snapshot, conn: Conn, room: string, filename: string,
                         filedata: string, at: Moment, failing: set<ConnId>, alive: bool)
  {
    if conn.username.None? then !alive && after == before
    else
      var uploader := conn.username.value;
      var shown := Fanout(MembersOf(before.rooms, room), conn.username, before.clients, failing);
      && alive
      && after == before.(log := before.log + [Msg(uploader, room, FileNote(filename), at.dbStamp, "file")],
                          clients := shown.clients,
                          wire := before.wire + Envelopes(shown.sent, NewFile(uploader, filename, filedata, at.localStamp)))
  }

  /** The rooms that exist when the server starts, in dict order. */
  const SeededRooms: seq<string> := ["General", "Random", "Tech"]

  class ChatServer {
    /** `hash_password`, left abstract: any function from password to digest. */
    const hash: string -> Digest
    /** The `users` table. */
    var users: UserTable
    /** The `messages` table, oldest row first. */
    var log: seq<Msg>
    /** `self.clients`: the session registry. */
    var clients: Clients
    /** `self.rooms`: the room directory ... */
    var rooms: Rooms
    /** ... and the order of its keys, oldest first, as `self.rooms.keys()` lists them. */
    var roomOrder: seq<string>
    /** Every successful `send`, in order. */
    var wire: seq<Delivery>

    /** `roomOrder` lists each room of the directory exactly once. */
    ghost predicate Valid()
      reads this
    {
      && (forall i, j :: 0 <= i < j < |roomOrder| ==> roomOrder[i] != roomOrder[j])
      && (forall r :: r in rooms <==> r in roomOrder)
    }

    /** `__init__`: the three seeded rooms, nobody online, and the tables already in the database file. */
    constructor (hash: string -> Digest, users: UserTable, log: seq<Msg>)
      ensures Valid()
      ensures this.hash == hash && this.users == users && this.log == log
      ensures clients == map[] && wire == []
      ensures roomOrder == SeededRooms
      ensures rooms.Keys == {"General", "Random", "Tech"} && forall r :: r in rooms ==> rooms[r] == []
    {
      this.hash := hash;
      this.users := users;
      this.log := log;
      clients := map[];
      rooms := map["General" := [], "Random" := [], "Tech" := []];
      roomOrder := SeededRooms;
      wire := [];
    }

    /** `register_user`: stores `hash(password)` under a new username; a taken name changes nothing. */
    method RegisterUser(username: string, password: string) returns (ok: bool, message: string)
      modifies this`users
      ensures ok <==> username !in old(users)
      ensures users == Accounts.Register(old(users), username, hash(password)).users
      ensures message == RegisterMessage(ok)
    {
      var reg := Accounts.Register(users, username, hash(password));
      ok, users := reg.ok, reg.users;
      message := RegisterMessage(ok);
    }

    /** `authenticate_user` */
    function Authenticate(username: string, password: string): (ok: bool)
      reads this
      ensures ok <==> username in users && users[username] == hash(password)
    {
      Matches(users, username, hash(password))
    }

    /** `save_message`: appends one row and leaves the earlier rows as they were. */
    method SaveMessage(author: string, room: string, body: string, kind: string, stamp: Timestamp)
      modifies this`log
      ensures log == old(log) + [Msg(author, room, body, stamp, kind)]
    {
      log := log + [Msg(author, room, body, stamp, kind)];
    }

    /** `client_socket.send(...)` on the requesting connection; a failure ends the connection. */
    method Reply(conn: Conn, ev: Event, failing: set<ConnId>) returns (alive: bool)
      modifies this`wire
      ensures alive == (conn.id !in failing)
      ensures wire == old(wire) + (if alive then [Delivery(conn.id, ev)] else [])
    {
      alive := conn.id !in failing;
      if alive {
        wire := wire + [Delivery(conn.id, ev)];
      }
    }

    /**
     * `broadcast(ev, room, sender)`: sends to the room's members as
     * `Fanout` selects them; a failed send runs `remove_client(name)`,
     * which leaves every room list as it was.
     */
    method Broadcast(ev: Event, room: string, sender: Member, failing: set<ConnId>)
      modifies this
      // Ranks the mutual recursion Broadcast -> SendTo -> RemoveClient (see RemoveClient).
      decreases 2
      ensures users == old(users) && log == old(log) && rooms == old(rooms) && roomOrder == old(roomOrder)
      ensures var f := Fanout(MembersOf(old(rooms), room), sender, old(clients), failing);
              clients == f.clients && wire == old(wire) + Envelopes(f.sent, ev)
    {
      var members := MembersOf(rooms, room);
      ghost var total := Fanout(members, sender, clients, failing);
      ghost var sent: seq<Recipient> := [];
      var i := 0;
      assert members[i..] == members;
      while i < |members|
        invariant 0 <= i <= |members|
        invariant users == old(users) && log == old(log) && rooms == old(rooms) && roomOrder == old(roomOrder)
        invariant total == Outcome(sent + Fanout(members[i..], sender, clients, failing).sent,
                                   Fanout(members[i..], sender, clients, failing).clients)
        invariant wire == old(wire) + Envelopes(sent, ev)
      {
        ghost var before, beforeWire := clients, wire;
        ghost var out := SendTo(members[i], ev, sender, failing);
        FanoutStep(members, i, sender, before, failing, sent, out, clients);
        EnvelopesExtend(old(wire), beforeWire, wire, sent, out, ev);
        sent := sent + out;
        i := i + 1;
      }
      assert members[i..] == [];
      assert total == Outcome(sent + [], clients);
      assert sent + [] == sent;
    }

    /** One turn of the loop in `broadcast`, for member `m`. */
    method SendTo(m: Member, ev: Event, sender: Member, failing: set<ConnId>) returns (ghost out: seq<Recipient>)
      modifies this
      // Ranks the mutual recursion Broadcast -> SendTo -> RemoveClient (see RemoveClient).
      decreases 1
      ensures users == old(users) && log == old(log) && rooms == old(rooms) && roomOrder == old(roomOrder)
      ensures Visit(m, sender, old(clients), failing) == Outcome(out, clients)
      ensures wire == old(wire) + Envelopes(out, ev)
    {
      out := [];
      if m != sender && m.Some? && m.value in clients {
        var c := clients[m.value];
        if c in failing {
          RemoveClient(m.value, None, failing);
        } else {
          wire := wire + [Delivery(c, ev)];
          out := [Recipient(m.value, c)];
        }
      }
    }

    /**
     * `remove_client(u, room)`: drops `u` from `clients`; when the room is
     * given and lists `u`, takes one occurrence out and tells the remaining
     * members with `user_left`.
     */
    method RemoveClient(u: string, room: Option<string>, failing: set<ConnId>)
      modifies this
      // Broadcast (2) calls SendTo (1), which calls RemoveClient with no room (0);
      // RemoveClient with a room (3) calls Broadcast.
      decreases if room.Some? then 3 else 0
      ensures Removed(old(Snap()), Snap(), u, room, failing)
    {
      if u in clients {
        clients := clients - {u};
      }
      assert clients == old(clients) - {u};
      if IsMember(rooms, u, room) {
        rooms := rooms[room.value := RemoveFirst(rooms[room.value], Some(u))];
        assert MembersOf(rooms, room.value) == rooms[room.value];
        Broadcast(UserLeft(u, rooms[room.value]), room.value, None, failing);
      }
    }

    /** The tables as they are now. */
    function Snap(): Snapshot
      reads this
    {
      Snapshot(users, log, clients, rooms, roomOrder, wire)
    }

    /** The `register` branch: the table becomes `Register`'s and the outcome is answered; nothing else changes. */
    ghost predicate Registered(before: Snapshot, after: Snapshot, conn: Conn, username: string, password: string,
                               failing: set<ConnId>, next: Conn, alive: bool)
    {
      var reg := Accounts.Register(before.users, username, hash(password));
      && next == conn && alive == (conn.id !in failing)
      && after == before.(users := reg.users,
                          wire := before.wire + (if alive then [Delivery(conn.id, RegisterResponse(reg.ok, RegisterMessage(reg.ok)))] else []))
    }

    method RegisterAction(conn: Conn, username: string, password: string, failing: set<ConnId>)
      returns (next: Conn, alive: bool)
      modifies this`users, this`wire
      ensures Registered(old(Snap()), Snap(), conn, username, password, failing, next, alive)
      ensures Grew(old(Snap()), Snap())
    {
      var ok, message := RegisterUser(username, password);
      next := conn;
      alive := Reply(conn, RegisterResponse(ok, message), failing);
    }

    /**
     * The `login` branch: good credentials bind the name to this connection,
     * overwriting any earlier entry, and are answered with the room names in
     * directory order; bad credentials change nothing but the reply.
     */
    ghost predicate LoggedIn(before: Snapshot, after: Snapshot, conn: Conn, username: string, password: string,
                             failing: set<ConnId>, next: Conn, alive: bool)
    {
      && alive == (conn.id !in failing)
      && if Matches(before.users, username, hash(password)) then
           && next == conn.(username := Some(username))
           && after == before.(clients := before.clients[username := conn.id],
                               wire := before.wire + (if alive then [Delivery(conn.id, LoginResponse(true, "Login successful!", Some(before.roomOrder)))] else []))
         else
           && next == conn
           && after == before.(wire := before.wire + (if alive then [Delivery(conn.id, LoginResponse(false, "Invalid credentials!", None))] else []))
    }

    method LoginAction(conn: Conn, username: string, password: string, failing: set<ConnId>)
      returns (next: Conn, alive: bool)
      modifies this`clients, this`wire
      ensures LoggedIn(old(Snap()), Snap(), conn, username, password, failing, next, alive)
      ensures Grew(old(Snap()), Snap())
    {
      if Authenticate(username, password) {
        next := conn.(username := Some(username));
        clients := clients[username := conn.id];
        alive := Reply(next, LoginResponse(true, "Login successful!", Some(roomOrder)), failing);
      } else {
        next := conn;
        alive := Reply(conn, LoginResponse(false, "Invalid credentials!", None), failing);
      }
    }

    method JoinRoomAction(conn: Conn, room: string, failing: set<ConnId>) returns (next: Conn, alive: bool)
      requires Valid()
      modifies this
      ensures Valid()
      ensures Joined(old(Snap()), Snap(), conn, room, failing, next, alive)
      ensures Grew(old(Snap()), Snap())
    {
      var u := conn.username;
      if !CanLeave(rooms, conn.currentRoom, u) {
        return conn, false;
      }
      MoveMember(conn.currentRoom, room, u);
      next := conn.(currentRoom := Some(room));
      alive := Welcome(next, room, failing);
    }

    /**
     * The sends of `join_room` once the user is listed in `room`: the room's
     * history and members to the joiner, then `user_joined` to the others
     * unless the first send failed.
     */
    method Welcome(conn: Conn, room: string, failing: set<ConnId>) returns (alive: bool)
      requires room in rooms
      modifies this
      ensures users == old(users) && log == old(log) && rooms == old(rooms) && roomOrder == old(roomOrder)
      ensures alive == (conn.id !in failing)
      ensures !alive ==> clients == old(clients) && wire == old(wire)
      ensures alive ==>
                var joined := RoomJoined(room, History(log, room, HistoryLimit), rooms[room]);
                var notified := Fanout(rooms[room], conn.username, old(clients), failing);
                && clients == notified.clients
                && wire == old(wire) + [Delivery(conn.id, joined)]
                          + Envelopes(notified.sent, UserJoined(conn.username, room, rooms[room]))
    {
      var history := History(log, room, HistoryLimit);
      alive := Reply(conn, RoomJoined(room, history, rooms[room]), failing);
      if alive {
        assert MembersOf(rooms, room) == rooms[room];
        Broadcast(UserJoined(conn.username, room, rooms[room]), room, conn.username, failing);
      }
    }

    /** The room bookkeeping of `join_room`: leave `prev`, create `room` on first use, append the user to it. */
    method MoveMember(prev: Option<string>, room: string, u: Member)
      requires Valid() && CanLeave(rooms, prev, u)
      modifies this`rooms, this`roomOrder
      ensures Valid()
      ensures rooms == Join(old(rooms), prev, room, u)
      ensures roomOrder == old(roomOrder) + (if room in old(rooms) then [] else [room])
    {
      if Truthy(prev) {
        rooms := rooms[prev.value := RemoveFirst(rooms[prev.value], u)];
      }
      ghost var left := rooms;
      var base := if room in rooms then rooms[room] else [];
      if room !in rooms {
        roomOrder := roomOrder + [room];
        assert roomOrder[|roomOrder| - 1] == room;
      }
      rooms := rooms[room := base + [u]];
      assert rooms == left[room := base + [u]];
    }

    method SendMessageAction(conn: Conn, room: string, message: string, kind: Option<string>, at: Moment,
                             failing: set<ConnId>) returns (alive: bool)
      modifies this
      ensures Posted(old(Snap()), Snap(), conn, room, message, kind, at, failing, alive)
      ensures Grew(old(Snap()), Snap())
    {
      if conn.username.None? {
        return false;
      }
      var author := conn.username.value;
      var k := kind.GetOr("text");
      SaveMessage(author, room, message, k, at.dbStamp);
      Broadcast(NewMessage(author, message, k, at.localStamp), room, conn.username, failing);
      alive := true;
    }

    method SendFileAction(conn: Conn, room: string, filename: string, filedata: string, at: Moment,
                          failing: set<ConnId>) returns (alive: bool)
      modifies this
      ensures Shared(old(Snap()), Snap(), conn, room, filename, filedata, at, failing, alive)
      ensures Grew(old(Snap()), Snap())
    {
      if conn.username.None? {
        return false;
      }
      var author := conn.username.value;
      SaveMessage(author, room, FileNote(filename), "file", at.dbStamp);
      Broadcast(NewFile(author, filename, filedata, at.localStamp), room, conn.username, failing);
      alive := true;
    }

    /**
     * The dispatch of one frame: the branch its `action` selects. An
     * undecodable frame ends the connection and an unknown or missing
     * action is ignored, both with no change.
     */
    ghost predicate Handled(before: Snapshot, after: Snapshot, conn: Conn, frame: Frame, failing: set<ConnId>,
                            next: Conn, alive: bool)
    {
      match frame
      case Undecodable => next == conn && !alive && after == before
      case Frame(req, at) =>
        match req
        case Register(newName, newPassword) => Registered(before, after, conn, newName, newPassword, failing, next, alive)
        case Login(name, password) => LoggedIn(before, after, conn, name, password, failing, next, alive)
        case JoinRoom(target) => Joined(before, after, conn, target, failing, next, alive)
        case SendMessage(msgRoom, message, kind) =>
          next == conn && Posted(before, after, conn, msgRoom, message, kind, at, failing, alive)
        case SendFile(fileRoom, filename, filedata) =>
          next == conn && Shared(before, after, conn, fileRoom, filename, filedata, at, failing, alive)
        case Other(_) => next == conn && alive && after == before
    }

    /** One pass of the `while True` loop of `handle_client`. */
    method Step(conn: Conn, frame: Frame, failing: set<ConnId>) returns (next: Conn, alive: bool)
      requires Valid()
      modifies this
      ensures Valid()
      ensures Handled(old(Snap()), Snap(), conn, frame, failing, next, alive)
      ensures next.id == conn.id
      ensures Grew(old(Snap()), Snap())
    {
      match frame {
        case Undecodable =>
          next, alive := conn, false;
        case Frame(req, at) =>
          match req {
            case Register(username, password) =>
              next, alive := RegisterAction(conn, username, password, failing);
            case Login(username, password) =>
              next, alive := LoginAction(conn, username, password, failing);
            case JoinRoom(room) =>
              next, alive := JoinRoomAction(conn, room, failing);
            case SendMessage(room, message, kind) =>
              next := conn;
              alive := SendMessageAction(conn, room, message, kind, at, failing);
            case SendFile(room, filename, filedata) =>
              next := conn;
              alive := SendFileAction(conn, room, filename, filedata, at, failing);
            case Other(_) =>
              next, alive := conn, true;
          }
      }
    }

    /**
     * `handle_client`: sends the key, handles frames until the stream ends or
     * a step fails, then (the `finally` block) runs `remove_client` on the
     * connection's user and room if it ever logged in under a truthy name.
     * The ghost results are the trace of the loop: `conns[k]` and
     * `snaps[k]` are the connection and the tables before frame `k` is
     * handled, `alives[k]` whether the connection survived it.
     */
    method HandleClient(id: ConnId, frames: seq<Frame>, failing: set<ConnId>)
      returns (conn: Conn, ghost conns: seq<Conn>, ghost snaps: seq<Snapshot>, ghost alives: seq<bool>)
      requires Valid()
      modifies this
      ensures Valid()
      ensures |alives| <= |frames| && |conns| == |alives| + 1 && |snaps| == |alives| + 1
      ensures conns[0] == Conn(id, None, None)
      ensures snaps[0] == old(Snap()).(wire := old(wire) + (if id in failing then [] else [Delivery(id, KeyHandshake)]))
      ensures id in failing ==> alives == []
      ensures forall k :: 0 <= k < |alives| ==>
                Handled(snaps[k], snaps[k + 1], conns[k], frames[k], failing, conns[k + 1], alives[k])
      ensures forall k :: 0 <= k < |alives| - 1 ==> alives[k]
      ensures |alives| < |frames| ==> id in failing || (alives != [] && !alives[|alives| - 1])
      ensures conn == conns[|alives|]
      ensures Truthy(conn.username) ==> Removed(snaps[|alives|], Snap(), conn.username.value, conn.currentRoom, failing)
      ensures !Truthy(conn.username) ==> Snap() == snaps[|alives|]
      ensures Grew(old(Snap()), Snap())
    {
      conn := Conn(id, None, None);
      var alive := Reply(conn, KeyHandshake, failing);
      conns, snaps, alives := [conn], [Snap()], [];
      var i := 0;
      while alive && i < |frames|
        invariant 0 <= i <= |frames|
        invariant Valid()
        invariant |conns| == i + 1 && |snaps| == i + 1 && |alives| == i
        invariant conns[0] == Conn(id, None, None)
        invariant snaps[0] == old(Snap()).(wire := old(wire) + (if id in failing then [] else [Delivery(id, KeyHandshake)]))
        invariant conn == conns[i] && snaps[i] == Snap()
        invariant alive == (if i == 0 then id !in failing else alives[i - 1])
        invariant id in failing ==> i == 0
        invariant forall k :: 0 <= k < i ==>
                    Handled(snaps[k], snaps[k + 1], conns[k], frames[k], failing, conns[k + 1], alives[k])
        invariant forall k :: 0 <= k < i - 1 ==> alives[k]
        invariant Grew(old(Snap()), Snap())
      {
        conn, alive := Step(conn, frames[i], failing);
        conns, snaps, alives := conns + [conn], snaps + [Snap()], alives + [alive];
        i := i + 1;
      }
      if Truthy(conn.username) {
        RemoveClient(conn.username.value, conn.currentRoom, failing);
      }
    }
  }
}
