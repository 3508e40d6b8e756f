/**
 * The room directory `rooms`: room name -> member list. Members are kept
 * in join order and may repeat; a `join_room` sent before login adds the
 * `None` username to the list.
 */
module RoomDirectory {
  import opened Wrappers

  type Member = Option<string>
  type Rooms = map<string, seq<Member>>

  /** Python truthiness of an optional string: present and not empty. */
  predicate Truthy(s: Option<string>)
  {
    s.Some? && s.value != ""
  }

  /** `rooms.get(room, [])` */
  function MembersOf(rooms: Rooms, room: string): seq<Member>
  {
    if room in rooms then rooms[room] else []
  }

  /** Index of the first occurrence of `x`. */
  function IndexOf<T(==)>(s: seq<T>, x: T): (i: nat)
    requires x in s
    ensures i < |s| && s[i] == x && x !in s[..i]
  {
    if s[0] == x then 0
    else
      var j := IndexOf(s[1..], x);
      assert s[..j + 1] == [s[0]] + s[1..][..j];
      j + 1
  }

  /**
   * `list.remove(x)` when `x` is present: cuts the list at the first
   * occurrence of `x`, so exactly one `x` goes and the rest keep their order.
   */
  function RemoveFirst<T(==)>(s: seq<T>, x: T): (r: seq<T>)
    ensures x !in s ==> r == s
    ensures x in s ==> |r| == |s| - 1 && multiset(r) == multiset(s) - multiset{x}
    ensures x in s ==> exists i :: 0 <= i < |s| && s[i] == x && x !in s[..i] && r == s[..i] + s[i + 1..]
  {
    if x in s then
      var i := IndexOf(s, x);
      assert s == s[..i] + [x] + s[i + 1..];
      s[..i] + s[i + 1..]
    else s
  }

  /**
   * The guards of `join_room` before it changes anything: when the
   * connection is in a room (a truthy name), that room exists and lists
   * the user, or else `rooms[current_room].remove(username)` raises.
   */
  predicate CanLeave(rooms: Rooms, prev: Option<string>, u: Member)
    ensures CanLeave(rooms, prev, u) && Truthy(prev) ==>
              |RemoveFirst(MembersOf(rooms, prev.value), u)| == |MembersOf(rooms, prev.value)| - 1
    ensures !CanLeave(rooms, prev, u) ==>
              Truthy(prev) && RemoveFirst(MembersOf(rooms, prev.value), u) == MembersOf(rooms, prev.value)
  {
    !Truthy(prev) || (prev.value in rooms && u in rooms[prev.value])
  }

  /**
   * `join_room(room)`: leave the previous room (one occurrence), create
   * `room` empty if absent, append the user to it. Room names are only
   * ever added, and the user ends up last in the new room.
   */
  function Join(rooms: Rooms, prev: Option<string>, room: string, u: Member): (r: Rooms)
    requires CanLeave(rooms, prev, u)
    ensures r.Keys == rooms.Keys + {room}
    ensures |r[room]| > 0 && r[room][|r[room]| - 1] == u
  {
    var left := if Truthy(prev) then rooms[prev.value := RemoveFirst(rooms[prev.value], u)] else rooms;
    var base := if room in left then left[room] else [];
    left[room := base + [u]]
  }

  /** A new room starts with just the user; an existing one gets the user appended after its members. */
  lemma JoinAppends(rooms: Rooms, prev: Option<string>, room: string, u: Member)
    requires CanLeave(rooms, prev, u)
    ensures room !in rooms ==> Join(rooms, prev, room, u)[room] == [u]
    ensures room in rooms && (!Truthy(prev) || prev.value != room) ==>
              Join(rooms, prev, room, u)[room] == rooms[room] + [u]
  {
  }

  /**
   * The previous room loses exactly one occurrence of the user; rejoining
   * the room one is in moves the user to the end, keeping the same members.
   */
  lemma JoinLeavesPrevious(rooms: Rooms, prev: Option<string>, room: string, u: Member)
    requires CanLeave(rooms, prev, u) && Truthy(prev)
    ensures var r := Join(rooms, prev, room, u);
            prev.value != room ==>
              r[prev.value] == RemoveFirst(rooms[prev.value], u)
              && |r[prev.value]| == |rooms[prev.value]| - 1
              && multiset(r[prev.value]) == multiset(rooms[prev.value]) - multiset{u}
    ensures var r := Join(rooms, prev, room, u);
            prev.value == room ==>
              r[room] == RemoveFirst(rooms[room], u) + [u]
              && |r[room]| == |rooms[room]| && multiset(r[room]) == multiset(rooms[room])
  {
    var r := Join(rooms, prev, room, u);
    var s := rooms[prev.value];
    if prev.value == room {
      assert multiset(RemoveFirst(s, u) + [u]) == multiset(RemoveFirst(s, u)) + multiset{u};
    } else {
      assert r[prev.value] == RemoveFirst(s, u);
    }
  }

  /** No room other than the previous one and the joined one changes. */
  lemma JoinOthersUnchanged(rooms: Rooms, prev: Option<string>, room: string, u: Member)
    requires CanLeave(rooms, prev, u)
    ensures forall k :: k in rooms && k != room && (Truthy(prev) ==> k != prev.value) ==>
              Join(rooms, prev, room, u)[k] == rooms[k]
  {
  }

  /** Whether `remove_client(u, room)` takes `u` out of a room: a truthy room listing `u`. */
  predicate IsMember(rooms: Rooms, u: string, room: Option<string>)
  {
    Truthy(room) && Some(u) in MembersOf(rooms, room.value)
  }

  /** The room-list part of `remove_client(u, room)`. */
  function Depart(rooms: Rooms, u: string, room: Option<string>): (r: Rooms)
    ensures r.Keys == rooms.Keys
    ensures !IsMember(rooms, u, room) ==> r == rooms
    ensures IsMember(rooms, u, room) ==>
              r[room.value] == RemoveFirst(rooms[room.value], Some(u))
              && multiset(r[room.value]) == multiset(rooms[room.value]) - multiset{Some(u)}
              && forall k :: k in rooms && k != room.value ==> r[k] == rooms[k]
  {
    if IsMember(rooms, u, room) then rooms[room.value := RemoveFirst(rooms[room.value], Some(u))]
    else rooms
  }

  /**
   * Leaving twice is leaving once, provided the user was listed at most
   * once; a user listed twice (two logins under one name) stays listed.
   */
  lemma DepartIdempotent(rooms: Rooms, u: string, room: Option<string>)
    requires Truthy(room) && room.value in rooms ==> multiset(rooms[room.value])[Some(u)] <= 1
    ensures Depart(Depart(rooms, u, room), u, room) == Depart(rooms, u, room)
    ensures !IsMember(Depart(rooms, u, room), u, room)
  {
    var once := Depart(rooms, u, room);
    if IsMember(rooms, u, room) {
      assert multiset(once[room.value])[Some(u)] == 0;
    }
  }
}
