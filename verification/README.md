# Chat server core, modelled in Dafny

This project models the state machine of the Python chat server `server.py`. The server keeps five pieces of state:

- a user table (`users`, a SQLite table with a UNIQUE username);
- an append-only message log (`messages`);
- the session registry `self.clients`, which maps a logged-in username to its socket;
- the room directory `self.rooms`, which maps a room name to the list of members who joined it, in join order;
- every frame the server sends to a socket.

Each client connection runs `handle_client`. That function sends the encryption key, then handles `register`, `login`, `join_room`, `send_message` and `send_file` requests until the stream ends or an exception escapes. Its `finally` block then calls `remove_client`, which drops the user from the registry and from its current room, and tells the room with a `user_left` broadcast.

How the model is built:

- **Modules.**
  - `Accounts`: the user table.
  - `MessageLog`: the log and the history query.
  - `RoomDirectory`: the room lists.
  - `Broadcasting`: recipient selection of `broadcast` as a pure function.
  - `Protocol`: requests, frames and events.
  - `Server`: the `ChatServer` class, whose methods update the state in place.
- **Connection locals.** A connection's `username` and `current_room` are the `Conn` record that `Step` and `HandleClient` thread through the loop.
- **Failing sends.** Sockets are connection numbers. The set `failing` names the connections whose `send` raises.
- **The outbox.** The `wire` field records every send that succeeded, in order.
- **Usernames.** They are `Option<string>`, because a `join_room` before login appends `None` to a room.
- **Python truthiness.** `if username:` and `if current_room:` are modelled by `Truthy`, which is false on `None` and on the empty string.

Quirks of the code that the model keeps:

- a later login overwrites an earlier `clients` entry for the same name;
- a failed broadcast send drops the user from `clients` but leaves the room lists alone;
- rejoining the current room moves the user to the end of its list;
- `send_message` and `send_file` use the room named in the request, not `current_room`;
- an action the dispatcher does not know changes nothing.

Error paths that the model follows through:

- A `join_room` whose `list.remove` raises ends the connection with the directory unchanged. This happens when the user is no longer listed in its current room, for example after logging in again under another name.
- `send_message` before login tries to store a `NULL` author. The `NOT NULL` constraint raises and the connection ends.
- A user who logged in under the empty name is never removed at disconnect, since `if username:` is false for `""`.

## Model

| member | source | states |
|---|---|---|
| Accounts.Register | server.py:56-67 | registration succeeds exactly when the name is new; the table gains exactly that name; existing entries are untouched; only the digest is stored for a new name |
| Accounts.RegisterThenAuthenticate | server.py:56-75 | after a successful registration the name authenticates with exactly the stored digest; no other name's credentials change; a refused registration changes no credentials |
| Accounts.ExactlyOneRegistration | server.py:32 | in any sequence of registrations, a name gets exactly one success if it was new and was tried, and none otherwise (the UNIQUE constraint) |
| Accounts.RegisterMessage | server.py:63-66 | definition (no contract): the reply text for a successful and for a refused registration |
| Accounts.Matches | server.py:69-75 | definition (no contract): some row has this name and this digest; its meaning is stated by `RegisterThenAuthenticate` |
| Server.ChatServer.RegisterUser | server.py:56-67 | `ok` iff the name was absent; the table becomes the `Register` result; the reply message matches the outcome |
| Server.ChatServer.Authenticate | server.py:69-75 | true iff a stored user has this name and the digest of this password |
| Server.ChatServer.SaveMessage | server.py:77-83 | appends exactly one record (author, room, body, stamp, kind) and keeps every earlier record |
| MessageLog.InRoom | server.py:85-95 | the `WHERE room=?` filter: every returned row is in the room and in the log, and every row of the room is returned, as often as it occurs in the log |
| MessageLog.History | server.py:85-95 | at most `limit` rows, each in the room and in the log |
| MessageLog.HistoryIsRecentSuffix | server.py:85-95 | the newest-first fetch, truncated and reversed, equals the last `limit` rows of the room in oldest-first order |
| MessageLog.HistoryAfterSave | server.py:77-95 | after saving one more message the room's history slides by one: it drops the oldest row only when full and ends with the new message; other rooms' histories do not change |
| RoomDirectory.RemoveFirst | server.py:149-150 | `list.remove`: unchanged when absent; otherwise the list is cut at the first occurrence, so exactly that element goes and the others keep their order |
| RoomDirectory.Truthy | server.py:149 | definition (no contract): Python truthiness of an optional name, false on `None` and on the empty string |
| RoomDirectory.MembersOf | server.py:101 | definition (no contract): `rooms.get(room, [])` |
| RoomDirectory.CanLeave | server.py:149-150 | exactly when `list.remove` does not raise: either no truthy current room, or removing the user shortens that room's list by one |
| RoomDirectory.Join | server.py:147-155 | room keys are the old keys plus the joined room; the user is the last member of the joined room |
| RoomDirectory.JoinAppends | server.py:152-155 | a new room is created holding only the user; an existing other room gets the user appended after its members |
| RoomDirectory.JoinLeavesPrevious | server.py:149-150 | the previous room becomes `RemoveFirst` of its list: the first occurrence of the user goes and the rest keep their order; rejoining the current room keeps the same members and moves the user to the end |
| RoomDirectory.JoinOthersUnchanged | server.py:147-155 | no room other than the previous and the joined one changes |
| RoomDirectory.IsMember | server.py:217 | definition (no contract): the room is truthy and lists the user; `Depart` and `DepartIdempotent` state what follows from it |
| RoomDirectory.Depart | server.py:217-218 | keys unchanged; no change unless the user is a member of a truthy room; otherwise that room becomes `RemoveFirst` of its list (the first occurrence leaves, order kept) and no other room changes |
| RoomDirectory.DepartIdempotent | server.py:212-223 | when a user is listed at most once, departing twice is departing once, and afterwards the user is not a member |
| Broadcasting.Visit | server.py:101-107 | one turn of the walk: a listed, online, non-sender member on a working connection gets exactly one send and the registry is unchanged; one on a failing connection gets none and loses its session; nobody else gets a send and the registry changes in no other way |
| Broadcasting.Fanout | server.py:97-107 | the broadcast loop never adds a session |
| Broadcasting.TargetsExact | server.py:101-102 | a recipient is selected iff it is a member of the room, is not the sender and has a session with that connection |
| Broadcasting.FanoutSends | server.py:97-107 | the sends that succeed are exactly the selected recipients, in member order, minus those whose connection fails |
| Broadcasting.FanoutDrops | server.py:97-107 | afterwards the sessions are the old ones minus the selected recipients whose send failed |
| Broadcasting.FanoutExcludesSender | server.py:101-102 | nothing is sent to the sender or to anyone outside the room's list |
| Broadcasting.FanoutWithoutFailures | server.py:97-107 | with no failing connection every selected recipient receives the event and no session is dropped |
| Broadcasting.HealthyWithout | server.py:103-107 | dropping a failing user's session does not change which sends succeed |
| Protocol.EnvelopesAppend | server.py:100-105 | the frames for two batches of recipients are the frames of the first batch followed by those of the second |
| Protocol.FileNote | server.py:195 | the logged body is `[FILE:` then the file name then `]`, so the name can be read back and the payload is not in it |
| Server.ChatServer.constructor | server.py:12-18 | rooms General, Random and Tech exist, empty and in that order; nobody is online; the tables are as stored |
| Server.ChatServer.Reply | server.py:129-145 | a send on the requesting socket succeeds iff its connection is not failing, and then appends exactly that frame |
| Server.ChatServer.Broadcast | server.py:97-107 | sessions become those `Fanout` leaves; the frames sent are one per successful recipient in member order; users, log and rooms are unchanged |
| Server.ChatServer.SendTo | server.py:101-107 | one pass of the broadcast loop: a failing send drops that user's session only, with no room given to `remove_client` |
| Server.ChatServer.RemoveClient | server.py:212-223 | ensures `Removed`: the user has no session afterwards; rooms become `Depart`; only if the user was a member is `user_left` broadcast to the remaining members, with the user's session already gone |
| Server.ChatServer.RegisterAction | server.py:126-129 | ensures `Registered`: the table becomes `Register`'s result, the outcome is answered on this connection, and nothing else changes |
| Server.ChatServer.LoginAction | server.py:131-145 | ensures `LoggedIn`: good credentials bind the name to this connection, overwriting any entry, and answer with the room names in directory order; bad credentials change no state and answer with failure |
| Server.ChatServer.MoveMember | server.py:147-155 | rooms become `Join`; a new room name is appended to the directory order; the order stays a duplicate-free listing of the keys |
| Server.ChatServer.JoinRoomAction | server.py:147-173 | ensures `Joined`: a failing `list.remove` changes nothing and ends the connection; otherwise rooms become `Join`, the reply carries the room's history and members, and the other members get `user_joined` |
| Server.ChatServer.Welcome | server.py:157-173 | the joiner gets the room's history and members; only if that send succeeds do the other members get `user_joined`; nothing but sessions and sends changes |
| Server.ChatServer.SendMessageAction | server.py:175-188 | ensures `Posted`: before login nothing changes and the connection ends; otherwise one record is logged for the named room (type defaulting to `text`), and the room without the sender gets `new_message` |
| Server.ChatServer.SendFileAction | server.py:190-203 | ensures `Shared`: before login nothing changes and the connection ends; otherwise logs `[FILE:name]` with type `file`, never the payload; the room without the sender gets `new_file` |
| Server.ChatServer.Step | server.py:118-203 | ensures `Handled`: each action has exactly the effect of its branch (`Registered`, `LoggedIn`, `Joined`, `Posted`, `Shared`); an undecodable frame ends the connection and an unknown action is ignored, both with no change; users, log, sent frames and room keys only grow |
| Server.ChatServer.HandleClient | server.py:109-210 | returns the trace of the loop: it starts from a fresh connection with no name or room and the tables with the key sent; if that send fails no frame is handled; step `k` takes the tables and connection from entry `k` to entry `k + 1` exactly as `Handled` says for frame `k`; every step but the last keeps the connection alive, and the loop stops before the end of the stream only after a step that ended it; the returned connection is the last entry; from the last tables, cleanup is `Removed` for a truthy name and no change otherwise; users, log, sent frames and room keys only grow |

## Left out

- Sockets, `recv` framing, the accept loop and threads are not modelled. Each request is one atomic method call, so races between connection threads on `clients` and `rooms` are out of scope. A connection's stream is a finite sequence of frames, and its end stands for an empty `recv`.
- Fernet encryption and the key handshake are left out. The handshake is the `KeyHandshake` event with no key material in it.
- JSON encoding and decoding are left out. A frame whose decryption, JSON decoding or field lookup raises is `Undecodable`. A field of the wrong JSON type (for example a `null` username) is not modelled.
- SHA-256 is the abstract function `hash`, a parameter of the constructor.
- SQLite is replaced by in-memory tables. The generic "Registration failed" path is not modelled; it is reached by an unexpected database error or by a field of the wrong type, which makes `hash_password` raise. The `id` and `created_at` columns are not kept.
- The history rows carry the whole record, including the room. The query returns only (username, message, timestamp, type).
- `datetime.now()` and `CURRENT_TIMESTAMP` are parameters, carried by each frame as a `Moment`. History recency follows insertion order. Rows with equal second-resolution timestamps have no defined order in SQL, and the model picks insertion order for them.
- Server.ChatServer.HandleClient: the set of failing connections is fixed for the whole run. A socket that fails once and later works is not modelled.
- RoomDirectory.DepartIdempotent: holds only when the user appears at most once in the room list. A user listed twice, which two connections logging in under one name can produce, loses one occurrence per call.
- Closing the socket and the server's log output are left out.
- `start`, the `__main__` block and all of client.py (the GUI) are not part of this model.
