/**
 * The wire protocol seen by the server: the requests a client sends, the
 * events the server sends back or pushes, and the record of every send.
 * Encryption and JSON framing are not modelled: a frame is either a
 * decoded request or one that could not be handled.
 */
module Protocol {
  import opened Wrappers
  import opened Accounts
  import opened MessageLog
  import opened RoomDirectory
  import opened Broadcasting

  /** The two clocks a request reads: the store's insertion time and `datetime.now()` formatted. */
  datatype Moment = Moment(dbStamp: Timestamp, localStamp: string)

  /** A decoded request, by its `action` field. */
  datatype Request =
    | Register(username: string, password: string)
    | Login(username: string, password: string)
    | JoinRoom(room: string)
    | SendMessage(room: string, message: string, kind: Option<string>)
    | SendFile(room: string, filename: string, filedata: string)
    | Other(action: Option<string>)

  /**
   * One `recv`: a request stamped with the moment it is handled, or a
   * frame whose decryption, JSON decoding or field lookup raises.
   */
  datatype Frame = Frame(request: Request, at: Moment) | Undecodable

  /** What the server sends. */
  datatype Event =
    | KeyHandshake
    | RegisterResponse(success: bool, message: string)
    | LoginResponse(success: bool, message: string, rooms: Option<seq<string>>)
    | RoomJoined(room: string, history: seq<Msg>, users: seq<Member>)
    | UserJoined(joiner: Member, room: string, users: seq<Member>)
    | NewMessage(username: string, message: string, kind: string, timestamp: string)
    | NewFile(username: string, filename: string, filedata: string, timestamp: string)
    | UserLeft(username: string, users: seq<Member>)

  /** One successful send of an event on a connection. */
  datatype Delivery = Delivery(conn: ConnId, event: Event)

  /** The body `send_file` logs in place of the file: only its name, never the payload. */
  function FileNote(filename: string): (r: string)
    ensures |r| == |filename| + 7
    ensures r[..6] == "[FILE:" && r[6..|r| - 1] == filename && r[|r| - 1] == ']'
  {
    "[FILE:" + filename + "]"
  }

  /** The sends of one broadcast, in the order of its recipients. */
  function Envelopes(sent: seq<Recipient>, ev: Event): seq<Delivery>
    decreases |sent|
  {
    if sent == [] then [] else Envelopes(sent[..|sent| - 1], ev) + [Delivery(sent[|sent| - 1].conn, ev)]
  }

  lemma {:induction false} EnvelopesAppend(a: seq<Recipient>, b: seq<Recipient>, ev: Event)
    ensures Envelopes(a + b, ev) == Envelopes(a, ev) + Envelopes(b, ev)
    decreases |b|
  {
    if b != [] {
      var b' := b[..|b| - 1];
      var d := Delivery(b[|b| - 1].conn, ev);
      assert (a + b)[..|a + b| - 1] == a + b';
      assert Envelopes(a + b, ev) == Envelopes(a + b', ev) + [d];
      assert Envelopes(b, ev) == Envelopes(b', ev) + [d];
      EnvelopesAppend(a, b', ev);
    } else {
      assert a + b == a;
    }
  }

  /** A record that grew by the sends of `sent` and then of `out` grew by the sends of `sent + out`. */
  lemma EnvelopesExtend(w0: seq<Delivery>, w1: seq<Delivery>, w2: seq<Delivery>,
                        sent: seq<Recipient>, out: seq<Recipient>, ev: Event)
    requires w1 == w0 + Envelopes(sent, ev) && w2 == w1 + Envelopes(out, ev)
    ensures w2 == w0 + Envelopes(sent + out, ev)
  {
    EnvelopesAppend(sent, out, ev);
  }
}
