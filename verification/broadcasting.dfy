/**
 * Recipient selection in `broadcast(message, room, sender)`: the walk over
 * the room's member list, which sends to every listed user other than the
 * sender that is in `clients`, and on a failed send drops that user from
 * `clients` (`remove_client(username)` with no room).
 */
module Broadcasting {
  import opened Wrappers
  import opened RoomDirectory

  /** Identifies one accepted connection (its socket). */
  type ConnId = nat

  /** The session registry `clients`: username -> connection. */
  type Clients = map<string, ConnId>

  datatype Recipient = Recipient(name: string, conn: ConnId)

  /** What the walk sent, in order, and the registry it leaves behind. */
  datatype Outcome = Outcome(sent: seq<Recipient>, clients: Clients)

  /**
   * One turn of the walk, for member `m`: a send to `m` if it is online and
   * not the sender; if that send fails, `m` is dropped from `clients`.
   */
  function Visit(m: Member, sender: Member, clients: Clients, failing: set<ConnId>): (r: Outcome)
    ensures |r.sent| <= 1
    ensures r.sent != [] ==>
              && m == Some(r.sent[0].name) && m != sender && r.sent[0].name in clients
              && clients[r.sent[0].name] == r.sent[0].conn && r.sent[0].conn !in failing && r.clients == clients
    ensures r.clients != clients ==>
              && m.Some? && m != sender && m.value in clients && clients[m.value] in failing
              && r.clients == clients - {m.value} && r.sent == []
    ensures m != sender && m.Some? && m.value in clients && clients[m.value] !in failing ==>
              r.sent == [Recipient(m.value, clients[m.value])] && r.clients == clients
    ensures m != sender && m.Some? && m.value in clients && clients[m.value] in failing ==>
              r.sent == [] && r.clients == clients - {m.value}
  {
    if m != sender && m.Some? && m.value in clients then
      var c := clients[m.value];
      if c in failing then Outcome([], clients - {m.value})
      else Outcome([Recipient(m.value, c)], clients)
    else Outcome([], clients)
  }

  /**
   * The walk itself, over the member list in order. `failing` names the
   * connections whose send raises. A `None` member is never in `clients`,
   * so it is never sent to.
   */
  function Fanout(members: seq<Member>, sender: Member, clients: Clients, failing: set<ConnId>): (r: Outcome)
    ensures r.clients.Keys <= clients.Keys
    decreases |members|
  {
    if members == [] then Outcome([], clients)
    else
      var v := Visit(members[0], sender, clients, failing);
      var rest := Fanout(members[1..], sender, v.clients, failing);
      Outcome(v.sent + rest.sent, rest.clients)
  }

  /** Reference definition: the listed members, in list order, that are not the sender and are online. */
  function Targets(members: seq<Member>, sender: Member, clients: Clients): seq<Recipient>
    decreases |members|
  {
    if members == [] then []
    else
      var m := members[0];
      (if m != sender && m.Some? && m.value in clients then [Recipient(m.value, clients[m.value])] else [])
      + Targets(members[1..], sender, clients)
  }

  /** The targets whose connection does not fail. */
  function Healthy(ts: seq<Recipient>, failing: set<ConnId>): seq<Recipient>
    decreases |ts|
  {
    if ts == [] then []
    else (if ts[0].conn in failing then [] else [ts[0]]) + Healthy(ts[1..], failing)
  }

  /** The registry after the walk: every target whose connection failed is gone. */
  function Survivors(members: seq<Member>, sender: Member, clients: Clients, failing: set<ConnId>): Clients {
    map u | u in clients && !(Some(u) in members && Some(u) != sender && clients[u] in failing) :: clients[u]
  }

  /** A target reaches the recipient list exactly when it is a listed, online member other than the sender. */
  lemma {:induction false} TargetsExact(members: seq<Member>, sender: Member, clients: Clients, u: string, c: ConnId)
    ensures Recipient(u, c) in Targets(members, sender, clients)
            <==> Some(u) in members && Some(u) != sender && u in clients && clients[u] == c
    decreases |members|
  {
    if members != [] {
      TargetsExact(members[1..], sender, clients, u, c);
      assert members == [members[0]] + members[1..];
    }
  }

  lemma HealthyCons(t: Recipient, ts: seq<Recipient>, failing: set<ConnId>)
    ensures Healthy([t] + ts, failing) == (if t.conn in failing then [] else [t]) + Healthy(ts, failing)
  {
    assert ([t] + ts)[1..] == ts;
  }

  /** Dropping a user whose connection fails changes none of the successful sends. */
  lemma {:induction false} HealthyWithout(members: seq<Member>, sender: Member, clients: Clients, failing: set<ConnId>, u: string)
    requires u in clients && clients[u] in failing
    ensures Healthy(Targets(members, sender, clients - {u}), failing) == Healthy(Targets(members, sender, clients), failing)
    decreases |members|
  {
    if members != [] {
      HealthyWithout(members[1..], sender, clients, failing, u);
      var m := members[0];
      var a := Targets(members[1..], sender, clients - {u});
      var b := Targets(members[1..], sender, clients);
      if m != sender && m.Some? && m.value in clients {
        var t := Recipient(m.value, clients[m.value]);
        assert Targets(members, sender, clients) == [t] + b;
        HealthyCons(t, b, failing);
        if m.value == u {
          assert [] + a == a;
          assert Targets(members, sender, clients - {u}) == a;
          assert Healthy([t] + b, failing) == [] + Healthy(b, failing);
        } else {
          assert Targets(members, sender, clients - {u}) == [t] + a;
          HealthyCons(t, a, failing);
        }
      } else {
        assert [] + a == a && [] + b == b;
        assert Targets(members, sender, clients) == b;
        assert Targets(members, sender, clients - {u}) == a;
      }
    }
  }

  /**
   * The walk sends to exactly the targets, in member-list order, whose
   * connection does not fail; with no failures it sends to every target.
   */
  lemma {:induction false} FanoutSends(members: seq<Member>, sender: Member, clients: Clients, failing: set<ConnId>)
    ensures Fanout(members, sender, clients, failing).sent == Healthy(Targets(members, sender, clients), failing)
    decreases |members|
  {
    if members != [] {
      var m := members[0];
      var b := Targets(members[1..], sender, clients);
      FanoutSends(members[1..], sender, clients, failing);
      if m != sender && m.Some? && m.value in clients {
        var t := Recipient(m.value, clients[m.value]);
        assert Targets(members, sender, clients) == [t] + b;
        assert ([t] + b)[1..] == b;
        if clients[m.value] in failing {
          FanoutSends(members[1..], sender, clients - {m.value}, failing);
          HealthyWithout(members[1..], sender, clients, failing, m.value);
        }
      } else {
        assert Targets(members, sender, clients) == b;
      }
    }
  }

  /** With no failing connection the walk reaches every target. */
  lemma {:induction false} HealthyAll(ts: seq<Recipient>)
    ensures Healthy(ts, {}) == ts
    decreases |ts|
  {
    if ts != [] {
      HealthyAll(ts[1..]);
    }
  }

  /**
   * The walk removes from `clients` exactly the targets whose send failed,
   * and changes no other entry.
   */
  lemma {:induction false} FanoutDrops(members: seq<Member>, sender: Member, clients: Clients, failing: set<ConnId>)
    ensures Fanout(members, sender, clients, failing).clients == Survivors(members, sender, clients, failing)
    decreases |members|
  {
    if members == [] {
      assert Survivors(members, sender, clients, failing) == clients;
    } else {
      var m := members[0];
      var rest := members[1..];
      assert members == [m] + rest;
      if m != sender && m.Some? && m.value in clients && clients[m.value] in failing {
        var cl := clients - {m.value};
        FanoutDrops(rest, sender, cl, failing);
        assert Survivors(rest, sender, cl, failing) == Survivors(members, sender, clients, failing);
      } else {
        FanoutDrops(rest, sender, clients, failing);
        assert Survivors(rest, sender, clients, failing) == Survivors(members, sender, clients, failing);
      }
    }
  }

  /** The broadcast never goes back to its sender, and every send is to a listed, online member. */
  lemma FanoutExcludesSender(members: seq<Member>, sender: Member, clients: Clients, failing: set<ConnId>)
    ensures forall r :: r in Fanout(members, sender, clients, failing).sent ==>
              Some(r.name) != sender && Some(r.name) in members
              && r.name in clients && clients[r.name] == r.conn && r.conn !in failing
  {
    FanoutSends(members, sender, clients, failing);
    forall r | r in Fanout(members, sender, clients, failing).sent
      ensures Some(r.name) != sender && Some(r.name) in members
              && r.name in clients && clients[r.name] == r.conn && r.conn !in failing
    {
      HealthyIn(Targets(members, sender, clients), failing, r);
      TargetsExact(members, sender, clients, r.name, r.conn);
    }
  }

  lemma {:induction false} HealthyIn(ts: seq<Recipient>, failing: set<ConnId>, r: Recipient)
    ensures r in Healthy(ts, failing) <==> r in ts && r.conn !in failing
    decreases |ts|
  {
    if ts != [] {
      HealthyIn(ts[1..], failing, r);
      assert ts == [ts[0]] + ts[1..];
    }
  }

  /** When every send succeeds the broadcast reaches every target, in order, and `clients` is untouched. */
  lemma FanoutWithoutFailures(members: seq<Member>, sender: Member, clients: Clients)
    ensures Fanout(members, sender, clients, {}) == Outcome(Targets(members, sender, clients), clients)
  {
    FanoutSends(members, sender, clients, {});
    HealthyAll(Targets(members, sender, clients));
    FanoutDrops(members, sender, clients, {});
    assert Survivors(members, sender, clients, {}) == clients;
  }

  /** One turn of the walk: the rest of the walk after `members[i]` starts from what `Visit` left. */
  lemma FanoutStep(members: seq<Member>, i: nat, sender: Member, clients: Clients, failing: set<ConnId>,
                   sent: seq<Recipient>, out: seq<Recipient>, clients': Clients)
    requires i < |members|
    requires Visit(members[i], sender, clients, failing) == Outcome(out, clients')
    ensures var now := Fanout(members[i..], sender, clients, failing);
            var next := Fanout(members[i + 1..], sender, clients', failing);
            Outcome(sent + now.sent, now.clients) == Outcome((sent + out) + next.sent, next.clients)
  {
    assert members[i..][1..] == members[i + 1..];
  }
}
