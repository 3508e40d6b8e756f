/**
 * The append-only `messages` table and the history query run when a
 * client joins a room. Recency is the order of insertion: the table's
 * timestamp column only has second resolution, so rows written in the
 * same second are unordered in the query and insertion order is the one
 * order the store guarantees.
 */
module MessageLog {

  /** The `timestamp` column, filled by the store's clock when a row is inserted. */
  type Timestamp = string

  /** One row: author, room, body, insertion time and `message_type` ('text' or 'file'). */
  datatype Msg = Msg(author: string, room: string, body: string, stamp: Timestamp, kind: string)

  /** The `limit` that `handle_client` leaves at its default. */
  const HistoryLimit: nat := 50

  /** `WHERE room=?`: the room's rows, oldest first. */
  function InRoom(log: seq<Msg>, room: string): (r: seq<Msg>)
    ensures |r| <= |log|
    ensures forall m :: m in r ==> m.room == room && m in log
    ensures forall m :: multiset(r)[m] == if m.room == room then multiset(log)[m] else 0
    decreases |log|
  {
    if log == [] then []
    else
      var last := log[|log| - 1];
      assert log == log[..|log| - 1] + [last];
      InRoom(log[..|log| - 1], room) + (if last.room == room then [last] else [])
  }

  function Reverse(s: seq<Msg>): (r: seq<Msg>)
    ensures |r| == |s|
    ensures forall i :: 0 <= i < |s| ==> r[i] == s[|s| - 1 - i]
    decreases |s|
  {
    if s == [] then [] else [s[|s| - 1]] + Reverse(s[..|s| - 1])
  }

  /** `LIMIT n`: at most the first `n` rows. */
  function Take(s: seq<Msg>, n: nat): seq<Msg> {
    if n < |s| then s[..n] else s
  }

  function Min(a: nat, b: nat): nat { if a < b then a else b }

  /** The last `limit` entries of `s` (all of them when there are fewer). */
  function Recent(s: seq<Msg>, limit: nat): (r: seq<Msg>)
    ensures |r| == Min(limit, |s|)
  {
    s[|s| - Min(limit, |s|)..]
  }

  /** The first `n` of the reversed rows, reversed again, are the last `n` rows in their own order. */
  lemma ReverseTakeReverse(s: seq<Msg>, n: nat)
    ensures Reverse(Take(Reverse(s), n)) == Recent(s, n)
  {
    var k := Min(n, |s|);
    var rs := Reverse(s);
    var rows := Take(rs, n);
    assert rows == rs[..k];
    var h := Reverse(rows);
    var w := Recent(s, n);
    forall i | 0 <= i < k
      ensures h[i] == w[i]
    {
      assert h[i] == rows[k - 1 - i];
      assert rows[k - 1 - i] == rs[k - 1 - i];
      assert rs[k - 1 - i] == s[|s| - k + i];
    }
  }

  /**
   * `get_message_history`: the newest `limit` rows of the room fetched
   * newest first (`ORDER BY timestamp DESC LIMIT ?`), then reversed.
   */
  function History(log: seq<Msg>, room: string, limit: nat): (r: seq<Msg>)
    ensures |r| <= limit
    ensures forall m :: m in r ==> m.room == room && m in log
  {
    var all := InRoom(log, room);
    ReverseTakeReverse(all, limit);
    Reverse(Take(Reverse(all), limit))
  }

  /**
   * History is the most recent `limit` rows of the room, in the order they
   * were written: the newest-first fetch has been turned back around.
   */
  lemma HistoryIsRecentSuffix(log: seq<Msg>, room: string, limit: nat)
    ensures History(log, room, limit) == Recent(InRoom(log, room), limit)
  {
    ReverseTakeReverse(InRoom(log, room), limit);
  }

  /** Saving a row to another room does not change a room's rows. */
  lemma InRoomAppend(log: seq<Msg>, m: Msg, room: string)
    ensures InRoom(log + [m], room) == InRoom(log, room) + (if m.room == room then [m] else [])
  {
    assert (log + [m])[..|log|] == log;
  }

  lemma RecentAppend(s: seq<Msg>, m: Msg, limit: nat)
    requires limit > 0
    ensures var w := Recent(s, limit);
            Recent(s + [m], limit) == (if |w| == limit then w[1..] else w) + [m]
  {
    var s' := s + [m];
    if |s| < limit {
      assert Recent(s', limit) == s';
      assert Recent(s, limit) == s;
    } else {
      assert s'[|s'| - limit..] == s[|s| - limit + 1..] + [m];
    }
  }

  /**
   * History is a sliding window: a row saved to the room becomes its last
   * entry and, once the window is full, pushes out the oldest; the other
   * rooms' histories do not move.
   */
  lemma {:induction false} HistoryAfterSave(log: seq<Msg>, m: Msg, room: string, limit: nat)
    requires limit > 0
    ensures var h := History(log, room, limit);
            History(log + [m], room, limit)
            == if m.room == room then (if |h| == limit then h[1..] else h) + [m] else h
  {
    InRoomAppend(log, m, room);
    HistoryIsRecentSuffix(log, room, limit);
    HistoryIsRecentSuffix(log + [m], room, limit);
    if m.room == room {
      RecentAppend(InRoom(log, room), m, limit);
    }
  }
}
