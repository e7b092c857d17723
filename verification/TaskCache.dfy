/**
 * The ten-second task cache: `get_task_info` of app/services/user_task.py, the writes of the
 * heartbeat in app/services/user_task_proxy.py, and the calls that change rows without it.
 */
module TaskCache {
  import opened Wrappers

  const LIFETIME := 10

  /** A task row, as far as its cached copy can go stale. */
  datatype Row = Row(sendFlag: string, pickPlace: string, rest: string)

  datatype Entry = Entry(row: Row, expires: int)

  /** Rows by message id, which is unique; the cache of key task_state_<message id>; the clock. */
  datatype State = State(table: map<string, Row>, cache: map<string, Entry>, now: int)

  datatype Event =
    | Read(messageId: string)                    // get_task_info
    | Fork(messageId: string, pickPlace: string) // a pick or place: the row, then the cache
    | Write(messageId: string, row: Row)         // cancel, set_task, task flags: the row alone
    | Insert(messageId: string, row: Row)        // add_task: refused for a message id that is taken
    | Delete(messageId: string)
    | Clear
    | Tick(seconds: nat)

  function Cached(s: State, id: string): Option<Row> {
    if id in s.cache && s.now < s.cache[id].expires then Some(s.cache[id].row) else None
  }

  /** The answer of a read. */
  function Answer(s: State, id: string): Option<Row> {
    var c := Cached(s, id);
    if c.Some? then c else if id in s.table then Some(s.table[id]) else None
  }

  function Store(s: State, id: string, row: Row): State {
    s.(cache := s.cache[id := Entry(row, s.now + LIFETIME)])
  }

  function Next(s: State, e: Event): State {
    match e
    case Read(id) => if Cached(s, id).None? && id in s.table then Store(s, id, s.table[id]) else s
    case Fork(id, pickPlace) =>
      if id !in s.table then s
      else
        var row := s.table[id].(pickPlace := pickPlace);
        var t := s.(table := s.table[id := row]);
        if id != "" then Store(t, id, row) else t
    case Write(id, row) => if id in s.table then s.(table := s.table[id := row]) else s
    case Insert(id, row) => if id in s.table then s else s.(table := s.table[id := row])
    case Delete(id) => s.(table := s.table - {id})
    case Clear => s.(table := map[])
    case Tick(seconds) => s.(now := s.now + seconds)
  }

  function Run(s: State, events: seq<Event>): State {
    if events == [] then s else Next(Run(s, events[..|events| - 1]), events[|events| - 1])
  }

  class TaskStore {
    var table: map<string, Row>
    var cache: map<string, Entry>
    var now: int

    ghost function Abs(): State
      reads this
    {
      State(table, cache, now)
    }

    constructor (table: map<string, Row>, now: int)
      ensures Abs() == State(table, map[], now)
    {
      this.table, cache, this.now := table, map[], now;
    }

    method GetTaskInfo(messageId: string) returns (r: Option<Row>)
      modifies this
      ensures r == Answer(old(Abs()), messageId)
      ensures Abs() == Next(old(Abs()), Read(messageId))
    {
      if messageId in cache && now < cache[messageId].expires {
        return Some(cache[messageId].row);
      }
      if messageId in table {
        r := Some(table[messageId]);
        cache := cache[messageId := Entry(r.value, now + LIFETIME)];
      } else {
        r := None;
      }
    }

    method UpdateForkState(messageId: string, pickPlace: string)
      modifies this
      ensures Abs() == Next(old(Abs()), Fork(messageId, pickPlace))
    {
      if messageId !in table {
        return;
      }
      var row := table[messageId].(pickPlace := pickPlace);
      table := table[messageId := row];
      if messageId != "" {
        cache := cache[messageId := Entry(row, now + LIFETIME)];
      }
    }
  }

  // ---------- Bounded staleness ----------

  /** At some moment of the run no more than ten seconds ago the table held this row for the message id. */
  ghost predicate HeldRecently(s: State, events: seq<Event>, id: string, row: Row) {
    exists n: nat :: HeldAt(s, events, id, row, n) && Run(s, events).now - LIFETIME <= Run(s, events[..n]).now
  }

  ghost predicate HeldAt(s: State, events: seq<Event>, id: string, row: Row, n: nat) {
    n <= |events| && id in Run(s, events[..n]).table && Run(s, events[..n]).table[id] == row
  }

  /** Every cache entry was the table's row ten seconds before it expires, at the earliest. */
  ghost predicate EntryHeld(s: State, events: seq<Event>, id: string, e: Entry) {
    exists n: nat :: HeldAt(s, events, id, e.row, n) && e.expires - LIFETIME <= Run(s, events[..n]).now
  }

  lemma EntryStaysHeld(s: State, events: seq<Event>, id: string, e: Entry)
    requires events != [] && EntryHeld(s, events[..|events| - 1], id, e)
    ensures EntryHeld(s, events, id, e)
  {
    var before := events[..|events| - 1];
    var n: nat :| HeldAt(s, before, id, e.row, n) && e.expires - LIFETIME <= Run(s, before[..n]).now;
    assert before[..n] == events[..n];
    assert HeldAt(s, events, id, e.row, n);
  }

  lemma {:induction false} EntriesHeld(s: State, events: seq<Event>)
    requires s.cache == map[]
    ensures forall id | id in Run(s, events).cache :: EntryHeld(s, events, id, Run(s, events).cache[id])
  {
    if events != [] {
      var before, e := events[..|events| - 1], events[|events| - 1];
      EntriesHeld(s, before);
      var u, v := Run(s, before), Run(s, events);
      forall id | id in v.cache
        ensures EntryHeld(s, events, id, v.cache[id])
      {
        if id in u.cache && v.cache[id] == u.cache[id] {
          EntryStaysHeld(s, events, id, v.cache[id]);
        } else {
          assert events[..|events|] == events;
          assert HeldAt(s, events, id, v.cache[id].row, |events|);
        }
      }
    }
  }

  /**
   * Whatever reads, heartbeats, cancels, insertions and deletes went before, a row that a read returns was in
   * the table for that message id at some moment of the last ten seconds.
   */
  lemma BoundedStaleness(s: State, events: seq<Event>, id: string)
    requires s.cache == map[]
    ensures var now := Run(s, events);
            Answer(now, id).Some? ==> HeldRecently(s, events, id, Answer(now, id).value)
  {
    var now := Run(s, events);
    EntriesHeld(s, events);
    if Cached(now, id).Some? {
      var e := now.cache[id];
      assert EntryHeld(s, events, id, e);
      var n: nat :| HeldAt(s, events, id, e.row, n) && e.expires - LIFETIME <= Run(s, events[..n]).now;
      assert HeldAt(s, events, id, e.row, n);
    } else if id in now.table {
      assert events[..|events|] == events;
      assert HeldAt(s, events, id, now.table[id], |events|);
    }
  }

  /** Without a live entry a read returns the row, if there is one, and goes on returning it for ten seconds. */
  lemma FirstRead(s: State, id: string, table: map<string, Row>, at: int)
    requires id !in s.cache || s.cache[id].expires <= s.now
    ensures Answer(s, id) == if id in s.table then Some(s.table[id]) else None
    ensures id in s.table && s.now <= at < s.now + 10 ==>
              Answer(Next(s, Read(id)).(table := table, now := at), id) == Some(s.table[id])
    ensures at >= s.now + 10 ==>
              Answer(Next(s, Read(id)).(table := table, now := at), id) == if id in table then Some(table[id]) else None
  {
  }

  /** A read right after a pick or place sees it, whatever was cached. */
  lemma ForkIsSeen(s: State, id: string, pickPlace: string)
    requires id in s.table && id != ""
    ensures Answer(Next(s, Fork(id, pickPlace)), id) == Some(s.table[id].(pickPlace := pickPlace))
  {
  }

  /** The bound is tight: a row deleted ten seconds ago is gone, one deleted nine seconds ago is still read. */
  lemma BoundIsTight(id: string, row: Row)
    ensures var s := State(map[id := row], map[], 0);
            && Answer(Run(s, [Read(id), Delete(id), Tick(9)]), id) == Some(row)
            && Answer(Run(s, [Read(id), Delete(id), Tick(10)]), id) == None
  {
    var s := State(map[id := row], map[], 0);
    var a, b := Read(id), Delete(id);
    forall k: nat
      ensures Run(s, [a, b, Tick(k)]) == Next(Next(Next(s, a), b), Tick(k))
    {
      assert [a, b, Tick(k)][..2] == [a, b] && [a, b][..1] == [a] && [a][..0] == [];
      assert Run(s, [a]) == Next(s, a);
      assert Run(s, [a, b]) == Next(Next(s, a), b);
    }
  }
}
