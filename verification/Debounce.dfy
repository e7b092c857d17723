/** What five equal observations mean, over whole histories of the camera slots. */
module Debounce {
  import opened ByteProcess
  import opened CameraTable
  import opened StorageService
  import opened Tables
  import opened TaskOps
  import opened UserTaskProxy
  import opened Wrappers

  /** A slot of a camera. */
  datatype Slot = Slot(imei: nat, number: nat)

  function KeyOf(s: Slot): string { SlotKey(s.imei, s.number) }

  /** An observation that passed the early returns, with what the rest of the system showed it. */
  datatype Sight = Sight(slot: Slot, state: char, status: char, recent: bool, at: int, raised: bool)

  function Counters(history: seq<Sight>): map<string, Counter> {
    if history == [] then map[]
    else
      var s := history[|history| - 1];
      Count(Counters(history[..|history| - 1]), KeyOf(s.slot), s.state, s.status, s.recent, s.at, s.raised)
  }

  /** The last observation of a history changes the site. */
  predicate Applied(history: seq<Sight>)
    requires history != []
  {
    var s := history[|history| - 1];
    Applies(Counters(history[..|history| - 1]), KeyOf(s.slot), s.state, s.status, s.recent, s.at)
  }

  /** The states observed under one key, oldest first. */
  function UnderKey(history: seq<Sight>, key: string): string {
    if history == [] then ""
    else
      var s := history[|history| - 1];
      UnderKey(history[..|history| - 1], key) + if KeyOf(s.slot) == key then [s.state] else ""
  }

  /** The states observed by one slot, oldest first. */
  function BySlot(history: seq<Sight>, slot: Slot): string {
    if history == [] then ""
    else
      var s := history[|history| - 1];
      BySlot(history[..|history| - 1], slot) + if s.slot == slot then [s.state] else ""
  }

  /** How many observations at the end are equal. */
  function RunLength(s: string): (n: nat)
    ensures n <= |s| && (s != "" ==> n >= 1)
    ensures forall i | |s| - n <= i < |s| :: s[i] == s[|s| - 1]
  {
    if s == "" then 0
    else if |s| >= 2 && s[|s| - 2] == s[|s| - 1] then RunLength(s[..|s| - 1]) + 1
    else 1
  }

  /** A counter, live or expired, belongs to the last state seen under its key and is at most one above its run. */
  ghost predicate Bounded(counters: map<string, Counter>, history: seq<Sight>) {
    forall key | key in counters ::
      var seen := UnderKey(history, key);
      seen != "" && counters[key].state == seen[|seen| - 1] && counters[key].number <= RunLength(seen) + 1
  }

  lemma RunOfAppend(seen: string, state: char)
    ensures RunLength(seen + [state]) == if seen != "" && seen[|seen| - 1] == state then RunLength(seen) + 1 else 1
  {
    assert (seen + [state])[..|seen|] == seen;
  }

  lemma UnderAppend(history: seq<Sight>, key: string)
    requires history != []
    ensures var s := history[|history| - 1];
            UnderKey(history, key) ==
            UnderKey(history[..|history| - 1], key) + if KeyOf(s.slot) == key then [s.state] else ""
  {
  }

  /** One observation keeps the bound of its own key; the states it saw are `seen`. */
  lemma CountBounded(counters: map<string, Counter>, key: string, seen: string, s: Sight)
    requires key in counters ==>
               seen != "" && counters[key].state == seen[|seen| - 1] && counters[key].number <= RunLength(seen) + 1
    ensures var after := Count(counters, key, s.state, s.status, s.recent, s.at, s.raised);
            key in after ==> after[key].state == s.state && after[key].number <= RunLength(seen + [s.state]) + 1
    ensures Applies(counters, key, s.state, s.status, s.recent, s.at) ==> RunLength(seen + [s.state]) >= 5
  {
    RunOfAppend(seen, s.state);
  }

  lemma {:induction false} CountersBounded(history: seq<Sight>)
    ensures Bounded(Counters(history), history)
  {
    hide SlotKey, Count, RunLength;
    if history != [] {
      var before, s := history[..|history| - 1], history[|history| - 1];
      CountersBounded(before);
      var key := KeyOf(s.slot);
      CountBounded(Counters(before), key, UnderKey(before, key), s);
      forall k | k in Counters(history)
        ensures var seen := UnderKey(history, k);
                && seen != "" && Counters(history)[k].state == seen[|seen| - 1]
                && Counters(history)[k].number <= RunLength(seen) + 1
      {
        UnderAppend(history, k);
        assert UnderKey(before, k) + "" == UnderKey(before, k);
        OtherKeysStay(Counters(before), key, s, k);
      }
    }
  }

  lemma OtherKeysStay(counters: map<string, Counter>, key: string, s: Sight, k: string)
    ensures var after := Count(counters, key, s.state, s.status, s.recent, s.at, s.raised);
            k != key ==> (k in after <==> k in counters) && (k in counters ==> after[k] == counters[k])
  {
  }

  ghost predicate LastFiveAre(s: string, state: char) {
    |s| >= 5 && forall i | |s| - 5 <= i < |s| :: s[i] == state
  }

  /** An applied state was seen in the last five observations under its key, in every history. */
  lemma FiveEqualUnderKey(history: seq<Sight>)
    requires history != [] && Applied(history)
    ensures var s := history[|history| - 1];
            LastFiveAre(UnderKey(history, KeyOf(s.slot)), s.state)
  {
    hide SlotKey;
    var before, s := history[..|history| - 1], history[|history| - 1];
    var key := KeyOf(s.slot);
    CountersBounded(before);
    UnderAppend(history, key);
    CountBounded(Counters(before), key, UnderKey(before, key), s);
  }

  // ---------- Slots that share a key ----------

  ghost predicate Only(slots: set<Slot>, history: seq<Sight>) {
    forall i | 0 <= i < |history| :: history[i].slot in slots
  }

  /** In every history of these slots, what is applied to a slot was seen by that slot five times running. */
  ghost predicate Debounced(slots: set<Slot>) {
    forall history: seq<Sight> | history != [] && Only(slots, history) && Applied(history) ::
      var s := history[|history| - 1];
      LastFiveAre(BySlot(history, s.slot), s.state)
  }

  ghost predicate KeysDiffer(slots: set<Slot>) {
    forall a, b | a in slots && b in slots && a != b :: KeyOf(a) != KeyOf(b)
  }

  lemma {:induction false} OwnKey(slots: set<Slot>, history: seq<Sight>, slot: Slot)
    requires KeysDiffer(slots) && Only(slots, history) && slot in slots
    ensures BySlot(history, slot) == UnderKey(history, KeyOf(slot))
  {
    if history != [] {
      OwnKey(slots, history[..|history| - 1], slot);
    }
  }

  function Alternately<T>(x: T, y: T): (r: seq<T>)
    ensures |r| == 6 && forall i | 0 <= i < 6 :: r[i] == if i % 2 == 0 then x else y
  {
    [x, y, x, y, x, y]
  }

  /** Six sights, three of each slot, all of the same state. */
  function Alternating(a: Slot, b: Slot): seq<Sight> {
    Alternately(Sight(b, '1', '0', false, 0, false), Sight(a, '1', '0', false, 0, false))
  }

  lemma Prefixes<T>(s: seq<T>, n: nat)
    requires 1 <= n <= |s|
    ensures s[..n][..n - 1] == s[..n - 1] && s[..n][n - 1] == s[n - 1]
    ensures s[..n] == s[..n - 1] + [s[n - 1]]
  {
  }

  /** Each sight comes while the counter of the one before lives: within 60 seconds of the first, then 20. */
  ghost predicate Timely(history: seq<Sight>) {
    forall i | 1 <= i < |history| :: history[i].at < history[i - 1].at + if i == 1 then 60 else 20
  }

  ghost predicate AllSee(history: seq<Sight>, key: string, state: char) {
    forall i | 0 <= i < |history| ::
      KeyOf(history[i].slot) == key && history[i].state == state && history[i].status != state && !history[i].recent
  }

  lemma {:induction false} CountsUp(history: seq<Sight>, key: string, state: char, n: nat)
    requires n <= |history| && n <= 5 && AllSee(history, key, state) && Timely(history)
    ensures n > 0 ==> key in Counters(history[..n])
                      && Counters(history[..n])[key] ==
                         Counter(state, n, history[n - 1].at + if n == 1 then 60 else 20)
    ensures n == 0 ==> Counters(history[..n]) == map[]
  {
    hide SlotKey;
    if n > 0 {
      CountsUp(history, key, state, n - 1);
      assert history[..n][..n - 1] == history[..n - 1];
      assert history[..n][n - 1] == history[n - 1];
    }
  }

  /** Five timely sights of a bit that the site does not show, and the sixth is applied. */
  lemma SixthIsApplied(history: seq<Sight>, key: string, state: char)
    requires |history| == 6 && AllSee(history, key, state) && Timely(history) && history[5].status !in {'2', '3'}
    ensures Applied(history)
  {
    hide SlotKey;
    CountsUp(history, key, state, 5);
    assert history[..5] == history[..|history| - 1];
  }

  lemma BySlotAlternating(a: Slot, b: Slot)
    requires a != b
    ensures |BySlot(Alternating(a, b), a)| == 3
  {
    var h := Alternating(a, b);
    assert BySlot(h[..0], a) == "";
    assert h[..1][..0] == h[..0] && h[..2][..1] == h[..1] && h[..3][..2] == h[..2];
    assert |BySlot(h[..1], a)| == 0;
    assert |BySlot(h[..2], a)| == 1;
    assert |BySlot(h[..3], a)| == 1;
    assert h[..4][..3] == h[..3] && h[..5][..4] == h[..4] && h[..5] == h[..|h| - 1];
    assert |BySlot(h[..4], a)| == 2;
    assert |BySlot(h[..5], a)| == 2;
  }

  /** Two slots with one key share one counter: three sights of each are enough. */
  lemma SharedCounter(slots: set<Slot>, a: Slot, b: Slot)
    requires a in slots && b in slots && a != b && KeyOf(a) == KeyOf(b)
    ensures !Debounced(slots)
  {
    hide SlotKey, BySlot;
    var h := Alternating(a, b);
    SixthIsApplied(h, KeyOf(a), '1');
    BySlotAlternating(a, b);
    assert Only(slots, h);
  }

  /** Debouncing is per slot exactly when no two of the slots have the same key text. */
  lemma DebouncedIff(slots: set<Slot>)
    ensures Debounced(slots) <==> KeysDiffer(slots)
  {
    hide SlotKey, BySlot, UnderKey, Counters;
    if KeysDiffer(slots) {
      forall history: seq<Sight> | history != [] && Only(slots, history) && Applied(history)
        ensures LastFiveAre(BySlot(history, history[|history| - 1].slot), history[|history| - 1].state)
      {
        FiveEqualUnderKey(history);
        OwnKey(slots, history, history[|history| - 1].slot);
      }
    } else {
      var a, b :| a in slots && b in slots && a != b && KeyOf(a) == KeyOf(b);
      SharedCounter(slots, a, b);
    }
  }

  /** Cameras whose numbers have one length never share a key; 1 with slot 11 and 11 with slot 1 do. */
  lemma EqualWidths(slots: set<Slot>, width: nat)
    requires forall s | s in slots :: |Dec(s.imei)| == width
    ensures KeysDiffer(slots)
  {
    forall a, b | a in slots && b in slots && a != b
      ensures KeyOf(a) != KeyOf(b)
    {
      if KeyOf(a) == KeyOf(b) {
        PrefixEqual(Dec(a.imei), Dec(a.number), Dec(b.imei), Dec(b.number));
        DecInjective(a.imei, b.imei);
        DecInjective(a.number, b.number);
      }
    }
  }

  lemma AliasedSlots()
    ensures KeyOf(Slot(1, 11)) == KeyOf(Slot(11, 1))
    ensures !Debounced({Slot(1, 11), Slot(11, 1)})
  {
    assert Dec(1) == "1" && Dec(11) == "1" + "1";
    SharedCounter({Slot(1, 11), Slot(11, 1)}, Slot(1, 11), Slot(11, 1));
  }

  // ---------- Runs of the service ----------

  /** One call of `is_update_storage`. Rows, marks and set-up are whatever the rest of the system left. */
  datatype Turn = Turn(
    slot: Slot, state: char, now: int,
    rows: Rows, recent: map<nat, int>, context: Context, busy: bool)

  function Before(memory: Memory, t: Turn): World {
    World(t.rows, memory.(recent := t.recent))
  }

  function Site(memory: Memory, t: Turn): Option<nat> {
    WatchedSite(Before(memory, t), t.context, t.slot.imei, t.slot.number, t.state, t.now)
  }

  function Serve(memory: Memory, t: Turn): (World, Outcome<bool>) {
    Observe(Before(memory, t), t.context, t.busy, t.slot.imei, t.slot.number, t.state, t.now)
  }

  /** The camera's memory after a run that began with none. */
  function MemoryAfter(turns: seq<Turn>): Memory {
    if turns == [] then Memory(map[], map[], map[])
    else Serve(MemoryAfter(turns[..|turns| - 1]), turns[|turns| - 1]).0.memory
  }

  function AsSight(memory: Memory, t: Turn): Sight
    requires Site(memory, t).Some?
  {
    var code := Site(memory, t).value;
    Sight(t.slot, t.state, StatusChar(t.rows.storages[code].siteStatus),
          Recent(memory.(recent := t.recent), code, t.now), t.now,
          EditScan(t.rows, t.context, t.busy, Dec(t.slot.imei), code).1.Raises?)
  }

  /** The calls that passed the early returns, as the counters see them. */
  function Sights(turns: seq<Turn>): seq<Sight> {
    if turns == [] then []
    else
      var memory, t := MemoryAfter(turns[..|turns| - 1]), turns[|turns| - 1];
      Sights(turns[..|turns| - 1]) + if Site(memory, t).Some? then [AsSight(memory, t)] else []
  }

  /** The last call of a run changes its site. */
  predicate Acts(turns: seq<Turn>)
    requires turns != []
  {
    Serve(MemoryAfter(turns[..|turns| - 1]), turns[|turns| - 1]).1 == Value(true)
  }

  lemma UnappliedCount(counters: map<string, Counter>, key: string, state: char, status: char, recent: bool, now: int,
                       raised: bool)
    ensures !Applies(counters, key, state, status, recent, now) ==>
              Count(counters, key, state, status, recent, now, raised) ==
              Count(counters, key, state, status, recent, now, false)
  {
  }

  /** A call that passes the early returns is a sight: same counters, same decision. */
  lemma ObserveIsSight(memory: Memory, t: Turn, history: seq<Sight>)
    requires Site(memory, t).Some? && memory.counters == Counters(history)
    ensures var (v, r) := Serve(memory, t);
            var all := history + [AsSight(memory, t)];
            && v.memory.counters == Counters(all)
            && (r == Value(true) ==> Applied(all))
            && (!Applied(all) ==> r == Value(false) && v.rows == t.rows)
            && (Applied(all) && !AsSight(memory, t).raised ==> r == Value(true))
  {
    hide EditScan, Count, Applies, SlotKey, WatchedSite;
    var s := AsSight(memory, t);
    UnappliedCount(memory.counters, KeyOf(t.slot), s.state, s.status, s.recent, s.at, s.raised);
    assert (history + [s])[..|history|] == history;
  }

  /** A call stopped by an early return changes nothing. */
  lemma StoppedObservation(memory: Memory, t: Turn)
    requires Site(memory, t).None?
    ensures Serve(memory, t) == (Before(memory, t), Value(false))
  {
  }

  /** Over every run the service's counters are those of the sights. */
  lemma {:induction false} CountersOfRun(turns: seq<Turn>)
    ensures MemoryAfter(turns).counters == Counters(Sights(turns))
  {
    hide Serve, Site, AsSight, Count;
    if turns != [] {
      var memory, t := MemoryAfter(turns[..|turns| - 1]), turns[|turns| - 1];
      CountersOfRun(turns[..|turns| - 1]);
      if Site(memory, t).Some? {
        ObserveIsSight(memory, t, Sights(turns[..|turns| - 1]));
      } else {
        StoppedObservation(memory, t);
        assert Sights(turns) == Sights(turns[..|turns| - 1]);
      }
    }
  }

  /** A call that acts is the newest sight of the run, and it is applied. */
  lemma ActsIsApplied(turns: seq<Turn>)
    requires turns != [] && Acts(turns)
    ensures Sights(turns) != [] && Applied(Sights(turns))
    ensures var s, t := Sights(turns)[|Sights(turns)| - 1], turns[|turns| - 1];
            s.slot == t.slot && s.state == t.state
  {
    hide Serve, Site, Counters;
    var memory, t := MemoryAfter(turns[..|turns| - 1]), turns[|turns| - 1];
    CountersOfRun(turns[..|turns| - 1]);
    if Site(memory, t).Some? {
      ObserveIsSight(memory, t, Sights(turns[..|turns| - 1]));
    } else {
      StoppedObservation(memory, t);
    }
  }

  /** Whenever the service acts on a bit, the last five calls under its key that got that far showed the bit. */
  lemma FiveBeforeActing(turns: seq<Turn>)
    requires turns != [] && Acts(turns)
    ensures LastFiveAre(UnderKey(Sights(turns), KeyOf(turns[|turns| - 1].slot)), turns[|turns| - 1].state)
  {
    hide Sights, Acts, Applied, UnderKey;
    ActsIsApplied(turns);
    FiveEqualUnderKey(Sights(turns));
  }

  ghost predicate TurnsOf(slots: set<Slot>, turns: seq<Turn>) {
    forall i | 0 <= i < |turns| :: turns[i].slot in slots
  }

  /** In every run over these slots the service acts on a slot only after five equal sights of that slot. */
  ghost predicate ServiceDebounced(slots: set<Slot>) {
    forall turns: seq<Turn> | turns != [] && TurnsOf(slots, turns) && Acts(turns) ::
      LastFiveAre(BySlot(Sights(turns), turns[|turns| - 1].slot), turns[|turns| - 1].state)
  }

  lemma {:induction false} SightsOf(slots: set<Slot>, turns: seq<Turn>)
    requires TurnsOf(slots, turns)
    ensures Only(slots, Sights(turns))
  {
    hide Site, MemoryAfter;
    if turns != [] {
      SightsOf(slots, turns[..|turns| - 1]);
    }
  }

  /** A call for an empty site watched by this slot alone, with a device that only reports statuses. */
  function PlainTurn(s: Slot): Turn {
    var name := Dec(s.imei);
    Turn(s, '1', 0, Rows(map[7 := Storage(Empty, Single, true, 0)], map[], map[], [], [], 0), map[],
         Context(map[name := Device(true, true, true)], [Relation(name, s.number, 7)], 1), false)
  }

  lemma PlainSight(memory: Memory, s: Slot)
    requires memory.olds == map[]
    ensures Site(memory, PlainTurn(s)) == Some(7)
    ensures AsSight(memory, PlainTurn(s)) == Sight(s, '1', '0', false, 0, false)
    ensures !Applies(memory.counters, KeyOf(s), '1', '0', false, 0) ==>
              Serve(memory, PlainTurn(s)).0.memory.olds == map[]
  {
    hide SlotKey, Dec;
    var t := PlainTurn(s);
    var c := t.context;
    assert c.relations[0] == Relation(Dec(s.imei), s.number, 7);
    assert Bound(c.relations, Dec(s.imei), 7);
  }

  /** The service itself, driven by two slots of one key. */
  function AliasRun(a: Slot, b: Slot): seq<Turn> {
    Alternately(PlainTurn(b), PlainTurn(a))
  }

  lemma {:induction false} AliasRunSights(a: Slot, b: Slot, n: nat)
    requires n <= 6 && KeyOf(a) == KeyOf(b)
    ensures Sights(AliasRun(a, b)[..n]) == Alternating(a, b)[..n]
    ensures n < 6 ==> MemoryAfter(AliasRun(a, b)[..n]).olds == map[]
  {
    hide SlotKey, Dec, Serve, Site, AsSight, PlainTurn, Applies, Alternately;
    hide Counters, Sights, MemoryAfter, Timely, AllSee;
    NothingSeen();
    assert AliasRun(a, b)[..0] == [] && Alternating(a, b)[..0] == [];
    if n > 0 {
      var turns, h := AliasRun(a, b), Alternating(a, b);
      AliasRunSights(a, b, n - 1);
      var s := if n % 2 == 1 then b else a;
      var memory := MemoryAfter(turns[..n - 1]);
      Prefixes(turns, n);
      Prefixes(h, n);
      OneMoreTurn(turns[..n - 1], PlainTurn(s));
      PlainSight(memory, s);
      if n < 6 {
        CountersOfRun(turns[..n - 1]);
        AlternatingCounts(a, b, n - 1);
        TooFew(memory.counters, KeyOf(s), n - 1);
      }
    }
  }

  lemma NothingSeen()
    ensures Sights([]) == [] && MemoryAfter([]) == Memory(map[], map[], map[])
  {
  }

  lemma OneMoreTurn(turns: seq<Turn>, t: Turn)
    ensures MemoryAfter(turns + [t]) == Serve(MemoryAfter(turns), t).0.memory
    ensures Sights(turns + [t]) ==
            Sights(turns) + if Site(MemoryAfter(turns), t).Some? then [AsSight(MemoryAfter(turns), t)] else []
  {
    hide Serve, Site, AsSight;
    assert (turns + [t])[..|turns|] == turns;
  }

  lemma AlternatingCounts(a: Slot, b: Slot, n: nat)
    requires n < 5 && KeyOf(a) == KeyOf(b)
    ensures var counters := Counters(Alternating(a, b)[..n]);
            if n == 0 then counters == map[]
            else KeyOf(a) in counters && counters[KeyOf(a)].state == '1' && counters[KeyOf(a)].number == n
  {
    hide SlotKey, Counters;
    CountsUp(Alternating(a, b), KeyOf(a), '1', n);
  }

  lemma TooFew(counters: map<string, Counter>, key: string, n: nat)
    requires n < 5 && (n > 0 ==> key in counters && counters[key].state == '1' && counters[key].number == n)
    requires n == 0 ==> counters == map[]
    ensures !Applies(counters, key, '1', '0', false, 0)
  {
  }

  /** So per-slot debouncing of the service holds in all its runs exactly if the slots' keys differ. */
  lemma ServiceDebouncedIff(slots: set<Slot>)
    ensures ServiceDebounced(slots) <==> KeysDiffer(slots)
  {
    hide SlotKey, BySlot, UnderKey, Sights, Acts;
    if KeysDiffer(slots) {
      forall turns: seq<Turn> | turns != [] && TurnsOf(slots, turns) && Acts(turns)
        ensures LastFiveAre(BySlot(Sights(turns), turns[|turns| - 1].slot), turns[|turns| - 1].state)
      {
        FiveBeforeActing(turns);
        SightsOf(slots, turns);
        OwnKey(slots, Sights(turns), turns[|turns| - 1].slot);
      }
    } else {
      var a, b :| a in slots && b in slots && a != b && KeyOf(a) == KeyOf(b);
      AliasRunActs(a, b);
      BySlotAlternating(a, b);
      assert TurnsOf(slots, AliasRun(a, b));
      assert AliasRun(a, b)[5].slot == a;
    }
  }

  lemma AliasRunActs(a: Slot, b: Slot)
    requires KeyOf(a) == KeyOf(b)
    ensures Acts(AliasRun(a, b)) && Sights(AliasRun(a, b)) == Alternating(a, b)
  {
    hide SlotKey, Dec, Serve, Site, AsSight, PlainTurn;
    var turns, h := AliasRun(a, b), Alternating(a, b);
    AliasRunSights(a, b, 5);
    AliasRunSights(a, b, 6);
    assert turns[..6] == turns && h[..6] == h && turns[..|turns| - 1] == turns[..5] && h[..|h| - 1] == h[..5];
    CountersOfRun(turns[..5]);
    SixthIsApplied(h, KeyOf(a), '1');
    PlainSight(MemoryAfter(turns[..5]), a);
    assert h == h[..5] + [Sight(a, '1', '0', false, 0, false)];
    ObserveIsSight(MemoryAfter(turns[..5]), PlainTurn(a), h[..5]);
  }

  // ---------- What an applied bit brings about ----------

  /**
   * When an observation of an occupancy bit by a camera is applied, the site has the observed status or
   * is in work exactly if the camera is not numbered 0, or only reports statuses, or a task can be created.
   */
  lemma AppliedStatusIff(w: World, c: Context, busy: bool, imei: nat, number: nat, state: char, now: int)
    requires state in {'0', '1'} && Dec(imei) in c.devices && c.devices[Dec(imei)].isCamera
    requires Observe(w, c, busy, imei, number, state, now).1 == Value(true)
    ensures var v, code := Observe(w, c, busy, imei, number, state, now).0, WatchedSite(w, c, imei, number, state, now);
            && code.Some? && code.value in w.rows.storages && code.value in v.rows.storages
            && var wanted := if state == '0' then Empty else Goods;
               var after := v.rows.storages[code.value].siteStatus;
               var effective := imei != 0 || c.devices[Dec(imei)].barely
                                || CanCreate(w.rows, busy, code.value, ActFor(wanted));
               && (Reaches(after, wanted) <==> effective)
               && (effective && v.rows.tasks == w.rows.tasks ==> after == wanted)
               && (!effective ==> v.rows == w.rows)
  {
    hide EditScan, SiteOfSlot, Count, CanCreate;
    var code := WatchedSite(w, c, imei, number, state, now).value;
    CameraScan(w.rows, c, busy, Dec(imei), code);
    ZeroText(imei);
    assert Toggled(w.rows.storages[code].siteStatus) == if state == '0' then Empty else Goods;
  }

  /**
   * A heartbeat that fills a storage keeps cameras from acting on it for ten seconds, whatever they saw
   * before: the storage is full, and no observation of it within that time changes a row.
   */
  lemma FinishHoldsCameras(p: Plant, r: Report, unlocked: bool, marks: map<nat, int>, at: int,
                           w: World, c: Context, busy: bool, imei: nat, number: nat, state: char, now: int)
    requires FilledBy(p.rows, p.flagMap, r, unlocked).Some?
    requires w.memory.recent == Marked(marks, FilledBy(p.rows, p.flagMap, r, unlocked), at) && now < at + 10
    requires WatchedSite(w, c, imei, number, state, now) == FilledBy(p.rows, p.flagMap, r, unlocked)
    ensures var code := FilledBy(p.rows, p.flagMap, r, unlocked).value;
            var filled := TaskUpdate(p.rows, p.flagMap, r, unlocked).0;
            code in filled.storages && filled.storages[code].siteStatus == Goods
    ensures var (v, applied) := Observe(w, c, busy, imei, number, state, now);
            applied == Value(false) && v.rows == w.rows
  {
    hide EditScan, SlotKey, SiteOfSlot;
  }

  /**
   * A call for a slot changes rows only at a site that is bound to this camera and this slot: it writes the
   * toggled status there, or creates a task from there.
   */
  lemma ActsAtItsSite(w: World, c: Context, busy: bool, imei: nat, number: nat, state: char, now: int)
    returns (code: nat)
    ensures var v := Observe(w, c, busy, imei, number, state, now).0;
            v.rows != w.rows ==>
              && Relation(Dec(imei), number, code) in c.relations && code in w.rows.storages
              && var wanted := if w.rows.storages[code].siteStatus == Empty then Goods else Empty;
                 || v.rows == SetStatus(w.rows, code, wanted)
                 || v.rows == CreateResult(w.rows, code, if wanted == Empty then CallGoods else StoreGoods, c.autoId).0
  {
    hide SlotKey, Count, CreateResult, SetStatus, Dec;
    var site := SiteOfSlot(c.relations, Dec(imei), number);
    code := if site.Some? then site.value else 0;
    if code in w.rows.storages {
      CreateTouches(w.rows, code, ActFor(Toggled(w.rows.storages[code].siteStatus)), c.autoId);
    }
  }

  /** After acting on a bit the same bit is ignored for 240 seconds, and not longer. */
  lemma ActedIsQuiet(w: World, c: Context, busy: bool, imei: nat, number: nat, state: char, now: int,
                     rows: Rows, c': Context, busy': bool, at: int)
    requires Observe(w, c, busy, imei, number, state, now).1 == Value(true)
    ensures var v := World(rows, Observe(w, c, busy, imei, number, state, now).0.memory);
            && (at < now + 240 ==> Observe(v, c', busy', imei, number, state, at) == (v, Value(false)))
            && (at >= now + 240 ==>
                  WatchedSite(v, c', imei, number, state, at) ==
                  WatchedSite(World(rows, Memory(map[], map[], map[])), c', imei, number, state, at))
  {
    hide SlotKey, Count, EditScan;
  }

  /** Acting forgets the counter: the next action under the key takes six sights again. */
  lemma ActedForgets(w: World, c: Context, busy: bool, imei: nat, number: nat, state: char, now: int)
    requires Observe(w, c, busy, imei, number, state, now).1 == Value(true)
    ensures SlotKey(imei, number) !in Observe(w, c, busy, imei, number, state, now).0.memory.counters
  {
    hide SlotKey, EditScan;
  }

  /** A counter lives for 60 seconds after the first sight, and for 20 after every other that it counts. */
  lemma CounterLives(counters: map<string, Counter>, key: string, state: char, status: char, now: int, at: int)
    requires state != status
    ensures var first := Count(counters, key, state, status, false, now, false);
            LiveCounter(counters, key, now).None? ==>
              LiveCounter(first, key, at) == if at < now + 60 then Some(Counter(state, 1, now + 60)) else None
    ensures var c, after := LiveCounter(counters, key, now), Count(counters, key, state, status, false, now, false);
            c.Some? && c.value.state == state && c.value.number < 5 ==>
              LiveCounter(after, key, at) ==
              if at < now + 20 then Some(Counter(state, c.value.number + 1, now + 20)) else None
    ensures var c, after := LiveCounter(counters, key, now), Count(counters, key, state, status, false, now, false);
            c.Some? && c.value.state != state ==>
              LiveCounter(after, key, at) == if at < now + 20 then Some(Counter(state, 2, now + 20)) else None
  {
  }

  /** Camera 0 sees goods five times at an empty site of no template: applied, and nothing changes. */
  lemma CameraZeroIgnored(height: int)
    ensures var rows := Rows(map[7 := Storage(Empty, Single, true, height)], map[], map[], [], [], 0);
            var c := Context(map["0" := Device(true, false, true)], [Relation("0", 1, 7)], 1);
            var w := World(rows, Memory(map["01" := Counter('1', 5, 100)], map[], map[]));
            var (v, r) := Observe(w, c, false, 0, 1, '1', 0);
            r == Value(true) && v.rows == rows
  {
    var rows := Rows(map[7 := Storage(Empty, Single, true, height)], map[], map[], [], [], 0);
    var c := Context(map["0" := Device(true, false, true)], [Relation("0", 1, 7)], 1);
    var w := World(rows, Memory(map["01" := Counter('1', 5, 100)], map[], map[]));
    assert Dec(0) == "0" && Dec(1) == "1" && SlotKey(0, 1) == "01";
    assert c.relations[0] == Relation("0", 1, 7);
    assert WatchedSite(w, c, 0, 1, '1', 0) == Some(7);
    assert Bound(c.relations, "0", 7);
    assert Choose(rows, 7, StoreGoods) == None;
    assert EditScan(rows, c, false, "0", 7) == (rows, Value(NoTask));
  }

  lemma ZeroText(imei: nat)
    ensures Dec(imei) in {"", "0"} <==> imei == 0
  {
    assert Dec(0) == "0";
    if Dec(imei) == "0" {
      DecInjective(imei, 0);
    }
  }
}
