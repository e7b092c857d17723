/** Debouncing of camera reports, app/services/camera_table.py. */
module CameraTable {
  import opened Bits
  import opened ByteProcess
  import opened Constants
  import opened StorageService
  import opened Tables
  import opened TaskOps
  import opened Wrappers

  /** A counter of equal observations, with its expiry. */
  datatype Counter = Counter(state: char, number: nat, expires: int)

  datatype OldState = OldState(state: char, expires: int)

  /** The Redis keys the camera uses. A storage key marks a site whose status a task just changed. */
  datatype Memory = Memory(counters: map<string, Counter>, olds: map<string, OldState>, recent: map<nat, int>)

  datatype World = World(rows: Rows, memory: Memory)

  /** The part of `CAMERA_STATES` and `OLD_CAMERA_STATE` keys after the prefix: two numbers run together. */
  function SlotKey(imei: nat, number: nat): string { Dec(imei) + Dec(number) }

  function StatusChar(s: SiteStatus): char {
    match s
    case Empty => '0'
    case Goods => '1'
    case Outgoing => '2'
    case Incoming => '3'
  }

  // ---------- The counter ----------

  function LiveCounter(counters: map<string, Counter>, key: string, now: int): Option<Counter> {
    if key in counters && now < counters[key].expires then Some(counters[key]) else None
  }

  /** The counter as the stability test sees it: a different state restarts it. */
  function Restarted(c: Counter, state: char, now: int): Counter {
    if c.state != state then Counter(state, 1, now + 20) else c
  }

  predicate Stable(c: Counter, state: char, status: char) {
    (state == status && state == c.state) || c.number >= 5
  }

  /** Whether an observation that passed the early returns is applied. */
  predicate Applies(counters: map<string, Counter>, key: string, state: char, status: char, recent: bool, now: int) {
    var c := LiveCounter(counters, key, now);
    c.Some? && Stable(Restarted(c.value, state, now), state, status)
    && !recent && state != status && status !in {'2', '3'}
  }

  /** The counters after it; an applied observation deletes its key unless the application raised. */
  function Count(counters: map<string, Counter>, key: string, state: char, status: char, recent: bool, now: int,
                 raised: bool)
    : map<string, Counter>
  {
    var c := LiveCounter(counters, key, now);
    if c.None? then counters[key := Counter(state, 1, now + 60)]
    else
      var r := Restarted(c.value, state, now);
      var kept := if c.value.state != state then counters[key := r] else counters;
      if !Stable(r, state, status) then kept[key := Counter(state, r.number + 1, now + 20)]
      else if Applies(counters, key, state, status, recent, now) && !raised then kept - {key}
      else kept
  }

  // ---------- One slot ----------

  /** The site a slot watches, as the early returns find it. */
  function WatchedSite(w: World, c: Context, imei: nat, number: nat, state: char, now: int): (site: Option<nat>)
    ensures site.Some? ==> Enabled(w.rows, site.value)
  {
    var name, key := Dec(imei), SlotKey(imei, number);
    if name !in c.devices || !c.devices[name].isEnabled then None
    else if key in w.memory.olds && now < w.memory.olds[key].expires && w.memory.olds[key].state == state then None
    else
      var site := SiteOfSlot(c.relations, name, number);
      if site.None? || !Enabled(w.rows, site.value) then None else site
  }

  /** `get_camera_storage_info`: the first relation of the device with this order number. */
  function SiteOfSlot(relations: seq<Relation>, deviceImei: string, number: nat): (site: Option<nat>)
    ensures site.Some? ==>
              Relation(deviceImei, number, site.value) in relations && Bound(relations, deviceImei, site.value)
    ensures site.None? ==> forall r | r in relations :: !(r.deviceImei == deviceImei && r.orderNo == number)
  {
    if relations == [] then None
    else if relations[0].deviceImei == deviceImei && relations[0].orderNo == number then
      assert relations[0] == Relation(deviceImei, number, relations[0].siteCode);
      assert relations[0] in relations;
      Some(relations[0].siteCode)
    else
      assert forall r | r in relations[1..] :: r in relations;
      SiteOfSlot(relations[1..], deviceImei, number)
  }

  function Recent(m: Memory, code: nat, now: int): bool {
    code in m.recent && now < m.recent[code]
  }

  function Observe(w: World, c: Context, busy: bool, imei: nat, number: nat, state: char, now: int)
    : (World, Outcome<bool>)
  {
    var site := WatchedSite(w, c, imei, number, state, now);
    if site.None? then (w, Value(false))
    else
      var key := SlotKey(imei, number);
      var status := StatusChar(w.rows.storages[site.value].siteStatus);
      var recent := Recent(w.memory, site.value, now);
      if !Applies(w.memory.counters, key, state, status, recent, now) then
        var counters := Count(w.memory.counters, key, state, status, recent, now, false);
        (w.(memory := w.memory.(counters := counters)), Value(false))
      else
        var (d, r) := EditScan(w.rows, c, busy, Dec(imei), site.value);
        var counters := Count(w.memory.counters, key, state, status, recent, now, r.Raises?);
        if r.Raises? then (World(d, w.memory.(counters := counters)), Raises)
        else
          var olds := w.memory.olds[key := OldState(state, now + 240)];
          (World(d, w.memory.(counters := counters, olds := olds)), Value(true))
  }

  class CameraRedis {
    var memory: Memory

    constructor ()
      ensures memory == Memory(map[], map[], map[])
    {
      memory := Memory(map[], map[], map[]);
    }
  }

  /** Returns whether the observation was applied. */
  method IsUpdateStorage(session: Session, redis: CameraRedis, ops: TaskOpService, c: Context,
                         imei: nat, number: nat, state: char, now: int) returns (r: Outcome<bool>)
    modifies session, redis, ops
    ensures ops.deviceBusy == old(ops.deviceBusy)
    ensures (World(session.rows, redis.memory), r) ==
            Observe(old(World(session.rows, redis.memory)), c, Form(Some(Dec(imei))) in ops.deviceBusy,
                    imei, number, state, now)
  {
    hide EditScan;
    var name, key := Dec(imei), SlotKey(imei, number);
    if name !in c.devices || !c.devices[name].isEnabled {
      return Value(false);
    }
    if key in redis.memory.olds && now < redis.memory.olds[key].expires && redis.memory.olds[key].state == state {
      return Value(false);
    }
    var site := SiteOfSlot(c.relations, name, number);
    if site.None? || site.value !in session.rows.storages || !session.rows.storages[site.value].isEnabled {
      return Value(false);
    }
    var status := StatusChar(session.rows.storages[site.value].siteStatus);
    if key !in redis.memory.counters || now >= redis.memory.counters[key].expires {
      redis.memory := redis.memory.(counters := redis.memory.counters[key := Counter(state, 1, now + 60)]);
      return Value(false);
    }
    var cam := redis.memory.counters[key];
    if cam.state != state {
      cam := Counter(state, 1, now + 20);
      redis.memory := redis.memory.(counters := redis.memory.counters[key := cam]);
    }
    var stable := (state == status && state == cam.state) || cam.number >= 5;
    if !stable {
      redis.memory := redis.memory.(counters := redis.memory.counters[key := Counter(state, cam.number + 1, now + 20)]);
      return Value(false);
    }
    if site.value in redis.memory.recent && now < redis.memory.recent[site.value] {
      return Value(false);
    }
    if state == status || status == '2' || status == '3' {
      return Value(false);
    }
    var reply := EditScanStorageStatus(session, ops, c, name, site.value);
    if reply.Raises? {
      return Raises;
    }
    redis.memory := redis.memory.(olds := redis.memory.olds[key := OldState(state, now + 240)]);
    redis.memory := redis.memory.(counters := redis.memory.counters - {key});
    r := Value(true);
  }

  // ---------- All slots of a report ----------

  /** Binary digits without leading zeros, `bin(n)[2:]`. */
  function Bin(n: nat): (s: string)
    ensures s != ""
  {
    if n == 0 then "0" else if n == 1 then "1" else Bin(n / 2) + [if n % 2 == 1 then '1' else '0']
  }

  /** `s.zfill(count)[-count:]` */
  function LastChars(s: string, count: nat): (r: string)
    ensures |r| == count
  {
    if |s| >= count then s[|s| - count..] else seq(count - |s|, _ => '0') + s
  }

  function SlotState(n: nat, slot: nat): char
    requires slot >= 1
  {
    if n / Pow2(slot - 1) % 2 == 1 then '1' else '0'
  }

  lemma {:induction false} BinDigit(n: nat, k: nat)
    ensures (if k < |Bin(n)| then Bin(n)[|Bin(n)| - 1 - k] else '0') == SlotState(n, k + 1)
    decreases k
  {
    if n <= 1 {
      assert k > 0 ==> Pow2(k) >= 2;
      if k > 0 {
        SmallQuotient(n, Pow2(k));
      }
    } else if k > 0 {
      BinDigit(n / 2, k - 1);
      HalveThenDivide(n, Pow2(k - 1));
    }
  }

  lemma SmallQuotient(n: nat, d: nat)
    requires n < d
    ensures n / d == 0
  {
    DivUnique(n, d, 0, n);
  }

  /** The character the loop hands to slot k is bit k - 1 of the report. */
  lemma SlotBit(n: nat, count: nat, slot: nat)
    requires 1 <= slot <= count
    ensures LastChars(Bin(n), count)[count - slot] == SlotState(n, slot)
  {
    BinDigit(n, slot - 1);
  }

  function ObserveAll(w: World, c: Context, busy: bool, imei: nat, n: nat, slots: nat, now: int): (World, bool) {
    if slots == 0 then (w, false)
    else
      var (v, raised) := ObserveAll(w, c, busy, imei, n, slots - 1, now);
      if raised then (v, true)
      else
        var (u, r) := Observe(v, c, busy, imei, slots, SlotState(n, slots), now);
        (u, r.Raises?)
  }

  /** Slot 1 is the lowest bit; an exception ends the report. */
  method AnalyzingStorageState(session: Session, redis: CameraRedis, ops: TaskOpService, c: Context,
                               imei: nat, count: int, state: Option<Bytes>, now: int) returns (raised: bool)
    modifies session, redis, ops
    ensures ops.deviceBusy == old(ops.deviceBusy)
    ensures (World(session.rows, redis.memory), raised) ==
            if count < 1 then (old(World(session.rows, redis.memory)), false)
            else ObserveAll(old(World(session.rows, redis.memory)), c, Form(Some(Dec(imei))) in ops.deviceBusy, imei,
                            BytesToInt(state, 4), count, now)
  {
    hide Observe, ObserveAll, LastChars, Bin, SlotState, BytesToInt;
    if count < 1 {
      return false;
    }
    var n := BytesToInt(state, 4);
    var allState := LastChars(Bin(n), count);
    ghost var w, busy := World(session.rows, redis.memory), Form(Some(Dec(imei))) in ops.deviceBusy;
    var index := 1;
    var i: int := count;
    ObserveNone(w, c, busy, imei, n, now);
    while i > 0
      invariant 0 <= i <= count && index == count - i + 1
      invariant ops.deviceBusy == old(ops.deviceBusy)
      invariant (World(session.rows, redis.memory), false) == ObserveAll(w, c, busy, imei, n, index - 1, now)
    {
      SlotBit(n, count, index);
      ObserveNext(w, c, busy, imei, n, index, now);
      var r := IsUpdateStorage(session, redis, ops, c, imei, index, allState[i - 1], now);
      if r.Raises? {
        RaisedEnds(w, c, busy, imei, n, index, count, now);
        return true;
      }
      index := index + 1;
      i := i - 1;
    }
    raised := false;
  }

  lemma ObserveNone(w: World, c: Context, busy: bool, imei: nat, n: nat, now: int)
    ensures ObserveAll(w, c, busy, imei, n, 0, now) == (w, false)
  {
  }

  lemma ObserveNext(w: World, c: Context, busy: bool, imei: nat, n: nat, slot: nat, now: int)
    requires slot >= 1 && !ObserveAll(w, c, busy, imei, n, slot - 1, now).1
    ensures var v := ObserveAll(w, c, busy, imei, n, slot - 1, now).0;
            var (u, r) := Observe(v, c, busy, imei, slot, SlotState(n, slot), now);
            ObserveAll(w, c, busy, imei, n, slot, now) == (u, r.Raises?)
  {
    hide Observe, SlotState;
  }

  lemma {:induction false} RaisedEnds(w: World, c: Context, busy: bool, imei: nat, n: nat, slots: nat, count: nat,
                                     now: int)
    requires slots <= count && ObserveAll(w, c, busy, imei, n, slots, now).1
    ensures ObserveAll(w, c, busy, imei, n, count, now) == ObserveAll(w, c, busy, imei, n, slots, now)
    decreases count
  {
    if slots < count {
      RaisedEnds(w, c, busy, imei, n, slots, count - 1, now);
    }
  }
}
