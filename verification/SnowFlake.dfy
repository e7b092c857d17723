/** Snowflake ids, app/utils/id_utils.py. */
module SnowFlake {
  import opened Bits
  import opened Wrappers

  const TWEPOCH := 1633881600000
  const SEQUENCE_MASK := 0xFFF

  /** `((t - TWEPOCH) << 22) | (datacenter << 17) | (worker << 12) | sequence` */
  function Compose(timestamp: int, datacenter: nat, worker: nat, sequence: nat): int {
    Or(Or(Or((timestamp - TWEPOCH) * Pow2(22), datacenter * Pow2(17)), worker * Pow2(12)), sequence)
  }

  lemma Powers()
    ensures Pow2(5) == 32 && Pow2(12) == 4096 && Pow2(17) == 131072 && Pow2(22) == 4194304
  {
    assert Pow2(5) == 32 && Pow2(7) == 128;
    Pow2Add(5, 7);
    Pow2Add(12, 5);
    Pow2Add(17, 5);
  }

  /** The OR of the shifted fields is their sum. */
  lemma ComposeIsSum(timestamp: int, datacenter: nat, worker: nat, sequence: nat)
    requires datacenter < 32 && worker < 32 && sequence < 4096
    ensures Compose(timestamp, datacenter, worker, sequence) ==
            (timestamp - TWEPOCH) * 4194304 + datacenter * 131072 + worker * 4096 + sequence
  {
    hide Or, Pow2;
    Powers();
    var t := timestamp - TWEPOCH;
    OrIsSum(t, 22, datacenter * 131072);
    var high := t * 32 + datacenter;
    assert high * 131072 == t * 4194304 + datacenter * 131072;
    OrIsSum(high, 17, worker * 4096);
    var mid := high * 32 + worker;
    assert mid * 4096 == high * 131072 + worker * 4096;
    OrIsSum(mid, 12, sequence);
  }

  /** Every field can be read back from the id. */
  lemma FieldsRecoverable(timestamp: int, datacenter: nat, worker: nat, sequence: nat)
    requires datacenter < 32 && worker < 32 && sequence < 4096
    ensures var id := Compose(timestamp, datacenter, worker, sequence);
            && id / 4194304 + 1633881600000 == timestamp
            && id / 131072 % 32 == datacenter
            && id / 4096 % 32 == worker
            && id % 4096 == sequence
  {
    hide Compose;
    ComposeIsSum(timestamp, datacenter, worker, sequence);
    Split(timestamp - TWEPOCH, datacenter, worker, sequence);
  }

  lemma Split(t: int, d: nat, w: nat, s: nat)
    requires d < 32 && w < 32 && s < 4096
    ensures var id := t * 4194304 + d * 131072 + w * 4096 + s;
            id / 4194304 == t && id / 131072 % 32 == d && id / 4096 % 32 == w && id % 4096 == s
  {
    var id := t * 4194304 + d * 131072 + w * 4096 + s;
    assert id / 4096 == t * 1024 + d * 32 + w;
    assert id / 131072 == t * 32 + d;
  }

  // ---------- The generator ----------

  /** sequence and last_timestamp */
  datatype State = State(sequence: nat, last: int)

  /** The first later reading above `last`, where the waiting loop stops. */
  function TilNextMillis(last: int, readings: seq<int>): Option<int> {
    if readings == [] then None
    else if readings[0] > last then Some(readings[0])
    else TilNextMillis(last, readings[1..])
  }

  /** The next state for a first reading and the readings the waiting loop would take; None while it still waits. */
  function Step(s: State, now: int, later: seq<int>): Option<State> {
    if s.last == now then
      var sequence := (s.sequence + 1) % 4096;
      if sequence == 0 then
        var t := TilNextMillis(s.last, later);
        if t.None? then None else Some(State(0, t.value))
      else Some(State(sequence, now))
    else Some(State(0, now))
  }

  class SnowFlakeIds {
    const workerId: nat
    const datacenterId: nat
    var sequence: nat
    var lastTimestamp: int

    ghost predicate Valid()
      reads this
    {
      workerId < 32 && datacenterId < 32 && sequence < 4096
    }

    /** Ids above 31 raise instead. */
    constructor (workerId: nat, datacenterId: nat)
      requires workerId < 32 && datacenterId < 32
      ensures Valid() && sequence == 0 && lastTimestamp == -1
      ensures this.workerId == workerId && this.datacenterId == datacenterId
    {
      this.workerId, this.datacenterId := workerId, datacenterId;
      sequence, lastTimestamp := 0, -1;
    }

    /** `now` is the first clock reading; `later` those the waiting loop takes, long enough for it to end. */
    method NextId(now: int, later: seq<int>) returns (id: int)
      requires Valid() && Step(State(sequence, lastTimestamp), now, later).Some?
      modifies this
      ensures Valid()
      ensures Some(State(sequence, lastTimestamp)) == Step(old(State(sequence, lastTimestamp)), now, later)
      ensures id == Compose(lastTimestamp, datacenterId, workerId, sequence)
    {
      var timestamp := now;
      if lastTimestamp == timestamp {
        sequence := (sequence + 1) % (SEQUENCE_MASK + 1);
        if sequence == 0 {
          timestamp := WaitNextMillis(lastTimestamp, later);
        }
      } else {
        sequence := 0;
      }
      lastTimestamp := timestamp;
      id := Compose(timestamp, datacenterId, workerId, sequence);
    }
  }

  method WaitNextMillis(last: int, readings: seq<int>) returns (ts: int)
    requires TilNextMillis(last, readings).Some?
    ensures Some(ts) == TilNextMillis(last, readings) && ts > last
  {
    var i := 0;
    ts := readings[0];
    while ts <= last
      invariant i < |readings| && ts == readings[i]
      invariant TilNextMillis(last, readings[i..]) == TilNextMillis(last, readings)
      decreases |readings| - i
    {
      assert readings[i..][1..] == readings[i + 1..];
      i := i + 1;
      ts := readings[i];
    }
  }

  // ---------- Whole runs ----------

  /** The readings of one call. */
  datatype Call = Call(now: int, later: seq<int>)

  /** The states after each call; a call that never stops waiting gives none. */
  function States(calls: seq<Call>): (r: Option<seq<State>>)
    ensures r.Some? ==> |r.value| == |calls|
  {
    if calls == [] then Some([])
    else
      var before := States(calls[..|calls| - 1]);
      if before.None? then None
      else
        var next := Step(Newest(before.value), calls[|calls| - 1].now, calls[|calls| - 1].later);
        if next.None? then None else Some(before.value + [next.value])
  }

  /** The state a new generator starts from is (0, -1). */
  function Newest(states: seq<State>): State {
    if states == [] then State(0, -1) else states[|states| - 1]
  }

  ghost predicate Below(a: State, b: State) {
    a.last < b.last || (a.last == b.last && a.sequence < b.sequence)
  }

  /** Along the run states increase, and within one millisecond the sequence counts every call. */
  ghost predicate Ascends(states: seq<State>) {
    forall i, j | 0 <= i < j < |states| ::
      && Below(states[i], states[j])
      && (states[i].last == states[j].last ==> states[j].sequence == states[i].sequence + (j - i))
  }

  /** No call first reads a clock behind the timestamp of the id before it. */
  ghost predicate ClockKeepsUp(calls: seq<Call>)
    requires States(calls).Some?
  {
    forall k | 1 <= k < |calls| :: States(calls).value[k - 1].last <= calls[k].now
  }

  function IdOf(s: State, datacenter: nat, worker: nat): int {
    Compose(s.last, datacenter, worker, s.sequence)
  }

  /** Ids of one generator are ordered as its states are. */
  lemma IdOrder(a: State, b: State, datacenter: nat, worker: nat)
    requires a.sequence < 4096 && b.sequence < 4096 && datacenter < 32 && worker < 32
    ensures IdOf(a, datacenter, worker) < IdOf(b, datacenter, worker) <==> Below(a, b)
  {
    hide Compose;
    ComposeIsSum(a.last, datacenter, worker, a.sequence);
    ComposeIsSum(b.last, datacenter, worker, b.sequence);
  }

  /** One call raises the state exactly when its first reading is not behind. */
  lemma StepRisesIff(p: State, now: int, later: seq<int>)
    requires p.sequence < 4096 && Step(p, now, later).Some?
    ensures var s := Step(p, now, later).value;
            && s.sequence < 4096
            && (Below(p, s) <==> p.last <= now)
            && (Below(p, s) && s.last == p.last ==> s.sequence == p.sequence + 1)
  {
    if p.last == now && (p.sequence + 1) % 4096 == 0 {
      TilNextIsReading(p.last, later);
    }
  }

  /** Unless the millisecond's 4096 ids are used up, an id carries the first reading of its call. */
  lemma StepTakesFirst(p: State, now: int, later: seq<int>)
    requires p.sequence < 4096 && (p.last != now || p.sequence != 4095)
    ensures Step(p, now, later).Some? && Step(p, now, later).value.last == now
    ensures Step(p, now, later).value.sequence == if p.last == now then p.sequence + 1 else 0
  {
  }

  ghost predicate Occurs(x: int, readings: seq<int>) {
    exists i :: 0 <= i < |readings| && readings[i] == x
  }

  lemma {:induction false} TilNextIsReading(last: int, readings: seq<int>)
    requires TilNextMillis(last, readings).Some?
    ensures Occurs(TilNextMillis(last, readings).value, readings) && TilNextMillis(last, readings).value > last
  {
    if readings[0] <= last {
      TilNextIsReading(last, readings[1..]);
      var i :| 0 <= i < |readings[1..]| && readings[1..][i] == TilNextMillis(last, readings).value;
      assert readings[i + 1] == TilNextMillis(last, readings).value;
    }
  }

  lemma StatesStep(calls: seq<Call>)
    requires calls != [] && States(calls).Some?
    ensures var n := |calls| - 1;
            && States(calls[..n]).Some? && States(calls).value[..n] == States(calls[..n]).value
            && Some(States(calls).value[n]) == Step(Newest(States(calls[..n]).value), calls[n].now, calls[n].later)
  {
  }

  lemma {:induction false} SequencesFit(calls: seq<Call>)
    requires States(calls).Some?
    ensures forall k | 0 <= k < |calls| :: States(calls).value[k].sequence < 4096
  {
    hide States, Step;
    if calls != [] {
      var n := |calls| - 1;
      StatesStep(calls);
      SequencesFit(calls[..n]);
      var before := States(calls[..n]).value;
      StepRisesIff(Newest(before), calls[n].now, calls[n].later);
      assert forall k | 0 <= k < n :: States(calls).value[k] == before[k];
    }
  }

  /** A state is the step from the one before it. */
  lemma {:induction false} StatesAt(calls: seq<Call>, k: nat)
    requires States(calls).Some? && 1 <= k < |calls|
    ensures Some(States(calls).value[k]) == Step(States(calls).value[k - 1], calls[k].now, calls[k].later)
    decreases |calls|
  {
    hide States, Step;
    var n := |calls| - 1;
    StatesStep(calls);
    assert forall i | 0 <= i < n :: States(calls).value[i] == States(calls[..n]).value[i];
    if k < n {
      StatesAt(calls[..n], k);
    }
  }

  /** The exact condition for one call: the id rises if and only if its clock reading is not behind. */
  lemma IdRisesIff(calls: seq<Call>, datacenter: nat, worker: nat, k: nat)
    requires States(calls).Some? && datacenter < 32 && worker < 32 && 1 <= k < |calls|
    ensures var s := States(calls).value;
            IdOf(s[k - 1], datacenter, worker) < IdOf(s[k], datacenter, worker) <==> s[k - 1].last <= calls[k].now
  {
    hide States, Step, IdOf;
    var s := States(calls).value;
    SequencesFit(calls);
    StatesAt(calls, k);
    StepRisesIff(s[k - 1], calls[k].now, calls[k].later);
    IdOrder(s[k - 1], s[k], datacenter, worker);
  }

  lemma {:induction false} RunAscends(calls: seq<Call>)
    requires States(calls).Some? && ClockKeepsUp(calls)
    ensures Ascends(States(calls).value)
  {
    hide States, Step, Ascends, Below;
    if calls == [] {
      NothingAscends();
    } else {
      var n := |calls| - 1;
      StatesStep(calls);
      var before, s := States(calls[..n]).value, States(calls).value;
      assert s == before + [s[n]];
      RunAscends(calls[..n]);
      if n > 0 {
        SequencesFit(calls[..n]);
        StepRisesIff(before[n - 1], calls[n].now, calls[n].later);
        AppendAscends(before, s[n]);
      } else {
        OneAscends(s);
      }
    }
  }

  lemma NothingAscends()
    ensures Ascends([])
  {
  }

  lemma OneAscends(states: seq<State>)
    requires |states| == 1
    ensures Ascends(states)
  {
  }

  lemma AppendAscends(states: seq<State>, s: State)
    requires states != [] && Ascends(states)
    requires var p := states[|states| - 1];
             Below(p, s) && (s.last == p.last ==> s.sequence == p.sequence + 1)
    ensures Ascends(states + [s])
  {
    var n := |states|;
    forall i | 0 <= i < n
      ensures Below(states[i], s) && (states[i].last == s.last ==> s.sequence == states[i].sequence + (n - i))
    {
    }
  }

  ghost predicate IdsAscend(calls: seq<Call>, datacenter: nat, worker: nat)
    requires States(calls).Some?
  {
    forall i, j | 0 <= i < j < |calls| ::
      IdOf(States(calls).value[i], datacenter, worker) < IdOf(States(calls).value[j], datacenter, worker)
  }

  /** The ids of one generator increase strictly over a run if and only if its clock keeps up at every call. */
  lemma IdsIncreaseIff(calls: seq<Call>, datacenter: nat, worker: nat)
    requires States(calls).Some? && datacenter < 32 && worker < 32
    ensures IdsAscend(calls, datacenter, worker) <==> ClockKeepsUp(calls)
  {
    hide States, IdOf, Below;
    var s := States(calls).value;
    if IdsAscend(calls, datacenter, worker) {
      forall k | 1 <= k < |calls|
        ensures s[k - 1].last <= calls[k].now
      {
        IdRisesIff(calls, datacenter, worker, k);
      }
    }
    if ClockKeepsUp(calls) {
      RunAscends(calls);
      SequencesFit(calls);
      forall i, j | 0 <= i < j < |calls|
        ensures IdOf(s[i], datacenter, worker) < IdOf(s[j], datacenter, worker)
      {
        IdOrder(s[i], s[j], datacenter, worker);
      }
    }
  }

  /** At most 4096 ids carry one millisecond: two such ids are fewer than 4096 calls apart. */
  lemma PerMillisecond(calls: seq<Call>, i: nat, j: nat)
    requires States(calls).Some? && ClockKeepsUp(calls) && i <= j < |calls|
    ensures States(calls).value[i].last == States(calls).value[j].last ==> j - i < 4096
  {
    hide States;
    RunAscends(calls);
    SequencesFit(calls);
  }

  // ---------- A clock that never goes back ----------

  function Readings(calls: seq<Call>): seq<int> {
    if calls == [] then []
    else Readings(calls[..|calls| - 1]) + [calls[|calls| - 1].now] + calls[|calls| - 1].later
  }

  ghost predicate Nondecreasing(readings: seq<int>) {
    forall i, j | 0 <= i < j < |readings| :: readings[i] <= readings[j]
  }

  /** Every timestamp was read from the clock. */
  lemma {:induction false} LastWasRead(calls: seq<Call>)
    requires States(calls).Some? && calls != []
    ensures Occurs(Newest(States(calls).value).last, Readings(calls))
  {
    hide States;
    var n := |calls| - 1;
    StatesStep(calls);
    var p, c, s := Newest(States(calls[..n]).value), calls[n], States(calls).value[n];
    var earlier := Readings(calls[..n]);
    assert Readings(calls)[|earlier|] == c.now;
    if s.last != c.now {
      TilNextIsReading(p.last, c.later);
      var k :| 0 <= k < |c.later| && c.later[k] == s.last;
      assert Readings(calls)[|earlier| + 1 + k] == s.last;
    }
  }

  /** Such a clock keeps up, so for it ids increase over the whole run. */
  lemma {:induction false} NondecreasingKeepsUp(calls: seq<Call>)
    requires States(calls).Some? && Nondecreasing(Readings(calls))
    ensures ClockKeepsUp(calls)
  {
    hide States;
    if calls != [] {
      var n := |calls| - 1;
      var earlier := Readings(calls[..n]);
      StatesStep(calls);
      assert forall i | 0 <= i < n :: States(calls).value[i] == States(calls[..n]).value[i];
      assert forall i | 0 <= i < |earlier| :: Readings(calls)[i] == earlier[i];
      NondecreasingKeepsUp(calls[..n]);
      if n > 0 {
        LastWasRead(calls[..n]);
        var i :| 0 <= i < |earlier| && earlier[i] == States(calls).value[n - 1].last;
        assert Readings(calls)[i] <= Readings(calls)[|earlier|] == calls[n].now;
      }
    }
  }

  lemma IdsIncrease(calls: seq<Call>, datacenter: nat, worker: nat)
    requires States(calls).Some? && Nondecreasing(Readings(calls)) && datacenter < 32 && worker < 32
    ensures IdsAscend(calls, datacenter, worker)
  {
    NondecreasingKeepsUp(calls);
    IdsIncreaseIff(calls, datacenter, worker);
  }

  /** A clock that goes back by one millisecond and returns repeats an id. */
  lemma ClockBackRepeats(t: int)
    requires t > 0
    ensures var calls := [Call(t, []), Call(t - 1, []), Call(t, [])];
            && States(calls).Some?
            && States(calls).value[0] == States(calls).value[2]
  {
    var a, b, c := Call(t, []), Call(t - 1, []), Call(t, []);
    assert [a, b, c][..2] == [a, b] && [a, b][..1] == [a] && [a][..0] == [];
    var x, y := State(0, t), State(0, t - 1);
    assert [] + [x] == [x] && [x] + [y] == [x, y];
    assert States([a]) == Some([x]);
    assert States([a, b]) == Some([x, y]);
  }
}
