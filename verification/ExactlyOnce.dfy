/**
 * Heartbeats are repeated until the vehicle sees the reply. The tables end up as if every
 * report had been applied once: the filters decide exactly as the report history does.
 */
module ExactlyOnce {
  import opened Constants
  import opened Tables
  import opened UserTaskProxy
  import opened Wrappers

  /** A heartbeat as received: its report, whether the unlock it may need succeeds, and when. */
  datatype Received = Received(report: Report, unlocked: bool, at: int)

  datatype Effect =
    | TaskFlag(info: TaskInfo)
    | Fill(startId: nat, endId: nat)
    | Fork(taskId: nat, status: nat)

  function RunAll(p: Plant, stream: seq<Received>): Plant {
    if stream == [] then p
    else
      var m := stream[|stream| - 1];
      Heartbeat(RunAll(p, stream[..|stream| - 1]), m.report, m.unlocked, m.at)
  }

  // ---------- The collapsed stream ----------

  predicate Counts(m: Received) {
    m.report.taskFlag != 0 && !UnlockFails(m.report, m.unlocked)
  }

  /** The last (task, flag) of a device that was not a failed unlock. */
  function LastFlag(stream: seq<Received>, imei: nat): Option<TaskInfo> {
    if stream == [] then None
    else
      var m := stream[|stream| - 1];
      if m.report.imei == imei && Counts(m) then Some(Info(m.report)) else LastFlag(stream[..|stream| - 1], imei)
  }

  predicate ForkCounts(known: set<nat>, m: Received) {
    m.report.forkStatus in {1, 2} && m.report.taskId in known
  }

  predicate SameFork(m: Received, id: ForkId) {
    ForkId(m.report.imei, m.report.taskId) == id
  }

  /** The fork report that later equal ones repeat: it leads them for one key lifetime. */
  function Leader(known: set<nat>, stream: seq<Received>, id: ForkId): Option<Received> {
    if stream == [] then None
    else
      var m, before := stream[|stream| - 1], Leader(known, stream[..|stream| - 1], id);
      if SameFork(m, id) && ForkCounts(known, m) && !Repeats(before, m) then Some(m) else before
  }

  predicate Repeats(leader: Option<Received>, m: Received) {
    leader.Some? && leader.value.report.forkStatus == m.report.forkStatus
    && m.at < leader.value.at + FORK_KEY_LIFETIME
  }

  function FreshFlag(history: seq<Received>, m: Received): seq<Effect> {
    if Counts(m) && LastFlag(history, m.report.imei) != Some(Info(m.report)) then [TaskFlag(Info(m.report))] else []
  }

  predicate Fills(m: Received, startId: nat, endId: nat) {
    m.report.rowFlag == 2 && m.report.startId == startId && m.report.endId == endId
  }

  predicate FilledBefore(history: seq<Received>, startId: nat, endId: nat) {
    exists i | 0 <= i < |history| :: Fills(history[i], startId, endId)
  }

  /** A report of full columns that no earlier one names together. */
  function FreshFill(history: seq<Received>, m: Received): seq<Effect> {
    var r := m.report;
    if r.rowFlag == 2 && !FilledBefore(history, r.startId, r.endId) then [Fill(r.startId, r.endId)] else []
  }

  function FreshFork(known: set<nat>, history: seq<Received>, m: Received): seq<Effect> {
    var r := m.report;
    if ForkCounts(known, m) && !Repeats(Leader(known, history, ForkId(r.imei, r.taskId)), m)
    then [Fork(r.taskId, r.forkStatus)] else []
  }

  /** The effects of a heartbeat that the history does not already contain, in the order they happen. */
  function Fresh(known: set<nat>, history: seq<Received>, m: Received): seq<Effect> {
    FreshFlag(history, m) + FreshFill(history, m) + FreshFork(known, history, m)
  }

  /** Failed unlocks dropped and consecutive repeats of each device collapsed. */
  function Collapse(known: set<nat>, stream: seq<Received>): seq<Effect> {
    if stream == [] then []
    else Collapse(known, stream[..|stream| - 1]) + Fresh(known, stream[..|stream| - 1], stream[|stream| - 1])
  }

  function ApplyOne(db: Rows, e: Effect): Rows {
    match e
    case TaskFlag(info) => FlagEffect(db, info)
    case Fill(startId, endId) => SetColumn(SetColumn(db, startId, Goods), endId, Goods)
    case Fork(id, status) => if id in db.tasks then ForkEffect(db, id, status) else db
  }

  function Apply(db: Rows, effects: seq<Effect>): Rows {
    if effects == [] then db
    else ApplyOne(Apply(db, effects[..|effects| - 1]), effects[|effects| - 1])
  }

  // ---------- The theorem ----------

  /** The row flags that frames carry. */
  ghost predicate FramesOnly(stream: seq<Received>) {
    forall i | 0 <= i < |stream| :: stream[i].report.rowFlag in {0, 2}
  }

  predicate FullIfColumn(db: Rows, code: nat) {
    IsType(db, code, Column) ==> db.storages[code].siteStatus == Goods
  }

  /** Columns once reported full are full: no heartbeat takes one back. */
  ghost predicate ReportedFull(db: Rows, history: seq<Received>) {
    forall i | 0 <= i < |history| && history[i].report.rowFlag == 2 ::
      FullIfColumn(db, history[i].report.startId) && FullIfColumn(db, history[i].report.endId)
  }

  lemma FlagEffectKeeps(db: Rows, info: TaskInfo)
    ensures FlagEffect(db, info).tasks.Keys == db.tasks.Keys
    ensures forall c | FullIfColumn(db, c) :: FullIfColumn(FlagEffect(db, info), c)
  {
  }

  lemma ForkEffectKeeps(db: Rows, id: nat, fork: nat)
    requires id in db.tasks
    ensures ForkEffect(db, id, fork).tasks.Keys == db.tasks.Keys
    ensures forall c | FullIfColumn(db, c) :: FullIfColumn(ForkEffect(db, id, fork), c)
  {
  }

  lemma FillKeeps(db: Rows, startId: nat, endId: nat)
    ensures var d := SetColumn(SetColumn(db, startId, Goods), endId, Goods);
            && d.tasks == db.tasks && FullIfColumn(d, startId) && FullIfColumn(d, endId)
            && (forall c | FullIfColumn(db, c) :: FullIfColumn(d, c))
            && (FullIfColumn(db, startId) && FullIfColumn(db, endId) ==> d == db)
  {
  }

  // What the filters hold is what the history says.

  ghost predicate FlagsMatch(flagMap: map<nat, TaskInfo>, stream: seq<Received>) {
    forall imei :: LastFlag(stream, imei) == if imei in flagMap then Some(flagMap[imei]) else None
  }

  ghost predicate ForkMatches(keys: map<ForkId, ForkKey>, leader: Option<Received>, id: ForkId) {
    match leader
    case None => id !in keys
    case Some(m) => id in keys && keys[id] == ForkKey(m.report.forkStatus, m.at + FORK_KEY_LIFETIME)
  }

  ghost predicate ForksMatch(keys: map<ForkId, ForkKey>, known: set<nat>, stream: seq<Received>) {
    forall id :: ForkMatches(keys, Leader(known, stream, id), id)
  }

  lemma FlagHalf(db: Rows, flagMap: map<nat, TaskInfo>, history: seq<Received>, m: Received)
    requires FlagsMatch(flagMap, history) && ReportedFull(db, history)
    ensures var (d, f) := TaskUpdate(db, flagMap, m.report, m.unlocked);
            && FlagsMatch(f, history + [m])
            && ReportedFull(d, history) && d.tasks.Keys == db.tasks.Keys
            && d == Apply(db, FreshFlag(history, m))
  {
    hide FlagEffect, FullIfColumn;
    assert (history + [m])[..|history|] == history;
    FlagEffectKeeps(db, Info(m.report));
    assert RepeatsFlag(flagMap, m.report) <==> LastFlag(history, m.report.imei) == Some(Info(m.report));
    assert [TaskFlag(Info(m.report))][..0] == [];
  }

  /** The row flag has no filter, and needs none. */
  lemma RowHalf(db: Rows, history: seq<Received>, m: Received)
    requires ReportedFull(db, history) && m.report.rowFlag in {0, 2}
    ensures var d := RowEffect(db, m.report);
            && ReportedFull(d, history + [m]) && d.tasks == db.tasks
            && d == Apply(db, FreshFill(history, m))
  {
    hide SetColumn, FullIfColumn;
    var r := m.report;
    FillKeeps(db, r.startId, r.endId);
    assert [Fill(r.startId, r.endId)][..0] == [];
    if r.rowFlag == 2 && FilledBefore(history, r.startId, r.endId) {
      var i :| 0 <= i < |history| && Fills(history[i], r.startId, r.endId);
      assert FullIfColumn(db, r.startId) && FullIfColumn(db, r.endId);
    }
  }

  lemma ForkHalf(db: Rows, keys: map<ForkId, ForkKey>, history: seq<Received>, m: Received)
    requires ForksMatch(keys, db.tasks.Keys, history) && ReportedFull(db, history + [m])
    ensures var (d, k) := ForkUpdate(db, keys, m.report, m.at);
            && ForksMatch(k, db.tasks.Keys, history + [m])
            && ReportedFull(d, history + [m]) && d.tasks.Keys == db.tasks.Keys
            && d == Apply(db, FreshFork(db.tasks.Keys, history, m))
  {
    hide ForkEffect, FullIfColumn;
    var r, known := m.report, db.tasks.Keys;
    var id := ForkId(r.imei, r.taskId);
    assert (history + [m])[..|history|] == history;
    assert ForkMatches(keys, Leader(known, history, id), id);
    assert RepeatsFork(keys, r, m.at) <==> Repeats(Leader(known, history, id), m);
    assert [Fork(r.taskId, r.forkStatus)][..0] == [];
    if r.taskId in db.tasks {
      ForkEffectKeeps(db, r.taskId, r.forkStatus);
    }
    var (d, k) := ForkUpdate(db, keys, r, m.at);
    forall i
      ensures ForkMatches(k, Leader(known, history + [m], i), i)
    {
      assert ForkMatches(keys, Leader(known, history, i), i);
    }
  }

  /** One heartbeat applies exactly the fresh effects, and the filters keep matching. */
  lemma OneHeartbeat(p: Plant, history: seq<Received>, m: Received)
    requires FlagsMatch(p.flagMap, history) && ForksMatch(p.forkKeys, p.rows.tasks.Keys, history)
    requires ReportedFull(p.rows, history) && m.report.rowFlag in {0, 2}
    ensures var q := Heartbeat(p, m.report, m.unlocked, m.at);
            && FlagsMatch(q.flagMap, history + [m]) && ForksMatch(q.forkKeys, p.rows.tasks.Keys, history + [m])
            && ReportedFull(q.rows, history + [m]) && q.rows.tasks.Keys == p.rows.tasks.Keys
            && q.rows == Apply(p.rows, Fresh(p.rows.tasks.Keys, history, m))
  {
    hide TaskUpdate, RowEffect, ForkUpdate, FlagsMatch, ForksMatch, ReportedFull;
    hide FreshFlag, FreshFill, FreshFork, Apply;
    var known := p.rows.tasks.Keys;
    var (d, f) := TaskUpdate(p.rows, p.flagMap, m.report, m.unlocked);
    FlagHalf(p.rows, p.flagMap, history, m);
    RowHalf(d, history, m);
    ForkHalf(RowEffect(d, m.report), p.forkKeys, history, m);
    ApplyConcat(p.rows, FreshFlag(history, m), FreshFill(history, m));
    ApplyConcat(p.rows, FreshFlag(history, m) + FreshFill(history, m), FreshFork(known, history, m));
  }

  lemma {:induction false} ApplyConcat(db: Rows, a: seq<Effect>, b: seq<Effect>)
    ensures Apply(db, a + b) == Apply(Apply(db, a), b)
  {
    if b == [] {
      assert a + b == a;
    } else {
      assert (a + b)[..|a + b| - 1] == a + b[..|b| - 1];
      ApplyConcat(db, a, b[..|b| - 1]);
    }
  }

  /** The tables after any interleaved stream are those after the collapsed stream, with no filter at all. */
  lemma {:induction false} HeartbeatsExactlyOnce(db: Rows, stream: seq<Received>)
    requires FramesOnly(stream)
    ensures var p := RunAll(Plant(db, map[], map[]), stream);
            && p.rows == Apply(db, Collapse(db.tasks.Keys, stream))
            && ReportedFull(p.rows, stream) && p.rows.tasks.Keys == db.tasks.Keys
            && FlagsMatch(p.flagMap, stream) && ForksMatch(p.forkKeys, db.tasks.Keys, stream)
  {
    hide Heartbeat, Fresh;
    if stream != [] {
      var n := |stream| - 1;
      var p, known := RunAll(Plant(db, map[], map[]), stream[..n]), db.tasks.Keys;
      HeartbeatsExactlyOnce(db, stream[..n]);
      OneHeartbeat(p, stream[..n], stream[n]);
      assert stream[..n] + [stream[n]] == stream;
      ApplyConcat(db, Collapse(known, stream[..n]), Fresh(known, stream[..n], stream[n]));
    }
  }

  /** A heartbeat frame as it arrives. */
  datatype Arrival = Arrival(frame: Bytes, unlocked: bool, at: int)

  function Parsed(arrivals: seq<Arrival>): (stream: seq<Received>)
    ensures |stream| == |arrivals|
  {
    seq(|arrivals|, i requires 0 <= i < |arrivals| =>
      Received(ParseReport(arrivals[i].frame), arrivals[i].unlocked, arrivals[i].at))
  }

  lemma FramesCarryNoOther(arrivals: seq<Arrival>)
    ensures FramesOnly(Parsed(arrivals))
  {
    hide ParseReport;
    forall i | 0 <= i < |arrivals|
      ensures Parsed(arrivals)[i].report.rowFlag in {0, 2}
    {
      RowFlagNeverEmpties(Rows(map[], map[], map[], [], [], 0), arrivals[i].frame);
    }
  }

  /** For frames there is no condition left, on the plant or on the vehicles. */
  lemma FramesExactlyOnce(db: Rows, arrivals: seq<Arrival>)
    ensures RunAll(Plant(db, map[], map[]), Parsed(arrivals)).rows ==
            Apply(db, Collapse(db.tasks.Keys, Parsed(arrivals)))
    ensures WithinLifetime(Parsed(arrivals)) ==>
              RunAll(Plant(db, map[], map[]), Parsed(arrivals)).rows ==
              Apply(db, CollapseByLast(db.tasks.Keys, Parsed(arrivals)))
  {
    hide Parsed, WithinLifetime;
    FramesCarryNoOther(arrivals);
    HeartbeatsExactlyOnce(db, Parsed(arrivals));
    if WithinLifetime(Parsed(arrivals)) {
      ExactlyOnceWithinLifetime(db, Parsed(arrivals));
    }
  }

  // ---------- Within one key lifetime ----------

  /** The last pick or place report of a device for a task. */
  function LastFork(known: set<nat>, stream: seq<Received>, id: ForkId): Option<nat> {
    if stream == [] then None
    else
      var m := stream[|stream| - 1];
      if SameFork(m, id) && ForkCounts(known, m) then Some(m.report.forkStatus)
      else LastFork(known, stream[..|stream| - 1], id)
  }

  ghost predicate WithinLifetime(stream: seq<Received>) {
    forall i, j | 0 <= i < j < |stream| :: stream[j].at < stream[i].at + FORK_KEY_LIFETIME
  }

  lemma {:induction false} LeaderIsLast(known: set<nat>, stream: seq<Received>, id: ForkId)
    ensures match Leader(known, stream, id)
            case None => LastFork(known, stream, id) == None
            case Some(m) => m in stream && LastFork(known, stream, id) == Some(m.report.forkStatus)
  {
    if stream != [] {
      LeaderIsLast(known, stream[..|stream| - 1], id);
    }
  }

  function FreshForkByLast(known: set<nat>, history: seq<Received>, m: Received): seq<Effect> {
    var r := m.report;
    if ForkCounts(known, m) && LastFork(known, history, ForkId(r.imei, r.taskId)) != Some(r.forkStatus)
    then [Fork(r.taskId, r.forkStatus)] else []
  }

  /**
   * Failed unlocks are dropped, and a report counts only if it changes the last (task, flag) of its device or the
   * last fork state of its device and task, or is the first to name its full columns. No key and no clock is involved.
   */
  function CollapseByLast(known: set<nat>, stream: seq<Received>): seq<Effect> {
    if stream == [] then []
    else
      var history, m := stream[..|stream| - 1], stream[|stream| - 1];
      CollapseByLast(known, history)
      + FreshFlag(history, m) + FreshFill(history, m) + FreshForkByLast(known, history, m)
  }

  /** Inside one lifetime a fork report is fresh exactly when it differs from the last one of its device and task. */
  lemma ForkCollapse(known: set<nat>, stream: seq<Received>, m: Received)
    requires WithinLifetime(stream + [m])
    ensures FreshFork(known, stream, m) == FreshForkByLast(known, stream, m)
  {
    var id := ForkId(m.report.imei, m.report.taskId);
    LeaderIsLast(known, stream, id);
    var leader := Leader(known, stream, id);
    if leader.Some? {
      var i :| 0 <= i < |stream| && stream[i] == leader.value;
      assert (stream + [m])[i] == leader.value && (stream + [m])[|stream|] == m;
    }
  }

  lemma {:induction false} CollapsesAgree(known: set<nat>, stream: seq<Received>)
    requires WithinLifetime(stream)
    ensures Collapse(known, stream) == CollapseByLast(known, stream)
  {
    hide FreshFlag, FreshFill, FreshFork, FreshForkByLast;
    if stream != [] {
      var history, m := stream[..|stream| - 1], stream[|stream| - 1];
      assert history + [m] == stream;
      CollapsesAgree(known, history);
      ForkCollapse(known, history, m);
      Regroup(Collapse(known, history), FreshFlag(history, m), FreshFill(history, m), FreshFork(known, history, m));
    }
  }

  lemma Regroup(a: seq<Effect>, b: seq<Effect>, c: seq<Effect>, d: seq<Effect>)
    ensures a + (b + c + d) == a + b + c + d
  {
  }

  /** Heartbeats of one key lifetime, in whatever interleaving, act as their collapsed stream does. */
  lemma ExactlyOnceWithinLifetime(db: Rows, stream: seq<Received>)
    requires FramesOnly(stream) && WithinLifetime(stream)
    ensures RunAll(Plant(db, map[], map[]), stream).rows == Apply(db, CollapseByLast(db.tasks.Keys, stream))
  {
    HeartbeatsExactlyOnce(db, stream);
    CollapsesAgree(db.tasks.Keys, stream);
  }
}
