/** What a heartbeat does to the tables, app/services/user_task_proxy.py. */
module UserTaskProxy {
  import opened Bits
  import opened ByteProcess
  import opened Constants
  import opened Tables
  import opened Wrappers

  const FORK_KEY_LIFETIME := 86400
  const MARK_LIFETIME := 10

  /** The fields of a heartbeat frame that reach the tables. */
  datatype Report = Report(
    imei: nat, taskId: nat, taskFlag: nat, forkStatus: nat,
    rowFlag: nat, startId: nat, endId: nat, locked: bool)

  function ParseReport(frame: Bytes): Report {
    var consistent := Field(frame, 120, 121);
    Report(Field(frame, 8, 12), Field(frame, 4, 8), Field(frame, 31, 32) / 16 % 256, Field(frame, 30, 31) % 4,
           And(consistent / 2, 2), Field(frame, 15, 18), Field(frame, 18, 21), consistent / 8 % 2 == 1)
  }

  function Three(frame: Bytes, at: nat): nat
    requires at + 3 <= |frame|
  {
    0x1_0000 * (frame[at] as int) + 0x100 * (frame[at + 1] as int) + frame[at + 2] as int
  }

  function Four(frame: Bytes, at: nat): nat
    requires at + 4 <= |frame|
  {
    0x100_0000 * (frame[at] as int) + Three(frame, at + 1)
  }

  /** Where a heartbeat keeps its fields, byte by byte. */
  lemma ReportFields(frame: Bytes)
    requires |frame| >= 121
    ensures var r := ParseReport(frame);
            && r.taskId == Four(frame, 4) && r.imei == Four(frame, 8)
            && r.startId == Three(frame, 15) && r.endId == Three(frame, 18)
            && r.forkStatus == frame[30] as int % 4 && r.taskFlag == frame[31] as int / 16
            && r.rowFlag == 2 * (frame[120] as int / 4 % 2) && (r.locked <==> frame[120] as int / 8 % 2 == 1)
  {
    hide And;
    AndTwo(Field(frame, 120, 121) / 2);
    assert frame[4..8] == [frame[4], frame[5], frame[6], frame[7]];
    assert frame[8..12] == [frame[8], frame[9], frame[10], frame[11]];
    assert frame[15..18] == [frame[15], frame[16], frame[17]];
    assert frame[18..21] == [frame[18], frame[19], frame[20]];
    assert frame[30..31] == [frame[30]] && frame[31..32] == [frame[31]] && frame[120..121] == [frame[120]];
  }

  /** A frame built for a task and a vehicle is understood as theirs. */
  lemma ReportNames(id: int, imei: int, rest: Bytes)
    ensures var r := ParseReport(FRAME_RECV_HEAD + IntToBytes(id, 4) + IntToBytes(imei, 4) + rest);
            r.taskId == id % 0x1_0000_0000 && r.imei == imei % 0x1_0000_0000
  {
    hide IntToBytes, Field;
    var a, b := IntToBytes(id, 4), IntToBytes(imei, 4);
    FieldSize(id, 4);
    FieldSize(imei, 4);
    var frame := FRAME_RECV_HEAD + a + b + rest;
    assert frame == FRAME_RECV_HEAD + a + (b + rest);
    FieldAt(FRAME_RECV_HEAD, id, 4, b + rest);
    assert frame == (FRAME_RECV_HEAD + a) + b + rest;
    FieldAt(FRAME_RECV_HEAD + a, imei, 4, rest);
  }

  datatype TaskInfo = TaskInfo(taskId: nat, taskFlag: nat)

  datatype ForkId = ForkId(imei: nat, taskId: nat)

  datatype ForkKey = ForkKey(status: nat, expires: int)

  function Info(r: Report): TaskInfo { TaskInfo(r.taskId, r.taskFlag) }

  // ---------- Effects on the tables ----------

  /** `update_by_example` on send_flag: no row, no change. */
  function SetFlag(db: Rows, id: nat, flag: SendFlag): Rows {
    if id in db.tasks then db.(tasks := db.tasks[id := db.tasks[id].(sendFlag := flag)]) else db
  }

  function SetStatus(db: Rows, code: nat, status: SiteStatus): Rows {
    if code in db.storages then db.(storages := db.storages[code := db.storages[code].(siteStatus := status)]) else db
  }

  /** A site column that is None or 0 counts as absent. */
  predicate Truthy(site: Option<nat>) {
    site.Some? && site.value != 0
  }

  predicate IsType(db: Rows, code: nat, t: SiteType) {
    code in db.storages && db.storages[code].siteType == t
  }

  /** Finish: the end storage is full, or an incoming column is open again. */
  function Finish(db: Rows, id: nat): Rows {
    var d := SetFlag(db, id, Completed);
    if id !in d.tasks || !Truthy(d.tasks[id].endSite) || d.tasks[id].endHandel != "2" then d
    else
      var code := d.tasks[id].endSite.value;
      if IsType(d, code, Single) then SetStatus(d, code, Goods)
      else if IsType(d, code, Column) && d.storages[code].siteStatus == Incoming then SetStatus(d, code, Empty)
      else d
  }

  function FlagEffect(db: Rows, info: TaskInfo): Rows {
    match info.taskFlag
    case 1 => Finish(db, info.taskId)
    case 2 => SetFlag(db, info.taskId, Executing)
    case 3 => SetFlag(db, info.taskId, ExecFailed)
    case 4 => SetFlag(db, info.taskId, Cancelled)
    case _ => db
  }

  function SetSite(db: Rows, site: Option<nat>, status: SiteStatus): Rows {
    if Truthy(site) && IsType(db, site.value, Single) then SetStatus(db, site.value, status) else db
  }

  /** 1: picked, the start is empty. 2: placed, the end is full. */
  function ForkEffect(db: Rows, id: nat, fork: nat): Rows
    requires id in db.tasks
  {
    var t := db.tasks[id];
    if fork == 1 then
      SetSite(db.(tasks := db.tasks[id := t.(pickPlace := Picked)]), t.startSite, Empty)
    else if fork == 2 then
      SetSite(db.(tasks := db.tasks[id := t.(pickPlace := Placed)]), t.endSite, Goods)
    else db
  }

  function SetColumn(db: Rows, code: nat, status: SiteStatus): Rows {
    if IsType(db, code, Column) then SetStatus(db, code, status) else db
  }

  /** Flag 1 empties both columns, flag 2 fills them. */
  function RowEffect(db: Rows, r: Report): Rows {
    if r.rowFlag in {1, 2} then
      var status := if r.rowFlag == 1 then Empty else Goods;
      SetColumn(SetColumn(db, r.startId, status), r.endId, status)
    else db
  }

  /** The mask keeps bit 2 of the flag byte: the flag is 0 or 2, so it never empties a storage. */
  lemma RowFlagNeverEmpties(db: Rows, frame: Bytes)
    ensures ParseReport(frame).rowFlag == 2 * (Field(frame, 120, 121) / 4 % 2)
    ensures forall c | c in db.storages && db.storages[c].siteStatus != Empty ::
              c in RowEffect(db, ParseReport(frame)).storages
              && RowEffect(db, ParseReport(frame)).storages[c].siteStatus != Empty
  {
    hide Field, And;
    AndTwo(Field(frame, 120, 121) / 2);
  }

  // ---------- One heartbeat ----------

  /** Flags 1, 3 and 4 first unlock the keyboard of a locked vehicle, and stop when that fails. */
  predicate UnlockFails(r: Report, unlocked: bool) {
    r.taskFlag in {1, 3, 4} && r.locked && !unlocked
  }

  predicate RepeatsFlag(flagMap: map<nat, TaskInfo>, r: Report) {
    r.imei in flagMap && flagMap[r.imei] == Info(r)
  }

  function TaskUpdate(db: Rows, flagMap: map<nat, TaskInfo>, r: Report, unlocked: bool): (Rows, map<nat, TaskInfo>) {
    if r.taskFlag == 0 || UnlockFails(r, unlocked) || RepeatsFlag(flagMap, r) then (db, flagMap)
    else (FlagEffect(db, Info(r)), flagMap[r.imei := Info(r)])
  }

  /** The single storage that a finish fills, if any. */
  function FilledBy(db: Rows, flagMap: map<nat, TaskInfo>, r: Report, unlocked: bool): Option<nat> {
    if r.taskFlag != 1 || UnlockFails(r, unlocked) || RepeatsFlag(flagMap, r) || r.taskId !in db.tasks then None
    else
      var t := db.tasks[r.taskId];
      if Truthy(t.endSite) && t.endHandel == "2" && IsType(db, t.endSite.value, Single) then t.endSite else None
  }

  /** A finish marks the storage it fills for ten seconds. */
  function Marked(marks: map<nat, int>, site: Option<nat>, now: int): map<nat, int> {
    if site.Some? then marks[site.value := now + MARK_LIFETIME] else marks
  }

  predicate Live(keys: map<ForkId, ForkKey>, id: ForkId, now: int) {
    id in keys && now < keys[id].expires
  }

  predicate RepeatsFork(keys: map<ForkId, ForkKey>, r: Report, now: int) {
    var id := ForkId(r.imei, r.taskId);
    Live(keys, id, now) && keys[id].status == r.forkStatus
  }

  function ForkUpdate(db: Rows, keys: map<ForkId, ForkKey>, r: Report, now: int): (Rows, map<ForkId, ForkKey>) {
    if r.forkStatus == 0 || RepeatsFork(keys, r, now) || r.taskId !in db.tasks || r.forkStatus !in {1, 2}
    then (db, keys)
    else (ForkEffect(db, r.taskId, r.forkStatus),
          keys[ForkId(r.imei, r.taskId) := ForkKey(r.forkStatus, now + FORK_KEY_LIFETIME)])
  }

  /** The row flag first, without any filter, then the fork state. */
  function StorageUpdate(db: Rows, keys: map<ForkId, ForkKey>, r: Report, now: int): (Rows, map<ForkId, ForkKey>) {
    ForkUpdate(RowEffect(db, r), keys, r, now)
  }

  // ---------- What one heartbeat does, in its bytes ----------

  /** The task flag of the frame is not applied: none, a failed unlock, or what the vehicle said last. */
  predicate FlagIgnored(flagMap: map<nat, TaskInfo>, frame: Bytes, unlocked: bool)
    requires |frame| >= 121
  {
    var flag, imei := frame[31] as int / 16, Four(frame, 8);
    || flag == 0
    || ((flag == 1 || flag == 3 || flag == 4) && frame[120] as int / 8 % 2 == 1 && !unlocked)
    || (imei in flagMap && flagMap[imei].taskId == Four(frame, 4) && flagMap[imei].taskFlag == flag)
  }

  function FlagMeans(flag: nat, before: SendFlag): SendFlag {
    if flag == 1 then Completed
    else if flag == 2 then Executing
    else if flag == 3 then ExecFailed
    else if flag == 4 then Cancelled
    else before
  }

  /** A finished task that puts its goods down: a single end storage is full, an incoming column open again. */
  function StatusAfterFinish(db: Rows, t: UserTask, code: nat): SiteStatus
    requires code in db.storages
  {
    var s := db.storages[code];
    if t.endSite == Some(code) && code != 0 && t.endHandel == "2" then
      if s.siteType == Single then Goods else if s.siteStatus == Incoming then Empty else s.siteStatus
    else s.siteStatus
  }

  /** Each flag writes its send_flag, and flag 1 also the end storage; no other row changes. */
  ghost predicate FlagWrites(db: Rows, d: Rows, id: nat, flag: nat) {
    && d.tasks.Keys == db.tasks.Keys && d.storages.Keys == db.storages.Keys
    && (forall o | o in db.tasks && o != id :: d.tasks[o] == db.tasks[o])
    && (id in db.tasks ==> d.tasks[id] == db.tasks[id].(sendFlag := FlagMeans(flag, db.tasks[id].sendFlag)))
    && (forall c | c in db.storages ::
          d.storages[c] == db.storages[c].(siteStatus :=
            if flag == 1 && id in db.tasks then StatusAfterFinish(db, db.tasks[id], c) else db.storages[c].siteStatus))
  }

  lemma FinishWrites(db: Rows, id: nat)
    ensures FlagWrites(db, Finish(db, id), id, 1)
  {
  }

  lemma SetFlagWrites(db: Rows, id: nat, flag: nat)
    requires flag > 1
    ensures FlagWrites(db, SetFlag(db, id, FlagMeans(flag, Created)), id, flag) || flag > 4
    ensures flag > 4 ==> FlagWrites(db, db, id, flag)
  {
  }

  lemma FlagApplied(db: Rows, flagMap: map<nat, TaskInfo>, frame: Bytes, unlocked: bool)
    requires |frame| >= 121
    ensures var (d, f) := TaskUpdate(db, flagMap, ParseReport(frame), unlocked);
            if FlagIgnored(flagMap, frame, unlocked) then d == db && f == flagMap
            else
              && FlagWrites(db, d, Four(frame, 4), frame[31] as int / 16)
              && f == flagMap[Four(frame, 8) := TaskInfo(Four(frame, 4), frame[31] as int / 16)]
  {
    hide ParseReport, Four, Finish, SetFlag, FlagWrites;
    ReportFields(frame);
    var id, flag := Four(frame, 4), frame[31] as int / 16;
    FinishWrites(db, id);
    if flag > 1 {
      SetFlagWrites(db, id, flag);
    }
  }

  /** Fork state 1 empties the start and 2 fills the end, for a task that is known; the key then holds for a day. */
  lemma ForkApplied(db: Rows, keys: map<ForkId, ForkKey>, frame: Bytes, now: int)
    requires |frame| >= 121
    ensures var id, fork := Four(frame, 4), frame[30] as int % 4;
            var key := ForkId(Four(frame, 8), id);
            var (d, k) := ForkUpdate(db, keys, ParseReport(frame), now);
            if fork !in {1, 2} || id !in db.tasks
               || (key in keys && now < keys[key].expires && keys[key].status == fork)
            then d == db && k == keys
            else
              && k == keys[key := ForkKey(fork, now + 86400)]
              && d.tasks == db.tasks[id := db.tasks[id].(pickPlace := if fork == 1 then Picked else Placed)]
              && d.storages.Keys == db.storages.Keys
              && var site := if fork == 1 then db.tasks[id].startSite else db.tasks[id].endSite;
                 forall c | c in db.storages ::
                   d.storages[c] ==
                   if site == Some(c) && c != 0 && db.storages[c].siteType == Single
                   then db.storages[c].(siteStatus := if fork == 1 then Empty else Goods) else db.storages[c]
  {
    hide ParseReport, Four;
    ReportFields(frame);
  }

  /** Redis, as far as heartbeats use it: the fork keys, the marks of changed storages and the clock. */
  class RedisStore {
    var forkKeys: map<ForkId, ForkKey>
    var marks: map<nat, int>
    var now: int

    constructor (now: int)
      ensures forkKeys == map[] && marks == map[] && this.now == now
    {
      forkKeys, marks, this.now := map[], map[], now;
    }

    method GetFork(id: ForkId) returns (status: Option<nat>)
      ensures status == if Live(forkKeys, id, now) then Some(forkKeys[id].status) else None
    {
      status := if id in forkKeys && now < forkKeys[id].expires then Some(forkKeys[id].status) else None;
    }

    method SetFork(id: ForkId, status: nat, expires: int)
      modifies `forkKeys
      ensures forkKeys == old(forkKeys)[id := ForkKey(status, now + expires)]
    {
      forkKeys := forkKeys[id := ForkKey(status, now + expires)];
    }

    method SetMark(site: nat, expires: int)
      modifies `marks
      ensures marks == old(marks)[site := now + expires]
    {
      marks := marks[site := now + expires];
    }
  }

  class UserTaskProxyService {
    var flagMap: map<nat, TaskInfo>

    constructor ()
      ensures flagMap == map[]
    {
      flagMap := map[];
    }

    method IsUpdateDb(r: Report) returns (update: bool)
      modifies this
      ensures update == !RepeatsFlag(old(flagMap), r)
      ensures flagMap == old(flagMap)[r.imei := Info(r)]
    {
      if r.imei in flagMap && flagMap[r.imei].taskId == r.taskId && flagMap[r.imei].taskFlag == r.taskFlag {
        assert flagMap == flagMap[r.imei := Info(r)];
        return false;
      }
      flagMap := flagMap[r.imei := Info(r)];
      update := true;
    }

    /** `unlocked`: whether the vehicle acknowledges the unlock command, if one is sent. */
    method UpdateTask(session: Session, redis: RedisStore, r: Report, unlocked: bool)
      modifies this, session, redis`marks
      ensures (session.rows, flagMap) == TaskUpdate(old(session.rows), old(flagMap), r, unlocked)
      ensures redis.marks ==
              Marked(old(redis.marks), FilledBy(old(session.rows), old(flagMap), r, unlocked), redis.now)
    {
      if r.taskFlag == 0 {
        return;
      }
      if (r.taskFlag == 1 || r.taskFlag == 3 || r.taskFlag == 4) && r.locked && !unlocked {
        return;
      }
      ghost var before := flagMap;
      var update := IsUpdateDb(r);
      if !update {
        assert flagMap == before;
        return;
      }
      if r.taskFlag == 1 {
        session.rows := SetFlag(session.rows, r.taskId, Completed);
        if r.taskId in session.rows.tasks {
          var ut := session.rows.tasks[r.taskId];
          if Truthy(ut.endSite) && ut.endHandel == "2" && ut.endSite.value in session.rows.storages {
            var s := session.rows.storages[ut.endSite.value];
            if s.siteType == Single {
              session.rows := SetStatus(session.rows, ut.endSite.value, Goods);
              redis.SetMark(ut.endSite.value, MARK_LIFETIME);
            } else if s.siteType == Column && s.siteStatus == Incoming {
              session.rows := SetStatus(session.rows, ut.endSite.value, Empty);
            }
          }
        }
      } else if r.taskFlag == 2 {
        session.rows := SetFlag(session.rows, r.taskId, Executing);
      } else if r.taskFlag == 3 {
        session.rows := SetFlag(session.rows, r.taskId, ExecFailed);
      } else if r.taskFlag == 4 {
        session.rows := SetFlag(session.rows, r.taskId, Cancelled);
      }
    }

    method UpdateStorageState(session: Session, redis: RedisStore, r: Report)
      modifies session, redis`forkKeys
      ensures (session.rows, redis.forkKeys) == StorageUpdate(old(session.rows), old(redis.forkKeys), r, redis.now)
    {
      if r.rowFlag == 1 || r.rowFlag == 2 {
        var status := if r.rowFlag == 1 then Empty else Goods;
        session.rows := SetColumn(session.rows, r.startId, status);
        session.rows := SetColumn(session.rows, r.endId, status);
      }
      if r.forkStatus == 0 {
        return;
      }
      var id := ForkId(r.imei, r.taskId);
      var action := redis.GetFork(id);
      if action == Some(r.forkStatus) {
        return;
      }
      if r.taskId !in session.rows.tasks {
        return;
      }
      var t := session.rows.tasks[r.taskId];
      if r.forkStatus == 1 {
        session.rows := session.rows.(tasks := session.rows.tasks[r.taskId := t.(pickPlace := Picked)]);
        session.rows := SetSite(session.rows, t.startSite, Empty);
        redis.SetFork(id, r.forkStatus, FORK_KEY_LIFETIME);
      } else if r.forkStatus == 2 {
        session.rows := session.rows.(tasks := session.rows.tasks[r.taskId := t.(pickPlace := Placed)]);
        session.rows := SetSite(session.rows, t.endSite, Goods);
        redis.SetFork(id, r.forkStatus, FORK_KEY_LIFETIME);
      }
    }

    /** One heartbeat frame: the task flag first, then the fork state. */
    method ProcessHeartbeat(session: Session, redis: RedisStore, frame: Bytes, unlocked: bool)
      modifies this, session, redis`forkKeys, redis`marks
      ensures Plant(session.rows, flagMap, redis.forkKeys) ==
              Heartbeat(old(Plant(session.rows, flagMap, redis.forkKeys)), ParseReport(frame), unlocked, redis.now)
      ensures redis.marks ==
              Marked(old(redis.marks), FilledBy(old(session.rows), old(flagMap), ParseReport(frame), unlocked),
                     redis.now)
    {
      var r := ParseReport(frame);
      UpdateTask(session, redis, r, unlocked);
      UpdateStorageState(session, redis, r);
    }
  }

  /** The tables together with both repeat filters. */
  datatype Plant = Plant(rows: Rows, flagMap: map<nat, TaskInfo>, forkKeys: map<ForkId, ForkKey>)

  function Heartbeat(p: Plant, r: Report, unlocked: bool, now: int): Plant {
    var (d, f) := TaskUpdate(p.rows, p.flagMap, r, unlocked);
    var (e, k) := StorageUpdate(d, p.forkKeys, r, now);
    Plant(e, f, k)
  }
}
