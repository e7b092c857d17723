/** Conservation of goods along the runs of Reservation. */
module GoodsAccount {
  import opened Dispatch
  import opened Reservation
  import opened Tables
  import opened TaskOps
  import opened UserTaskProxy
  import opened UserTasks
  import opened Wrappers

  predicate InStock(s: Storage) {
    s.siteStatus == Goods || s.siteStatus == Outgoing
  }

  predicate OnFork(t: UserTask) {
    Active(t) && t.pickPlace == Picked
  }

  function Stock(storages: map<nat, Storage>): set<nat> {
    set c | c in storages && InStock(storages[c])
  }

  function Carried(tasks: map<nat, UserTask>): set<nat> {
    set id | id in tasks && OnFork(tasks[id])
  }

  /** Storages with goods plus unfinished tasks whose vehicle carries goods. */
  function GoodsCount(db: Rows): nat {
    |Stock(db.storages)| + |Carried(db.tasks)|
  }

  function Bit(b: bool): int { if b then 1 else 0 }

  /**
   * How much one event changes the count: an arrival or removal announced on creation, or the end of a task
   * whose goods are on the fork.
   */
  function Delta(w: World, e: Event): int {
    var db := w.plant.rows;
    match e
    case Create(code, act, autoId) =>
      if CreateResult(db, code, act, autoId).1 != Value(true) || code !in db.storages then 0
      else if act == StoreGoods then Bit(!InStock(db.storages[code]))
      else -Bit(InStock(db.storages[code]))
    case Beat(r, unlocked) =>
      if r.taskFlag in {3, 4} && !UnlockFails(r, unlocked) && !RepeatsFlag(w.plant.flagMap, r)
         && r.taskId in db.tasks && OnFork(db.tasks[r.taskId])
      then -1 else 0
    case Set(memory, id, state) =>
      -Bit(id in db.tasks && OnFork(db.tasks[id]) && state == "3" && !WorksOn(memory, id, db.tasks[id]))
    case Delete(id) => -Bit(id in db.tasks && OnFork(db.tasks[id]))
    case _ => 0
  }

  lemma ChangedMember(s: set<nat>, t: set<nat>, x: nat)
    requires forall y | y != x :: y in s <==> y in t
    ensures |t| == |s| - Bit(x in s) + Bit(x in t)
  {
    var rest := s - {x};
    assert rest == t - {x};
    assert x in s ==> s == rest + {x};
    assert x !in s ==> s == rest;
    assert x in t ==> t == rest + {x};
    assert x !in t ==> t == rest;
  }

  lemma StockSet(a: map<nat, Storage>, c: nat, status: SiteStatus)
    requires c in a
    ensures var b := a[c := a[c].(siteStatus := status)];
            |Stock(b)| == |Stock(a)| - Bit(InStock(a[c])) + Bit(InStock(b[c]))
  {
    ChangedMember(Stock(a), Stock(a[c := a[c].(siteStatus := status)]), c);
  }

  lemma CarriedSet(a: map<nat, UserTask>, id: nat, t: UserTask)
    ensures |Carried(a[id := t])| == |Carried(a)| - Bit(id in a && OnFork(a[id])) + Bit(OnFork(t))
  {
    ChangedMember(Carried(a), Carried(a[id := t]), id);
  }

  lemma CreateAccount(db: Rows, code: nat, act: CodeAct, autoId: nat)
    requires Inv(db) && CreateResult(db, code, act, autoId).1 == Value(true)
    ensures code in db.storages
    ensures GoodsCount(CreateResult(db, code, act, autoId).0) ==
            GoodsCount(db)
            + if act == StoreGoods then Bit(!InStock(db.storages[code])) else -Bit(InStock(db.storages[code]))
  {
    hide Choose, NewTask;
    var d := CreateResult(db, code, act, autoId).0;
    var r := Choose(db, code, act).value;
    ChoiceIsFree(db, code, act);
    NewTaskHolds(db, r);
    var id := if DevicesOf(db.tempDevices, r.templateId) != [] then db.sequence + 1 else autoId;
    CarriedSet(db.tasks, id, NewTask(db, r));
    StockSet(db.storages, r.start, Outgoing);
    var s := db.storages[r.start := db.storages[r.start].(siteStatus := Outgoing)];
    StockSet(s, r.end, Incoming);
  }

  lemma CancelAccount(db: Rows, imei: nat)
    requires Inv(db)
    ensures GoodsCount(Cancelling(db, imei)) == GoodsCount(db)
  {
    forall id | id in db.tasks
      ensures OnFork(Cancelling(db, imei).tasks[id]) == OnFork(db.tasks[id])
    {
      if Active(db.tasks[id]) {
        assert Reserved(db, db.tasks[id]);
      }
    }
    assert Carried(Cancelling(db, imei).tasks) == Carried(db.tasks);
  }

  lemma SetAccount(db: Rows, memory: map<nat, VehicleState>, id: nat, state: string)
    ensures GoodsCount(SetTaskResult(db, memory, id, state).0) ==
            GoodsCount(db)
            - Bit(id in db.tasks && OnFork(db.tasks[id]) && state == "3" && !WorksOn(memory, id, db.tasks[id]))
  {
    if id in db.tasks {
      CarriedSet(db.tasks, id, db.tasks[id].(sendFlag := Cancelled));
    }
  }

  lemma DeleteAccount(db: Rows, id: nat)
    ensures GoodsCount(Deleting(db, id)) == GoodsCount(db) - Bit(id in db.tasks && OnFork(db.tasks[id]))
  {
    ChangedMember(Carried(db.tasks), Carried(Deleting(db, id).tasks), id);
  }

  /** Finishing after placing finds the end storage full already: a task flag moves no goods. */
  lemma FlagMovesNothing(p: Plant, r: Report, unlocked: bool)
    requires Inv(p.rows) && FlagAllowed(p, r, unlocked)
    ensures TaskUpdate(p.rows, p.flagMap, r, unlocked).0.storages == p.rows.storages
  {
    hide WaitingUnbound, Apart, RolesApart;
    if TaskUpdate(p.rows, p.flagMap, r, unlocked).0 != p.rows {
      assert Reserved(p.rows, p.rows.tasks[r.taskId]);
    }
  }

  lemma FlagAccount(p: Plant, r: Report, unlocked: bool)
    requires Inv(p.rows) && FlagAllowed(p, r, unlocked)
    ensures GoodsCount(TaskUpdate(p.rows, p.flagMap, r, unlocked).0) ==
            GoodsCount(p.rows) + Delta(World(p, 0), Beat(r, unlocked))
  {
    FlagMovesNothing(p, r, unlocked);
    hide Inv;
    var db := p.rows;
    var d := TaskUpdate(db, p.flagMap, r, unlocked).0;
    if d != db {
      CarriedSet(db.tasks, r.taskId, d.tasks[r.taskId]);
      assert d.tasks == db.tasks[r.taskId := d.tasks[r.taskId]];
      FlagChangesOnly(db, Info(r));
    }
  }

  lemma FlagChangesOnly(db: Rows, info: TaskInfo)
    ensures info.taskId in db.tasks ==>
              FlagEffect(db, info).tasks[info.taskId] ==
              db.tasks[info.taskId].(sendFlag := match info.taskFlag
                                                 case 1 => Completed case 2 => Executing
                                                 case 3 => ExecFailed case 4 => Cancelled
                                                 case _ => db.tasks[info.taskId].sendFlag)
  {
  }

  lemma ForkAccount(db: Rows, keys: map<ForkId, ForkKey>, r: Report, now: int)
    requires Inv(db) && ForkAllowed(db, keys, r, now)
    ensures GoodsCount(StorageUpdate(db, keys, r, now).0) == GoodsCount(db)
  {
    var d := StorageUpdate(db, keys, r, now).0;
    assert RowEffect(db, r) == db;
    if d != db {
      var t := db.tasks[r.taskId];
      assert Reserved(db, t);
      CarriedSet(db.tasks, r.taskId, d.tasks[r.taskId]);
      if r.forkStatus == 1 {
        StockSet(db.storages, t.startSite.value, Empty);
      } else {
        StockSet(db.storages, t.endSite.value, Goods);
      }
    }
  }

  /** Every event changes the count by its delta, zero for dispatch, pick, place, finish and cancelling what waits. */
  lemma StepAccount(w: World, e: Event)
    requires Inv(w.plant.rows) && Allowed(w, e)
    ensures GoodsCount(Next(w, e).plant.rows) == GoodsCount(w.plant.rows) + Delta(w, e)
  {
    hide TaskUpdate, StorageUpdate, Inv, GoodsCount;
    var db := w.plant.rows;
    match e
    case Create(code, act, autoId) =>
      if CreateResult(db, code, act, autoId).1 == Value(true) {
        CreateAccount(db, code, act, autoId);
      }
    case Send(imei, id) => DispatchAccount(db, imei, id);
    case Beat(r, unlocked) =>
      FlagKeeps(w.plant, r, unlocked);
      FlagAccount(w.plant, r, unlocked);
      ForkAccount(TaskUpdate(db, w.plant.flagMap, r, unlocked).0, w.plant.forkKeys, r, w.now);
    case Cancel(imei) => CancelAccount(db, imei);
    case Set(memory, id, state) => SetAccount(db, memory, id, state);
    case Delete(id) => DeleteAccount(db, id);
    case Tick(_) =>
  }

  lemma DispatchAccount(db: Rows, imei: nat, id: nat)
    requires Inv(db) && IsPick(db, imei, Some(id))
    ensures GoodsCount(Dispatched(db, imei, id)) == GoodsCount(db)
  {
    assert Reserved(db, db.tasks[id]);
    CarriedSet(db.tasks, id, Dispatched(db, imei, id).tasks[id]);
  }

  function TotalDelta(w: World, events: seq<Event>): int {
    if events == [] then 0
    else TotalDelta(w, events[..|events| - 1]) + Delta(Run(w, events[..|events| - 1]), events[|events| - 1])
  }

  /** Over a whole run the goods are those at the start plus what was announced, less what failed on the fork. */
  lemma {:induction false} GoodsConserved(w: World, events: seq<Event>)
    requires Inv(w.plant.rows) && AllowedRun(w, events)
    ensures GoodsCount(Run(w, events).plant.rows) == GoodsCount(w.plant.rows) + TotalDelta(w, events)
  {
    if events != [] {
      var n := |events| - 1;
      PrefixAllowed(w, events, n);
      GoodsConserved(w, events[..n]);
      ReservationsHold(w, events[..n]);
      StepAccount(Run(w, events[..n]), events[n]);
    }
  }
}
