/**
 * The life of a task over whole runs of every call that touches the task table. Nothing is
 * assumed about what vehicles report.
 */
module TaskLife {
  import opened Dispatch
  import opened Tables
  import opened TaskOps
  import opened UserTaskProxy
  import opened UserTasks
  import opened Wrappers
  import R = Reservation

  datatype Event =
    | Base(event: R.Event)                        // create, dispatch, heartbeat, cancel, set, delete, time
    | Call(site: Option<nat>, handel: string)     // call_device_task
    | EndCall(id: nat)                            // cancel_call_device_task, on the call it chooses
    | Direct(task: UserTask)                      // add_task: stored as executing once acknowledged
    | Resend(id: nat)                             // send_repeat_task, once acknowledged
    | Clear

  function RowsAfter(db: Rows, e: Event): Rows
    requires !e.Base?
  {
    match e
    case Call(site, handel) => CallResult(db, site, handel).0
    case EndCall(id) => SetFlag(db, id, Cancelled)
    case Direct(task) =>
      var id := db.sequence + 1;
      if id in db.tasks then db else db.(tasks := db.tasks[id := task.(sendFlag := Executing)], sequence := id)
    case Resend(id) => SetFlag(db, id, Executing)
    case Clear => db.(tasks := map[])
  }

  function Next(w: R.World, e: Event): R.World {
    match e
    case Base(b) => R.Next(w, b)
    case _ => w.(plant := w.plant.(rows := RowsAfter(w.plant.rows, e)))
  }

  function Run(w: R.World, events: seq<Event>): R.World {
    if events == [] then w else Next(Run(w, events[..|events| - 1]), events[|events| - 1])
  }

  function TasksAt(w: R.World, events: seq<Event>, n: nat): map<nat, UserTask>
    requires n <= |events|
  {
    Run(w, events[..n]).plant.rows.tasks
  }

  /** A vehicle is sent only what `edit_and_get_an_task` answers. */
  ghost predicate SendsPicks(w: R.World, events: seq<Event>) {
    forall n | 0 <= n < |events| && events[n].Base? && events[n].event.Send? ::
      IsPick(Run(w, events[..n]).plant.rows, events[n].event.imei, Some(events[n].event.id))
  }

  ghost predicate PicksOnly(w: R.World, e: Event) {
    e.Base? && e.event.Send? ==> IsPick(w.plant.rows, e.event.imei, Some(e.event.id))
  }

  // ---------- How one row may change ----------

  /** A task never returns to waiting, keeps its type, and keeps its vehicle once it has one. */
  predicate Onward(t: UserTask, u: UserTask) {
    && u.taskType == t.taskType
    && (t.deviceImei.Some? ==> u.deviceImei == t.deviceImei)
    && (u.sendFlag == Created ==> t.sendFlag == Created && u.deviceImei == t.deviceImei)
  }

  ghost predicate AllOnward(a: map<nat, UserTask>, b: map<nat, UserTask>) {
    forall id | id in a && id in b :: Onward(a[id], b[id])
  }

  /** At most one call waits for a vehicle. */
  ghost predicate OneCallWaits(tasks: map<nat, UserTask>) {
    forall i, j | WaitingCall(tasks, i) && WaitingCall(tasks, j) :: i == j
  }

  predicate WaitingCall(tasks: map<nat, UserTask>, id: nat) {
    id in tasks && tasks[id].sendFlag == Created && tasks[id].taskType == CallDevice
  }

  ghost predicate Sound(tasks: map<nat, UserTask>) {
    WaitingUnbound(tasks) && OneCallWaits(tasks)
  }

  /** A row that is new in b waits unbound, and is a call only if no call waited before. */
  ghost predicate NewRowsSound(a: map<nat, UserTask>, b: map<nat, UserTask>) {
    forall id | id in b && id !in a ::
      && (b[id].sendFlag == Created && b[id].taskType != Assigned ==> b[id].deviceImei == None)
      && (WaitingCall(b, id) ==> forall o | o in b && o != id :: !WaitingCall(b, o))
  }

  lemma SoundStays(a: map<nat, UserTask>, b: map<nat, UserTask>)
    requires Sound(a) && AllOnward(a, b) && NewRowsSound(a, b)
    ensures Sound(b)
  {
    forall i, j | WaitingCall(b, i) && WaitingCall(b, j)
      ensures i == j
    {
      if i in a && j in a {
        assert Onward(a[i], b[i]) && Onward(a[j], b[j]);
        assert WaitingCall(a, i) && WaitingCall(a, j);
      }
    }
    forall id | id in b && b[id].sendFlag == Created && b[id].taskType != Assigned
      ensures b[id].deviceImei == None
    {
      if id in a {
        assert Onward(a[id], b[id]);
      }
    }
  }

  // ---------- Every step ----------

  lemma FlagOnward(p: Plant, r: Report, unlocked: bool)
    ensures var d := TaskUpdate(p.rows, p.flagMap, r, unlocked).0;
            d.tasks.Keys == p.rows.tasks.Keys && AllOnward(p.rows.tasks, d.tasks)
  {
    hide FlagEffect;
    FlagEffectTasks(p.rows, Info(r));
  }

  lemma FlagEffectTasks(db: Rows, info: TaskInfo)
    ensures FlagEffect(db, info).tasks == db.tasks
            || exists flag :: flag != Created && FlagEffect(db, info).tasks == SetFlag(db, info.taskId, flag).tasks
  {
    var d := FlagEffect(db, info);
    match info.taskFlag
    case 1 => assert d.tasks == SetFlag(db, info.taskId, Completed).tasks;
    case 2 => assert d.tasks == SetFlag(db, info.taskId, Executing).tasks;
    case 3 => assert d.tasks == SetFlag(db, info.taskId, ExecFailed).tasks;
    case 4 => assert d.tasks == SetFlag(db, info.taskId, Cancelled).tasks;
    case _ =>
  }

  lemma ForkOnward(db: Rows, keys: map<ForkId, ForkKey>, r: Report, now: int)
    ensures var d := StorageUpdate(db, keys, r, now).0;
            d.tasks.Keys == db.tasks.Keys && AllOnward(db.tasks, d.tasks)
  {
    hide RowEffect, SetSite;
    RowsLeaveTasks(db, r);
  }

  lemma RowsLeaveTasks(db: Rows, r: Report)
    ensures RowEffect(db, r).tasks == db.tasks
    ensures forall d: Rows, site, status :: SetSite(d, site, status).tasks == d.tasks
  {
  }

  lemma CreateOnward(db: Rows, code: nat, act: CodeAct, autoId: nat)
    ensures var d := CreateResult(db, code, act, autoId).0;
            AllOnward(db.tasks, d.tasks) && NewRowsSound(db.tasks, d.tasks)
  {
    hide Choose;
  }

  lemma BeatOnward(p: Plant, r: Report, unlocked: bool, now: int)
    ensures var d := Heartbeat(p, r, unlocked, now).rows;
            d.tasks.Keys == p.rows.tasks.Keys && AllOnward(p.rows.tasks, d.tasks)
  {
    hide TaskUpdate, StorageUpdate;
    var a, d, b := p.rows, TaskUpdate(p.rows, p.flagMap, r, unlocked).0, Heartbeat(p, r, unlocked, now).rows;
    FlagOnward(p, r, unlocked);
    ForkOnward(d, p.forkKeys, r, now);
    forall id | id in a.tasks
      ensures Onward(a.tasks[id], b.tasks[id])
    {
      assert Onward(a.tasks[id], d.tasks[id]) && Onward(d.tasks[id], b.tasks[id]);
    }
  }

  lemma BaseOnward(w: R.World, e: R.Event)
    requires WaitingUnbound(w.plant.rows.tasks)
    requires e.Send? ==> IsPick(w.plant.rows, e.imei, Some(e.id))
    ensures AllOnward(w.plant.rows.tasks, R.Next(w, e).plant.rows.tasks)
    ensures NewRowsSound(w.plant.rows.tasks, R.Next(w, e).plant.rows.tasks)
  {
    hide CreateResult, Heartbeat;
    match e
    case Create(code, act, autoId) => CreateOnward(w.plant.rows, code, act, autoId);
    case Send(imei, id) => SendOnward(w.plant.rows, imei, id);
    case Beat(r, unlocked) => BeatOnward(w.plant, r, unlocked, w.now);
    case Cancel(imei) =>
    case Set(memory, id, state) =>
    case Delete(id) =>
    case Tick(_) =>
  }

  lemma SendOnward(db: Rows, imei: nat, id: nat)
    requires WaitingUnbound(db.tasks) && IsPick(db, imei, Some(id))
    ensures var d := Dispatched(db, imei, id);
            d.tasks.Keys == db.tasks.Keys && AllOnward(db.tasks, d.tasks)
  {
    NeverAnothersTask(db, imei, id);
  }

  lemma StepOnward(w: R.World, e: Event)
    requires Sound(w.plant.rows.tasks) && PicksOnly(w, e)
    ensures AllOnward(w.plant.rows.tasks, Next(w, e).plant.rows.tasks)
    ensures NewRowsSound(w.plant.rows.tasks, Next(w, e).plant.rows.tasks)
  {
    hide R.Next, CallResult;
    match e
    case Base(b) => BaseOnward(w, b);
    case Call(site, handel) => CallOnward(w.plant.rows, site, handel);
    case _ =>
  }

  lemma CallOnward(db: Rows, site: Option<nat>, handel: string)
    ensures var d := CallResult(db, site, handel).0;
            AllOnward(db.tasks, d.tasks) && NewRowsSound(db.tasks, d.tasks)
  {
    var d := CallResult(db, site, handel).0;
    if d != db {
      forall o | o in db.tasks
        ensures !WaitingCall(db.tasks, o)
      {
        assert o !in UnfinishedCalls(db);
      }
    }
  }

  // ---------- Whole runs ----------

  lemma PrefixPicks(w: R.World, events: seq<Event>, n: nat)
    requires SendsPicks(w, events) && n <= |events|
    ensures SendsPicks(w, events[..n])
    ensures n < |events| ==> PicksOnly(Run(w, events[..n]), events[n])
  {
    forall k | 0 <= k < n
      ensures events[..n][..k] == events[..k]
    {
    }
  }

  lemma {:induction false} SoundRuns(w: R.World, events: seq<Event>)
    requires Sound(w.plant.rows.tasks) && SendsPicks(w, events)
    ensures Sound(Run(w, events).plant.rows.tasks)
  {
    if events != [] {
      var n := |events| - 1;
      PrefixPicks(w, events, n);
      SoundRuns(w, events[..n]);
      StepOnward(Run(w, events[..n]), events[n]);
      SoundStays(Run(w, events[..n]).plant.rows.tasks, Run(w, events).plant.rows.tasks);
    }
  }

  /**
   * As long as a task is not deleted it moves onward only: once it has left send_flag "1" it
   * never returns to it, and a vehicle once written into it stays.
   */
  lemma {:induction false} TasksMoveOnward(w: R.World, events: seq<Event>, i: nat, j: nat, id: nat)
    requires Sound(w.plant.rows.tasks) && SendsPicks(w, events) && i <= j <= |events|
    requires forall n | i <= n <= j :: id in TasksAt(w, events, n)
    ensures Onward(TasksAt(w, events, i)[id], TasksAt(w, events, j)[id])
    decreases j
  {
    hide TasksAt, Sound, SendsPicks, Onward, AllOnward;
    if i < j {
      TasksMoveOnward(w, events, i, j - 1, id);
      StepAt(w, events, j - 1);
      OnwardAt(TasksAt(w, events, i)[id], TasksAt(w, events, j - 1), TasksAt(w, events, j), id);
    } else {
      OnwardRefl(TasksAt(w, events, i)[id]);
    }
  }

  lemma StepAt(w: R.World, events: seq<Event>, n: nat)
    requires Sound(w.plant.rows.tasks) && SendsPicks(w, events) && n < |events|
    ensures AllOnward(TasksAt(w, events, n), TasksAt(w, events, n + 1))
  {
    hide IsPick, Sound, Next, SendsPicks, PicksOnly, AllOnward, NewRowsSound;
    PrefixPicks(w, events, n);
    SoundRuns(w, events[..n]);
    StepOnward(Run(w, events[..n]), events[n]);
    assert events[..n + 1][..n] == events[..n];
  }

  lemma OnwardRefl(t: UserTask)
    ensures Onward(t, t)
  {
  }

  lemma OnwardAt(t: UserTask, a: map<nat, UserTask>, b: map<nat, UserTask>, id: nat)
    requires AllOnward(a, b) && id in a && id in b && Onward(t, a[id])
    ensures Onward(t, b[id])
  {
  }

  /** No task is sent twice: between two dispatches under one id the task was deleted. */
  lemma DispatchedOnce(w: R.World, events: seq<Event>, i: nat, j: nat, a: nat, b: nat, id: nat)
    requires Sound(w.plant.rows.tasks) && SendsPicks(w, events) && i < j < |events|
    requires events[i] == Base(R.Send(a, id)) && events[j] == Base(R.Send(b, id))
    ensures exists n :: i < n <= j && id !in TasksAt(w, events, n)
  {
    hide IsPick, Sound, Onward;
    PrefixPicks(w, events, i);
    PrefixPicks(w, events, j);
    PickWaits(Run(w, events[..i]).plant.rows, a, id);
    PickWaits(Run(w, events[..j]).plant.rows, b, id);
    assert events[..i + 1][..i] == events[..i];
    assert TasksAt(w, events, i + 1)[id].sendFlag == Executing;
    if forall n | i + 1 <= n <= j :: id in TasksAt(w, events, n) {
      TasksMoveOnward(w, events, i + 1, j, id);
      NeverBack(TasksAt(w, events, i + 1)[id], TasksAt(w, events, j)[id]);
    }
  }

  lemma NeverBack(t: UserTask, u: UserTask)
    requires Onward(t, u)
    ensures u.sendFlag == Created ==> t.sendFlag == Created
  {
  }

  /** At any point of any run a vehicle is offered a waiting task of its own or of nobody, never another's. */
  lemma NeverAnothersTaskInRuns(w: R.World, events: seq<Event>, imei: nat, id: nat)
    requires Sound(w.plant.rows.tasks) && SendsPicks(w, events)
    requires IsPick(Run(w, events).plant.rows, imei, Some(id))
    ensures var t := Run(w, events).plant.rows.tasks[id];
            t.sendFlag == Created && t.deviceImei in {None, Some(imei)}
  {
    SoundRuns(w, events);
    NeverAnothersTask(Run(w, events).plant.rows, imei, id);
    PickWaits(Run(w, events).plant.rows, imei, id);
  }

  /** So the newest-first order of waiting calls never decides anything: there is at most one. */
  lemma CallOrderIsMoot(w: R.World, events: seq<Event>)
    requires Sound(w.plant.rows.tasks) && SendsPicks(w, events)
    ensures var db := Run(w, events).plant.rows;
            SelectByFlagType(db, Created, CallDevice, true) == SelectByFlagType(db, Created, CallDevice, false)
  {
    SoundRuns(w, events);
    var db := Run(w, events).plant.rows;
    var down, up := SelectByFlagType(db, Created, CallDevice, true), SelectByFlagType(db, Created, CallDevice, false);
    AtMostOne(db.tasks, down);
    AtMostOne(db.tasks, up);
    if down != [] {
      assert down[0] in down && down[0] in up;
    }
    if up != [] {
      assert up[0] in up;
    }
  }

  lemma AtMostOne(tasks: map<nat, UserTask>, ids: seq<nat>)
    requires OneCallWaits(tasks) && forall id | id in ids :: WaitingCall(tasks, id)
    requires Increasing(ids) || Decreasing(ids)
    ensures |ids| <= 1
  {
    if |ids| > 1 {
      SameCall(tasks, ids, 0, 1);
    }
  }

  lemma SameCall(tasks: map<nat, UserTask>, ids: seq<nat>, i: nat, j: nat)
    requires OneCallWaits(tasks) && forall id | id in ids :: WaitingCall(tasks, id)
    requires i < |ids| && j < |ids|
    ensures ids[i] == ids[j]
  {
    assert ids[i] in ids && ids[j] in ids;
  }
}
