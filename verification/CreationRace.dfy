/**
 * Creations that overlap: `create_task` of app/services/task_op_service.py awaits its queries between
 * choosing two storages and writing them, and its busy set holds form devices, not storages.
 */
module CreationRace {
  import opened Reservation
  import opened TaskOps
  import opened Tables
  import opened UserTaskProxy
  import opened Wrappers

  /** A creation in two steps, and every other event of the reservation runs in between, with any report. */
  datatype Step =
    | Other(event: Event)
    | Choosing(device: string, code: nat, act: CodeAct)
    | Writing(device: string, pair: Pairing, task: UserTask, id: nat)

  predicate IsOf(s: Step, device: string) {
    (s.Choosing? || s.Writing?) && s.device == device
  }

  /** The rows are written as chosen; an id that is taken raises. */
  function Written(db: Rows, pair: Pairing, task: UserTask, id: nat): Rows {
    if id in db.tasks then db
    else SetStatus(SetStatus(db.(tasks := db.tasks[id := task]), pair.start, Outgoing), pair.end, Incoming)
  }

  function After(w: World, s: Step): World {
    match s
    case Other(e) => Next(w, e)
    case Choosing(_, _, _) => w
    case Writing(_, pair, task, id) => w.(plant := w.plant.(rows := Written(w.plant.rows, pair, task, id)))
  }

  function Through(w: World, steps: seq<Step>): World {
    if steps == [] then w else After(Through(w, steps[..|steps| - 1]), steps[|steps| - 1])
  }

  function RowsAfter(w: World, steps: seq<Step>, n: nat): Rows
    requires n <= |steps|
  {
    Through(w, steps[..n]).plant.rows
  }

  /** What a creation finds when it asks, if it does not answer with a failure. */
  ghost predicate Finds(db: Rows, code: nat, act: CodeAct, pair: Pairing, task: UserTask) {
    && FindSiteTask(db, code) == {} && Choose(db, code, act) == Some(pair)
    && pair.start in db.storages && pair.end in db.storages && task == NewTask(db, pair)
  }

  /** The writing at n belongs to the choice at c: the busy set keeps other creations of the device from between. */
  ghost predicate ChosenAt(w: World, steps: seq<Step>, c: nat, n: nat) {
    && c < n < |steps| && steps[n].Writing? && steps[c].Choosing? && steps[c].device == steps[n].device
    && Finds(RowsAfter(w, steps, c), steps[c].code, steps[c].act, steps[n].pair, steps[n].task)
    && forall k | c < k < n :: !IsOf(steps[k], steps[n].device)
  }

  ghost predicate Possible(w: World, steps: seq<Step>) {
    && (forall n | 0 <= n < |steps| && steps[n].Other? :: !steps[n].event.Create?)
    && (forall n | 0 <= n < |steps| && steps[n].Writing? :: exists c :: ChosenAt(w, steps, c, n))
  }

  /** A creation with nothing between its two steps is the one of the reservation runs. */
  lemma TogetherIsCreate(db: Rows, code: nat, act: CodeAct, pair: Pairing, task: UserTask, autoId: nat)
    requires Finds(db, code, act, pair, task)
    ensures var id := if DevicesOf(db.tempDevices, pair.templateId) != [] then db.sequence + 1 else autoId;
            var d := CreateResult(db, code, act, autoId).0;
            Written(db, pair, task, id) == d.(sequence := db.sequence)
  {
    hide Choose, NewTask;
  }

  // ---------- What a written task keeps, whoever else writes ----------

  /** Single storages, roles apart, and every task from a start site to an end site. */
  ghost predicate Roles(db: Rows) {
    && Layout(db)
    && forall id | id in db.tasks ::
         && (db.tasks[id].startSite.Some? ==> HasRole(db, db.tasks[id].startSite.value, StartRole))
         && (db.tasks[id].endSite.Some? ==> HasRole(db, db.tasks[id].endSite.value, EndRole))
  }

  /** Its start is not offered as full, and its end not as empty. */
  ghost predicate Held(db: Rows, pair: Pairing) {
    && pair.start in db.storages && db.storages[pair.start].siteStatus in {Outgoing, Empty}
    && pair.end in db.storages && db.storages[pair.end].siteStatus in {Incoming, Goods}
    && HasRole(db, pair.start, StartRole) && HasRole(db, pair.end, EndRole)
  }

  /** One storage changes in a way its role allows. */
  ghost predicate RoleStep(db: Rows, d: Rows) {
    && d.tempSites == db.tempSites && d.storages.Keys == db.storages.Keys
    && forall c | c in db.storages ::
         && d.storages[c].siteType == db.storages[c].siteType
         && (d.storages[c].siteStatus == db.storages[c].siteStatus
             || (HasRole(db, c, StartRole) && d.storages[c].siteStatus in {Outgoing, Empty})
             || (HasRole(db, c, EndRole) && d.storages[c].siteStatus in {Incoming, Goods}))
  }

  lemma SameRole(db: Rows, d: Rows)
    requires d.tempSites == db.tempSites
    ensures forall c, role :: HasRole(d, c, role) == HasRole(db, c, role)
  {
    forall c, role
      ensures HasRole(d, c, role) == HasRole(db, c, role)
    {
    }
  }

  lemma HeldStays(db: Rows, d: Rows, pair: Pairing)
    requires Layout(db) && Held(db, pair) && RoleStep(db, d)
    ensures Held(d, pair)
  {
    SameRole(db, d);
  }

  lemma LayoutStays(db: Rows, d: Rows)
    requires Layout(db) && RoleStep(db, d)
    ensures Layout(d)
  {
    SameRole(db, d);
  }

  /** Rows keep their sites. */
  ghost predicate SameSites(a: map<nat, UserTask>, b: map<nat, UserTask>) {
    forall id | id in b :: id in a && b[id].startSite == a[id].startSite && b[id].endSite == a[id].endSite
  }

  lemma RolesStay(db: Rows, d: Rows)
    requires Roles(db) && RoleStep(db, d) && SameSites(db.tasks, d.tasks)
    ensures Roles(d)
  {
    LayoutStays(db, d);
    SameRole(db, d);
  }

  predicate SuitsRole(status: SiteStatus, role: Role) {
    if role == StartRole then status in {Outgoing, Empty} else status in {Incoming, Goods}
  }

  /** Setting a storage to a status of its role, in tables that differ from db in their tasks only. */
  lemma SetStep(db: Rows, d: Rows, code: nat, status: SiteStatus, role: Role)
    requires d.storages == db.storages && d.tempSites == db.tempSites
    requires HasRole(db, code, role) && SuitsRole(status, role)
    ensures RoleStep(db, SetStatus(d, code, status)) && RoleStep(db, d)
    ensures SetStatus(d, code, status).tasks == d.tasks
  {
    hide HasRole;
  }

  lemma NoSetStep(db: Rows, d: Rows)
    requires d.storages == db.storages && d.tempSites == db.tempSites
    ensures RoleStep(db, d)
  {
    hide HasRole;
  }

  lemma FlagStep(p: Plant, r: Report, unlocked: bool)
    requires Roles(p.rows)
    ensures var d := TaskUpdate(p.rows, p.flagMap, r, unlocked).0;
            RoleStep(p.rows, d) && SameSites(p.rows.tasks, d.tasks)
  {
    hide RolesApart, HasRole, RoleStep, SetStatus;
    var db, id := p.rows, r.taskId;
    NoSetStep(db, db);
    NoSetStep(db, SetFlag(db, id, Completed));
    NoSetStep(db, SetFlag(db, id, Executing));
    NoSetStep(db, SetFlag(db, id, ExecFailed));
    NoSetStep(db, SetFlag(db, id, Cancelled));
    if id in db.tasks && db.tasks[id].endSite.Some? {
      SetStep(db, SetFlag(db, id, Completed), db.tasks[id].endSite.value, Goods, EndRole);
    }
  }

  lemma ForkStep(db: Rows, keys: map<ForkId, ForkKey>, r: Report, now: int)
    requires Roles(db)
    ensures var d := StorageUpdate(db, keys, r, now).0;
            RoleStep(db, d) && SameSites(db.tasks, d.tasks)
  {
    hide Layout, HasRole, RoleStep, ForkEffect, RowEffect;
    SinglesUnfilled(db, r);
    NoSetStep(db, db);
    if r.taskId in db.tasks {
      ForkEffectStep(db, r.taskId, r.forkStatus);
    }
  }

  lemma ForkEffectStep(db: Rows, id: nat, fork: nat)
    requires Roles(db) && id in db.tasks
    ensures RoleStep(db, ForkEffect(db, id, fork)) && SameSites(db.tasks, ForkEffect(db, id, fork).tasks)
  {
    hide Layout, HasRole, RoleStep, SetStatus;
    var t := db.tasks[id];
    var picked := db.(tasks := db.tasks[id := t.(pickPlace := Picked)]);
    var placed := db.(tasks := db.tasks[id := t.(pickPlace := Placed)]);
    NoSetStep(db, db);
    NoSetStep(db, picked);
    NoSetStep(db, placed);
    if t.startSite.Some? {
      SetStep(db, picked, t.startSite.value, Empty, StartRole);
    }
    if t.endSite.Some? {
      SetStep(db, placed, t.endSite.value, Goods, EndRole);
    }
  }

  lemma SinglesUnfilled(db: Rows, r: Report)
    requires Layout(db)
    ensures RowEffect(db, r) == db
  {
  }

  lemma OtherStep(w: World, e: Event, pair: Pairing)
    requires Roles(w.plant.rows) && !e.Create?
    ensures Roles(Next(w, e).plant.rows)
    ensures Held(w.plant.rows, pair) ==> Held(Next(w, e).plant.rows, pair)
  {
    hide TaskUpdate, StorageUpdate, Roles, Held, RoleStep, SameSites;
    var db, after := w.plant.rows, Next(w, e).plant.rows;
    if e.Beat? {
      var d := TaskUpdate(db, w.plant.flagMap, e.report, e.unlocked).0;
      FlagStep(w.plant, e.report, e.unlocked);
      StepOn(db, d, pair);
      ForkStep(d, w.plant.forkKeys, e.report, w.now);
      StepOn(d, after, pair);
    } else {
      TasksOnly(w, e);
      StepOn(db, after, pair);
    }
  }

  lemma StepOn(db: Rows, d: Rows, pair: Pairing)
    requires Roles(db) && RoleStep(db, d) && SameSites(db.tasks, d.tasks)
    ensures Roles(d) && (Held(db, pair) ==> Held(d, pair))
  {
    hide RoleStep, SameSites, Held, Layout;
    RolesStay(db, d);
    if Held(db, pair) {
      HeldStays(db, d, pair);
    }
  }

  lemma TasksOnly(w: World, e: Event)
    requires !e.Create? && !e.Beat?
    ensures RoleStep(w.plant.rows, Next(w, e).plant.rows)
    ensures SameSites(w.plant.rows.tasks, Next(w, e).plant.rows.tasks)
  {
    hide RoleStep, HasRole;
    NoSetStep(w.plant.rows, Next(w, e).plant.rows);
  }

  /** What a creation found, it found with the right roles, and roles do not change. */
  lemma FoundRoles(db: Rows, code: nat, act: CodeAct, pair: Pairing, task: UserTask)
    requires Layout(db) && Finds(db, code, act, pair, task)
    ensures pair.start != pair.end && HasRole(db, pair.start, StartRole) && HasRole(db, pair.end, EndRole)
    ensures task.startSite == Some(pair.start) && task.endSite == Some(pair.end) && task.sendFlag == Created
  {
    hide Choose, NewTask;
    ChoiceIsFree(db, code, act);
    NewTaskHolds(db, pair);
  }

  lemma WriteStep(db: Rows, pair: Pairing, task: UserTask, id: nat, held: Pairing)
    requires Roles(db) && pair.start != pair.end && pair.start in db.storages && pair.end in db.storages
    requires HasRole(db, pair.start, StartRole) && HasRole(db, pair.end, EndRole)
    requires task.startSite == Some(pair.start) && task.endSite == Some(pair.end)
    ensures var d := Written(db, pair, task, id);
            && Roles(d)
            && (Held(db, held) ==> Held(d, held))
            && (id !in db.tasks ==> Held(d, pair) && id in d.tasks && d.tasks[id] == task)
  {
    hide HasRole, RolesApart;
    var d := Written(db, pair, task, id);
    assert RoleStep(db, d);
    SameRole(db, d);
    LayoutStays(db, d);
    if Held(db, held) {
      HeldStays(db, d, held);
    }
  }

  /** Template sites and the kinds of storages never change. */
  ghost predicate SameLayout(db: Rows, d: Rows) {
    && d.tempSites == db.tempSites && d.storages.Keys == db.storages.Keys
    && forall c | c in db.storages :: d.storages[c].siteType == db.storages[c].siteType
  }

  lemma StepKeepsLayout(w: World, s: Step)
    requires s.Other? ==> !s.event.Create?
    ensures SameLayout(w.plant.rows, After(w, s).plant.rows)
  {
    hide Heartbeat;
    if s.Other? && s.event.Beat? {
      BeatKeepsLayout(w.plant, s.event.report, s.event.unlocked, w.now);
    }
  }

  lemma BeatKeepsLayout(p: Plant, r: Report, unlocked: bool, now: int)
    ensures SameLayout(p.rows, Heartbeat(p, r, unlocked, now).rows)
  {
    hide FlagEffect, ForkEffect, RowEffect;
    var d := TaskUpdate(p.rows, p.flagMap, r, unlocked).0;
    FlagKeepsLayout(p.rows, Info(r));
    RowKeepsLayout(d, r);
    if r.taskId in RowEffect(d, r).tasks {
      ForkKeepsLayout(RowEffect(d, r), r.taskId, r.forkStatus);
    }
  }

  lemma FlagKeepsLayout(db: Rows, info: TaskInfo)
    ensures SameLayout(db, FlagEffect(db, info))
  {
  }

  lemma RowKeepsLayout(db: Rows, r: Report)
    ensures SameLayout(db, RowEffect(db, r))
  {
  }

  lemma ForkKeepsLayout(db: Rows, id: nat, fork: nat)
    requires id in db.tasks
    ensures SameLayout(db, ForkEffect(db, id, fork))
  {
  }

  lemma {:induction false} LayoutThrough(w: World, steps: seq<Step>, n: nat)
    requires Possible(w, steps) && n <= |steps|
    ensures SameLayout(w.plant.rows, RowsAfter(w, steps, n))
  {
    hide After, ChosenAt;
    if n > 0 {
      LayoutThrough(w, steps, n - 1);
      assert steps[..n][..n - 1] == steps[..n - 1];
      StepKeepsLayout(Through(w, steps[..n - 1]), steps[n - 1]);
    }
  }

  /** A pair found earlier in the run still has its roles and its storages. */
  lemma StillApart(w: World, steps: seq<Step>, c: nat, n: nat)
    requires Possible(w, steps) && ChosenAt(w, steps, c, n) && Layout(RowsAfter(w, steps, c))
    ensures var db, pair := RowsAfter(w, steps, n), steps[n].pair;
            && pair.start != pair.end && pair.start in db.storages && pair.end in db.storages
            && HasRole(db, pair.start, StartRole) && HasRole(db, pair.end, EndRole)
            && steps[n].task.startSite == Some(pair.start) && steps[n].task.endSite == Some(pair.end)
  {
    hide Layout, RowsAfter, Possible;
    var found, db := RowsAfter(w, steps, c), RowsAfter(w, steps, n);
    FoundRoles(found, steps[c].code, steps[c].act, steps[n].pair, steps[n].task);
    LayoutThrough(w, steps, c);
    LayoutThrough(w, steps, n);
    SameRole(found, db);
  }

  lemma StepFrom(w: World, steps: seq<Step>, n: nat)
    requires n < |steps|
    ensures RowsAfter(w, steps, n + 1) == After(Through(w, steps[..n]), steps[n]).plant.rows
    ensures RowsAfter(w, steps, n) == Through(w, steps[..n]).plant.rows
  {
    assert steps[..n + 1][..n] == steps[..n];
  }

  /** One step of a run keeps the roles and whatever is held. */
  lemma RunStep(w: World, steps: seq<Step>, n: nat, held: Pairing)
    requires Possible(w, steps) && n < |steps| && Roles(RowsAfter(w, steps, n))
    requires steps[n].Writing? ==> exists c :: ChosenAt(w, steps, c, n) && Layout(RowsAfter(w, steps, c))
    ensures Roles(RowsAfter(w, steps, n + 1))
    ensures Held(RowsAfter(w, steps, n), held) ==> Held(RowsAfter(w, steps, n + 1), held)
    ensures steps[n].Writing? && steps[n].id !in RowsAfter(w, steps, n).tasks ==>
              && Held(RowsAfter(w, steps, n + 1), steps[n].pair)
              && steps[n].id in RowsAfter(w, steps, n + 1).tasks
              && RowsAfter(w, steps, n + 1).tasks[steps[n].id] == steps[n].task
  {
    hide Roles, Held, RowsAfter, Through, Layout, Next, Written;
    StepFrom(w, steps, n);
    match steps[n]
    case Other(e) => OtherStep(Through(w, steps[..n]), e, held);
    case Choosing(_, _, _) =>
    case Writing(_, pair, task, id) =>
      var c :| ChosenAt(w, steps, c, n) && Layout(RowsAfter(w, steps, c));
      StillApart(w, steps, c, n);
      WriteStep(RowsAfter(w, steps, n), pair, task, id, held);
  }

  lemma {:induction false} RolesThrough(w: World, steps: seq<Step>, n: nat)
    requires Roles(w.plant.rows) && Possible(w, steps) && n <= |steps|
    ensures Roles(RowsAfter(w, steps, n)) && Layout(RowsAfter(w, steps, n))
  {
    hide RowsAfter, Layout, ChosenAt, HasRole;
    if n > 0 {
      RolesThrough(w, steps, n - 1);
      WritingChosen(w, steps, n - 1);
      RunStep(w, steps, n - 1, Pairing(0, 0, 0));
    } else {
      NothingDone(w, steps);
    }
  }

  lemma NothingDone(w: World, steps: seq<Step>)
    ensures RowsAfter(w, steps, 0) == w.plant.rows
  {
  }

  /** The choice of a writing, with the layout it met. */
  lemma WritingChosen(w: World, steps: seq<Step>, n: nat)
    requires Roles(w.plant.rows) && Possible(w, steps) && n < |steps|
    ensures steps[n].Writing? ==> exists c :: ChosenAt(w, steps, c, n) && Layout(RowsAfter(w, steps, c))
  {
    hide RowsAfter, Finds, Roles, Layout;
    RolesMeanLayout(w.plant.rows);
    if steps[n].Writing? {
      var c :| ChosenAt(w, steps, c, n);
      LayoutAt(w, steps, c);
    }
  }

  lemma RolesMeanLayout(db: Rows)
    requires Roles(db)
    ensures Layout(db)
  {
  }

  lemma LayoutAt(w: World, steps: seq<Step>, n: nat)
    requires Layout(w.plant.rows) && Possible(w, steps) && n <= |steps|
    ensures Layout(RowsAfter(w, steps, n))
  {
    hide RowsAfter, Possible;
    LayoutThrough(w, steps, n);
    SameRole(w.plant.rows, RowsAfter(w, steps, n));
  }

  // ---------- When two creations share a storage ----------

  /** The task written at i is there and unfinished up to n. */
  ghost predicate Unfinished(w: World, steps: seq<Step>, i: nat, n: nat) {
    && i < n <= |steps| && steps[i].Writing? && steps[i].id !in RowsAfter(w, steps, i).tasks
    && forall k | i < k <= n ::
         steps[i].id in RowsAfter(w, steps, k).tasks && Active(RowsAfter(w, steps, k).tasks[steps[i].id])
  }

  lemma SitesStay(w: World, steps: seq<Step>, n: nat, id: nat)
    requires Possible(w, steps) && n < |steps| && Roles(RowsAfter(w, steps, n))
    requires id in RowsAfter(w, steps, n).tasks && id in RowsAfter(w, steps, n + 1).tasks
    ensures var t, u := RowsAfter(w, steps, n).tasks[id], RowsAfter(w, steps, n + 1).tasks[id];
            u.startSite == t.startSite && u.endSite == t.endSite
  {
    hide Roles, RowsAfter, Through, ChosenAt, Next, Heartbeat;
    StepFrom(w, steps, n);
    var before := Through(w, steps[..n]);
    if steps[n].Other? {
      if steps[n].event.Beat? {
        BeatKeepsSites(before, steps[n].event);
      } else {
        TasksOnly(before, steps[n].event);
      }
    }
  }

  lemma BeatKeepsSites(w: World, e: Event)
    requires e.Beat? && Roles(w.plant.rows)
    ensures SameSites(w.plant.rows.tasks, Next(w, e).plant.rows.tasks)
  {
    hide TaskUpdate, StorageUpdate, Roles, RoleStep;
    var d := TaskUpdate(w.plant.rows, w.plant.flagMap, e.report, e.unlocked).0;
    FlagStep(w.plant, e.report, e.unlocked);
    StepOn(w.plant.rows, d, Pairing(0, 0, 0));
    ForkStep(d, w.plant.forkKeys, e.report, w.now);
  }

  /** While a written task is unfinished, its storages are never offered, whatever vehicles report and others write. */
  lemma {:induction false} KeepsHeld(w: World, steps: seq<Step>, i: nat, n: nat)
    requires Roles(w.plant.rows) && Possible(w, steps) && Unfinished(w, steps, i, n)
    ensures var t := RowsAfter(w, steps, n).tasks[steps[i].id];
            && Held(RowsAfter(w, steps, n), steps[i].pair)
            && t.startSite == Some(steps[i].pair.start) && t.endSite == Some(steps[i].pair.end)
    decreases n
  {
    hide Roles, Held, RowsAfter, ChosenAt, Layout;
    RolesThrough(w, steps, n - 1);
    WritingChosen(w, steps, n - 1);
    RunStep(w, steps, n - 1, steps[i].pair);
    if n - 1 > i {
      KeepsHeld(w, steps, i, n - 1);
      SitesStay(w, steps, n - 1, steps[i].id);
    } else {
      WrittenSites(w, steps, i);
    }
  }

  lemma WrittenSites(w: World, steps: seq<Step>, n: nat)
    requires Roles(w.plant.rows) && Possible(w, steps) && n < |steps| && steps[n].Writing?
    ensures steps[n].task.startSite == Some(steps[n].pair.start) && steps[n].task.endSite == Some(steps[n].pair.end)
  {
    hide Roles, RowsAfter, Layout, Finds;
    WritingChosen(w, steps, n);
    var c :| ChosenAt(w, steps, c, n) && Layout(RowsAfter(w, steps, c));
    StillApart(w, steps, c, n);
  }

  /** A creation that asks while a task is unfinished and holds its pair chooses two other storages. */
  lemma ChoiceMisses(db: Rows, id: nat, held: Pairing, code: nat, act: CodeAct, pair: Pairing, task: UserTask)
    requires Layout(db) && Held(db, held) && id in db.tasks && Active(db.tasks[id])
    requires db.tasks[id].startSite == Some(held.start) && db.tasks[id].endSite == Some(held.end)
    requires Finds(db, code, act, pair, task)
    ensures {pair.start, pair.end} !! {held.start, held.end}
  {
    hide Choose, NewTask;
    ChoiceIsFree(db, code, act);
    assert id !in FindSiteTask(db, code);
  }

  /**
   * Two creations share a storage, the first task being unfinished all along, only if they are of different
   * form devices and the second had chosen before the first wrote.
   */
  lemma SharedOnlyIfOverlapping(w: World, steps: seq<Step>, i: nat, j: nat, c: nat)
    requires Roles(w.plant.rows) && Possible(w, steps) && Unfinished(w, steps, i, j)
    requires ChosenAt(w, steps, c, j)
    requires {steps[i].pair.start, steps[i].pair.end} * {steps[j].pair.start, steps[j].pair.end} != {}
    ensures c < i && steps[i].device != steps[j].device
  {
    hide Roles, Held, RowsAfter, Layout, Finds;
    if c > i {
      KeepsHeld(w, steps, i, c);
      RolesThrough(w, steps, c);
      ChoiceMisses(RowsAfter(w, steps, c), steps[i].id, steps[i].pair, steps[c].code, steps[c].act,
                   steps[j].pair, steps[j].task);
    }
    assert IsOf(steps[i], steps[i].device);
  }

  // ---------- The input ----------

  function TwoEnds(height: int): Rows {
    Rows(map[7 := Storage(Goods, Single, true, height), 8 := Storage(Empty, Single, true, height),
             9 := Storage(Empty, Single, true, height)],
         map[], map[1 := Template("0")],
         [TempSite(1, 7, StartRole, 1), TempSite(1, 8, EndRole, 1), TempSite(1, 9, EndRole, 2)], [], 0)
  }

  function Race(height: int): seq<Step> {
    var db := TwoEnds(height);
    [Choosing("a", 8, CallGoods), Choosing("b", 9, CallGoods),
     Writing("a", Pairing(1, 7, 8), NewTask(db, Pairing(1, 7, 8)), 1),
     Writing("b", Pairing(1, 7, 9), NewTask(db, Pairing(1, 7, 9)), 2)]
  }

  lemma RunsAt(height: int, code: nat)
    requires code in {8, 9}
    ensures SelectRunTaskTempBySite(TwoEnds(height), code, EndRole, None) == [1]
  {
    var db := TwoEnds(height);
    var x, y, z := TempSite(1, 7, StartRole, 1), TempSite(1, 8, EndRole, 1), TempSite(1, 9, EndRole, 2);
    assert db.tempSites[1..] == [y, z] && [y, z][1..] == [z] && [z][1..] == [];
    assert RunningAt(db.templates, [], code, EndRole, None) == [];
    assert RunningAt(db.templates, [z], code, EndRole, None) == if code == 9 then [1] else [];
    assert RunningAt(db.templates, [y, z], code, EndRole, None) == [1];
  }

  lemma SevenIsFull(height: int)
    ensures FindStorage(TwoEnds(height), 1, StartRole, Goods) == Some(7)
  {
    var db := TwoEnds(height);
    var r := FindStorage(db, 1, StartRole, Goods);
    assert db.tempSites[0] == TempSite(1, 7, StartRole, 1);
    assert Fits(db, db.tempSites[0], 1, StartRole, Goods);
  }

  lemma BothFindSeven(height: int)
    ensures var db := TwoEnds(height);
            && Choose(db, 8, CallGoods) == Some(Pairing(1, 7, 8)) && Choose(db, 9, CallGoods) == Some(Pairing(1, 7, 9))
            && FindSiteTask(db, 8) == {} && FindSiteTask(db, 9) == {}
  {
    hide SelectRunTaskTempBySite, FindStorage;
    RunsAt(height, 8);
    RunsAt(height, 9);
    SevenIsFull(height);
  }

  /** Two devices call goods to 8 and to 9, both find 7, and both tasks start there. */
  lemma RaceSharesStart(w: World, height: int)
    requires w.plant.rows == TwoEnds(height)
    ensures Roles(w.plant.rows) && Possible(w, Race(height))
    ensures ChosenAt(w, Race(height), 0, 2) && ChosenAt(w, Race(height), 1, 3)
    ensures Unfinished(w, Race(height), 2, 4)
    ensures var db := RowsAfter(w, Race(height), 4);
            && 1 in db.tasks && 2 in db.tasks && Active(db.tasks[1]) && Active(db.tasks[2])
            && db.tasks[1].startSite == db.tasks[2].startSite == Some(7)
  {
    hide Roles, RowsAfter, Finds, NewTask;
    var steps, db := Race(height), TwoEnds(height);
    RaceRows(w, height);
    TwoEndsRoles(height);
    RaceFinds(height);
    NewTaskHolds(db, Pairing(1, 7, 8));
    NewTaskHolds(db, Pairing(1, 7, 9));
    assert ChosenAt(w, steps, 0, 2);
    assert ChosenAt(w, steps, 1, 3);
  }

  lemma RaceFinds(height: int)
    ensures Finds(TwoEnds(height), 8, CallGoods, Pairing(1, 7, 8), NewTask(TwoEnds(height), Pairing(1, 7, 8)))
    ensures Finds(TwoEnds(height), 9, CallGoods, Pairing(1, 7, 9), NewTask(TwoEnds(height), Pairing(1, 7, 9)))
  {
    hide Choose, NewTask, FindSiteTask;
    BothFindSeven(height);
  }

  lemma TwoEndsRoles(height: int)
    ensures Roles(TwoEnds(height))
  {
  }

  lemma RaceRows(w: World, height: int)
    requires w.plant.rows == TwoEnds(height)
    ensures var steps, db := Race(height), TwoEnds(height);
            && RowsAfter(w, steps, 0) == RowsAfter(w, steps, 1) == RowsAfter(w, steps, 2) == db
            && RowsAfter(w, steps, 3).tasks == map[1 := steps[2].task]
            && RowsAfter(w, steps, 4).tasks == map[1 := steps[2].task, 2 := steps[3].task]
  {
    hide RowsAfter, Through;
    var steps := Race(height);
    NothingDone(w, steps);
    StepFrom(w, steps, 0);
    StepFrom(w, steps, 1);
    StepFrom(w, steps, 2);
    StepFrom(w, steps, 3);
  }
}
