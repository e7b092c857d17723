/**
 * Whole runs over the storage and task tables: what a created task has reserved stays reserved
 * for it alone, and goods are neither lost nor duplicated.
 */
module Reservation {
  import opened Dispatch
  import opened Tables
  import opened TaskOps
  import opened UserTaskProxy
  import opened UserTasks
  import opened Wrappers

  datatype World = World(plant: Plant, now: int)

  /** One service call. A dispatch that is not acknowledged changes no row and is not an event. */
  datatype Event =
    | Create(code: nat, act: CodeAct, autoId: nat)
    | Send(imei: nat, id: nat)
    | Beat(report: Report, unlocked: bool)
    | Cancel(imei: nat)
    | Set(memory: map<nat, VehicleState>, id: nat, state: string)
    | Delete(id: nat)
    | Tick(seconds: nat)

  function Next(w: World, e: Event): World {
    match e
    case Create(code, act, autoId) => w.(plant := w.plant.(rows := CreateResult(w.plant.rows, code, act, autoId).0))
    case Send(imei, id) =>
      if id in w.plant.rows.tasks then w.(plant := w.plant.(rows := Dispatched(w.plant.rows, imei, id))) else w
    case Beat(r, unlocked) => w.(plant := Heartbeat(w.plant, r, unlocked, w.now))
    case Cancel(imei) => w.(plant := w.plant.(rows := Cancelling(w.plant.rows, imei)))
    case Set(memory, id, state) =>
      w.(plant := w.plant.(rows := SetTaskResult(w.plant.rows, memory, id, state).0))
    case Delete(id) => w.(plant := w.plant.(rows := Deleting(w.plant.rows, id)))
    case Tick(seconds) => w.(now := w.now + seconds)
  }

  // ---------- What a vehicle may report ----------

  predicate OnTask(db: Rows, r: Report) {
    r.taskId in db.tasks && db.tasks[r.taskId].sendFlag == Executing && db.tasks[r.taskId].deviceImei == Some(r.imei)
  }

  /** Either a filter stops the flag, or the vehicle is on the task, and finishes only after placing. */
  predicate FlagAllowed(p: Plant, r: Report, unlocked: bool) {
    r.taskFlag == 0 || UnlockFails(r, unlocked) || RepeatsFlag(p.flagMap, r) || r.taskFlag >= 5
    || (OnTask(p.rows, r) && (r.taskFlag == 1 ==> p.rows.tasks[r.taskId].pickPlace == Placed))
  }

  /** Either the key stops the fork state, or the vehicle is on the task, picks before and places after picking. */
  predicate ForkAllowed(db: Rows, keys: map<ForkId, ForkKey>, r: Report, now: int) {
    r.forkStatus !in {1, 2} || RepeatsFork(keys, r, now) || r.taskId !in db.tasks
    || (OnTask(db, r) && db.tasks[r.taskId].pickPlace != if r.forkStatus == 1 then Placed else NoAction)
  }

  ghost predicate Allowed(w: World, e: Event) {
    match e
    case Send(imei, id) => IsPick(w.plant.rows, imei, Some(id))
    case Beat(r, unlocked) =>
      && FlagAllowed(w.plant, r, unlocked)
      && ForkAllowed(TaskUpdate(w.plant.rows, w.plant.flagMap, r, unlocked).0, w.plant.forkKeys, r, w.now)
    case _ => true
  }

  function Run(w: World, events: seq<Event>): World {
    if events == [] then w else Next(Run(w, events[..|events| - 1]), events[|events| - 1])
  }

  ghost predicate AllowedRun(w: World, events: seq<Event>) {
    forall n | 0 <= n < |events| :: Allowed(Run(w, events[..n]), events[n])
  }

  // ---------- The invariant ----------

  ghost predicate HasRole(db: Rows, code: nat, role: Role) {
    exists s :: s in db.tempSites && s.siteCode == code && s.role == role
  }

  /** Single storages only, no site numbered 0, and no site both a start and an end. */
  ghost predicate Layout(db: Rows) {
    && (forall c | c in db.storages :: c != 0 && db.storages[c].siteType == Single)
    && RolesApart(db)
  }

  ghost predicate RolesApart(db: Rows) {
    forall c :: !(HasRole(db, c, StartRole) && HasRole(db, c, EndRole))
  }

  /** An unfinished task holds its start at "2" until picked and its end at "3" until placed. */
  ghost predicate Reserved(db: Rows, t: UserTask) {
    && t.startSite.Some? && t.endSite.Some? && t.endHandel == "2"
    && t.startSite.value in db.storages && t.endSite.value in db.storages
    && HasRole(db, t.startSite.value, StartRole) && HasRole(db, t.endSite.value, EndRole)
    && db.storages[t.startSite.value].siteStatus == (if t.pickPlace == NoAction then Outgoing else Empty)
    && db.storages[t.endSite.value].siteStatus == (if t.pickPlace == Placed then Goods else Incoming)
    && (t.sendFlag == Created ==> t.pickPlace == NoAction)
  }

  ghost predicate AllReserved(db: Rows) {
    forall id | id in db.tasks && Active(db.tasks[id]) :: Reserved(db, db.tasks[id])
  }

  ghost predicate Apart(db: Rows) {
    forall i, j | i in db.tasks && j in db.tasks && i != j && Active(db.tasks[i]) && Active(db.tasks[j]) ::
      db.tasks[i].startSite != db.tasks[j].startSite && db.tasks[i].endSite != db.tasks[j].endSite
  }

  ghost predicate Inv(db: Rows) {
    Layout(db) && AllReserved(db) && Apart(db) && WaitingUnbound(db.tasks)
  }

  /** The storages a task still keeps for itself. */
  predicate Holds(t: UserTask, code: nat) {
    Active(t)
    && ((t.pickPlace == NoAction && t.startSite == Some(code)) || (t.pickPlace != Placed && t.endSite == Some(code)))
  }

  /** What the invariant means: held storages have the reserved status, and one holder each. */
  lemma InvMeans(db: Rows, i: nat, j: nat, code: nat)
    requires Inv(db) && i in db.tasks && j in db.tasks && Holds(db.tasks[i], code)
    ensures code in db.storages && db.storages[code].siteStatus in {Outgoing, Incoming}
    ensures db.storages[code].siteStatus == Outgoing <==> db.tasks[i].startSite == Some(code)
    ensures Holds(db.tasks[j], code) ==> i == j
  {
    assert Reserved(db, db.tasks[i]);
    if Active(db.tasks[j]) {
      assert Reserved(db, db.tasks[j]);
    }
  }

  // ---------- Creation ----------

  /** A choice takes the announced site and a free counterpart of the other role. */
  lemma ChoiceIsFree(db: Rows, code: nat, act: CodeAct)
    requires RolesApart(db) && Choose(db, code, act).Some?
    ensures var r := Choose(db, code, act).value;
            && r.start in db.storages && r.end in db.storages && r.start != r.end
            && HasRole(db, r.start, StartRole) && HasRole(db, r.end, EndRole)
            && (act == CallGoods ==> r.end == code && db.storages[r.start].siteStatus == Goods)
            && (act == StoreGoods ==> r.start == code && db.storages[r.end].siteStatus == Empty)
            && act != Unknown
  {
    var r := Choose(db, code, act).value;
    var role := if act == CallGoods then EndRole else StartRole;
    var ids := SelectRunTaskTempBySite(db, code, role, None);
    assert ids[0] in ids;
    assert HasRole(db, code, role);
    assert HasRole(db, r.start, StartRole) && HasRole(db, r.end, EndRole);
  }

  lemma CreateKeeps(db: Rows, code: nat, act: CodeAct, autoId: nat)
    requires Inv(db)
    ensures Inv(CreateResult(db, code, act, autoId).0)
  {
    hide Choose, NewTask;
    var (d, ok) := CreateResult(db, code, act, autoId);
    if d != db {
      var r := Choose(db, code, act).value;
      ChoiceIsFree(db, code, act);
      NewTaskHolds(db, r);
      var id := if DevicesOf(db.tempDevices, r.templateId) != [] then db.sequence + 1 else autoId;
      assert d.tasks == db.tasks[id := NewTask(db, r)];
      SitesFree(db, code, act, r);
      InsertKeeps(db, d, id, NewTask(db, r), r);
    }
  }

  lemma NewTaskHolds(db: Rows, r: Pairing)
    requires r.start in db.storages && r.end in db.storages
    ensures var t := NewTask(db, r);
            && t.startSite == Some(r.start) && t.endSite == Some(r.end) && t.endHandel == "2"
            && t.sendFlag == Created && t.pickPlace == NoAction
            && (t.taskType != Assigned ==> t.deviceImei == None)
  {
  }

  /** No unfinished task has anything to do with the chosen storages. */
  lemma SitesFree(db: Rows, code: nat, act: CodeAct, r: Pairing)
    requires Inv(db) && FindSiteTask(db, code) == {} && Choose(db, code, act) == Some(r)
    ensures forall o | o in db.tasks && Active(db.tasks[o]) ::
              db.tasks[o].startSite != Some(r.start) && db.tasks[o].endSite != Some(r.end)
  {
    hide Choose;
    ChoiceIsFree(db, code, act);
    forall o | o in db.tasks && Active(db.tasks[o])
      ensures db.tasks[o].startSite != Some(r.start) && db.tasks[o].endSite != Some(r.end)
    {
      assert o !in FindSiteTask(db, code);
      assert Reserved(db, db.tasks[o]);
    }
  }

  lemma InsertKeeps(db: Rows, d: Rows, id: nat, t: UserTask, r: Pairing)
    requires Inv(db) && id !in db.tasks
    requires r.start in db.storages && r.end in db.storages && r.start != r.end
    requires HasRole(db, r.start, StartRole) && HasRole(db, r.end, EndRole)
    requires t.startSite == Some(r.start) && t.endSite == Some(r.end) && t.endHandel == "2"
    requires t.sendFlag == Created && t.pickPlace == NoAction && (t.taskType != Assigned ==> t.deviceImei == None)
    requires forall o | o in db.tasks && Active(db.tasks[o]) ::
               db.tasks[o].startSite != Some(r.start) && db.tasks[o].endSite != Some(r.end)
    requires d.tasks == db.tasks[id := t] && d.storages == Reserve(db.storages, r.start, r.end)
    requires d.tempSites == db.tempSites
    ensures Inv(d)
  {
    forall c, role
      ensures HasRole(d, c, role) == HasRole(db, c, role)
    {
    }
    forall o | o in d.tasks && Active(d.tasks[o])
      ensures Reserved(d, d.tasks[o])
    {
      if o != id {
        assert Reserved(db, db.tasks[o]);
      }
    }
  }

  // ---------- Steps of a reserved task ----------

  /** Replace one unfinished task and set one storage that belongs to it. */
  lemma TaskStepKeeps(db: Rows, d: Rows, id: nat, t: UserTask, code: nat)
    requires Inv(db) && id in db.tasks && Active(db.tasks[id])
    requires t.startSite == db.tasks[id].startSite && t.endSite == db.tasks[id].endSite
    requires d.tasks == db.tasks[id := t] && d.tempSites == db.tempSites
    requires d.storages.Keys == db.storages.Keys
    requires Some(code) in {t.startSite, t.endSite}
    requires forall c | c in db.storages && c != code :: d.storages[c] == db.storages[c]
    requires forall c | c in db.storages :: d.storages[c].siteType == db.storages[c].siteType
    requires Active(t) ==> Reserved(d, t)
    requires t.sendFlag == Created && t.taskType != Assigned ==> t.deviceImei == None
    ensures Inv(d)
  {
    assert Reserved(db, db.tasks[id]);
    forall c, role
      ensures HasRole(d, c, role) == HasRole(db, c, role)
    {
    }
    forall o | o in d.tasks && Active(d.tasks[o])
      ensures Reserved(d, d.tasks[o])
    {
      if o != id {
        assert Reserved(db, db.tasks[o]);
        assert db.tasks[o].startSite != Some(code) && db.tasks[o].endSite != Some(code);
      }
    }
  }

  lemma DispatchKeeps(db: Rows, imei: nat, id: nat)
    requires Inv(db) && IsPick(db, imei, Some(id))
    ensures Inv(Dispatched(db, imei, id))
  {
    var t := db.tasks[id];
    assert Reserved(db, t);
    var d := Dispatched(db, imei, id);
    SameStorages(db, d, d.tasks[id]);
    TaskStepKeeps(db, d, id, d.tasks[id], t.startSite.value);
  }

  /** Reserved depends on the storages and template sites alone. */
  lemma SameStorages(db: Rows, d: Rows, t: UserTask)
    requires d.storages == db.storages && d.tempSites == db.tempSites
    ensures Reserved(d, t) == Reserved(db, t)
    ensures Layout(d) == Layout(db)
  {
    forall c, role
      ensures HasRole(d, c, role) == HasRole(db, c, role)
    {
    }
  }

  /** Tasks may end or disappear: what the others reserved is untouched. */
  lemma DropKeeps(db: Rows, d: Rows)
    requires Inv(db) && d.storages == db.storages && d.tempSites == db.tempSites
    requires forall o | o in d.tasks && Active(d.tasks[o]) :: o in db.tasks && d.tasks[o] == db.tasks[o]
    ensures Inv(d)
  {
    hide Reserved, Layout;
    forall id | id in d.tasks && Active(d.tasks[id])
      ensures Reserved(d, d.tasks[id])
    {
      assert Reserved(db, db.tasks[id]);
      SameStorages(db, d, d.tasks[id]);
    }
    SameStorages(db, d, UserTask(None, Sent, Multi, NoAction, None, "", 0, None, "", 0, None, []));
  }

  lemma FlagKeeps(p: Plant, r: Report, unlocked: bool)
    requires Inv(p.rows) && FlagAllowed(p, r, unlocked)
    ensures Inv(TaskUpdate(p.rows, p.flagMap, r, unlocked).0)
  {
    var db := p.rows;
    var d := TaskUpdate(db, p.flagMap, r, unlocked).0;
    if d != db {
      var t := db.tasks[r.taskId];
      assert Reserved(db, t);
      SameStorages(db, SetFlag(db, r.taskId, Executing), t);
      TaskStepKeeps(db, d, r.taskId, d.tasks[r.taskId], t.endSite.value);
    }
  }

  lemma ForkKeeps(db: Rows, keys: map<ForkId, ForkKey>, r: Report, now: int)
    requires Inv(db) && ForkAllowed(db, keys, r, now)
    ensures Inv(StorageUpdate(db, keys, r, now).0)
  {
    var d := StorageUpdate(db, keys, r, now).0;
    assert RowEffect(db, r) == db;
    if d != db {
      var t := db.tasks[r.taskId];
      assert Reserved(db, t);
      var u := d.tasks[r.taskId];
      var code := if r.forkStatus == 1 then t.startSite.value else t.endSite.value;
      assert t.startSite != t.endSite;
      forall c, role
        ensures HasRole(d, c, role) == HasRole(db, c, role)
      {
      }
      TaskStepKeeps(db, d, r.taskId, u, code);
    }
  }

  lemma StepKeeps(w: World, e: Event)
    requires Inv(w.plant.rows) && Allowed(w, e)
    ensures Inv(Next(w, e).plant.rows)
  {
    hide Inv, TaskUpdate, StorageUpdate, CreateResult;
    match e
    case Create(code, act, autoId) => CreateKeeps(w.plant.rows, code, act, autoId);
    case Send(imei, id) => DispatchKeeps(w.plant.rows, imei, id);
    case Beat(r, unlocked) =>
      FlagKeeps(w.plant, r, unlocked);
      var d := TaskUpdate(w.plant.rows, w.plant.flagMap, r, unlocked).0;
      ForkKeeps(d, w.plant.forkKeys, r, w.now);
    case Cancel(imei) => DropKeeps(w.plant.rows, Cancelling(w.plant.rows, imei));
    case Set(memory, id, state) => DropKeeps(w.plant.rows, SetTaskResult(w.plant.rows, memory, id, state).0);
    case Delete(id) => DropKeeps(w.plant.rows, Deleting(w.plant.rows, id));
    case Tick(_) =>
  }

  lemma PrefixAllowed(w: World, events: seq<Event>, n: nat)
    requires AllowedRun(w, events) && n <= |events|
    ensures AllowedRun(w, events[..n])
  {
    forall k | 0 <= k < n
      ensures Allowed(Run(w, events[..n][..k]), events[..n][k])
    {
      assert events[..n][..k] == events[..k];
      assert Allowed(Run(w, events[..k]), events[k]);
    }
  }

  /** Every allowed run keeps every reservation, whatever is repeated and however calls interleave. */
  lemma {:induction false} ReservationsHold(w: World, events: seq<Event>)
    requires Inv(w.plant.rows) && AllowedRun(w, events)
    ensures Inv(Run(w, events).plant.rows)
  {
    if events != [] {
      var n := |events| - 1;
      PrefixAllowed(w, events, n);
      ReservationsHold(w, events[..n]);
      StepKeeps(Run(w, events[..n]), events[n]);
    }
  }

  /**
   * From an idle plant: at any point of any allowed run a storage held by an unfinished task is
   * at "2" if it is the task's start and at "3" if it is its end, and nobody else holds it.
   */
  lemma HeldExclusively(w: World, events: seq<Event>, i: nat, j: nat, code: nat)
    requires Layout(w.plant.rows) && (forall id | id in w.plant.rows.tasks :: !Active(w.plant.rows.tasks[id]))
    requires AllowedRun(w, events)
    ensures var db := Run(w, events).plant.rows;
            i in db.tasks && Holds(db.tasks[i], code) ==>
              && code in db.storages
              && db.storages[code].siteStatus == (if db.tasks[i].startSite == Some(code) then Outgoing else Incoming)
              && (j in db.tasks && Holds(db.tasks[j], code) ==> i == j)
  {
    hide Layout, AllowedRun, Next;
    ReservationsHold(w, events);
    var db := Run(w, events).plant.rows;
    if i in db.tasks && j in db.tasks && Holds(db.tasks[i], code) {
      InvMeans(db, i, j, code);
    } else if i in db.tasks && Holds(db.tasks[i], code) {
      InvMeans(db, i, i, code);
    }
  }
}
