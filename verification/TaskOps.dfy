/** Task creation and the choice of the next task, app/services/task_op_service.py. */
module TaskOps {
  import opened Tables
  import opened Wrappers

  /** form.codeAct: "1" calls goods to the site, "2" stores the goods of the site, anything else fails. */
  datatype CodeAct = CallGoods | StoreGoods | Unknown

  /** The busy set mixes form devices, text or none, and vehicles, which are numbers. */
  datatype Caller = Form(device: Option<string>) | Vehicle(imei: nat)

  /** A start and an end storage of one template. */
  datatype Pairing = Pairing(templateId: nat, start: nat, end: nat)

  /** The counterpart storage and the template, or None where the source answers with a failure. */
  function Choose(db: Rows, code: nat, act: CodeAct): Option<Pairing> {
    match act
    case CallGoods =>
      var templates := SelectRunTaskTempBySite(db, code, EndRole, None);
      if templates == [] then None
      else
        var start := FindStorage(db, templates[0], StartRole, Goods);
        if start.None? || code !in db.storages then None
        else Some(Pairing(templates[0], start.value, code))
    case StoreGoods =>
      var templates := SelectRunTaskTempBySite(db, code, StartRole, None);
      if templates == [] then None
      else
        var end := FindStorage(db, templates[0], EndRole, Empty);
        if end.None? || code !in db.storages then None
        else Some(Pairing(templates[0], code, end.value))
    case Unknown => None
  }

  function NewTask(db: Rows, r: Pairing): UserTask
    requires r.start in db.storages && r.end in db.storages
  {
    var regs := DevicesOf(db.tempDevices, r.templateId);
    UserTask(
      if |regs| == 1 then Some(regs[0]) else None,
      Created,
      if |regs| == 0 then Unassigned else if |regs| == 1 then Assigned else Multi,
      NoAction,
      Some(r.start), "1", db.storages[r.start].height,
      Some(r.end), "2", db.storages[r.end].height,
      Some(r.templateId), [])
  }

  /** Start to "2", then end to "3". */
  function Reserve(storages: map<nat, Storage>, start: nat, end: nat): map<nat, Storage>
    requires start in storages && end in storages
  {
    var s := storages[start := storages[start].(siteStatus := Outgoing)];
    s[end := s[end].(siteStatus := Incoming)]
  }

  /**
   * What one call does to the tables. `autoId` is the key the database would assign by itself;
   * inserting under a key that is taken raises and the transaction is lost.
   */
  function CreateResult(db: Rows, code: nat, act: CodeAct, autoId: nat): (Rows, Outcome<bool>) {
    if FindSiteTask(db, code) != {} then (db, Value(false))
    else
      var choice := Choose(db, code, act);
      if choice.None? then (db, Value(false))
      else
        var r := choice.value;
        var numbered := DevicesOf(db.tempDevices, r.templateId) != [];
        var id := if numbered then db.sequence + 1 else autoId;
        if id in db.tasks then (db, Raises)
        else
          (db.(tasks := db.tasks[id := NewTask(db, r)],
               storages := Reserve(db.storages, r.start, r.end),
               sequence := if numbered then db.sequence + 1 else db.sequence),
           Value(true))
  }

  // ---------- The row a creation adds ----------

  predicate Registers(devices: seq<TempDevice>, templateId: nat) {
    exists d | d in devices :: d.templateId == templateId
  }

  /** The k-th registration is the only one of its template. */
  predicate OnlyRegistration(devices: seq<TempDevice>, templateId: nat, k: nat) {
    && k < |devices| && devices[k].templateId == templateId
    && forall l | 0 <= l < |devices| && l != k :: devices[l].templateId != templateId
  }

  lemma {:induction false} NoneRegistered(devices: seq<TempDevice>, templateId: nat)
    ensures DevicesOf(devices, templateId) == [] <==> !Registers(devices, templateId)
  {
    if DevicesOf(devices, templateId) != [] {
      var d := DevicesOf(devices, templateId)[0];
      assert d in DevicesOf(devices, templateId);
    }
  }

  lemma {:induction false} OneRegistered(devices: seq<TempDevice>, templateId: nat) returns (k: nat)
    ensures |DevicesOf(devices, templateId)| == 1 ==>
              OnlyRegistration(devices, templateId, k) && DevicesOf(devices, templateId)[0] == devices[k].deviceImei
    ensures (exists l: nat :: OnlyRegistration(devices, templateId, l)) ==> |DevicesOf(devices, templateId)| == 1
  {
    k := 0;
    if devices != [] {
      var rest := devices[1..];
      var j := OneRegistered(rest, templateId);
      NoneRegistered(rest, templateId);
      if devices[0].templateId == templateId {
        if l: nat :| OnlyRegistration(devices, templateId, l) {
          assert l == 0;
          assert !Registers(rest, templateId);
        }
        if |DevicesOf(devices, templateId)| == 1 {
          forall l | 1 <= l < |devices|
            ensures devices[l].templateId != templateId
          {
            assert devices[l] == rest[l - 1] && rest[l - 1] in rest;
          }
        }
      } else {
        k := j + 1;
        if l: nat :| OnlyRegistration(devices, templateId, l) {
          assert OnlyRegistration(rest, templateId, l - 1);
        }
        if |DevicesOf(devices, templateId)| == 1 {
          forall l | 1 <= l < |devices| && l != k
            ensures devices[l].templateId != templateId
          {
            assert devices[l] == rest[l - 1];
          }
        }
      }
    }
  }

  /** What a new row of a template says: waiting, from a loaded start to an end, both at their storages' heights. */
  predicate DescribesHaul(db: Rows, t: UserTask, code: nat, act: CodeAct) {
    && t.templateId.Some? && t.sendFlag == Created && t.pickPlace == NoAction && t.wayPoints == []
    && t.startSite.Some? && t.startSite.value in db.storages && t.endSite.Some? && t.endSite.value in db.storages
    && t.startHandel == "1" && t.startHeight == db.storages[t.startSite.value].height
    && t.endHandel == "2" && t.endHeight == db.storages[t.endSite.value].height
    && (act == CallGoods ==> t.endSite == Some(code)) && (act == StoreGoods ==> t.startSite == Some(code))
    && act != Unknown
  }

  /** For nobody in particular, for the one vehicle registered, or for one of several. */
  ghost predicate BoundByTemplate(devices: seq<TempDevice>, t: UserTask)
    requires t.templateId.Some?
  {
    var template := t.templateId.value;
    if !Registers(devices, template) then t.taskType == Unassigned && t.deviceImei == None
    else if exists k: nat :: OnlyRegistration(devices, template, k) then
      t.taskType == Assigned && t.deviceImei.Some? && TempDevice(template, t.deviceImei.value) in devices
    else t.taskType == Multi && t.deviceImei == None
  }

  lemma NewTaskDescribed(db: Rows, code: nat, act: CodeAct)
    requires Choose(db, code, act).Some?
    ensures var r := Choose(db, code, act).value;
            && r.start in db.storages && r.end in db.storages
            && DescribesHaul(db, NewTask(db, r), code, act)
            && NewTask(db, r).templateId == Some(r.templateId)
            && BoundByTemplate(db.tempDevices, NewTask(db, r))
  {
    var r := Choose(db, code, act).value;
    var k := OneRegistered(db.tempDevices, r.templateId);
    NoneRegistered(db.tempDevices, r.templateId);
    var regs := DevicesOf(db.tempDevices, r.templateId);
    if |regs| == 1 {
      assert regs[0] in regs;
    }
  }

  /**
   * A successful creation adds one row and changes no other. Its id is the next of the sequence if the template
   * has vehicles, and otherwise the one the database assigns.
   */
  lemma CreatedRow(db: Rows, code: nat, act: CodeAct, autoId: nat) returns (id: nat)
    requires CreateResult(db, code, act, autoId).1 == Value(true)
    ensures var d := CreateResult(db, code, act, autoId).0;
            && id !in db.tasks && d.tasks.Keys == db.tasks.Keys + {id}
            && (forall o | o in db.tasks :: d.tasks[o] == db.tasks[o])
            && DescribesHaul(db, d.tasks[id], code, act) && BoundByTemplate(db.tempDevices, d.tasks[id])
            && d.tempDevices == db.tempDevices
            && if Registers(db.tempDevices, d.tasks[id].templateId.value) then id == d.sequence == db.sequence + 1
               else id == autoId && d.sequence == db.sequence
  {
    hide Choose, NewTask;
    NewTaskDescribed(db, code, act);
    var r := Choose(db, code, act).value;
    NoneRegistered(db.tempDevices, r.templateId);
    id := if DevicesOf(db.tempDevices, r.templateId) != [] then db.sequence + 1 else autoId;
    assert CreateResult(db, code, act, autoId).0.tasks == db.tasks[id := NewTask(db, r)];
  }

  // ---------- Priority ----------

  predicate Registered(db: Rows, imei: nat, t: UserTask) {
    t.templateId.Some? && TempDevice(t.templateId.value, imei) in db.tempDevices
  }

  /** 0 own task, 1 several vehicles and this one registered, 2 call, 3 unassigned, 4 not for this vehicle. */
  function Class(db: Rows, imei: nat, t: UserTask): nat {
    if t.sendFlag != Created then 4
    else if t.deviceImei == Some(imei) then 0
    else if t.taskType == Multi && Registered(db, imei, t) then 1
    else if t.taskType == CallDevice then 2
    else if t.taskType == Unassigned then 3
    else 4
  }

  predicate Eligible(db: Rows, imei: nat, id: nat) {
    id in db.tasks && Class(db, imei, db.tasks[id]) < 4
  }

  /** Lower class first; within a class the older id, but the newest call. */
  predicate Before(db: Rows, imei: nat, a: nat, b: nat)
    requires a in db.tasks && b in db.tasks
  {
    var ca, cb := Class(db, imei, db.tasks[a]), Class(db, imei, db.tasks[b]);
    ca < cb || (ca == cb && if ca == 2 then a > b else a < b)
  }

  ghost predicate IsBest(db: Rows, imei: nat, id: nat) {
    Eligible(db, imei, id) && forall o | Eligible(db, imei, o) && o != id :: Before(db, imei, id, o)
  }

  /** The answer is the least eligible task, and None exactly when no task is eligible. */
  ghost predicate IsPick(db: Rows, imei: nat, pick: Option<nat>) {
    match pick
    case Some(id) => IsBest(db, imei, id)
    case None => forall id :: !Eligible(db, imei, id)
  }

  lemma PickUnique(db: Rows, imei: nat, a: Option<nat>, b: Option<nat>)
    requires IsPick(db, imei, a) && IsPick(db, imei, b)
    ensures a == b
  {
    if a.Some? {
      assert Eligible(db, imei, a.value);
    }
    if b.Some? {
      assert Eligible(db, imei, b.value);
    }
  }

  /** A waiting task that is not bound to one vehicle has no vehicle yet. */
  ghost predicate WaitingUnbound(tasks: map<nat, UserTask>) {
    forall id | id in tasks && tasks[id].sendFlag == Created && tasks[id].taskType != Assigned ::
      tasks[id].deviceImei == None
  }

  lemma NeverAnothersTask(db: Rows, imei: nat, id: nat)
    requires WaitingUnbound(db.tasks) && IsPick(db, imei, Some(id))
    ensures db.tasks[id].deviceImei in {None, Some(imei)}
  {
  }

  ghost predicate OwnWaiting(db: Rows, imei: nat, id: nat) {
    id in db.tasks && db.tasks[id].sendFlag == Created && db.tasks[id].deviceImei == Some(imei)
  }

  ghost predicate SharedWaiting(db: Rows, imei: nat, id: nat) {
    id in db.tasks && db.tasks[id].sendFlag == Created && db.tasks[id].taskType == Multi
    && db.tasks[id].templateId.Some? && TempDevice(db.tasks[id].templateId.value, imei) in db.tempDevices
  }

  ghost predicate TypeWaiting(db: Rows, taskType: TaskType, id: nat) {
    id in db.tasks && db.tasks[id].sendFlag == Created && db.tasks[id].taskType == taskType
  }

  /** The priorities, from the rows: own tasks, then shared ones, then the newest call, then the oldest for anyone. */
  lemma PickPrefers(db: Rows, imei: nat, pick: Option<nat>)
    requires IsPick(db, imei, pick)
    ensures forall o | OwnWaiting(db, imei, o) :: pick.Some? && OwnWaiting(db, imei, pick.value) && pick.value <= o
    ensures (forall o :: !OwnWaiting(db, imei, o)) ==>
              forall o | SharedWaiting(db, imei, o) ::
                pick.Some? && SharedWaiting(db, imei, pick.value) && pick.value <= o
    ensures (forall o :: !OwnWaiting(db, imei, o)) && (forall o :: !SharedWaiting(db, imei, o)) ==>
              forall o | TypeWaiting(db, CallDevice, o) ::
                pick.Some? && TypeWaiting(db, CallDevice, pick.value) && pick.value >= o
    ensures (forall o :: !OwnWaiting(db, imei, o)) && (forall o :: !SharedWaiting(db, imei, o))
            && (forall o :: !TypeWaiting(db, CallDevice, o)) ==>
              if pick.Some? then
                TypeWaiting(db, Unassigned, pick.value) && forall o | TypeWaiting(db, Unassigned, o) :: pick.value <= o
              else forall o :: !TypeWaiting(db, Unassigned, o)
  {
    forall o | OwnWaiting(db, imei, o)
      ensures pick.Some? && OwnWaiting(db, imei, pick.value) && pick.value <= o
    {
      assert Eligible(db, imei, o);
    }
    if forall o :: !OwnWaiting(db, imei, o) {
      forall o | SharedWaiting(db, imei, o)
        ensures pick.Some? && SharedWaiting(db, imei, pick.value) && pick.value <= o
      {
        assert !OwnWaiting(db, imei, o);
        assert Eligible(db, imei, o);
        assert !OwnWaiting(db, imei, pick.value);
      }
      if forall o :: !SharedWaiting(db, imei, o) {
        PrefersCalls(db, imei, pick);
      }
    }
  }

  lemma PrefersCalls(db: Rows, imei: nat, pick: Option<nat>)
    requires IsPick(db, imei, pick)
    requires (forall o :: !OwnWaiting(db, imei, o)) && (forall o :: !SharedWaiting(db, imei, o))
    ensures forall o | TypeWaiting(db, CallDevice, o) ::
              pick.Some? && TypeWaiting(db, CallDevice, pick.value) && pick.value >= o
    ensures (forall o :: !TypeWaiting(db, CallDevice, o)) ==>
              if pick.Some? then
                TypeWaiting(db, Unassigned, pick.value) && forall o | TypeWaiting(db, Unassigned, o) :: pick.value <= o
              else forall o :: !TypeWaiting(db, Unassigned, o)
  {
    forall o | o in db.tasks
      ensures Class(db, imei, db.tasks[o]) ==
              if TypeWaiting(db, CallDevice, o) then 2 else if TypeWaiting(db, Unassigned, o) then 3 else 4
    {
      assert !OwnWaiting(db, imei, o) && !SharedWaiting(db, imei, o);
    }
    forall o | TypeWaiting(db, CallDevice, o) || TypeWaiting(db, Unassigned, o)
      ensures Eligible(db, imei, o)
    {
    }
    if pick.Some? {
      assert Eligible(db, imei, pick.value);
    }
  }

  lemma PickWaits(db: Rows, imei: nat, id: nat)
    requires IsPick(db, imei, Some(id))
    ensures id in db.tasks && db.tasks[id].sendFlag == Created
  {
  }

  /** The new task is offered to every vehicle if its template has none, and otherwise to those of the template. */
  lemma CreatedIsOffered(db: Rows, code: nat, act: CodeAct, autoId: nat, imei: nat)
    requires CreateResult(db, code, act, autoId).1 == Value(true)
    ensures var d := CreateResult(db, code, act, autoId).0;
            forall id | id in d.tasks && id !in db.tasks ::
              var template := d.tasks[id].templateId;
              && template.Some?
              && (Eligible(d, imei, id) <==>
                    !Registers(db.tempDevices, template.value) || TempDevice(template.value, imei) in db.tempDevices)
  {
    hide CreateResult;
    var id := CreatedRow(db, code, act, autoId);
    var d := CreateResult(db, code, act, autoId).0;
    var t := d.tasks[id];
    var template := t.templateId.value;
    if k: nat :| OnlyRegistration(db.tempDevices, template, k) {
      forall imei' | TempDevice(template, imei') in db.tempDevices
        ensures imei' == db.tempDevices[k].deviceImei
      {
        var l :| 0 <= l < |db.tempDevices| && db.tempDevices[l] == TempDevice(template, imei');
      }
    }
  }

  class TaskOpService {
    var deviceBusy: set<Caller>

    constructor ()
      ensures deviceBusy == {}
    {
      deviceBusy := {};
    }

    method CreateTask(session: Session, device: Option<string>, code: nat, act: CodeAct, autoId: nat)
      returns (r: Outcome<bool>)
      modifies this, session
      ensures deviceBusy == old(deviceBusy)
      ensures Form(device) in deviceBusy ==> r == Value(false) && session.rows == old(session.rows)
      ensures Form(device) !in deviceBusy ==> (session.rows, r) == CreateResult(old(session.rows), code, act, autoId)
    {
      if Form(device) in deviceBusy {
        return Value(false);
      }
      deviceBusy := deviceBusy + {Form(device)};
      r := CreateLocked(session, code, act, autoId);
      deviceBusy := deviceBusy - {Form(device)};
    }

    /** The body of the `try`. */
    method CreateLocked(session: Session, code: nat, act: CodeAct, autoId: nat) returns (r: Outcome<bool>)
      modifies session
      ensures (session.rows, r) == CreateResult(old(session.rows), code, act, autoId)
    {
      var db := session.rows;
      var running := FindSiteTask(db, code);
      if running != {} {
        return Value(false);
      }
      var choice := Choose(db, code, act);
      if choice.None? {
        return Value(false);
      }
      var chosen := choice.value;
      var regs := DevicesOf(db.tempDevices, chosen.templateId);
      var userTaskId := autoId;
      if regs != [] {
        userTaskId := db.sequence + 1;
      }
      if userTaskId in db.tasks {
        return Raises;
      }
      var task := NewTask(db, chosen);
      if regs != [] {
        session.rows := session.rows.(sequence := userTaskId);
      }
      session.rows := session.rows.(tasks := session.rows.tasks[userTaskId := task]);
      var start := session.rows.storages[chosen.start].(siteStatus := Outgoing);
      session.rows := session.rows.(storages := session.rows.storages[chosen.start := start]);
      var end := session.rows.storages[chosen.end].(siteStatus := Incoming);
      session.rows := session.rows.(storages := session.rows.storages[chosen.end := end]);
      r := Value(true);
    }

    method EditAndGetAnTask(session: Session, imei: nat) returns (pick: Option<nat>)
      modifies this
      ensures deviceBusy == old(deviceBusy)
      ensures Vehicle(imei) in deviceBusy ==> pick == None
      ensures Vehicle(imei) !in deviceBusy ==> IsPick(session.rows, imei, pick)
    {
      if Vehicle(imei) in deviceBusy {
        return None;
      }
      deviceBusy := deviceBusy + {Vehicle(imei)};
      pick := PickTask(session.rows, imei);
      deviceBusy := deviceBusy - {Vehicle(imei)};
    }
  }

  /** The tasks of one class in the order the query lists them: the first is best if no lower class occurs. */
  lemma FirstIsBest(db: Rows, imei: nat, rows: seq<nat>, rank: nat)
    requires rows != [] && rank < 4
    requires if rank == 2 then Decreasing(rows) else Nondecreasing(rows)
    requires NoneBelow(db, imei, rank)
    requires forall id :: id in rows <==> id in db.tasks && Class(db, imei, db.tasks[id]) == rank
    ensures IsBest(db, imei, rows[0])
  {
    assert rows[0] in rows;
    forall o | Eligible(db, imei, o) && o != rows[0]
      ensures Before(db, imei, rows[0], o)
    {
      if o in rows {
        var k :| 0 <= k < |rows| && rows[k] == o;
      }
    }
  }

  /** The four queries in the order they are asked. */
  function Query(db: Rows, imei: nat, rank: nat): seq<nat>
    requires rank < 4
  {
    if rank == 0 then SelectByDeviceFlag(db, imei, Created)
    else if rank == 1 then SelectRunTaskByType(db, imei, Created, Multi)
    else if rank == 2 then SelectByFlagType(db, Created, CallDevice, true)
    else SelectByFlagType(db, Created, Unassigned, false)
  }

  ghost predicate NoneBelow(db: Rows, imei: nat, rank: nat) {
    forall id | id in db.tasks :: Class(db, imei, db.tasks[id]) >= rank
  }

  /** A query asked after empty ones lists exactly its class. */
  lemma QueryIsClass(db: Rows, imei: nat, rank: nat)
    requires rank < 4 && NoneBelow(db, imei, rank)
    ensures forall id :: id in Query(db, imei, rank) <==> id in db.tasks && Class(db, imei, db.tasks[id]) == rank
    ensures if rank == 2 then Decreasing(Query(db, imei, rank)) else Nondecreasing(Query(db, imei, rank))
    ensures Query(db, imei, rank) == [] ==> NoneBelow(db, imei, rank + 1)
  {
    hide SelectByDeviceFlag, SelectRunTaskByType, SelectByFlagType;
    var rows := Query(db, imei, rank);
    forall id
      ensures id in rows <==> id in db.tasks && Class(db, imei, db.tasks[id]) == rank
    {
      if rank == 1 {
        assert id in rows <==> multiset(rows)[id] > 0;
      }
    }
  }

  method PickTask(db: Rows, imei: nat) returns (pick: Option<nat>)
    ensures IsPick(db, imei, pick)
  {
    hide SelectByDeviceFlag, SelectRunTaskByType, SelectByFlagType, Class, Increasing, Nondecreasing, Decreasing;
    hide IsBest, Registered;
    AllClassed(db, imei);
    QueryIsClass(db, imei, 0);
    var rows := SelectByDeviceFlag(db, imei, Created);
    if rows != [] {
      FirstIsBest(db, imei, rows, 0);
      return Some(rows[0]);
    }
    QueryIsClass(db, imei, 1);
    rows := SelectRunTaskByType(db, imei, Created, Multi);
    if rows != [] {
      FirstIsBest(db, imei, rows, 1);
      return Some(rows[0]);
    }
    QueryIsClass(db, imei, 2);
    rows := SelectByFlagType(db, Created, CallDevice, true);
    if rows != [] {
      FirstIsBest(db, imei, rows, 2);
      return Some(rows[0]);
    }
    QueryIsClass(db, imei, 3);
    rows := SelectByFlagType(db, Created, Unassigned, false);
    if rows != [] {
      FirstIsBest(db, imei, rows, 3);
      return Some(rows[0]);
    }
    pick := None;
  }

  lemma AllClassed(db: Rows, imei: nat)
    ensures NoneBelow(db, imei, 0)
  {
  }
}
