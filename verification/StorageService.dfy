/** Status changes of storages and the tasks they create, app/services/storage.py. */
module StorageService {
  import opened Tables
  import opened TaskOps
  import opened UserTaskProxy
  import opened Wrappers

  /** `barely`: action "1", status changes create no task. */
  datatype Device = Device(isEnabled: bool, barely: bool, isCamera: bool)

  /** yg_storage_device_relation: a slot of a device watches a site. */
  datatype Relation = Relation(deviceImei: string, orderNo: nat, siteCode: nat)

  /** resultCode "1", plain success, or success carrying code 100. */
  datatype Reply = Refused | Done | NoTask

  /** What does not change during these calls, and the key the database would assign. */
  datatype Context = Context(devices: map<string, Device>, relations: seq<Relation>, autoId: nat)

  function ActFor(status: SiteStatus): CodeAct {
    if status == Empty then CallGoods else StoreGoods
  }

  /** `create_task` for a form device that may be busy already. */
  function Create(db: Rows, busy: bool, code: nat, act: CodeAct, autoId: nat): (Rows, Outcome<bool>) {
    if busy then (db, Value(false)) else CreateResult(db, code, act, autoId)
  }

  predicate Enabled(db: Rows, code: nat) {
    code in db.storages && db.storages[code].isEnabled
  }

  function EditStatus(db: Rows, c: Context, busy: bool, deviceImei: Option<string>, code: nat, status: SiteStatus,
                      barely: bool)
    : (Rows, Outcome<Reply>)
  {
    var named := deviceImei.Some? && deviceImei.value != "" && deviceImei.value != "0";
    if !Enabled(db, code) then (db, Value(Refused))
    else if named && (deviceImei.value !in c.devices || !c.devices[deviceImei.value].isEnabled) then
      (db, Value(Refused))
    else if barely || (named && c.devices[deviceImei.value].barely) then (SetStatus(db, code, status), Value(Done))
    else
      var (d, made) := Create(db, busy, code, ActFor(status), c.autoId);
      match made
      case Raises => (d, Raises)
      case Value(true) => (d, Value(Done))
      case Value(false) =>
        if named && c.devices[deviceImei.value].isCamera then (SetStatus(d, code, status), Value(Done))
        else (d, Value(NoTask))
  }

  predicate Bound(relations: seq<Relation>, deviceImei: string, code: nat) {
    exists r | r in relations :: r.deviceImei == deviceImei && r.siteCode == code
  }

  function Toggled(status: SiteStatus): SiteStatus {
    if status == Empty then Goods else Empty
  }

  function EditScan(db: Rows, c: Context, busy: bool, deviceImei: string, code: nat): (Rows, Outcome<Reply>) {
    if deviceImei !in c.devices || !c.devices[deviceImei].isEnabled then (db, Value(Refused))
    else if !Bound(c.relations, deviceImei, code) then (db, Value(Refused))
    else if !Enabled(db, code) then (db, Value(Refused))
    else if db.storages[code].siteStatus in {Outgoing, Incoming} then (db, Value(Refused))
    else
      var status := Toggled(db.storages[code].siteStatus);
      EditStatus(db, c, busy, Some(deviceImei), code, status, c.devices[deviceImei].barely)
  }

  method EditStorageStatus(session: Session, ops: TaskOpService, c: Context, deviceImei: Option<string>, code: nat,
                           status: SiteStatus, barely: bool) returns (r: Outcome<Reply>)
    modifies session, ops
    ensures ops.deviceBusy == old(ops.deviceBusy)
    ensures (session.rows, r) ==
            EditStatus(old(session.rows), c, Form(deviceImei) in ops.deviceBusy, deviceImei, code, status, barely)
  {
    if code !in session.rows.storages || !session.rows.storages[code].isEnabled {
      return Value(Refused);
    }
    var act := if status == Empty then CallGoods else StoreGoods;
    if deviceImei.Some? && deviceImei.value != "" && deviceImei.value != "0" {
      if deviceImei.value !in c.devices || !c.devices[deviceImei.value].isEnabled {
        return Value(Refused);
      }
      var device := c.devices[deviceImei.value];
      if device.barely || barely {
        session.rows := SetStatus(session.rows, code, status);
        return Value(Done);
      }
      var task := ops.CreateTask(session, deviceImei, code, act, c.autoId);
      if task.Raises? {
        return Raises;
      }
      if task.value {
        return Value(Done);
      }
      if device.isCamera {
        session.rows := SetStatus(session.rows, code, status);
        return Value(Done);
      }
      return Value(NoTask);
    }
    if barely {
      session.rows := SetStatus(session.rows, code, status);
      return Value(Done);
    }
    var task := ops.CreateTask(session, deviceImei, code, act, c.autoId);
    if task.Raises? {
      return Raises;
    }
    r := if task.value then Value(Done) else Value(NoTask);
  }

  method EditScanStorageStatus(session: Session, ops: TaskOpService, c: Context, deviceImei: string, code: nat)
    returns (r: Outcome<Reply>)
    modifies session, ops
    ensures ops.deviceBusy == old(ops.deviceBusy)
    ensures (session.rows, r) ==
            EditScan(old(session.rows), c, Form(Some(deviceImei)) in ops.deviceBusy, deviceImei, code)
  {
    if deviceImei !in c.devices || !c.devices[deviceImei].isEnabled {
      return Value(Refused);
    }
    if !Bound(c.relations, deviceImei, code) {
      return Value(Refused);
    }
    if code !in session.rows.storages || !session.rows.storages[code].isEnabled {
      return Value(Refused);
    }
    var storage := session.rows.storages[code];
    if storage.siteStatus == Outgoing || storage.siteStatus == Incoming {
      return Value(Refused);
    }
    var status := if storage.siteStatus == Empty then Goods else Empty;
    r := EditStorageStatus(session, ops, c, Some(deviceImei), code, status, c.devices[deviceImei].barely);
  }

  /** Creation is possible: nobody is at it, no unfinished task is at the site, and a counterpart is found. */
  predicate CanCreate(db: Rows, busy: bool, code: nat, act: CodeAct) {
    !busy && FindSiteTask(db, code) == {} && Choose(db, code, act).Some?
  }

  predicate Reaches(status: SiteStatus, wanted: SiteStatus) {
    status == wanted || status in {Outgoing, Incoming}
  }

  /**
   * A scan by an enabled, bound camera that does not raise brings the site to the toggled status, or a
   * task now moves goods out of it or into it, exactly if the camera is not numbered 0, or only reports
   * statuses, or a task can be created. Otherwise nothing changes at all.
   */
  lemma CameraScan(db: Rows, c: Context, busy: bool, deviceImei: string, code: nat)
    requires deviceImei in c.devices && c.devices[deviceImei].isEnabled && c.devices[deviceImei].isCamera
    requires Bound(c.relations, deviceImei, code) && Enabled(db, code)
    requires db.storages[code].siteStatus in {Empty, Goods}
    ensures var (d, r) := EditScan(db, c, busy, deviceImei, code);
            var wanted := Toggled(db.storages[code].siteStatus);
            var effective := deviceImei !in {"", "0"} || c.devices[deviceImei].barely
                             || CanCreate(db, busy, code, ActFor(wanted));
            && code in d.storages && r != Value(Refused)
            && (r == Raises ==> d == db)
            && (r.Value? ==> (Reaches(d.storages[code].siteStatus, wanted) <==> effective))
            && (r.Value? && !effective ==> d == db)
            && (r.Value? && effective && d.tasks == db.tasks ==> d.storages[code].siteStatus == wanted)
  {
    hide Choose;
    CreateTouches(db, code, ActFor(Toggled(db.storages[code].siteStatus)), c.autoId);
  }

  /** "0" announces an empty site and calls goods to it; any other status moves the goods of the site away. */
  lemma StatusMoves(db: Rows, c: Context, busy: bool, deviceImei: Option<string>, code: nat, status: SiteStatus,
                    barely: bool)
    returns (id: nat)
    ensures var (d, r) := EditStatus(db, c, busy, deviceImei, code, status, barely);
            d.tasks != db.tasks ==>
              && r == Value(Done) && id in d.tasks && id !in db.tasks && d.tasks.Keys == db.tasks.Keys + {id}
              && (status == Empty ==> d.tasks[id].endSite == Some(code))
              && (status != Empty ==> d.tasks[id].startSite == Some(code))
  {
    hide CreateResult, SetStatus, DescribesHaul, BoundByTemplate, Choose;
    id := 0;
    var act := if status == Empty then CallGoods else StoreGoods;
    CreateTouches(db, code, act, c.autoId);
    SetStatusKeepsTasks(db, code, status);
    if CreateResult(db, code, act, c.autoId).1 == Value(true) {
      id := CreatedRow(db, code, act, c.autoId);
      HaulEnds(db, CreateResult(db, code, act, c.autoId).0.tasks[id], code, act);
    }
  }

  lemma SetStatusKeepsTasks(db: Rows, code: nat, status: SiteStatus)
    ensures SetStatus(db, code, status).tasks == db.tasks
  {
  }

  lemma HaulEnds(db: Rows, t: UserTask, code: nat, act: CodeAct)
    requires DescribesHaul(db, t, code, act)
    ensures act == CallGoods ==> t.endSite == Some(code)
    ensures act == StoreGoods ==> t.startSite == Some(code)
  {
  }

  /** The device is named by a text other than "" and "0". */
  predicate Named(deviceImei: Option<string>) {
    deviceImei.Some? && deviceImei.value != "" && deviceImei.value != "0"
  }

  /** The answer, case by case, and what it leaves: only a bare or camera-forced write sets the announced status. */
  lemma StatusReply(db: Rows, c: Context, busy: bool, deviceImei: Option<string>, code: nat, status: SiteStatus,
                    barely: bool)
    ensures var (d, r) := EditStatus(db, c, busy, deviceImei, code, status, barely);
            var known := Named(deviceImei) && deviceImei.value in c.devices && c.devices[deviceImei.value].isEnabled;
            var accepted := code in db.storages && db.storages[code].isEnabled && (Named(deviceImei) ==> known);
            var bare := barely || (known && c.devices[deviceImei.value].barely);
            var can := CanCreate(db, busy, code, ActFor(status));
            && (r == Value(Refused) <==> !accepted)
            && (accepted && bare ==> r == Value(Done) && d == SetStatus(db, code, status))
            && (accepted && !bare && can ==>
                  r == Raises || (r == Value(Done) && d == CreateResult(db, code, ActFor(status), c.autoId).0))
            && (accepted && !bare && !can ==>
                  if known && c.devices[deviceImei.value].isCamera
                  then r == Value(Done) && d == SetStatus(db, code, status)
                  else r == Value(NoTask) && d == db)
            && (r == Value(Refused) || r == Raises ==> d == db)
  {
    hide Choose, NewTask, Reserve, SetStatus, FindSiteTask;
    CreateTouches(db, code, ActFor(status), c.autoId);
  }

  /** Refused are unknown, unbound and disabled devices, and sites that are unknown, disabled or in work. */
  lemma ScanReply(db: Rows, c: Context, busy: bool, deviceImei: string, code: nat)
    ensures var (d, r) := EditScan(db, c, busy, deviceImei, code);
            var accepted := deviceImei in c.devices && c.devices[deviceImei].isEnabled
                            && (exists i :: 0 <= i < |c.relations| && c.relations[i].deviceImei == deviceImei
                                            && c.relations[i].siteCode == code)
                            && code in db.storages && db.storages[code].isEnabled
                            && (db.storages[code].siteStatus == Empty || db.storages[code].siteStatus == Goods);
            && (r == Value(Refused) <==> !accepted)
            && (!accepted ==> d == db)
            && (accepted ==>
                  (d, r) == EditStatus(db, c, busy, Some(deviceImei), code,
                                       if db.storages[code].siteStatus == Empty then Goods else Empty,
                                       c.devices[deviceImei].barely))
  {
    hide CreateResult, SetStatus;
    if Bound(c.relations, deviceImei, code) {
      var r :| r in c.relations && r.deviceImei == deviceImei && r.siteCode == code;
      var i :| 0 <= i < |c.relations| && c.relations[i] == r;
    }
    if i :| 0 <= i < |c.relations| && c.relations[i].deviceImei == deviceImei && c.relations[i].siteCode == code {
      assert c.relations[i] in c.relations;
    }
  }

  /** A created task changes the announced site to "2" or "3" and adds one row. */
  lemma CreateTouches(db: Rows, code: nat, act: CodeAct, autoId: nat)
    ensures var (d, r) := CreateResult(db, code, act, autoId);
            && (r == Value(true) ==>
                 code in d.storages && d.storages[code].siteStatus in {Outgoing, Incoming} && d.tasks != db.tasks)
            && (r != Value(true) ==> d == db)
  {
    hide NewTask;
    var (d, r) := CreateResult(db, code, act, autoId);
    if r == Value(true) {
      var chosen := Choose(db, code, act).value;
      assert code in {chosen.start, chosen.end};
      var id := if DevicesOf(db.tempDevices, chosen.templateId) != [] then db.sequence + 1 else autoId;
      assert id in d.tasks && id !in db.tasks;
    }
  }
}
